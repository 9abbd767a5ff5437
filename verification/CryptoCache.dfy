// The map from a page to the nonce and tag of its stored text: chained buckets
// of items that callers write through the pointers they are given.
module CryptoCacheModel {
  import opened Chains

  class CryptoItem {
    const page: int
    var nonce: int
    var tag: int

    constructor (p: int)
      ensures page == p && nonce == 0 && tag == 0
    {
      page, nonce, tag := p, 0, 0;
    }
  }

  function CryptoPage(x: CryptoItem): int { x.page }

  class CryptoCache {
    const buckets: array<seq<CryptoItem>>
    ghost var items: map<int, CryptoItem>

    ghost predicate Valid()
      reads this, buckets
    {
      buckets.Length > 0 && ChainsOk(buckets[..], items, CryptoPage)
    }

    constructor (numOfBuckets: nat)
      requires numOfBuckets > 0
      ensures Valid() && fresh(buckets) && items == map[]
    {
      var b := new seq<CryptoItem>[numOfBuckets](_ => []);
      buckets, items := b, map[];
    }

    /** The item of page p, or null. */
    method Get(p: nat) returns (r: CryptoItem?)
      requires Valid()
      ensures if p in items then r == items[p] else r == null
    {
      var chain := buckets[p % buckets.Length];
      ChainFinds(buckets[..], items, CryptoPage, p);
      hide ChainsOk;
      var i := 0;
      while i < |chain|
        invariant 0 <= i <= |chain|
        invariant forall j | 0 <= j < i :: chain[j].page != p
      {
        if chain[i].page == p {
          return chain[i];
        }
        i := i + 1;
      }
      return null;
    }

    /** The item of page p, put at the end of its chain when there is none yet. */
    method Add(p: nat) returns (r: CryptoItem)
      requires Valid()
      modifies this, buckets
      ensures Valid() && r.page == p && items == old(items)[p := r]
      ensures p in old(items) ==> r == old(items)[p] && r.nonce == old(r.nonce) && r.tag == old(r.tag)
      ensures p !in old(items) ==> fresh(r)
    {
      var found := Get(p);
      if found != null {
        assert items[p].page == p;
        assert items[p := found] == items;
        return found;
      }
      hide ChainsOk;
      var b := p % buckets.Length;
      r := new CryptoItem(p);
      ChainsAdd(buckets[..], items, CryptoPage, r);
      ghost var was := buckets[..];
      buckets[b] := buckets[b] + [r];
      assert buckets[..] == was[b := was[b] + [r]];
      items := items[p := r];
    }
  }
}
