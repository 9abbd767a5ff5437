// A hash table of chained buckets that stands for a map from keys to items:
// each item is in the chain of its key's bucket, and no key is there twice.
module Chains {

  ghost predicate ChainOk<T>(chain: seq<T>, items: map<int, T>, key: T -> int, size: nat, b: nat)
    requires size > 0
  {
    && (forall i | 0 <= i < |chain| ::
          key(chain[i]) in items && key(chain[i]) % size == b && items[key(chain[i])] == chain[i])
    && (forall i, j | 0 <= i < j < |chain| :: key(chain[i]) != key(chain[j]))
  }

  /** The chains hold exactly the items of the map, each in its own bucket. */
  ghost predicate ChainsOk<T>(chains: seq<seq<T>>, items: map<int, T>, key: T -> int)
    requires |chains| > 0
  {
    && (forall b | 0 <= b < |chains| :: ChainOk(chains[b], items, key, |chains|, b))
    && (forall p | p in items :: p >= 0 && key(items[p]) == p && items[p] in chains[p % |chains|])
  }

  /** A new item goes to the end of its chain. */
  lemma ChainsAdd<T>(chains: seq<seq<T>>, items: map<int, T>, key: T -> int, x: T)
    requires |chains| > 0 && ChainsOk(chains, items, key) && key(x) >= 0 && key(x) !in items
    ensures var b := key(x) % |chains|; ChainsOk(chains[b := chains[b] + [x]], items[key(x) := x], key)
  {
    var n := |chains|;
    var b := key(x) % n;
    var next := chains[b := chains[b] + [x]];
    assert next[b][|chains[b]|] == x;
    forall d | 0 <= d < n ensures ChainOk(next[d], items[key(x) := x], key, n, d) {
      assert ChainOk(chains[d], items, key, n, d);
    }
  }

  /** Unlinking item k of its chain. */
  lemma ChainsRemove<T>(chains: seq<seq<T>>, items: map<int, T>, key: T -> int, p: int, k: nat)
    requires |chains| > 0 && ChainsOk(chains, items, key) && p in items
    requires var b := p % |chains|; k < |chains[b]| && key(chains[b][k]) == p
    ensures var b := p % |chains|; ChainsOk(chains[b := chains[b][..k] + chains[b][k + 1..]], items - {p}, key)
  {
    var n := |chains|;
    var b := p % n;
    var next := chains[b := chains[b][..k] + chains[b][k + 1..]];
    forall d | 0 <= d < n ensures ChainOk(next[d], items - {p}, key, n, d) {
      assert ChainOk(chains[d], items, key, n, d) && ChainOk(chains[b], items, key, n, b);
    }
    forall q | q in items - {p} ensures items[q] in next[q % n] {
      if q % n == b {
        CutKeeps(chains[b], k, items[q]);
      }
    }
  }

  lemma CutKeeps<T>(chain: seq<T>, k: nat, x: T)
    requires k < |chain| && x in chain && x != chain[k]
    ensures x in chain[..k] + chain[k + 1..]
  {
    var cut := chain[..k] + chain[k + 1..];
    var i :| 0 <= i < |chain| && chain[i] == x;
    assert i < k ==> cut[i] == x;
    assert i > k ==> cut[i - 1] == x;
  }

  /** A walk along one chain finds the item of a key, or that there is none. */
  lemma ChainFinds<T>(chains: seq<seq<T>>, items: map<int, T>, key: T -> int, p: nat)
    requires |chains| > 0 && ChainsOk(chains, items, key)
    ensures var chain := chains[p % |chains|];
            && (forall i | 0 <= i < |chain| && key(chain[i]) == p :: p in items && chain[i] == items[p])
            && (p in items ==> exists i :: 0 <= i < |chain| && key(chain[i]) == p)
  {
    assert ChainOk(chains[p % |chains|], items, key, |chains|, p % |chains|);
  }
}
