// Linear probing in a table of entries: what the table stands for, and what
// putting an entry at the place where a probe ends does to it.
module DatasetTable {

  type Key = seq<int>

  /** struct hashmap_entry_t; an entry with a negative value offset is empty. */
  datatype Entry = Entry(key: Key, valueOffset: int, size: nat)

  predicate Used(e: Entry) { e.valueOffset >= 0 }

  /** A C string of at most 39 characters. */
  predicate IsKey(k: Key) { |k| < 40 && forall i | 0 <= i < |k| :: 0 < k[i] < 256 }

  /** The hash of a string as a 64-bit unsigned integer. */
  function Djb2(str: Key, hash: nat): nat
    decreases |str|
  {
    if str == [] then hash else Djb2(str[1..], (hash * 33 + str[0]) % 0x1_0000_0000_0000_0000)
  }

  /** Each further character multiplies the hash by 33 and is added, modulo 2^64. */
  lemma {:induction false} HashAppends(str: Key, c: int, hash: nat)
    ensures Djb2(str + [c], hash) == (Djb2(str, hash) * 33 + c) % 0x1_0000_0000_0000_0000
    decreases |str|
  {
    if str == [] {
      assert str + [c] == [c] && [c][1..] == [];
    } else {
      assert (str + [c])[0] == str[0] && (str + [c])[1..] == str[1..] + [c];
      HashAppends(str[1..], c, (hash * 33 + str[0]) % 0x1_0000_0000_0000_0000);
    }
  }

  function Hash(k: Key, n: nat): (h: nat)
    requires n > 0
    ensures h < n
  {
    Djb2(k, 5381) % n
  }

  /** The d-th slot that a probe from h looks at. */
  function Slot(h: nat, d: nat, n: nat): (i: nat)
    requires h < n && d < n
    ensures i < n
  {
    if h + d < n then h + d else h + d - n
  }

  /** How far along the probe from h slot i is. */
  function Distance(h: nat, i: nat, n: nat): (d: nat)
    requires h < n && i < n
    ensures d < n && Slot(h, d, n) == i
    ensures forall e | 0 <= e < n && Slot(h, e, n) == i :: e == d
  {
    if i >= h then i - h else i + n - h
  }

  /** The first d slots that a probe from h looks at are used. */
  ghost predicate Packed(t: seq<Entry>, h: nat, d: nat)
    requires h < |t| && d <= |t|
  {
    forall e | 0 <= e < d :: Used(t[Slot(h, e, |t|)])
  }

  /** Where the value of a key is in the buffer. */
  datatype Place = Place(offset: nat, size: nat)

  /** Slot i holds key k, and a probe for k gets there. */
  ghost predicate Holds(t: seq<Entry>, k: Key, i: nat)
    requires |t| > 0
  {
    && i < |t| && Used(t[i]) && t[i].key == k
    && Packed(t, Hash(k, |t|), Distance(Hash(k, |t|), i, |t|))
  }

  /** The table stands for the map places. */
  ghost predicate Stands(t: seq<Entry>, places: map<Key, Place>) {
    && |t| > 0
    && (forall i | 0 <= i < |t| && Used(t[i]) ::
          t[i].key in places && places[t[i].key] == Place(t[i].valueOffset, t[i].size))
    && (forall i, j | 0 <= i < j < |t| && Used(t[i]) && Used(t[j]) :: t[i].key != t[j].key)
    && (forall k | k in places :: exists i :: Holds(t, k, i))
  }

  /** A probe that has seen d used slots without the key, and stands at an empty
      one or has gone round, shows that the key is not there. */
  lemma NotThere(t: seq<Entry>, places: map<Key, Place>, k: Key, d: nat)
    requires Stands(t, places) && d <= |t|
    requires forall e | 0 <= e < d :: t[Slot(Hash(k, |t|), e, |t|)].key != k || !Used(t[Slot(Hash(k, |t|), e, |t|)])
    requires d == |t| || !Used(t[Slot(Hash(k, |t|), d, |t|)])
    ensures k !in places
  {
    var h := Hash(k, |t|);
    forall i | 0 <= i < |t| ensures !Holds(t, k, i) {
      var e := Distance(h, i, |t|);
      assert e < d ==> t[Slot(h, e, |t|)].key != k || !Used(t[Slot(h, e, |t|)]);
      assert d <= e && d < |t| ==> !Used(t[Slot(h, d, |t|)]);
    }
  }

  /** Slot i is where a probe for k stops: it is empty or holds k, and all slots
      before it are used by other keys. */
  ghost predicate Stops(t: seq<Entry>, k: Key, i: nat)
    requires |t| > 0
  {
    && i < |t| && (Used(t[i]) ==> t[i].key == k)
    && var h := Hash(k, |t|);
       var d := Distance(h, i, |t|);
       Packed(t, h, d) && forall e | 0 <= e < d :: t[Slot(h, e, |t|)].key != k
  }

  lemma PutKeeps(t: seq<Entry>, places: map<Key, Place>, i: nat, x: Entry)
    requires Stands(t, places) && Stops(t, x.key, i) && Used(x)
    ensures Stands(t[i := x], places[x.key := Place(x.valueOffset, x.size)])
  {
    var t', places' := t[i := x], places[x.key := Place(x.valueOffset, x.size)];
    var h := Hash(x.key, |t|);
    if !Used(t[i]) {
      NotThere(t, places, x.key, Distance(h, i, |t|));
    }
    forall k | k in places' ensures exists j :: Holds(t', k, j) {
      if k == x.key {
        assert Holds(t', k, i);
      } else {
        var j :| Holds(t, k, j);
        assert j != i;
        assert Holds(t', k, j);
      }
    }
  }

  // ---- counting used slots ----

  ghost function UsedSlots(t: seq<Entry>): set<nat> { set i: nat | i < |t| && Used(t[i]) }

  ghost function Upto(n: nat): (r: set<nat>)
    ensures |r| == n && forall i: nat :: i in r <==> i < n
  {
    if n == 0 then {} else Upto(n - 1) + {n - 1}
  }

  /** A table with fewer used slots than slots has an empty one. */
  lemma SomeEmpty(t: seq<Entry>) returns (i: nat)
    requires |UsedSlots(t)| < |t|
    ensures i < |t| && !Used(t[i])
  {
    var rest := Upto(|t|) - UsedSlots(t);
    assert UsedSlots(t) <= Upto(|t|) && UsedSlots(t) + rest == Upto(|t|);
    i :| i in rest;
  }

  lemma UsedAfterPut(t: seq<Entry>, i: nat, x: Entry)
    requires i < |t| && Used(x)
    ensures |UsedSlots(t[i := x])| <= |UsedSlots(t)| + 1
    ensures !Used(t[i]) ==> |UsedSlots(t[i := x])| == |UsedSlots(t)| + 1
  {
    assert UsedSlots(t[i := x]) == UsedSlots(t) + {i};
  }

  /** put's load test for one more entry, and rehash's own test, give the same answer. */
  predicate TestsAgree(nentries: nat, nbuckets: nat) {
    (nentries + 1) * 2 > nbuckets <==> !(nentries * 2 < nbuckets)
  }

  /** They agree for every number of entries exactly when the number of buckets is even. */
  lemma LoadTestsAgree(nbuckets: nat)
    ensures (forall n: nat :: TestsAgree(n, nbuckets)) <==> nbuckets % 2 == 0
  {
    if nbuckets % 2 == 1 {
      assert !TestsAgree(nbuckets / 2, nbuckets);
    }
  }

  lemma NextSlot(h: nat, d: nat, n: nat)
    requires h < n && d < n
    ensures (Slot(h, d, n) + 1) % n == if d + 1 < n then Slot(h, d + 1, n) else h
  {
    var i := Slot(h, d, n);
    if i + 1 < n {
      assert (i + 1) % n == i + 1;
    } else {
      assert (i + 1) % n == 0;
    }
  }
}
