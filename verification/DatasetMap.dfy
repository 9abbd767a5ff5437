// The growing hash map of the dataset generator, in place, against a finite map
// from keys to values.
module DatasetMap {
  import opened Options
  import opened DatasetTable

  /** Every key's value is in the written part of the buffer. */
  ghost predicate ValuesOk(places: map<Key, Place>, buffer: seq<int>, end: nat, contents: map<Key, seq<int>>) {
    && end <= |buffer| && places.Keys == contents.Keys
    && forall k | k in places ::
         && places[k].offset + places[k].size <= end
         && buffer[places[k].offset..places[k].offset + places[k].size] == contents[k]
  }

  /** No two values overlap. */
  ghost predicate Apart(places: map<Key, Place>) {
    forall j, k | j in places && k in places && j != k ::
      places[j].offset + places[j].size <= places[k].offset || places[k].offset + places[k].size <= places[j].offset
  }

  class HashMap {
    var index: array<Entry>
    var buffer: array<int>
    var currentOffset: nat
    var totalSize: nat
    var nentries: nat
    var nbuckets: nat
    ghost var places: map<Key, Place>
    ghost var contents: map<Key, seq<int>>

    ghost predicate TableOk()
      reads this, index
    {
      && index.Length == nbuckets > 0 && nbuckets % 2 == 0
      && |UsedSlots(index[..])| <= nentries && Stands(index[..], places)
    }

    ghost predicate BufferOk()
      reads this, buffer
    {
      && buffer.Length == totalSize > 0
      && ValuesOk(places, buffer[..], currentOffset, contents) && Apart(places)
    }

    /** The map is at most half full. */
    ghost predicate Valid()
      reads this, index, buffer
    {
      TableOk() && BufferOk() && 2 * nentries <= nbuckets && (index as object) != buffer
    }

    /** hashmap_init. */
    constructor ()
      ensures Valid() && contents == map[] && fresh(index) && fresh(buffer)
    {
      var t := new Entry[128](_ => Entry([], -1, 0));
      var b := new int[1024](_ => 0);
      index, buffer := t, b;
      currentOffset, totalSize, nentries, nbuckets := 0, 1024, 0, 128;
      places, contents := map[], map[];
      new;
      assert UsedSlots(index[..]) == {};
    }

    /** The probe of get: it ends at the key, at an empty slot, or when it has
        gone round. */
    method Find(key: Key) returns (r: Option<nat>)
      requires TableOk()
      ensures r.Some? <==> key in places
      ensures r.Some? ==> r.value < nbuckets && Used(index[r.value]) && index[r.value].key == key
    {
      hide UsedSlots, Stands;
      var hash := Hash(key, nbuckets);
      var idx := hash;
      ghost var d := 0;
      ghost var t := index[..];
      while true
        invariant d < nbuckets && idx == Slot(hash, d, nbuckets)
        invariant forall e | 0 <= e < d :: Used(t[Slot(hash, e, nbuckets)]) && t[Slot(hash, e, nbuckets)].key != key
        decreases nbuckets - d
      {
        var entry := index[idx];
        if Used(entry) && entry.key == key {
          IsThere(t, places, idx);
          return Some(idx);
        }
        NextSlot(hash, d, nbuckets);
        idx := (idx + 1) % nbuckets;
        if idx == hash || !Used(entry) {
          NotThere(t, places, key, if Used(entry) then nbuckets else d);
          return None;
        }
        d := d + 1;
      }
    }

    /** hashmap_get. */
    method Get(key: Key) returns (r: Option<seq<int>>)
      requires Valid() && IsKey(key)
      ensures r == if key in contents then Some(contents[key]) else None
    {
      hide UsedSlots, Stands, ValuesOk, Apart;
      ValueOf(places, buffer[..], currentOffset, contents, key);
      var i := Find(key);
      if i.None? {
        return None;
      }
      IsThere(index[..], places, i.value);
      var entry := index[i.value];
      r := Some(buffer[entry.valueOffset..entry.valueOffset + entry.size]);
    }
  
    /** hashmap_rehash: twice as many buckets once the map is half full. */
    method Rehash()
      requires Valid()
      modifies this`index, this`nbuckets
      ensures Valid()
      ensures if old(nentries * 2 < nbuckets) then index == old(index) && nbuckets == old(nbuckets)
              else fresh(index) && nbuckets == 2 * old(nbuckets)
    {
      hide UsedSlots, Stands, ValuesOk, Apart;
      if nentries * 2 < nbuckets {
        return;
      }
      var next := Rebuild();
      nbuckets := 2 * nbuckets;
      index := next;
    }

    method Rebuild() returns (next: array<Entry>)
      requires TableOk() && nentries <= nbuckets
      ensures fresh(next) && next.Length == 2 * nbuckets && Stands(next[..], places) &&
              |UsedSlots(next[..])| <= nentries
    {
      hide UsedSlots, Stands, Copied, Packed;
      var n := 2 * nbuckets;
      next := new Entry[n](_ => Entry([], -1, 0));
      ghost var part: map<Key, Place> := map[];
      ghost var t := index[..];
      EmptyTable(next[..], t);
      var i: nat := 0;
      while i < nbuckets
        invariant i <= nbuckets && Stands(next[..], part) && Copied(t, i, part) && index[..] == t
        invariant |UsedSlots(next[..])| <= |UsedSlots(t[..i])|
      {
        CountPrefix(t, i);
        if Used(index[i]) {
          PrefixSmaller(t, i);
          var hash := FirstEmpty(next, index[i].key);
          CopyKeeps(t, places, i, part, next[..], hash);
          ghost var was := next[..];
          next[hash] := Entry(index[i].key, index[i].valueOffset, index[i].size);
          assert next[..] == was[hash := t[i]];
          part := part[t[i].key := Place(t[i].valueOffset, t[i].size)];
        } else {
          CopySkips(t, i, part);
        }
        i := i + 1;
      }
      assert t[..nbuckets] == t;
      CopiedAll(t, places, part);
    }
  
    /** The buffer doubles until size more bytes fit, and keeps what is in it. */
    method GrowBuffer(size: nat)
      requires BufferOk()
      modifies this`buffer, this`totalSize
      ensures BufferOk() && currentOffset + size <= totalSize
      ensures buffer == old(buffer) || fresh(buffer)
      ensures buffer.Length >= old(buffer.Length)
      ensures totalSize == old(totalSize) || totalSize < 2 * (currentOffset + size)
    {
      while currentOffset + size > totalSize
        invariant BufferOk() && (buffer == old(buffer) || fresh(buffer)) && buffer.Length >= old(buffer.Length)
        invariant totalSize == old(totalSize) || totalSize < 2 * (currentOffset + size)
        decreases currentOffset + size - totalSize
      {
        hide ValuesOk, Apart;
        var bigger := new int[totalSize * 2](_ => 0);
        CopyBytes(bigger, buffer[..]);
        SameValues(places, buffer[..], bigger[..], currentOffset, contents);
        buffer := bigger;
        totalSize := totalSize * 2;
      }
    }

    method CopyValue(val: seq<int>)
      requires BufferOk() && currentOffset + |val| <= totalSize
      modifies buffer
      ensures |buffer[..]| == |old(buffer[..])| && buffer[..currentOffset] == old(buffer[..currentOffset])
      ensures buffer[currentOffset..currentOffset + |val|] == val
    {
      var i := 0;
      while i < |val|
        invariant 0 <= i <= |val|
        invariant buffer[..currentOffset] == old(buffer[..currentOffset])
        invariant buffer[currentOffset..currentOffset + i] == val[..i]
      {
        buffer[currentOffset + i] := val[i];
        assert buffer[currentOffset..currentOffset + i + 1] == buffer[currentOffset..currentOffset + i] + [val[i]];
        i := i + 1;
      }
      assert val[..|val|] == val;
    }

    /** The value goes to the end of the buffer and the entry to the slot where
        the probe for the key stops. */
    method Insert(key: Key, val: seq<int>)
      requires TableOk() && BufferOk() && 2 * (nentries + 1) <= nbuckets && currentOffset + |val| <= totalSize
      requires (index as object) != buffer
      modifies this`currentOffset, this`nentries, this`places, this`contents, index, buffer
      ensures Valid() && contents == old(contents)[key := val] && nentries == old(nentries) + 1
    {
      hide UsedSlots, Stands, ValuesOk, Apart, Stops;
      ghost var bytes := buffer[..];
      ghost var table := index[..];
      CopyValue(val);
      assert index[..] == table;
      PutValue(places, bytes, buffer[..], currentOffset, contents, key, val);
      var idx := StopFor(index, key);
      ghost var x := Entry(key, currentOffset, |val|);
      PutKeeps(index[..], places, idx, x);
      UsedAfterPut(index[..], idx, x);
      ghost var was := index[..];
      index[idx] := Entry(key, currentOffset, |val|);
      assert index[..] == was[idx := x];
      places := places[key := Place(currentOffset, |val|)];
      contents := contents[key := val];
      currentOffset := currentOffset + |val|;
      nentries := nentries + 1;
    }

    /** hashmap_put. */
    method Put(key: Key, val: seq<int>, override: bool)
      requires Valid() && IsKey(key)
      modifies this, index, buffer
      ensures Valid()
      ensures contents == if key in old(contents) && !override then old(contents) else old(contents)[key := val]
      ensures (index == old(index) || fresh(index)) && (buffer == old(buffer) || fresh(buffer))
    {
      hide UsedSlots, Stands, ValuesOk, Apart;
      var oldVal := Get(key);
      if oldVal.Some? && !override {
        return;
      }
      if (nentries + 1) * 2 > nbuckets {
        Rehash();
      }
      GrowBuffer(|val|);
      Insert(key, val);
    }
  }

  method CopyBytes(to: array<int>, from: seq<int>)
    requires |from| <= to.Length
    modifies to
    ensures to[..|from|] == from
  {
    var i := 0;
    while i < |from|
      invariant 0 <= i <= |from| && to[..i] == from[..i]
    {
      to[i] := from[i];
      i := i + 1;
    }
  }

  lemma SameValues(places: map<Key, Place>, b: seq<int>, b': seq<int>, end: nat, contents: map<Key, seq<int>>)
    requires ValuesOk(places, b, end, contents) && |b| <= |b'| && b'[..|b|] == b
    ensures ValuesOk(places, b', end, contents)
  {
    forall k | k in places ensures b'[places[k].offset..places[k].offset + places[k].size] == contents[k] {
      assert b'[..|b|][places[k].offset..places[k].offset + places[k].size] == contents[k];
    }
  }

  lemma ValueOf(places: map<Key, Place>, b: seq<int>, end: nat, contents: map<Key, seq<int>>, k: Key)
    requires ValuesOk(places, b, end, contents)
    ensures k in places <==> k in contents
    ensures k in places ==>
              && places[k].offset + places[k].size <= |b|
              && b[places[k].offset..places[k].offset + places[k].size] == contents[k]
  {
  }

  lemma SameSlice(b: seq<int>, b': seq<int>, end: nat, from: nat, to: nat)
    requires from <= to <= end <= |b| && end <= |b'| && b'[..end] == b[..end]
    ensures b'[from..to] == b[from..to]
  {
    assert b'[from..to] == b'[..end][from..to] && b[from..to] == b[..end][from..to];
  }

  /** A value behind all the others overlaps none and changes none. */
  lemma PutValue(places: map<Key, Place>, b: seq<int>, b': seq<int>, end: nat, contents: map<Key, seq<int>>,
    key: Key, val: seq<int>)
    requires ValuesOk(places, b, end, contents) && Apart(places) && |b'| == |b| && end + |val| <= |b|
    requires b'[..end] == b[..end] && b'[end..end + |val|] == val
    ensures ValuesOk(places[key := Place(end, |val|)], b', end + |val|, contents[key := val])
    ensures Apart(places[key := Place(end, |val|)])
  {
    hide ValuesOk, Apart;
    PutIntact(places, b, b', end, contents, key, val);
    PutApart(places, b, end, contents, key, |val|);
  }

  lemma PutIntact(places: map<Key, Place>, b: seq<int>, b': seq<int>, end: nat, contents: map<Key, seq<int>>,
    key: Key, val: seq<int>)
    requires ValuesOk(places, b, end, contents) && |b'| == |b| && end + |val| <= |b|
    requires b'[..end] == b[..end] && b'[end..end + |val|] == val
    ensures ValuesOk(places[key := Place(end, |val|)], b', end + |val|, contents[key := val])
  {
    var places', contents' := places[key := Place(end, |val|)], contents[key := val];
    forall k | k in places'
      ensures places'[k].offset + places'[k].size <= end + |val|
      ensures b'[places'[k].offset..places'[k].offset + places'[k].size] == contents'[k]
    {
      if k != key {
        SameSlice(b, b', end, places[k].offset, places[k].offset + places[k].size);
      }
    }
  }

  lemma PutApart(places: map<Key, Place>, b: seq<int>, end: nat, contents: map<Key, seq<int>>, key: Key, size: nat)
    requires ValuesOk(places, b, end, contents) && Apart(places)
    ensures Apart(places[key := Place(end, size)])
  {
  }

  /** The slot where the probe of put stops: the key's own, or the first empty one. */
  method StopFor(t: array<Entry>, key: Key) returns (idx: nat)
    requires |UsedSlots(t[..])| < t.Length
    ensures idx < t.Length && Stops(t[..], key, idx)
  {
    ghost var gap := SomeEmpty(t[..]);
    hide UsedSlots;
    var hash := Hash(key, t.Length);
    ghost var d, limit := 0, Distance(hash, gap, t.Length);
    idx := hash;
    while Used(t[idx]) && t[idx].key != key
      invariant d <= limit && idx == Slot(hash, d, t.Length) && Packed(t[..], hash, d)
      invariant forall e | 0 <= e < d :: t[Slot(hash, e, t.Length)].key != key
      decreases limit - d
    {
      NextSlot(hash, d, t.Length);
      idx := (idx + 1) % t.Length;
      d := d + 1;
    }
  }

  /** The first empty slot of a probe for the key. */
  method FirstEmpty(t: array<Entry>, key: Key) returns (idx: nat)
    requires |UsedSlots(t[..])| < t.Length
    ensures idx < t.Length && !Used(t[idx])
    ensures Packed(t[..], Hash(key, t.Length), Distance(Hash(key, t.Length), idx, t.Length))
  {
    ghost var gap := SomeEmpty(t[..]);
    var hash := Hash(key, t.Length);
    ghost var d, limit := 0, Distance(hash, gap, t.Length);
    idx := hash;
    while Used(t[idx])
      invariant d <= limit && idx == Slot(hash, d, t.Length) && Packed(t[..], hash, d)
      decreases limit - d
    {
      NextSlot(hash, d, t.Length);
      idx := (idx + 1) % t.Length;
      d := d + 1;
    }
  }

  ghost predicate HasKey(t: seq<Entry>, n: nat, k: Key)
    requires n <= |t|
  {
    exists j :: 0 <= j < n && Used(t[j]) && t[j].key == k
  }

  /** part is what the first n entries of the table say. */
  ghost predicate Copied(t: seq<Entry>, n: nat, part: map<Key, Place>)
    requires n <= |t|
  {
    && (forall j | 0 <= j < n && Used(t[j]) ::
          t[j].key in part && part[t[j].key] == Place(t[j].valueOffset, t[j].size))
    && (forall k | k in part :: HasKey(t, n, k))
  }

  lemma EmptyTable(t: seq<Entry>, u: seq<Entry>)
    requires |t| > 0 && forall i | 0 <= i < |t| :: !Used(t[i])
    ensures Stands(t, map[]) && |UsedSlots(t)| == 0 && Copied(u, 0, map[])
  {
    assert UsedSlots(t) == {};
  }

  lemma CountPrefix(t: seq<Entry>, i: nat)
    requires i < |t|
    ensures |UsedSlots(t[..i + 1])| == |UsedSlots(t[..i])| + if Used(t[i]) then 1 else 0
  {
    if Used(t[i]) {
      assert UsedSlots(t[..i + 1]) == UsedSlots(t[..i]) + {i};
    } else {
      assert UsedSlots(t[..i + 1]) == UsedSlots(t[..i]);
    }
  }

  lemma PrefixSmaller(t: seq<Entry>, i: nat)
    requires i <= |t|
    ensures |UsedSlots(t[..i])| <= i
  {
    if i > 0 {
      assert t[..i][..i - 1] == t[..i - 1];
      PrefixSmaller(t, i - 1);
      CountPrefix(t, i - 1);
    }
  }

  lemma CopyKeeps(t: seq<Entry>, places: map<Key, Place>, i: nat, part: map<Key, Place>, next: seq<Entry>, hash: nat)
    requires Stands(t, places) && i < |t| && Used(t[i]) && Copied(t, i, part) && Stands(next, part)
    requires hash < |next| && !Used(next[hash])
    requires Packed(next, Hash(t[i].key, |next|), Distance(Hash(t[i].key, |next|), hash, |next|))
    ensures Stands(next[hash := t[i]], part[t[i].key := Place(t[i].valueOffset, t[i].size)])
    ensures Copied(t, i + 1, part[t[i].key := Place(t[i].valueOffset, t[i].size)])
    ensures |UsedSlots(next[hash := t[i]])| == |UsedSlots(next)| + 1
  {
    hide Stands, Packed, UsedSlots, Copied, Hash;
    CopiedOn(t, places, i, part);
    StopsAtEmpty(next, part, t[i].key, hash);
    hide Stops;
    PutKeeps(next, part, hash, t[i]);
    UsedAfterPut(next, hash, t[i]);
  }

  lemma CopiedOn(t: seq<Entry>, places: map<Key, Place>, i: nat, part: map<Key, Place>)
    requires Stands(t, places) && i < |t| && Used(t[i]) && Copied(t, i, part)
    ensures t[i].key !in part
    ensures Copied(t, i + 1, part[t[i].key := Place(t[i].valueOffset, t[i].size)])
  {
    hide Stands;
    NotBefore(t, places, i);
    var part' := part[t[i].key := Place(t[i].valueOffset, t[i].size)];
    forall k | k in part' ensures HasKey(t, i + 1, k) {
      assert k in part ==> HasKey(t, i, k);
    }
  }

  lemma NotBefore(t: seq<Entry>, places: map<Key, Place>, i: nat)
    requires Stands(t, places) && i < |t| && Used(t[i])
    ensures !HasKey(t, i, t[i].key)
  {
  }

  lemma StopsAtEmpty(t: seq<Entry>, places: map<Key, Place>, k: Key, i: nat)
    requires Stands(t, places) && k !in places && i < |t| && !Used(t[i])
    requires Packed(t, Hash(k, |t|), Distance(Hash(k, |t|), i, |t|))
    ensures Stops(t, k, i)
  {
  }

  lemma CopySkips(t: seq<Entry>, i: nat, part: map<Key, Place>)
    requires i < |t| && !Used(t[i]) && Copied(t, i, part)
    ensures Copied(t, i + 1, part)
  {
  }

  lemma CopiedAll(t: seq<Entry>, places: map<Key, Place>, part: map<Key, Place>)
    requires Stands(t, places) && Copied(t, |t|, part)
    ensures part == places
  {
    forall k | k in places ensures k in part && part[k] == places[k] {
      var i :| Holds(t, k, i);
    }
  }

  lemma IsThere(t: seq<Entry>, places: map<Key, Place>, i: nat)
    requires Stands(t, places) && i < |t| && Used(t[i])
    ensures t[i].key in places && places[t[i].key] == Place(t[i].valueOffset, t[i].size)
  {
  }
}
