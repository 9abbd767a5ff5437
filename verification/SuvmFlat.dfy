// The flat byte memory that the software virtual memory stands for.
module SuvmFlat {
  import opened Options
  import opened SuvmMachine
  import opened SuvmSafety
  import opened SuvmAlone

  /** The byte last written at a logical address, if any. */
  ghost function Byte(c: Config, mem: map<(int, int), int>, addr: int): Option<int>
    requires c.pageSize > 0
  {
    At(mem, (addr / c.pageSize, addr % c.pageSize))
  }

  /** The bytes agree with what has been written from the address on. */
  ghost predicate Reads(c: Config, mem: map<(int, int), int>, addr: int, bytes: seq<int>)
    requires c.pageSize > 0
  {
    forall i | 0 <= i < |bytes| :: Byte(c, mem, addr + i).Some? ==> Byte(c, mem, addr + i) == Some(bytes[i])
  }

  /** Every address of the range has been written. */
  ghost predicate AllWritten(c: Config, mem: map<(int, int), int>, addr: int, n: nat)
    requires c.pageSize > 0
  {
    forall x | addr <= x < addr + n :: Byte(c, mem, x).Some?
  }

  /** mem' is mem with the bytes written from the address on, and nothing else changed. */
  ghost predicate Wrote(c: Config, mem: map<(int, int), int>, mem': map<(int, int), int>, addr: int, bytes: seq<int>)
    requires c.pageSize > 0
  {
    forall x {:trigger Byte(c, mem', x)} ::
      Byte(c, mem', x) == if addr <= x < addr + |bytes| then Some(bytes[x - addr]) else Byte(c, mem, x)
  }

  lemma WroteNothing(c: Config, mem: map<(int, int), int>, addr: int)
    requires c.pageSize > 0
    ensures Wrote(c, mem, mem, addr, [])
  {
  }

  lemma WroteOn(c: Config, mem: map<(int, int), int>, mem1: map<(int, int), int>, mem2: map<(int, int), int>,
                addr: int, xs: seq<int>, ys: seq<int>)
    requires c.pageSize > 0 && Wrote(c, mem, mem1, addr, xs) && Wrote(c, mem1, mem2, addr + |xs|, ys)
    ensures Wrote(c, mem, mem2, addr, xs + ys)
  {
    forall x ensures Byte(c, mem2, x) == if addr <= x < addr + |xs + ys| then Some((xs + ys)[x - addr])
             else Byte(c, mem, x)
    {
      assert Byte(c, mem1, x) == if addr <= x < addr + |xs| then Some(xs[x - addr]) else Byte(c, mem, x);
    }
  }

  lemma ReadsOn(c: Config, mem: map<(int, int), int>, addr: int, xs: seq<int>, ys: seq<int>)
    requires c.pageSize > 0 && Reads(c, mem, addr, xs) && Reads(c, mem, addr + |xs|, ys)
    ensures Reads(c, mem, addr, xs + ys)
  {
    forall i | 0 <= i < |xs + ys| && Byte(c, mem, addr + i).Some? ensures Byte(c, mem, addr + i) == Some((xs + ys)[i]) {
      if i >= |xs| {
        assert addr + i == addr + |xs| + (i - |xs|);
      }
    }
  }

  /** An offset in its page is where its address is split. */
  lemma SplitsAt(c: Config, p: int, off: int)
    requires c.pageSize > 0 && InPage(c, off)
    ensures (p * c.pageSize + off) / c.pageSize == p && (p * c.pageSize + off) % c.pageSize == off
  {
    var x := p * c.pageSize + off;
    assert x == (x / c.pageSize) * c.pageSize + x % c.pageSize;
    SplitAddress(c.pageSize, x / c.pageSize, x % c.pageSize, p, off);
  }

  /** Bytes written one after another at a linked Aptr's page, from offset off. */
  ghost function StoredRun(c: Config, s: State, a: nat, off: int, bytes: seq<int>): (r: State)
    requires a in s.aptrs && s.aptrs[a].link.Some? && s.aptrs[a].link.value in s.frames
    requires 0 <= off && off + |bytes| <= |s.frames[s.aptrs[a].link.value].text|
    ensures r == s.(frames := r.frames, mem := r.mem) && s.aptrs[a].link.value in r.frames
    ensures |r.frames[s.aptrs[a].link.value].text| == |s.frames[s.aptrs[a].link.value].text|
    decreases |bytes|
  {
    if bytes == [] then s
    else
      var n := |bytes| - 1;
      Stored(StoredRun(c, s, a, off, bytes[..n]), a, off + n, bytes[n])
  }

  lemma Overlay(t: seq<int>, off: nat, bytes: seq<int>)
    requires |bytes| > 0 && off + |bytes| <= |t|
    ensures var n := |bytes| - 1;
            (t[..off] + bytes[..n] + t[off + n..])[off + n := bytes[n]] == t[..off] + bytes + t[off + |bytes|..]
  {
  }

  lemma {:induction false} StoredRunText(c: Config, s: State, a: nat, off: nat, bytes: seq<int>)
    requires a in s.aptrs && s.aptrs[a].link.Some? && s.aptrs[a].link.value in s.frames
    requires off + |bytes| <= |s.frames[s.aptrs[a].link.value].text|
    ensures var f := s.aptrs[a].link.value;
            var x := s.frames[f];
            StoredRun(c, s, a, off, bytes).frames
              == s.frames[f := x.(text := x.text[..off] + bytes + x.text[off + |bytes|..])]
    decreases |bytes|
  {
    var f := s.aptrs[a].link.value;
    var x := s.frames[f];
    if bytes == [] {
      assert x.text[..off] + [] + x.text[off..] == x.text;
      assert s.frames[f := x] == s.frames;
    } else {
      StoredRunText(c, s, a, off, bytes[..|bytes| - 1]);
      Overlay(x.text, off, bytes);
    }
  }

  lemma {:induction false} StoredRunWrote(c: Config, s: State, a: nat, off: nat, bytes: seq<int>)
    requires c.pageSize > 0
    requires a in s.aptrs && s.aptrs[a].link.Some? && s.aptrs[a].link.value in s.frames
    requires off + |bytes| <= |s.frames[s.aptrs[a].link.value].text| <= c.pageSize
    ensures Wrote(c, s.mem, StoredRun(c, s, a, off, bytes).mem, PageOf(s.aptrs[a]) * c.pageSize + off, bytes)
    decreases |bytes|
  {
    hide Wrote;
    var addr := PageOf(s.aptrs[a]) * c.pageSize + off;
    if bytes == [] {
      WroteNothing(c, s.mem, addr);
    } else {
      var n := |bytes| - 1;
      var r1 := StoredRun(c, s, a, off, bytes[..n]);
      StoredRunWrote(c, s, a, off, bytes[..n]);
      StoredWrote(c, r1, a, off + n, bytes[n]);
      assert bytes == bytes[..n] + [bytes[n]];
      WroteOn(c, s.mem, r1.mem, StoredRun(c, s, a, off, bytes).mem, addr, bytes[..n], [bytes[n]]);
    }
  }

  lemma StoredWrote(c: Config, s: State, a: nat, off: int, v: int)
    requires c.pageSize > 0 && InPage(c, off)
    requires a in s.aptrs && s.aptrs[a].link.Some? && s.aptrs[a].link.value in s.frames
    requires off < |s.frames[s.aptrs[a].link.value].text|
    ensures Wrote(c, s.mem, Stored(s, a, off, v).mem, PageOf(s.aptrs[a]) * c.pageSize + off, [v])
  {
    var p := PageOf(s.aptrs[a]);
    var addr, mem' := p * c.pageSize + off, Stored(s, a, off, v).mem;
    forall x ensures Byte(c, mem', x) == if addr <= x < addr + 1 then Some([v][x - addr]) else Byte(c, s.mem, x) {
      OneSplit(c, x, p, off);
    }
  }

  lemma OneSplit(c: Config, x: int, p: int, off: int)
    requires c.pageSize > 0 && InPage(c, off)
    ensures x == p * c.pageSize + off <==> x / c.pageSize == p && x % c.pageSize == off
  {
    assert x == (x / c.pageSize) * c.pageSize + x % c.pageSize;
    SplitAddress(c.pageSize, x / c.pageSize, x % c.pageSize, p, off);
  }

  lemma {:induction false} RunPlan(c: Config, s: State, t: nat, a: nat, off: int, bytes: seq<int>)
    requires Fit(c) && Inv(c, s) && AllIdle(s) && Owned(s, t, a) && s.aptrs[a].wr && 0 <= off &&
             off + |bytes| <= c.pageSize
    ensures s.aptrs[a].link.Some? && s.aptrs[a].link.value in s.frames
    ensures |s.frames[s.aptrs[a].link.value].text| == c.pageSize
    ensures Inv(c, StoredRun(c, s, a, off, bytes)) && Reaches(c, s, StoredRun(c, s, a, off, bytes))
    decreases |bytes|
  {
    hide Inv, Reaches;
    WritableIn(c, s, a);
    if bytes == [] {
      ReachesNothing(c, s);
    } else {
      var n := |bytes| - 1;
      RunPlan(c, s, t, a, off, bytes[..n]);
      var s1 := StoredRun(c, s, a, off, bytes[..n]);
      WritePlan(c, s1, t, a, off + n, bytes[n]);
      ReachesOn(c, s, s1, StoredRun(c, s, a, off, bytes));
    }
  }

  lemma WritableIn(c: Config, s: State, a: nat)
    requires Fit(c) && Inv(c, s) && a in s.aptrs && s.aptrs[a].wr
    ensures s.aptrs[a].link.Some? && s.aptrs[a].link.value in s.frames
    ensures |s.frames[s.aptrs[a].link.value].text| == c.pageSize
  {
    assert AptrOk(c, s, a);
  }

  /** A linked Aptr's frame holds what the flat memory has from any offset of its page. */
  lemma ReadPlan(c: Config, s: State, t: nat, a: nat, off: nat, n: nat)
    requires Fit(c) && Inv(c, s) && AllIdle(s) && Owned(s, t, a) && s.aptrs[a].link.Some? && off + n <= c.pageSize
    ensures s.aptrs[a].link.value in s.frames && s.aptrs[a].link.value < c.cap
    ensures |s.frames[s.aptrs[a].link.value].text| == c.pageSize
    ensures Reads(c, s.mem, PageOf(s.aptrs[a]) * c.pageSize + off, s.frames[s.aptrs[a].link.value].text[off..off + n])
  {
    hide Contents, LocksOk, PlacesOk, FramesOk, CountsOk;
    var p, f := PageOf(s.aptrs[a]), s.aptrs[a].link.value;
    LinkedIsCached(c, s, a);
    FrameInRange(c, s, f);
    FrameSize(c, s, f);
    var bytes := s.frames[f].text[off..off + n];
    var addr := p * c.pageSize + off;
    forall i | 0 <= i < n && Byte(c, s.mem, addr + i).Some? ensures Byte(c, s.mem, addr + i) == Some(bytes[i]) {
      SplitsAt(c, p, off + i);
      assert addr + i == p * c.pageSize + (off + i);
      ReadsMemory(c, s, p, off + i);
    }
  }

  lemma FrameSize(c: Config, s: State, f: nat)
    requires Contents(c, s) && f in s.frames
    ensures |s.frames[f].text| == c.pageSize
  {
  }
}
