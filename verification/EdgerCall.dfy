// A call through the emitted proxy and bridge, as a whole: that it means what a
// direct call would, and what happens where it is not made.
module EdgerCall {
  import opened Options
  import opened EdgerProxy
  import Bridge = EdgerBridge

  // ---- copying back ----

  predicate Returns(e: Env, i: nat)
    requires i < |e.ps| == |e.args|
  {
    e.ps[i].Buffer? && (e.ps[i].attr.dir.Out? || e.ps[i].attr.dir.InOut?) && e.args[i] != 0
  }

  /** x is in a buffer, from number i on, that is copied back. */
  ghost predicate InOut(e: Env, lens: seq<nat>, i: nat, x: int)
    requires |e.ps| == |e.args| == |lens|
  {
    exists j :: i <= j < |e.ps| && Returns(e, j) && e.args[j] <= x < e.args[j] + lens[j]
  }

  /** The buffers that are copied back are in the enclave, and their copies outside. */
  ghost predicate Separate(e: Env, s: State)
    requires Fit(e, s)
  {
    forall j | 0 <= j < |e.ps| && Returns(e, j) ::
      && Inside(e, e.args[j], s.lens[j])
      && (s.lens[j] > 0 ==> s.fields[j] + s.lens[j] <= e.low || e.high <= s.fields[j])
  }

  ghost predicate BroughtBack(e: Env, i: nat, s: State, r: State)
    requires Fit(e, s) && Fit(e, r) && i <= |e.ps|
  {
    && r == s.(mem := r.mem)
    && (forall x | !InOut(e, s.lens, i, x) :: r.mem(x) == s.mem(x))
    && (forall j | i <= j < |e.ps| && Returns(e, j) :: BackAt(e, s, r, j))
  }

  /** Where no later buffer overlaps it, buffer j holds in r what its copy outside
      holds in s. */
  ghost predicate BackAt(e: Env, s: State, r: State, j: nat)
    requires Fit(e, s) && Fit(e, r) && j < |e.ps|
  {
    forall x | e.args[j] <= x < e.args[j] + s.lens[j] && !InOut(e, s.lens, j + 1, x) ::
      r.mem(x) == s.mem(x - e.args[j] + s.fields[j])
  }

  lemma {:induction false} BacksPhase(e: Env, s: State, i: nat)
    requires Fit(e, s) && i <= |e.ps| && s.status == Running && Separate(e, s)
    ensures BroughtBack(e, i, s, Run(e, s, Each(e.ps, i, Backs)))
    decreases |e.ps| - i
  {
    hide Run, Each, Eval, InOut, Copy, BackAt;
    if i == |e.ps| {
      EachEnds(e, s, Backs);
    } else {
      EachStep(e, s, i, Backs);
      var s1 := if TakesBack(e.ps[i]) then Exec(e, s, CopyBack(i)) else s;
      BacksPhase(e, s1, i + 1);
      BroughtOn(e, i, s, s1, Run(e, s1, Each(e.ps, i + 1, Backs)));
    }
  }

  lemma BroughtOn(e: Env, i: nat, s: State, s1: State, r: State)
    requires Fit(e, s) && Fit(e, s1) && Fit(e, r) && i < |e.ps| && BroughtBack(e, i + 1, s1, r)
    requires Separate(e, s)
    requires s1 == if Returns(e, i) then s.(mem := Copy(s.mem, e.args[i], s.fields[i], s.lens[i])) else s
    ensures BroughtBack(e, i, s, r)
  {
    hide Copy, BackAt, Separate;
    forall x | !InOut(e, s.lens, i, x) ensures r.mem(x) == s.mem(x) {
      assert !InOut(e, s.lens, i + 1, x);
      assert Returns(e, i) ==> !(e.args[i] <= x < e.args[i] + s.lens[i]);
      CopyAt(s.mem, e.args[i], s.fields[i], s.lens[i], x);
    }
    forall j | i <= j < |e.ps| && Returns(e, j) ensures BackAt(e, s, r, j) {
      if j == i {
        BackFirst(e, i, s, s1, r);
      } else {
        assert BackAt(e, s1, r, j);
        BackLater(e, i, s, s1, r, j);
      }
    }
  }

  lemma BackFirst(e: Env, i: nat, s: State, s1: State, r: State)
    requires Fit(e, s) && Fit(e, s1) && Fit(e, r) && i < |e.ps| && BroughtBack(e, i + 1, s1, r)
    requires Returns(e, i)
    requires s1 == s.(mem := Copy(s.mem, e.args[i], s.fields[i], s.lens[i]))
    ensures BackAt(e, s, r, i)
  {
    hide Copy, InOut;
    forall x | e.args[i] <= x < e.args[i] + s.lens[i] && !InOut(e, s.lens, i + 1, x)
      ensures r.mem(x) == s.mem(x - e.args[i] + s.fields[i])
    {
      CopyAt(s.mem, e.args[i], s.fields[i], s.lens[i], x);
    }
  }

  lemma BackLater(e: Env, i: nat, s: State, s1: State, r: State, j: nat)
    requires Fit(e, s) && Fit(e, s1) && Fit(e, r) && i < j < |e.ps| && BackAt(e, s1, r, j) && Separate(e, s)
    requires Returns(e, j)
    requires s1 == if Returns(e, i) then s.(mem := Copy(s.mem, e.args[i], s.fields[i], s.lens[i])) else s
    ensures BackAt(e, s, r, j)
  {
    hide Copy;
    forall x | e.args[j] <= x < e.args[j] + s.lens[j] && !InOut(e, s.lens, j + 1, x)
      ensures r.mem(x) == s.mem(x - e.args[j] + s.fields[j])
    {
      assert Returns(e, i) ==> Inside(e, e.args[i], s.lens[i]);
      CopyAt(s.mem, e.args[i], s.fields[i], s.lens[i], x - e.args[j] + s.fields[j]);
    }
  }

  /** Buffers that are copied back do not overlap. */
  ghost predicate DisjointOuts(e: Env, lens: seq<nat>)
    requires |e.ps| == |e.args| == |lens|
  {
    forall j, l | 0 <= j < l < |e.ps| && Returns(e, j) && Returns(e, l) ::
      e.args[j] + lens[j] <= e.args[l] || e.args[l] + lens[l] <= e.args[j]
  }

  /** Then every one of them is copied back whole. */
  lemma WholeBack(e: Env, s: State, r: State, j: nat)
    requires Fit(e, s) && Fit(e, r) && j < |e.ps| && Returns(e, j) && BackAt(e, s, r, j) && DisjointOuts(e, s.lens)
    ensures forall x | e.args[j] <= x < e.args[j] + s.lens[j] :: r.mem(x) == s.mem(x - e.args[j] + s.fields[j])
  {
    hide InOut;
    forall x | e.args[j] <= x < e.args[j] + s.lens[j] ensures r.mem(x) == s.mem(x - e.args[j] + s.fields[j]) {
      NoLaterOut(e, s.lens, j, x);
    }
  }

  lemma NoLaterOut(e: Env, lens: seq<nat>, i: nat, x: int)
    requires i < |e.ps| == |e.args| == |lens| && DisjointOuts(e, lens) && Returns(e, i)
    requires e.args[i] <= x < e.args[i] + lens[i]
    ensures !InOut(e, lens, i + 1, x)
  {
  }

  // ---- the call ----

  /** The bridged function writes nothing in the enclave, and its result has the
      size of its type. */
  ghost predicate StaysOut(e: Env) {
    forall fields, m, x {:trigger e.callee(fields, m).mem(x)} | e.low <= x < e.high ::
      e.callee(fields, m).mem(x) == m(x)
  }

  ghost predicate ResultFits(e: Env) {
    && (forall fields, m :: |e.callee(fields, m).value| == e.retSize)
    && (e.retval == 0 || Inside(e, e.retval, e.retSize))
  }

  /** x is in the caller's variable for the result. */
  predicate InResult(e: Env, x: int) { !e.isVoid && e.retval != 0 && e.retval <= x < e.retval + e.retSize }

  /** What the proxy finds when rpc_ocall returns.  Without memory for the request
      the function has not been called, and all is as it was. */
  ghost function Answer(e: Env, c: State): Bridge.Reply {
    if e.rpc then e.callee(c.fields, c.mem) else Bridge.Reply(c.mem, c.msRetval, c.msErrno)
  }

  ghost function Calls(e: Env, c: State): seq<seq<int>> { if e.rpc then [c.fields] else [] }

  /** The call, made from the state c, has returned to the caller that entered at
      s.  The function was called once, with the fields, or not at all if there was
      no memory for the request.  The buffers that are copied back hold what is in
      their copies; the caller's variable holds the result; nothing else in the
      enclave has changed; errno is passed on if that is declared; and the block is
      freed once, unless the function is naked. */
  ghost predicate Returned(e: Env, s: State, c: State, r: State)
    requires Fit(e, s) && Fit(e, c) && Fit(e, r)
  {
    var a := Answer(e, c);
    && r.status == (if e.rpc then Success else NotAllowed) && r.calls == Calls(e, c)
    && r.errno == (if e.errno then a.errno else s.errno)
    && (forall j | 0 <= j < |e.ps| && Returns(e, j) :: BackAt(e, c.(mem := a.mem), r, j))
    && (forall x | InResult(e, x) && !InOut(e, c.lens, 0, x) && 0 <= x - e.retval < |a.value| ::
          r.mem(x) == a.value[x - e.retval])
    && (forall x | e.low <= x < e.high && !InOut(e, c.lens, 0, x) && !InResult(e, x) :: r.mem(x) == s.mem(x))
    && r.granted && r.frees == if e.ps == [] && e.isVoid then 0 else 1
  }

  /** The state after the call and the store of the result, before the copies back. */
  ghost predicate Called(e: Env, c: State, r: State)
    requires Fit(e, c) && Fit(e, r)
  {
    var a := Answer(e, c);
    && r == c.(mem := r.mem, msRetval := r.msRetval, msErrno := r.msErrno, calls := c.calls + Calls(e, c),
               result := if e.rpc then Success else NotAllowed)
    && r.mem == (if e.isVoid || e.retval == 0 then a.mem else Put(a.mem, e.retval, a.value))
    && (e.errno ==> r.msErrno == a.errno)
  }

  /** The call itself, and the result. */
  lemma CallRun(e: Env, c: State) returns (r: State)
    requires Fit(e, c) && c.status == Running && (Naked(e.ps, e.isVoid) ==> e.errno)
    ensures Fit(e, r) && Called(e, c, r)
    ensures Run(e, c, [Rpc] + After(e.ps, e.isVoid, e.errno))
         == Run(e, r, Each(e.ps, 0, Backs) + Ended(e.errno, Naked(e.ps, e.isVoid)))
  {
    hide Run, Each, After, Ended, Put;
    var rest := Each(e.ps, 0, Backs) + Ended(e.errno, Naked(e.ps, e.isVoid));
    Bridge.BridgeMeaning(e.callee, c.mem, Some(Bridge.Struct(c.fields, c.msRetval, c.msErrno)), 0,
      Naked(e.ps, e.isVoid), e.isVoid, e.errno);
    AfterSplits(e.ps, e.isVoid, e.errno);
    OneStep(e, c, Rpc, After(e.ps, e.isVoid, e.errno));
    r := Exec(e, c, Rpc);
    if !e.isVoid {
      OneStep(e, r, TakeResult, rest);
      r := Exec(e, r, TakeResult);
    }
  }

  lemma AfterSplits(ps: seq<Param>, isVoid: bool, errno: bool)
    ensures After(ps, isVoid, errno)
         == (if isVoid then [] else [TakeResult]) + (Each(ps, 0, Backs) + Ended(errno, Naked(ps, isVoid)))
    ensures isVoid ==> After(ps, isVoid, errno) == Each(ps, 0, Backs) + Ended(errno, Naked(ps, isVoid))
  {
  }

  lemma Ending(e: Env, s: State, errno: bool, naked: bool)
    requires Fit(e, s) && s.status == Running && s.granted && s.frees == 0 && s.ms == e.block != 0
    ensures Run(e, s, Ended(errno, naked))
         == s.(status := s.result, errno := if errno then s.msErrno else s.errno, frees := if naked then 0 else 1)
  {
    var freeing := (if naked then [] else [Free]) + [Return];
    var s1 := if errno then Exec(e, s, TakeErrno) else s;
    if errno {
      OneStep(e, s, TakeErrno, freeing);
      assert Ended(errno, naked) == [TakeErrno] + freeing;
    } else {
      assert Ended(errno, naked) == freeing;
    }
    Freeing(e, s1, naked);
  }

  lemma Freeing(e: Env, s: State, naked: bool)
    requires Fit(e, s) && s.status == Running && s.granted && s.frees == 0 && s.ms == e.block != 0
    ensures Run(e, s, (if naked then [] else [Free]) + [Return])
         == s.(status := s.result, frees := if naked then 0 else 1)
  {
    assert [Return] == [Return] + [] == [] + [Return];
    if naked {
      OneStep(e, s, Return, []);
    } else {
      OneStep(e, s, Free, [Return]);
      OneStep(e, Exec(e, s, Free), Return, []);
    }
  }

  lemma OutsSeparate(e: Env, s: State, c: State)
    requires Entered(e, s) && GoodPointers(e, s.mem) && Outside(e, e.header + Room(e, s.mem, 0))
    requires Fit(e, c) && AtCall(e, s, c)
    ensures Separate(e, c)
  {
    hide Eval, LenOf, Room, Sent;
    forall j | 0 <= j < |e.ps| && Returns(e, j)
      ensures Inside(e, e.args[j], c.lens[j])
      ensures c.lens[j] > 0 ==> c.fields[j] + c.lens[j] <= e.low || e.high <= c.fields[j]
    {
      TakenGrows(e, s.mem, j + 1, j + 1);
    }
  }

  /** The statements from the call on. */
  lemma AfterCallRun(e: Env, c: State) returns (c2: State, c3: State)
    requires Fit(e, c) && c.status == Running && c.granted && c.frees == 0 && c.ms == e.block != 0
    requires Separate(e, c) && (Naked(e.ps, e.isVoid) ==> e.errno)
    ensures Fit(e, c2) && Fit(e, c3) && Called(e, c, c2) && BroughtBack(e, 0, c2, c3)
    ensures Run(e, c, [Rpc] + After(e.ps, e.isVoid, e.errno))
         == c3.(status := c3.result, errno := if e.errno then c2.msErrno else c.errno,
                frees := if Naked(e.ps, e.isVoid) then 0 else 1)
  {
    hide Each, Run, After, Exec, InOut, BackAt, Inside, Put;
    c2 := CallRun(e, c);
    RunConcat(e, c2, Each(e.ps, 0, Backs), Ended(e.errno, Naked(e.ps, e.isVoid)));
    BacksPhase(e, c2, 0);
    c3 := Run(e, c2, Each(e.ps, 0, Backs));
    Ending(e, c3, e.errno, Naked(e.ps, e.isVoid));
  }

  /** The store of the result changes no copy outside. */
  lemma SameBacks(e: Env, c: State, c2: State, c3: State, r: State)
    requires Fit(e, c) && Fit(e, c2) && Fit(e, c3) && Fit(e, r) && Called(e, c, c2) && BroughtBack(e, 0, c2, c3)
    requires r.mem == c3.mem && Separate(e, c) && ResultFits(e) && |c.msRetval| == e.retSize
    ensures var outside := c.(mem := Answer(e, c).mem);
            forall j | 0 <= j < |e.ps| && Returns(e, j) :: BackAt(e, outside, r, j)
  {
    hide InOut, Put;
    var a := Answer(e, c);
    forall j | 0 <= j < |e.ps| && Returns(e, j) ensures BackAt(e, c.(mem := a.mem), r, j) {
      assert BackAt(e, c2, c3, j);
      forall x | e.args[j] <= x < e.args[j] + c.lens[j] && !InOut(e, c.lens, j + 1, x)
        ensures r.mem(x) == a.mem(x - e.args[j] + c.fields[j])
      {
        PutAt(a.mem, e.retval, a.value, x - e.args[j] + c.fields[j]);
      }
    }
  }

  lemma SameElsewhere(e: Env, c: State, c2: State, c3: State, x: int)
    requires Fit(e, c) && Fit(e, c2) && Fit(e, c3) && Called(e, c, c2) && BroughtBack(e, 0, c2, c3)
    requires ResultFits(e) && |c.msRetval| == e.retSize && !InOut(e, c.lens, 0, x)
    ensures var a := Answer(e, c);
            c3.mem(x) == if InResult(e, x) then a.value[x - e.retval] else a.mem(x)
  {
    hide InOut, Put, BackAt;
    var a := Answer(e, c);
    PutAt(a.mem, e.retval, a.value, x);
  }

  lemma AfterCall(e: Env, s: State, c: State)
    requires Fit(e, s) && Fit(e, c) && AtCall(e, s, c) && Separate(e, c) && (Naked(e.ps, e.isVoid) ==> e.errno)
    requires StaysOut(e) && ResultFits(e) && Outside(e, e.header + Room(e, s.mem, 0))
    ensures Returned(e, s, c, Run(e, c, [Rpc] + After(e.ps, e.isVoid, e.errno)))
  {
    hide Eval, LenOf, Room, Sent, Field, Placed, Each, Run, After, Separate, InOut, BackAt, Called, BroughtBack,
      ResultFits;
    var c2, c3 := AfterCallRun(e, c);
    var r := Run(e, c, [Rpc] + After(e.ps, e.isVoid, e.errno));
    SameBacks(e, c, c2, c3, r);
    CalledFields(e, c, c2, c3);
    ResultLength(e, c);
    forall x | !InOut(e, c.lens, 0, x)
      ensures var a := Answer(e, c);
              r.mem(x) == if InResult(e, x) then a.value[x - e.retval] else a.mem(x)
    {
      SameElsewhere(e, c, c2, c3, x);
    }
  }

  lemma ResultLength(e: Env, c: State)
    requires ResultFits(e) && |c.msRetval| == e.retSize
    ensures |Answer(e, c).value| == e.retSize
  {
  }

  lemma CalledFields(e: Env, c: State, c2: State, c3: State)
    requires Fit(e, c) && Fit(e, c2) && Fit(e, c3) && Called(e, c, c2) && BroughtBack(e, 0, c2, c3)
    ensures c3.calls == c.calls + Calls(e, c) && c3.granted == c.granted
    ensures c3.result == if e.rpc then Success else NotAllowed
    ensures e.errno ==> c2.msErrno == Answer(e, c).errno
  {
    hide InOut, BackAt, Put;
  }

  /** A call through the proxy and the bridge means what a direct call would:
      the function sees [in] and [in, out] contents exactly and zeros for [out],
      and returns.  A function without parameters and result never frees the
      block that is made to propagate errno. */
  lemma ProxyMeaning(e: Env, s: State)
    requires Entered(e, s) && GoodPointers(e, s.mem) && Outside(e, e.header + Room(e, s.mem, 0))
    requires StaysOut(e) && ResultFits(e) && (e.ps == [] && e.isVoid ==> e.errno)
    ensures var c := Run(e, s, Before(e.ps));
            AtCall(e, s, c) && Returned(e, s, c, Run(e, s, Proxy(e.ps, e.isVoid, e.errno)))
  {
    hide Eval, LenOf, Room, Sent, Field, Placed, Each, Run, Before, After, Separate, InOut, BackAt, AtCall, Returned,
      GoodPointers, Outside, StaysOut, ResultFits;
    CallIsReached(e, s);
    var c := Run(e, s, Before(e.ps));
    var rest := [Rpc] + After(e.ps, e.isVoid, e.errno);
    RunConcat(e, s, Before(e.ps), rest);
    assert Proxy(e.ps, e.isVoid, e.errno) == Before(e.ps) + rest;
    OutsSeparate(e, s, c);
    AfterCall(e, s, c);
  }

  /** A naked function that does not propagate errno is called without a structure. */
  lemma NakedMeaning(e: Env, s: State)
    requires Entered(e, s) && e.ps == [] && e.isVoid && !e.errno
    ensures var r := Run(e, s, Proxy(e.ps, e.isVoid, e.errno));
            && !r.granted && r.frees == 0 && r.errno == s.errno
            && if e.rpc then r.status == Success && r.calls == [[]] && r.mem == e.callee([], s.mem).mem
               else r.status == NotAllowed && r.calls == [] && r.mem == s.mem
  {
    Bridge.BridgeMeaning(e.callee, s.mem, None, 0, true, true, false);
    assert [RpcNull, Return] == [RpcNull] + ([Return] + []);
    OneStep(e, s, RpcNull, [Return] + []);
    OneStep(e, Exec(e, s, RpcNull), Return, []);
  }

  // ---- the calls that are not made ----

  /** The function is not reached, and the enclave is as it was. */
  ghost predicate Refused(e: Env, s: State, r: State, status: Status)
  {
    r.status == status && r.calls == [] && forall x | e.low <= x < e.high :: r.mem(x) == s.mem(x)
  }

  /** Without memory the proxy frees the null pointer, which the allocator does
      not admit: the error return behind it is never reached. */
  lemma NullIsFreed(e: Env, s: State)
    requires Entered(e, s) && e.block == 0 && (e.ps == [] && e.isVoid ==> e.errno)
    ensures Refused(e, s, Run(e, s, Proxy(e.ps, e.isVoid, e.errno)), BadFree)
  {
    hide Each, Run, Exec, Eval, LenOf, Room;
    var sizes := Each(e.ps, 0, Lengths) + Each(e.ps, 0, Counts);
    var rest := [Structure] + Each(e.ps, 0, Fields) + [Rpc] + After(e.ps, e.isVoid, e.errno);
    SizesPhase(e, s);
    StartSplits(e);
    RunConcat(e, s, sizes, [Allocate] + ([FailIfNull] + rest));
    NoBlock(e, Run(e, s, sizes), rest);
  }

  lemma StartSplits(e: Env)
    requires Naked(e.ps, e.isVoid) ==> e.errno
    ensures var sizes := Each(e.ps, 0, Lengths) + Each(e.ps, 0, Counts);
            var rest := [Structure] + Each(e.ps, 0, Fields) + [Rpc] + After(e.ps, e.isVoid, e.errno);
            Proxy(e.ps, e.isVoid, e.errno) == sizes + ([Allocate] + ([FailIfNull] + rest))
  {
    hide Each, After, Lengths, Counts, Fields;
  }

  lemma NoBlock(e: Env, s: State, rest: seq<Stmt>)
    requires Fit(e, s) && s.status == Running && e.block == 0
    ensures Run(e, s, [Allocate] + ([FailIfNull] + rest)) == s.(tmp := 0, granted := false, status := BadFree)
  {
    hide Run;
    var s1 := Exec(e, s, Allocate);
    OneStep(e, s, Allocate, [FailIfNull] + rest);
    OneStep(e, s1, FailIfNull, rest);
    StoppedStays(e, Exec(e, s1, FailIfNull), rest);
  }

  /** The block is there, and can be freed. */
  predicate Live(e: Env, s: State) { s.status == Running && s.granted && s.frees == 0 && s.ms == e.block }

  /** It still can, or the run has ended otherwise than by a bad free. */
  predicate Fine(e: Env, s: State) {
    Ordinary(s.result) && (Live(e, s) || (s.status != Running && s.status != BadFree))
  }

  predicate Ordinary(status: Status) { status.Success? || status.NotAllowed? }

  /** Statements that free nothing, except on their way out. */
  predicate Mild(c: Stmt) { !c.Allocate? && !c.FailIfNull? && !c.Structure? && !c.Free? }

  lemma MildStep(e: Env, s: State, c: Stmt)
    requires Fit(e, s) && Live(e, s) && Ordinary(s.result) && e.block != 0 && Mild(c)
    ensures Fine(e, Exec(e, s, c))
  {
    hide Eval, Copy, Zero, Put, BridgeRun;
  }

  lemma {:induction false} MildRun(e: Env, s: State, code: seq<Stmt>)
    requires Fit(e, s) && Fine(e, s) && e.block != 0 && forall i | 0 <= i < |code| :: Mild(code[i])
    ensures Fine(e, Run(e, s, code))
    decreases |code|
  {
    hide Exec;
    if code != [] && s.status == Running {
      MildStep(e, s, code[0]);
      MildRun(e, Exec(e, s, code[0]), code[1..]);
    }
  }

  lemma {:induction false} MildEach(ps: seq<Param>, i: nat, f: (Param, nat) -> seq<Stmt>)
    requires i <= |ps| && forall p, j: nat, k: nat | k < |f(p, j)| :: Mild(f(p, j)[k])
    ensures forall k | 0 <= k < |Each(ps, i, f)| :: Mild(Each(ps, i, f)[k])
    decreases |ps| - i
  {
    if i < |ps| {
      MildEach(ps, i + 1, f);
    }
  }

  /** All that follows the allocation, but for the end. */
  function Middle(e: Env): seq<Stmt> {
    Each(e.ps, 0, Fields) + [Rpc] + (if e.isVoid then [] else [TakeResult]) + Each(e.ps, 0, Backs)
    + (if e.errno then [TakeErrno] else [])
  }

  lemma MiddleMild(e: Env)
    ensures forall k | 0 <= k < |Middle(e)| :: Mild(Middle(e)[k])
  {
    MildEach(e.ps, 0, Fields);
    MildEach(e.ps, 0, Backs);
    hide Each;
  }

  lemma ProxySplits(e: Env)
    requires Naked(e.ps, e.isVoid) ==> e.errno
    ensures var sizes := Each(e.ps, 0, Lengths) + Each(e.ps, 0, Counts);
            var ending := (if Naked(e.ps, e.isVoid) then [] else [Free]) + [Return];
            Proxy(e.ps, e.isVoid, e.errno)
            == sizes + ([Allocate] + [FailIfNull] + [Structure]) + (Middle(e) + ending)
  {
    hide Each, Lengths, Counts, Fields, Backs;
  }

  lemma FineEnds(e: Env, s: State, naked: bool)
    requires Fit(e, s) && Fine(e, s) && e.block != 0
    ensures Run(e, s, (if naked then [] else [Free]) + [Return]).status != BadFree
  {
    if s.status == Running {
      Freeing(e, s, naked);
    }
  }

  /** No run of a proxy frees a pointer that is not checked out, exactly when
      malloc has memory or the function is naked and does not propagate errno. */
  lemma FreesAreValid(e: Env, s: State)
    requires Entered(e, s)
    ensures Run(e, s, Proxy(e.ps, e.isVoid, e.errno)).status != BadFree
       <==> e.block != 0 || (e.ps == [] && e.isVoid && !e.errno)
  {
    hide Run, Each, Exec, Proxy, Eval, LenOf, Room, Middle;
    if Naked(e.ps, e.isVoid) && !e.errno {
      NakedMeaning(e, s);
    } else if e.block == 0 {
      NullIsFreed(e, s);
    } else {
      var opening := Each(e.ps, 0, Lengths) + Each(e.ps, 0, Counts) + ([Allocate] + [FailIfNull] + [Structure]);
      var ending := (if Naked(e.ps, e.isVoid) then [] else [Free]) + [Return];
      ProxySplits(e);
      BlockReached(e, s);
      var s1 := Run(e, s, opening);
      RunConcat(e, s, opening, Middle(e) + ending);
      RunConcat(e, s1, Middle(e), ending);
      MiddleMild(e);
      MildRun(e, s1, Middle(e));
      FineEnds(e, Run(e, s1, Middle(e)), Naked(e.ps, e.isVoid));
    }
  }

  /** Some checked pointer reaches out of the enclave. */
  lemma BadPointer(e: Env, s: State)
    requires Entered(e, s) && !GoodPointers(e, s.mem) && Outside(e, e.header + Room(e, s.mem, 0))
    ensures var r := Run(e, s, Proxy(e.ps, e.isVoid, e.errno));
            Refused(e, s, r, InvalidParameter) && r.granted && r.frees == 1
  {
    hide Each, Run, Exec, Outside, Eval, LenOf, Room, Placed, GoodPointers, After;
    var opening := Each(e.ps, 0, Lengths) + Each(e.ps, 0, Counts) + ([Allocate] + [FailIfNull] + [Structure]);
    var fields, rest := Each(e.ps, 0, Fields), [Rpc] + After(e.ps, e.isVoid, e.errno);
    BlockIsThere(e, s);
    BlockReached(e, s);
    NotNaked(e, s.mem, e.isVoid);
    var s1 := Run(e, s, opening);
    assert Proxy(e.ps, e.isVoid, e.errno) == opening + (fields + rest);
    RunConcat(e, s, opening, fields + rest);
    RunConcat(e, s1, fields, rest);
    BadStops(e, s, s1);
    FieldsStop(e, s.mem, s1, 0);
    StoppedStays(e, Run(e, s1, fields), rest);
  }

  lemma BlockIsThere(e: Env, s: State)
    requires Entered(e, s) && Outside(e, e.header + Room(e, s.mem, 0))
    ensures e.block != 0
  {
  }

  lemma NotNaked(e: Env, m: Bytes, isVoid: bool)
    requires |e.ps| == |e.args| && !GoodPointers(e, m)
    ensures !Naked(e.ps, isVoid)
  {
  }

  lemma BadStops(e: Env, s: State, s1: State)
    requires Entered(e, s) && !GoodPointers(e, s.mem) && Outside(e, e.header + Room(e, s.mem, 0))
    requires Fit(e, s1) && Live(e, s1) && s1.mem == s.mem && s1.tmp == e.block + e.header
    requires forall j | 0 <= j < |e.ps| && e.ps[j].Buffer? :: s1.lens[j] == LenOf(e, s.mem, j)
    ensures Stopping(e, s.mem, 0, s1)
  {
    hide Eval, LenOf, Room;
    RoomEnds(e, s.mem);
    var j: nat :| j < |e.ps| && e.ps[j].Buffer? && e.args[j] != 0 && !Inside(e, e.args[j], LenOf(e, s.mem, j));
    assert Bad(e, s.mem, j);
  }

  /** The state of marshalling the buffers from i on, one of which is bad. */
  ghost predicate Stopping(e: Env, m: Bytes, i: nat, s: State)
    requires Fit(e, s) && i <= |e.ps|
  {
    && Live(e, s) && Outside(e, e.header + Room(e, m, 0)) && s.tmp == At(e, m, i)
    && (forall j | 0 <= j < |e.ps| && e.ps[j].Buffer? :: s.lens[j] == LenOf(e, m, j))
    && (forall x | e.low <= x < e.high :: s.mem(x) == m(x))
    && (exists j :: i <= j < |e.ps| && Bad(e, m, j))
  }

  ghost predicate Bad(e: Env, m: Bytes, j: nat)
    requires j < |e.ps| == |e.args|
  {
    e.ps[j].Buffer? && e.args[j] != 0 && !Inside(e, e.args[j], LenOf(e, m, j))
  }

  lemma {:induction false} FieldsStop(e: Env, m: Bytes, s: State, i: nat)
    requires Fit(e, s) && i <= |e.ps| && Stopping(e, m, i, s)
    ensures var r := Run(e, s, Each(e.ps, i, Fields));
            && r.status == InvalidParameter && r.calls == s.calls && r.granted && r.frees == 1
            && (forall x | e.low <= x < e.high :: r.mem(x) == m(x))
    decreases |e.ps| - i
  {
    hide Run, Each, Eval, LenOf, Room, Placed, Inside;
    EachStep(e, s, i, Fields);
    var s1 := FieldStep(e, s, i);
    if Bad(e, m, i) {
      StopsHere(e, m, s, i);
      StoppedStays(e, s1, Each(e.ps, i + 1, Fields));
    } else {
      GoesOn(e, m, s, i);
      FieldsStop(e, m, s1, i + 1);
    }
  }

  lemma StoppedStays(e: Env, s: State, code: seq<Stmt>)
    requires Fit(e, s) && s.status != Running
    ensures Run(e, s, code) == s
  {
  }

  lemma StopsHere(e: Env, m: Bytes, s: State, i: nat)
    requires Fit(e, s) && i < |e.ps| && Stopping(e, m, i, s) && Bad(e, m, i)
    ensures FieldStep(e, s, i) == s.(status := InvalidParameter, frees := 1)
  {
    hide Eval, LenOf, Room;
  }

  lemma GoesOn(e: Env, m: Bytes, s: State, i: nat)
    requires Fit(e, s) && i < |e.ps| && Stopping(e, m, i, s) && !Bad(e, m, i)
    ensures var r := FieldStep(e, s, i);
            && Stopping(e, m, i + 1, r) && r == s.(mem := r.mem, fields := r.fields, tmp := r.tmp)
  {
    hide Eval, LenOf, Room, Copy, Zero;
    TakenGrows(e, m, i, i + 1);
    TakenGrows(e, m, i + 1, i + 1);
    var r := FieldStep(e, s, i);
    forall x | e.low <= x < e.high ensures r.mem(x) == m(x) {
      CopyAt(s.mem, At(e, m, i), e.args[i], LenOf(e, m, i), x);
      ZeroAt(s.mem, At(e, m, i), LenOf(e, m, i), x);
    }
  }
}
