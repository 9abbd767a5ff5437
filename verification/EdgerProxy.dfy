// The trusted proxy that the edge-routine generator emits for an untrusted
// function: the emitted statements as a syntax, what they do, and what the
// marshalling structure and the buffers hold when the call is made.
module EdgerProxy {
  import opened Options
  import Bridge = EdgerBridge

  // ---- declarations ----

  datatype Direction = In | Out | InOut

  /** The emitted length expressions: sizes and counts are numbers or parameters. */
  datatype Len = Number(n: nat) | Parameter(i: nat) | Times(count: Len, size: Len) | StringLength

  /** The attributes of a checked pointer. */
  datatype Attr = Attr(dir: Direction, size: Len, count: Len, hasSize: bool, hasCount: bool, isStr: bool,
    isAry: bool, sizeOf: nat)

  datatype Param = ByValue | UserCheck | Buffer(attr: Attr)

  /** gen_ptr_size. */
  function PtrSize(a: Attr): Len {
    if a.isAry then Number(a.sizeOf)
    else if a.isStr then StringLength
    else
      var size := if a.hasSize then a.size else Number(a.sizeOf);
      if a.hasCount then Times(a.count, size) else size
  }

  /** conv_array_to_ptr: an array is a pointer with the product of its dimensions
      as count, and without its other size attributes. */
  function ArrayToPtr(a: Attr, dims: seq<nat>): Attr {
    if dims == [] then a else a.(hasSize := false, isStr := a.isStr, hasCount := true, count := Number(Product(dims)))
  }

  function Product(dims: seq<nat>): nat { if dims == [] then 1 else dims[0] * Product(dims[1..]) }

  /** An element's place in row-major order. */
  function Position(dims: seq<nat>, index: seq<nat>): nat
    requires |dims| == |index|
  {
    if dims == [] then 0 else index[0] * Product(dims[1..]) + Position(dims[1..], index[1..])
  }

  predicate InDims(dims: seq<nat>, index: seq<nat>) {
    |index| == |dims| && forall k | 0 <= k < |dims| :: index[k] < dims[k]
  }

  lemma {:induction false} PositionBounded(dims: seq<nat>, index: seq<nat>)
    requires InDims(dims, index)
    ensures Position(dims, index) < Product(dims)
    decreases |dims|
  {
    if dims != [] {
      PositionBounded(dims[1..], index[1..]);
      Scaled(index[0] + 1, dims[0], Product(dims[1..]));
      NextRow(index[0], Product(dims[1..]));
    }
  }

  lemma {:induction false} Scaled(n: nat, m: nat, size: nat)
    requires n <= m
    ensures n * size <= m * size
    decreases m - n
  {
    if n < m {
      Scaled(n, m - 1, size);
      NextRow(m - 1, size);
    }
  }

  lemma NextRow(n: nat, size: nat)
    ensures (n + 1) * size == n * size + size
  {
  }

  /** Every element of an array of any dimensions that is no string lies wholly
      in the bytes that are marshalled for it. */
  lemma ElementInside(e: Env, m: Bytes, p: int, a: Attr, dims: seq<nat>, index: seq<nat>)
    requires dims != [] && InDims(dims, index) && !a.isStr && !a.isAry
    ensures (Position(dims, index) + 1) * a.sizeOf <= Eval(e, m, p, PtrSize(ArrayToPtr(a, dims)))
  {
    PositionBounded(dims, index);
    Scaled(Position(dims, index) + 1, Product(dims), a.sizeOf);
    assert Eval(e, m, p, PtrSize(ArrayToPtr(a, dims))) == Product(dims) * a.sizeOf by {
      hide Product, Position;
    }
  }

  // ---- the emitted code ----

  datatype Stmt =
    | SetLength(i: nat)          // size_t len = ...;
    | CountLength(i: nat)        // ocalloc_size += (p != NULL && inside) ? len : 0;
    | Allocate                   // __tmp = memsys5Malloc(ocalloc_size);
    | FailIfNull                 // if (__tmp == NULL) { memsys5Free(__tmp); return SGX_ERROR_UNEXPECTED; }
    | Structure                  // ms = __tmp; __tmp += sizeof(*ms);
    | PassField(i: nat)          // ms->p = p;
    | Marshal(i: nat, copy: bool) // the branches for a good, a null and a bad pointer
    | Rpc                        // status = rpc_ocall(index, ms);
    | RpcNull                    // status = rpc_ocall(index, NULL);
    | TakeResult                 // if (retval) *retval = ms->retval;
    | CopyBack(i: nat)           // if (p) memcpy(p, ms->p, len);
    | TakeErrno                  // errno = ms->ocall_errno;
    | Free                       // memsys5Free(ms);
    | Return                     // return status;

  function Checked(p: Param): bool { p.Buffer? }

  function TakesBack(p: Param): bool { p.Buffer? && !p.attr.dir.In? }

  /** The statements that f emits for the parameters from i on. */
  function Each(ps: seq<Param>, i: nat, f: (Param, nat) -> seq<Stmt>): seq<Stmt>
    requires i <= |ps|
    decreases |ps| - i
  {
    if i == |ps| then [] else f(ps[i], i) + Each(ps, i + 1, f)
  }

  const Lengths := (p: Param, i: nat) => if Checked(p) then [SetLength(i)] else []
  const Counts := (p: Param, i: nat) => if Checked(p) then [CountLength(i)] else []
  const Fields := (p: Param, i: nat) => if Checked(p) then [Marshal(i, !p.attr.dir.Out?)] else [PassField(i)]
  const Backs := (p: Param, i: nat) => if TakesBack(p) then [CopyBack(i)] else []

  /** A function without parameters or result has nothing to marshal. */
  predicate Naked(ps: seq<Param>, isVoid: bool) { ps == [] && isVoid }

  /** gen_func_tproxy: the statements up to the call, and those after it.  The
      block is freed unless the function is naked; errno is propagated through
      the structure, so a naked function with errno has one all the same. */
  function Before(ps: seq<Param>): seq<Stmt> {
    Each(ps, 0, Lengths) + Each(ps, 0, Counts) + [Allocate] + [FailIfNull] + [Structure] + Each(ps, 0, Fields)
  }

  function After(ps: seq<Param>, isVoid: bool, errno: bool): seq<Stmt> {
    (if isVoid then [] else [TakeResult]) + Each(ps, 0, Backs) + Ended(errno, Naked(ps, isVoid))
  }

  function Ended(errno: bool, naked: bool): seq<Stmt> {
    (if errno then [TakeErrno] else []) + (if naked then [] else [Free]) + [Return]
  }

  function Proxy(ps: seq<Param>, isVoid: bool, errno: bool): seq<Stmt> {
    if Naked(ps, isVoid) && !errno then [RpcNull, Return] else Before(ps) + [Rpc] + After(ps, isVoid, errno)
  }

  // ---- what the statements do ----

  /** BadFree stands for the failed assertion of memsys5Free: the pointer is not
      one that is checked out. */
  datatype Status = Running | Success | NotAllowed | InvalidParameter | Unexpected | BadFree

  type Bytes = Bridge.Bytes

  /** The declaration of the function, the arguments of a call, with the address
      for the result and the size of its type, the enclave's address range, the
      size of the marshalling structure, what malloc returns (0 for failure),
      whether rpc_ocall has memory for its request, and what the bridged function
      does to memory and returns. */
  datatype Env = Env(ps: seq<Param>, isVoid: bool, errno: bool, args: seq<int>, retval: int, retSize: nat,
                     low: int, high: int, header: nat, block: int, rpc: bool, callee: Bridge.Callee)

  /** The local variables of the proxy (result is its variable status), the marshalling structure, errno in the
      enclave, the calls of the function, and whether malloc has given the block
      and how often it has been freed. */
  datatype State = State(mem: Bytes, lens: seq<nat>, total: nat, tmp: int, ms: int, fields: seq<int>,
                         msRetval: seq<int>, msErrno: int, status: Status, result: Status, calls: seq<seq<int>>,
                         errno: int, granted: bool, frees: nat)

  /** sgx_is_within_enclave. */
  predicate Inside(e: Env, p: int, n: nat) { e.low <= p && p + n <= e.high }

  ghost function StrLen(m: Bytes, p: int): nat {
    if exists n: nat :: EndsAt(m, p, n) then
      var n: nat :| EndsAt(m, p, n);
      n
    else 0
  }

  /** The first zero byte from p on is at p + n. */
  ghost predicate EndsAt(m: Bytes, p: int, n: nat) { m(p + n) == 0 && forall x | p <= x < p + n :: m(x) != 0 }

  ghost function Eval(e: Env, m: Bytes, p: int, l: Len): nat {
    match l
    case Number(n) => n
    case Parameter(i) => if i < |e.args| && e.args[i] >= 0 then e.args[i] else 0
    case Times(c, s) => Eval(e, m, p, c) * Eval(e, m, p, s)
    case StringLength => if p == 0 then 0 else StrLen(m, p) + 1
  }

  // ---- the bytes that are marshalled for a pointer ----

  /** A string goes with its terminator: its first zero byte is its last. */
  lemma StringBytes(e: Env, m: Bytes, p: int, a: Attr, n: nat)
    requires a.isStr && !a.isAry && EndsAt(m, p, n)
    ensures Eval(e, m, p, PtrSize(a)) == if p == 0 then 0 else n + 1
  {
    if p != 0 {
      var k := StrLen(m, p);
      assert EndsAt(m, p, k);
      assert m(p + k) == 0 && m(p + n) == 0;
    }
  }

  /** The number that a size or count attribute gives, itself or in a parameter. */
  predicate Gives(e: Env, l: Len, n: nat) {
    l == Number(n) || (l.Parameter? && l.i < |e.args| && e.args[l.i] == n)
  }

  /** A pointer with a count goes with that many elements, each of the size that is
      given or else that of its type; one without goes with one; and a foreign array
      goes as one value of its type. */
  lemma ElementBytes(e: Env, m: Bytes, p: int, a: Attr, count: nat, size: nat)
    requires a.isAry || !a.isStr
    requires if a.hasCount && !a.isAry then Gives(e, a.count, count) else count == 1
    requires if a.hasSize && !a.isAry then Gives(e, a.size, size) else size == a.sizeOf
    ensures var bytes := Eval(e, m, p, PtrSize(a));
            && (forall k | 0 <= k < count :: k * size + size <= bytes)
            && (if count == 0 then bytes == 0 else bytes == (count - 1) * size + size)
  {
    assert Eval(e, m, p, PtrSize(a)) == count * size;
    forall k | 0 <= k < count ensures k * size + size <= count * size {
      NextRow(k, size);
      Scaled(k + 1, count, size);
    }
    if count > 0 {
      NextRow(count - 1, size);
    }
  }

  function Copy(m: Bytes, to: int, from: int, n: nat): Bytes { x => CopiedByte(m, to, from, n, x) }

  function CopiedByte(m: Bytes, to: int, from: int, n: nat, x: int): int {
    if to <= x < to + n then m(x - to + from) else m(x)
  }

  function Zero(m: Bytes, to: int, n: nat): Bytes { x => ClearedByte(m, to, n, x) }

  function ClearedByte(m: Bytes, to: int, n: nat, x: int): int { if to <= x < to + n then 0 else m(x) }

  /** One byte of a copy, and one of a cleared range. */
  lemma CopyAt(m: Bytes, to: int, from: int, n: nat, x: int)
    ensures Copy(m, to, from, n)(x) == if to <= x < to + n then m(x - to + from) else m(x)
  {
  }

  lemma ZeroAt(m: Bytes, to: int, n: nat, x: int)
    ensures Zero(m, to, n)(x) == if to <= x < to + n then 0 else m(x)
  {
  }

  /** A value put in memory. */
  function Put(m: Bytes, to: int, vs: seq<int>): Bytes { x => PutByte(m, to, vs, x) }

  function PutByte(m: Bytes, to: int, vs: seq<int>, x: int): int {
    if to <= x < to + |vs| then vs[x - to] else m(x)
  }

  lemma PutAt(m: Bytes, to: int, vs: seq<int>, x: int)
    ensures Put(m, to, vs)(x) == if to <= x < to + |vs| then vs[x - to] else m(x)
  {
  }

  ghost predicate Fit(e: Env, s: State) {
    |e.args| == |e.ps| == |s.lens| == |s.fields|
  }

  /** memsys5Free, which asserts that it is given a block that is checked out. */
  function FreeAt(e: Env, s: State, p: int): State {
    if p != 0 && p == e.block && s.granted && s.frees == 0 then s.(frees := 1) else s.(status := BadFree)
  }

  /** Return with an error, unless the run has ended already. */
  function Fail(s: State, status: Status): State {
    if s.status == Running then s.(status := status) else s
  }

  /** The worker runs the bridge with the structure, or with NULL. */
  function BridgeRun(e: Env, s: State, naked: bool): Bridge.State {
    var ms := if naked then None else Some(Bridge.Struct(s.fields, s.msRetval, s.msErrno));
    Bridge.Run(e.callee, Bridge.Entry(s.mem, ms, 0), Bridge.Bridge(Naked(e.ps, e.isVoid), e.isVoid, e.errno))
  }

  /** What the proxy sees of it. */
  function AfterBridge(s: State, b: Bridge.State): State {
    var s1 := s.(mem := b.mem, calls := s.calls + b.calls, result := Success);
    if b.ms.None? then s1 else s1.(msRetval := b.ms.value.retval, msErrno := b.ms.value.errno)
  }

  ghost function Exec(e: Env, s: State, c: Stmt): (r: State)
    requires Fit(e, s)
    ensures Fit(e, r)
  {
    match c
    case SetLength(i) =>
      if i >= |e.ps| || !e.ps[i].Buffer? then s
      else s.(lens := s.lens[i := Eval(e, s.mem, e.args[i], PtrSize(e.ps[i].attr))])
    case CountLength(i) =>
      if i < |e.ps| && e.args[i] != 0 && Inside(e, e.args[i], s.lens[i]) then s.(total := s.total + s.lens[i]) else s
    case Allocate =>
      s.(tmp := e.block, granted := e.block != 0)
    case FailIfNull => if s.tmp == 0 then Fail(FreeAt(e, s, s.tmp), Unexpected) else s
    case Structure => s.(ms := s.tmp, tmp := s.tmp + e.header)
    case PassField(i) => if i < |e.ps| then s.(fields := s.fields[i := e.args[i]]) else s
    case Marshal(i, copy) =>
      if i >= |e.ps| then s
      else if e.args[i] != 0 && Inside(e, e.args[i], s.lens[i]) then
        s.(fields := s.fields[i := s.tmp], tmp := s.tmp + s.lens[i],
           mem := if copy then Copy(s.mem, s.tmp, e.args[i], s.lens[i]) else Zero(s.mem, s.tmp, s.lens[i]))
      else if e.args[i] == 0 then s.(fields := s.fields[i := 0])
      else Fail(FreeAt(e, s, s.ms), InvalidParameter)
    case Rpc => if e.rpc then AfterBridge(s, BridgeRun(e, s, false)) else s.(result := NotAllowed)
    case RpcNull => if e.rpc then AfterBridge(s, BridgeRun(e, s, true)) else s.(result := NotAllowed)
    case TakeResult => if e.retval != 0 then s.(mem := Put(s.mem, e.retval, s.msRetval)) else s
    case CopyBack(i) =>
      if i < |e.ps| && e.args[i] != 0 then s.(mem := Copy(s.mem, e.args[i], s.fields[i], s.lens[i])) else s
    case TakeErrno => s.(errno := s.msErrno)
    case Free => FreeAt(e, s, s.ms)
    case Return => s.(status := s.result)
  }

  /** A return ends the run. */
  ghost function Run(e: Env, s: State, code: seq<Stmt>): (r: State)
    requires Fit(e, s)
    ensures Fit(e, r)
    decreases |code|
  {
    if code == [] || s.status != Running then s else Run(e, Exec(e, s, code[0]), code[1..])
  }

  lemma {:induction false} RunConcat(e: Env, s: State, xs: seq<Stmt>, ys: seq<Stmt>)
    requires Fit(e, s)
    ensures Run(e, s, xs + ys) == Run(e, Run(e, s, xs), ys)
    decreases |xs|
  {
    if xs == [] {
      assert xs + ys == ys;
    } else if s.status == Running {
      assert (xs + ys)[1..] == xs[1..] + ys && (xs + ys)[0] == xs[0];
      RunConcat(e, Exec(e, s, xs[0]), xs[1..], ys);
    }
  }

  // ---- the phases ----

  ghost function LenOf(e: Env, m: Bytes, i: nat): nat
    requires i < |e.ps| == |e.args|
  {
    if e.ps[i].Buffer? then Eval(e, m, e.args[i], PtrSize(e.ps[i].attr)) else 0
  }

  /** Buffer i gets room in the block. */
  ghost predicate Placed(e: Env, m: Bytes, i: nat)
    requires i < |e.ps| == |e.args|
  {
    e.ps[i].Buffer? && e.args[i] != 0 && Inside(e, e.args[i], LenOf(e, m, i))
  }

  /** The bytes that the buffers from i on take in the block. */
  ghost function Room(e: Env, m: Bytes, i: nat): nat
    requires i <= |e.ps| == |e.args|
    decreases |e.ps| - i
  {
    if i == |e.ps| then 0 else (if Placed(e, m, i) then LenOf(e, m, i) else 0) + Room(e, m, i + 1)
  }

  /** One parameter's statements, at most one, and then those of the rest. */
  lemma EachStep(e: Env, s: State, i: nat, f: (Param, nat) -> seq<Stmt>)
    requires Fit(e, s) && i < |e.ps| && s.status == Running && |f(e.ps[i], i)| <= 1
    ensures var c := f(e.ps[i], i);
            Run(e, s, Each(e.ps, i, f)) == Run(e, if c == [] then s else Exec(e, s, c[0]), Each(e.ps, i + 1, f))
  {
    var c := f(e.ps[i], i);
    RunConcat(e, s, c, Each(e.ps, i + 1, f));
    if c != [] {
      assert c == [c[0]] && c[1..] == [];
    }
  }

  lemma EachEnds(e: Env, s: State, f: (Param, nat) -> seq<Stmt>)
    requires Fit(e, s)
    ensures Run(e, s, Each(e.ps, |e.ps|, f)) == s
  {
  }

  lemma {:induction false} LengthsPhase(e: Env, s: State, i: nat)
    requires Fit(e, s) && i <= |e.ps| && s.status == Running
    ensures var r := Run(e, s, Each(e.ps, i, Lengths));
            && r == s.(lens := r.lens)
            && (forall j | 0 <= j < i :: r.lens[j] == s.lens[j])
            && (forall j | i <= j < |e.ps| :: r.lens[j] == if e.ps[j].Buffer? then LenOf(e, s.mem, j) else s.lens[j])
    decreases |e.ps| - i
  {
    hide Run, Each, Eval;
    if i < |e.ps| {
      EachStep(e, s, i, Lengths);
      LengthsPhase(e, if e.ps[i].Buffer? then Exec(e, s, SetLength(i)) else s, i + 1);
    } else {
      EachEnds(e, s, Lengths);
    }
  }

  lemma {:induction false} CountsPhase(e: Env, s: State, i: nat)
    requires Fit(e, s) && i <= |e.ps| && s.status == Running
    requires forall j | i <= j < |e.ps| && e.ps[j].Buffer? :: s.lens[j] == LenOf(e, s.mem, j)
    ensures Run(e, s, Each(e.ps, i, Counts)) == s.(total := s.total + Room(e, s.mem, i))
    decreases |e.ps| - i
  {
    hide Run, Each, Eval, LenOf;
    if i < |e.ps| {
      EachStep(e, s, i, Counts);
      CountsPhase(e, if e.ps[i].Buffer? then Exec(e, s, CountLength(i)) else s, i + 1);
    } else {
      EachEnds(e, s, Counts);
    }
  }

  // ---- marshalling ----

  /** Every checked pointer is null or wholly inside the enclave. */
  ghost predicate GoodPointers(e: Env, m: Bytes)
    requires |e.ps| == |e.args|
  {
    forall i | 0 <= i < |e.ps| && e.ps[i].Buffer? :: e.args[i] == 0 || Inside(e, e.args[i], LenOf(e, m, i))
  }

  /** The block that malloc returns lies outside the enclave. */
  ghost predicate Outside(e: Env, total: nat) { e.block > 0 && (e.block + total <= e.low || e.high <= e.block) }

  /** The room taken by the buffers before i. */
  ghost function Taken(e: Env, m: Bytes, i: nat): nat
    requires i <= |e.ps| == |e.args|
  {
    if i == 0 then 0 else Taken(e, m, i - 1) + if Placed(e, m, i - 1) then LenOf(e, m, i - 1) else 0
  }

  lemma {:induction false} TakenRoom(e: Env, m: Bytes, i: nat)
    requires i <= |e.ps| == |e.args|
    ensures Taken(e, m, i) + Room(e, m, i) == Room(e, m, 0)
  {
    if i > 0 {
      TakenRoom(e, m, i - 1);
    }
  }

  /** Where buffer i goes. */
  ghost function At(e: Env, m: Bytes, i: nat): int
    requires i <= |e.ps| == |e.args|
  {
    e.block + e.header + Taken(e, m, i)
  }

  /** What the field of parameter i holds for the bridge. */
  ghost function Field(e: Env, m: Bytes, i: nat): int
    requires i < |e.ps| == |e.args|
  {
    if !e.ps[i].Buffer? then e.args[i] else if Placed(e, m, i) then At(e, m, i) else 0
  }

  /** The byte k of buffer i as the bridged function must see it. */
  ghost function Sent(e: Env, m: Bytes, i: nat, k: nat): int
    requires i < |e.ps| && e.ps[i].Buffer? && |e.ps| == |e.args|
  {
    if e.ps[i].attr.dir.Out? then 0 else m(e.args[i] + k)
  }

  /** After the buffers from i on are marshalled from the memory m. */
  ghost predicate Marshalled(e: Env, m: Bytes, i: nat, s: State, r: State)
    requires Fit(e, s) && Fit(e, r) && i <= |e.ps|
  {
    && r == s.(mem := r.mem, fields := r.fields, tmp := r.tmp) && r.tmp == At(e, m, |e.ps|)
    && (forall j | 0 <= j < i :: r.fields[j] == s.fields[j])
    && (forall j | i <= j < |e.ps| :: r.fields[j] == Field(e, m, j))
    && (forall x | x < At(e, m, i) || x >= At(e, m, |e.ps|) :: r.mem(x) == s.mem(x))
    && (forall j, k | i <= j < |e.ps| && Placed(e, m, j) && 0 <= k < LenOf(e, m, j) ::
          r.mem(At(e, m, j) + k) == Sent(e, m, j, k))
  }

  /** The state from which the buffers from i on are marshalled. */
  ghost predicate Ready(e: Env, m: Bytes, i: nat, s: State)
    requires Fit(e, s) && i <= |e.ps|
  {
    && s.status == Running && GoodPointers(e, m) && Outside(e, e.header + Room(e, m, 0)) && s.tmp == At(e, m, i)
    && (forall j | 0 <= j < |e.ps| && e.ps[j].Buffer? :: s.lens[j] == LenOf(e, m, j))
    && (forall x | e.low <= x < e.high :: s.mem(x) == m(x))
  }

  /** The statement of one parameter. */
  ghost function FieldStep(e: Env, s: State, i: nat): (r: State)
    requires Fit(e, s) && i < |e.ps|
    ensures Fit(e, r)
  {
    Exec(e, s, if e.ps[i].Buffer? then Marshal(i, !e.ps[i].attr.dir.Out?) else PassField(i))
  }

  lemma TakenGrows(e: Env, m: Bytes, i: nat, j: nat)
    requires i <= j <= |e.ps| == |e.args|
    ensures Taken(e, m, i) <= Taken(e, m, j) <= Room(e, m, 0)
    decreases j - i
  {
    TakenRoom(e, m, j);
    if i < j {
      TakenGrows(e, m, i, j - 1);
    }
  }

  lemma FieldShape(e: Env, m: Bytes, s: State, i: nat)
    requires Fit(e, s) && i < |e.ps| && Ready(e, m, i, s)
    ensures var r := FieldStep(e, s, i);
            && r == s.(mem := r.mem, fields := s.fields[i := Field(e, m, i)], tmp := At(e, m, i + 1))
            && r.mem == if !Placed(e, m, i) then s.mem
                        else if e.ps[i].attr.dir.Out? then Zero(s.mem, At(e, m, i), LenOf(e, m, i))
                        else Copy(s.mem, At(e, m, i), e.args[i], LenOf(e, m, i))
  {
    hide Eval;
  }

  lemma FieldStepIs(e: Env, m: Bytes, s: State, i: nat)
    requires Fit(e, s) && i < |e.ps| && Ready(e, m, i, s)
    ensures var r := FieldStep(e, s, i);
            && Ready(e, m, i + 1, r) && r == s.(mem := r.mem, fields := s.fields[i := Field(e, m, i)], tmp := r.tmp)
            && (forall x | x < At(e, m, i) || x >= At(e, m, i + 1) :: r.mem(x) == s.mem(x))
            && (Placed(e, m, i) ==> forall k | 0 <= k < LenOf(e, m, i) :: r.mem(At(e, m, i) + k) == Sent(e, m, i, k))
  {
    hide Eval, FieldStep, LenOf, Field, Room, Copy, Zero, Sent;
    TakenGrows(e, m, i, i + 1);
    TakenGrows(e, m, i + 1, i + 1);
    FieldShape(e, m, s, i);
    var r := FieldStep(e, s, i);
    forall x | x < At(e, m, i) || x >= At(e, m, i + 1) ensures r.mem(x) == s.mem(x) {
      CopyAt(s.mem, At(e, m, i), e.args[i], LenOf(e, m, i), x);
      ZeroAt(s.mem, At(e, m, i), LenOf(e, m, i), x);
    }
    if Placed(e, m, i) {
      forall k | 0 <= k < LenOf(e, m, i) ensures r.mem(At(e, m, i) + k) == Sent(e, m, i, k) {
        FieldByte(e, m, s, i, k);
      }
    }
  }

  lemma FieldByte(e: Env, m: Bytes, s: State, i: nat, k: nat)
    requires Fit(e, s) && i < |e.ps| && Ready(e, m, i, s) && Placed(e, m, i) && k < LenOf(e, m, i)
    ensures FieldStep(e, s, i).mem(At(e, m, i) + k) == Sent(e, m, i, k)
  {
    hide Eval, FieldStep, LenOf, Field, Room, Copy, Zero, At;
    FieldShape(e, m, s, i);
    CopyAt(s.mem, At(e, m, i), e.args[i], LenOf(e, m, i), At(e, m, i) + k);
    ZeroAt(s.mem, At(e, m, i), LenOf(e, m, i), At(e, m, i) + k);
  }

  lemma {:induction false} FieldsPhase(e: Env, m: Bytes, s: State, i: nat)
    requires Fit(e, s) && i <= |e.ps| && Ready(e, m, i, s)
    ensures Marshalled(e, m, i, s, Run(e, s, Each(e.ps, i, Fields)))
    decreases |e.ps| - i
  {
    hide Run, Each, Exec, Ready, Sent, Placed, LenOf, Room, Taken;
    if i == |e.ps| {
      EachEnds(e, s, Fields);
      ReadyAt(e, m, i, s);
    } else {
      ReadyAt(e, m, i, s);
      EachStep(e, s, i, Fields);
      var s1 := FieldStep(e, s, i);
      FieldStepIs(e, m, s, i);
      FieldsPhase(e, m, s1, i + 1);
      TakenGrows(e, m, i, i + 1);
      TakenGrows(e, m, i + 1, |e.ps|);
      MarshalledOn(e, m, i, s, s1, Run(e, s1, Each(e.ps, i + 1, Fields)));
    }
  }

  lemma ReadyAt(e: Env, m: Bytes, i: nat, s: State)
    requires Fit(e, s) && i <= |e.ps| && Ready(e, m, i, s)
    ensures s.status == Running && s.tmp == At(e, m, i)
  {
  }

  lemma MarshalledOn(e: Env, m: Bytes, i: nat, s: State, s1: State, r: State)
    requires Fit(e, s) && Fit(e, s1) && Fit(e, r) && i < |e.ps| && Marshalled(e, m, i + 1, s1, r)
    requires s1 == s.(mem := s1.mem, fields := s.fields[i := Field(e, m, i)], tmp := s1.tmp)
    requires forall x | x < At(e, m, i) || x >= At(e, m, i + 1) :: s1.mem(x) == s.mem(x)
    requires Placed(e, m, i) ==> forall k | 0 <= k < LenOf(e, m, i) :: s1.mem(At(e, m, i) + k) == Sent(e, m, i, k)
    requires Taken(e, m, i) <= Taken(e, m, i + 1) <= Taken(e, m, |e.ps|)
    ensures Marshalled(e, m, i, s, r)
  {
    hide LenOf, Sent, Room, Field;
    forall j, k | i <= j < |e.ps| && Placed(e, m, j) && 0 <= k < LenOf(e, m, j)
      ensures r.mem(At(e, m, j) + k) == Sent(e, m, j, k)
    {
      if j == i {
        assert At(e, m, i) + k < At(e, m, i + 1);
      }
    }
  }

  // ---- the state at the call ----

  /** The proxy is entered. */
  ghost predicate Entered(e: Env, s: State) {
    Fit(e, s) && s.status == Running && s.total == e.header && s.calls == [] && !s.granted && s.frees == 0 && s.ms == 0
    && s.result == Success && |s.msRetval| == e.retSize
  }

  /** Before the allocation: lengths and the size of the block, nothing else. */
  lemma SizesPhase(e: Env, s: State)
    requires Entered(e, s)
    ensures var r := Run(e, s, Each(e.ps, 0, Lengths) + Each(e.ps, 0, Counts));
            && r == s.(lens := r.lens, total := e.header + Room(e, s.mem, 0))
            && (forall j | 0 <= j < |e.ps| && e.ps[j].Buffer? :: r.lens[j] == LenOf(e, s.mem, j))
  {
    hide Run, Each, Eval, LenOf, Room;
    RunConcat(e, s, Each(e.ps, 0, Lengths), Each(e.ps, 0, Counts));
    LengthsPhase(e, s, 0);
    CountsPhase(e, Run(e, s, Each(e.ps, 0, Lengths)), 0);
  }

  /** At the call: the block has the size that was asked for, and every field and
      buffer in it is what the bridged function must see. */
  ghost predicate AtCall(e: Env, s: State, r: State)
    requires Fit(e, s) && Fit(e, r)
  {
    && r.status == Running && r.granted && r.frees == 0 && r.ms == e.block && r.calls == [] && r.errno == s.errno
    && r.total == e.header + Room(e, s.mem, 0) && r.result == Success && |r.msRetval| == e.retSize
    && (forall j | 0 <= j < |e.ps| && e.ps[j].Buffer? :: r.lens[j] == LenOf(e, s.mem, j))
    && (forall j | 0 <= j < |e.ps| :: r.fields[j] == Field(e, s.mem, j))
    && (forall j, k | 0 <= j < |e.ps| && Placed(e, s.mem, j) && 0 <= k < LenOf(e, s.mem, j) ::
          r.mem(At(e, s.mem, j) + k) == Sent(e, s.mem, j, k))
    && (forall x | x < e.block || x >= e.block + r.total :: r.mem(x) == s.mem(x))
  }

  /** The three statements that allocate, when malloc gives a block. */
  lemma BlockPhase(e: Env, s: State)
    requires Fit(e, s) && s.status == Running && e.block != 0
    ensures Run(e, s, [Allocate] + [FailIfNull] + [Structure])
         == s.(tmp := e.block + e.header, ms := e.block, granted := true)
  {
    var s1 := Exec(e, s, Allocate);
    assert [Allocate] + [FailIfNull] + [Structure] == [Allocate] + ([FailIfNull] + ([Structure] + []));
    OneStep(e, s, Allocate, [FailIfNull] + ([Structure] + []));
    OneStep(e, s1, FailIfNull, [Structure] + []);
    OneStep(e, s1, Structure, []);
  }

  lemma OneStep(e: Env, s: State, first: Stmt, rest: seq<Stmt>)
    requires Fit(e, s) && s.status == Running
    ensures Run(e, s, [first] + rest) == Run(e, Exec(e, s, first), rest)
  {
    assert ([first] + rest)[1..] == rest;
  }

  /** With sizes and block, before the first field. */
  lemma BlockReached(e: Env, s: State)
    requires Entered(e, s) && e.block != 0
    ensures var sizes := Each(e.ps, 0, Lengths) + Each(e.ps, 0, Counts);
            var r := Run(e, s, sizes + ([Allocate] + [FailIfNull] + [Structure]));
            && r == s.(lens := r.lens, total := e.header + Room(e, s.mem, 0), tmp := e.block + e.header,
                       ms := e.block, granted := true)
            && (forall j | 0 <= j < |e.ps| && e.ps[j].Buffer? :: r.lens[j] == LenOf(e, s.mem, j))
  {
    hide Run, Each, Eval, LenOf, Room;
    var sizes := Each(e.ps, 0, Lengths) + Each(e.ps, 0, Counts);
    SizesPhase(e, s);
    RunConcat(e, s, sizes, [Allocate] + [FailIfNull] + [Structure]);
    BlockPhase(e, Run(e, s, sizes));
  }

  lemma CallIsReached(e: Env, s: State)
    requires Entered(e, s) && GoodPointers(e, s.mem) && Outside(e, e.header + Room(e, s.mem, 0))
    ensures AtCall(e, s, Run(e, s, Before(e.ps)))
  {
    hide Run, Each, Eval, LenOf, Room, Sent, Field, Placed, Inside, Copy, Zero, Exec;
    var opening := Each(e.ps, 0, Lengths) + Each(e.ps, 0, Counts) + ([Allocate] + [FailIfNull] + [Structure]);
    BlockReached(e, s);
    var s2 := Run(e, s, opening);
    RunConcat(e, s, opening, Each(e.ps, 0, Fields));
    assert Before(e.ps) == opening + Each(e.ps, 0, Fields);
    RoomEnds(e, s.mem);
    FieldsPhase(e, s.mem, s2, 0);
    TakenRoom(e, s.mem, |e.ps|);
  }

  lemma RoomEnds(e: Env, m: Bytes)
    requires |e.ps| == |e.args|
    ensures Room(e, m, |e.ps|) == 0 && Taken(e, m, 0) == 0
  {
  }

  /** The marshalled buffers are pairwise disjoint and inside the block, behind
      the structure. */
  lemma BuffersApart(e: Env, m: Bytes, i: nat, j: nat)
    requires i < j < |e.ps| == |e.args| && Placed(e, m, i) && Placed(e, m, j)
    ensures e.block + e.header <= At(e, m, i) && At(e, m, i) + LenOf(e, m, i) <= At(e, m, j)
    ensures At(e, m, j) + LenOf(e, m, j) <= e.block + e.header + Room(e, m, 0)
  {
    hide Eval;
    TakenGrows(e, m, i + 1, j);
    TakenGrows(e, m, j + 1, j + 1);
  }
}
