// The untrusted bridge that the edge-routine generator emits for an untrusted
// function: its statements as a syntax, and what they do.
module EdgerBridge {
  import opened Options

  type Bytes = int -> int

  /** What the bridged function leaves in memory, the bytes of its result, and
      the errno after it. */
  datatype Reply = Reply(mem: Bytes, value: seq<int>, errno: int)

  /** The marshalling structure: the fields of the parameters, ms_retval and
      ocall_errno. */
  datatype Struct = Struct(fields: seq<int>, retval: seq<int>, errno: int)

  datatype Stmt =
    | RequireNull             // if (pms != NULL) return SGX_ERROR_INVALID_PARAMETER;
    | Invoke(keep: bool)      // [ms->retval =] f(ms->p, ...);
    | StoreErrno              // ms->ocall_errno = errno;
    | ReturnSuccess

  /** gen_func_ubridge. */
  function Bridge(naked: bool, isVoid: bool, errno: bool): seq<Stmt> {
    if naked && !errno then [RequireNull, Invoke(false), ReturnSuccess]
    else [Invoke(!isVoid)] + (if errno then [StoreErrno] else []) + [ReturnSuccess]
  }

  /** NullAccess stands for a member of the null structure. */
  datatype Status = Running | Success | InvalidParameter | NullAccess

  /** The memory, the structure that pms points to, errno outside, and the calls
      of the function with their arguments. */
  datatype State = State(mem: Bytes, ms: Option<Struct>, errno: int, calls: seq<seq<int>>, status: Status)

  type Callee = (seq<int>, Bytes) -> Reply

  function Exec(f: Callee, s: State, c: Stmt): State {
    match c
    case RequireNull => if s.ms.Some? then s.(status := InvalidParameter) else s
    case Invoke(keep) =>
      var fields := if s.ms.Some? then s.ms.value.fields else [];
      var a := f(fields, s.mem);
      var s1 := s.(mem := a.mem, errno := a.errno, calls := s.calls + [fields]);
      if !keep then s1
      else if s.ms.None? then s1.(status := NullAccess)
      else s1.(ms := Some(s.ms.value.(retval := a.value)))
    case StoreErrno =>
      if s.ms.None? then s.(status := NullAccess) else s.(ms := Some(s.ms.value.(errno := s.errno)))
    case ReturnSuccess => s.(status := Success)
  }

  function Run(f: Callee, s: State, code: seq<Stmt>): State
    decreases |code|
  {
    if code == [] || s.status != Running then s else Run(f, Exec(f, s, code[0]), code[1..])
  }

  /** The worker calls the bridge with the address that the proxy has passed. */
  function Entry(mem: Bytes, ms: Option<Struct>, errno: int): State { State(mem, ms, errno, [], Running) }

  /** Given a structure exactly when it expects one, the bridge calls the function
      once, with the fields, and stores its result and its errno where they are
      declared; the fields stay as they were. */
  lemma BridgeMeaning(f: Callee, mem: Bytes, ms: Option<Struct>, before: int, naked: bool, isVoid: bool, errno: bool)
    requires (ms.None? <==> naked && !errno) && (naked ==> isVoid)
    ensures var fields := if ms.Some? then ms.value.fields else [];
            var a := f(fields, mem);
            var r := Run(f, Entry(mem, ms, before), Bridge(naked, isVoid, errno));
            && r.status == Success && r.calls == [fields] && r.mem == a.mem
            && r.ms == if ms.None? then None
                       else Some(Struct(fields, if isVoid then ms.value.retval else a.value,
                                        if errno then a.errno else ms.value.errno))
  {
    var s := Entry(mem, ms, before);
    if naked && !errno {
      assert [RequireNull, Invoke(false), ReturnSuccess][1..] == [Invoke(false), ReturnSuccess];
      assert [Invoke(false), ReturnSuccess][1..] == [ReturnSuccess];
    } else if errno {
      assert Bridge(naked, isVoid, errno) == [Invoke(!isVoid), StoreErrno, ReturnSuccess];
      assert [Invoke(!isVoid), StoreErrno, ReturnSuccess][1..] == [StoreErrno, ReturnSuccess];
      assert [StoreErrno, ReturnSuccess][1..] == [ReturnSuccess];
    } else {
      assert Bridge(naked, isVoid, errno) == [Invoke(!isVoid), ReturnSuccess];
      assert [Invoke(!isVoid), ReturnSuccess][1..] == [ReturnSuccess];
    }
    assert [ReturnSuccess][1..] == [];
  }
}
