// What an Aptr is for its users: an address that moves with it, and whether it is
// for writing.  The machine's Aptrs, with their pages and offsets, refine that.
module SuvmPointers {
  import opened Options
  import opened SuvmMachine
  import opened SuvmLoading
  import opened SuvmAptrs
  import opened SuvmSafety

  datatype Pointer = Pointer(owner: nat, addr: int, hint: bool)

  /** The pointers that the Aptrs of a state stand for. */
  ghost function Pointers(c: Config, s: State): map<nat, Pointer> {
    map a | a in s.aptrs :: Pointer(s.aptrs[a].owner, Addr(c, s.aptrs[a]), s.aptrs[a].hint)
  }

  /** What the step does to pointers: only the users' own operations do anything. */
  function Moves(ps: map<nat, Pointer>, step: Step): map<nat, Pointer> {
    match step
    case Construct(t, a, x) => ps[a := Pointer(t, x, false)]
    case Copy(t, a, src) => if src in ps then ps[a := Pointer(t, ps[src].addr, ps[src].hint)] else ps
    case Hint(t, a, h) => if a in ps then ps[a := ps[a].(hint := h)] else ps
    case Move(t, a, d) => if a in ps then ps[a := ps[a].(addr := ps[a].addr + d)] else ps
    case Destroy(t, a) => ps - {a}
    case _ => ps
  }

  /** Moving an Aptr moves its address, whether it is linked or not. */
  lemma MoveAddress(c: Config, s: State, a: nat, d: int)
    requires a in s.aptrs
    ensures var y := Moved(s, a, d).aptrs[a];
            && Addr(c, y) == Addr(c, s.aptrs[a]) + d
            && y.owner == s.aptrs[a].owner && y.hint == s.aptrs[a].hint && y.link == s.aptrs[a].link
            && y.pin == s.aptrs[a].pin && y.wr == s.aptrs[a].wr
  {
  }

  lemma MakeMoves(c: Config, s: State, step: Step)
    requires Fit(c) && Enabled(c, s, step) && (step.Construct? || step.Copy? || step.Destroy?)
    ensures Sound(c, s, step) && Pointers(c, Apply(c, s, step)) == Moves(Pointers(c, s), step)
  {
    hide Fit;
    match step
    case Construct(t, a, x) => ConstructAddress(c, s, t, a, x);
    case Copy(t, a, src) => CopyKeepsAddress(c, s, t, a, src);
    case _ =>
  }

  lemma UseMoves(c: Config, s: State, step: Step)
    requires Fit(c) && Enabled(c, s, step) && (step.Hint? || step.Move?)
    ensures Sound(c, s, step) && Pointers(c, Apply(c, s, step)) == Moves(Pointers(c, s), step)
  {
    hide Fit;
    if step.Move? {
      MoveAddress(c, s, step.a, step.d);
    }
  }

  lemma MarkMoves(c: Config, s: State, a: nat)
    requires a in s.aptrs && s.aptrs[a].link.Some? && s.aptrs[a].link.value in s.frames
    ensures Pointers(c, Marked(s, a)) == Pointers(c, s)
  {
    hide Addr;
    SameAddress(c, s.aptrs[a]);
  }

  /** The mark is in no part of the address. */
  lemma SameAddress(c: Config, x: Aptr)
    ensures Addr(c, x.(wr := true)) == Addr(c, x)
  {
  }

  lemma StoreMoves(c: Config, s: State, a: nat, off: int, v: int)
    requires a in s.aptrs && s.aptrs[a].link.Some? && s.aptrs[a].link.value in s.frames
    requires 0 <= off < |s.frames[s.aptrs[a].link.value].text|
    ensures Pointers(c, Stored(s, a, off, v)) == Pointers(c, s)
  {
    hide Addr;
  }

  lemma TouchMoves(c: Config, s: State, step: Step)
    requires Fit(c) && Enabled(c, s, step) && Sound(c, s, step) && (step.Deref? || step.Write?)
    ensures Pointers(c, Apply(c, s, step)) == Pointers(c, s)
  {
    hide Fit, Pointers, Marked, Stored;
    match step
    case Deref(t, a) => MarkMoves(c, s, a);
    case Write(t, a, off, v) => StoreMoves(c, s, a, off, v);
    case _ =>
  }

  lemma BeginMoves(c: Config, s: State, t: nat, a: nat)
    requires c.pageSize > 0 && a in s.aptrs
    ensures Pointers(c, Begun(c, s, t, a)) == Pointers(c, s)
  {
    ShiftKeepsAddress(c, s.aptrs[a]);
    hide Addr;
  }

  lemma FaultMoves(c: Config, s: State, t: nat, nonce: int)
    requires Fit(c) && Inv(c, s) && FaultEnabled(c, s, t) && FaultSound(c, s, t)
    ensures Pointers(c, FaultStep(c, s, t, nonce)) == Pointers(c, s)
  {
    hide Inv, Fit, FaultStep, FaultEnabled, FaultSound;
    FaultKeeps(c, s, t, nonce);
  }

  lemma PageSize(c: Config)
    requires Fit(c)
    ensures c.pageSize > 0
  {
  }

  lemma StepMoves(c: Config, s: State, step: Step)
    requires Fit(c) && Inv(c, s) && Enabled(c, s, step) && Sound(c, s, step)
    ensures Pointers(c, Apply(c, s, step)) == Moves(Pointers(c, s), step)
  {
    PageSize(c);
    hide Inv, Fit, FaultStep, FaultSound, Pointers;
    match step
    case Construct(t, a, x) => MakeMoves(c, s, step);
    case Copy(t, a, src) => MakeMoves(c, s, step);
    case Destroy(t, a) => MakeMoves(c, s, step);
    case Hint(t, a, h) => UseMoves(c, s, step);
    case Move(t, a, d) => UseMoves(c, s, step);
    case Fault(t, nonce) => FaultMoves(c, s, t, nonce);
    case BeginFault(t, a) => BeginMoves(c, s, t, a);
    case _ => TouchMoves(c, s, step);
  }

  /** The pointers after the steps of a run. */
  ghost function MovesOf(c: Config, s: State, steps: seq<Step>, ps: map<nat, Pointer>): map<nat, Pointer>
    requires Fit(c)
    decreases |steps|
  {
    if steps == [] || (Enabled(c, s, steps[0]) && !Sound(c, s, steps[0])) then ps
    else if !Enabled(c, s, steps[0]) then MovesOf(c, s, steps[1..], ps)
    else MovesOf(c, Apply(c, s, steps[0]), steps[1..], Moves(ps, steps[0]))
  }

  /** After any run every Aptr has the address and the hint that its constructions,
      copies, moves and hints have given it: faults and evictions, by any threads,
      change nothing of what it points to. */
  lemma {:induction false} PointersFollow(c: Config, s: State, steps: seq<Step>)
    requires Fit(c) && Inv(c, s)
    ensures Run(c, s, steps).Some?
    ensures Pointers(c, Run(c, s, steps).value) == MovesOf(c, s, steps, Pointers(c, s))
    decreases |steps|
  {
    hide Inv, Fit, Enabled, Sound, Apply, Moves;
    if steps != [] {
      if Enabled(c, s, steps[0]) {
        StepIsSound(c, s, steps[0]);
        StepKeeps(c, s, steps[0]);
        StepMoves(c, s, steps[0]);
        PointersFollow(c, Apply(c, s, steps[0]), steps[1..]);
      } else {
        PointersFollow(c, s, steps[1..]);
      }
    }
  }
}
