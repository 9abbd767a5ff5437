// When the resolution of imports succeeds, and what it then gives, in terms of
// the files alone.
module EdgerResolve {
  import opened Options
  import opened EdgerImport

  type Files = map<string, Content>

  // ---- what the files reach ----

  /** The import expressions at the places of path, one in each file, lead from
      ec to the file f. */
  predicate Leads(files: Files, ec: Content, path: seq<nat>, f: string)
    decreases |path|
  {
    && path != [] && path[0] < |ec.imports|
    && var t := ec.imports[path[0]].mname;
      if |path| == 1 then t == f else t in files && Leads(files, files[t], path[1..], f)
  }

  ghost predicate Reaches(files: Files, ec: Content, f: string) {
    exists path :: Leads(files, ec, path, f)
  }

  /** An import expression: number i of the file that is resolved, or of another. */
  datatype Expr = Expr(owner: Option<string>, i: nat)

  function Imports(files: Files, ec: Content, owner: Option<string>): seq<Import> {
    match owner
    case None => ec.imports
    case Some(g) => if g in files then files[g].imports else []
  }

  ghost predicate Owns(files: Files, ec: Content, owner: Option<string>) {
    owner.Some? ==> Reaches(files, ec, owner.value)
  }

  /** The expression is in ec or in a file that ec reaches. */
  ghost predicate Occurs(files: Files, ec: Content, x: Expr) {
    Owns(files, ec, x.owner) && x.i < |Imports(files, ec, x.owner)|
  }

  ghost function Target(files: Files, ec: Content, x: Expr): string
    requires Occurs(files, ec, x)
  {
    Imports(files, ec, x.owner)[x.i].mname
  }

  ghost predicate NamesFile(files: Files, ec: Content, x: Expr, f: string) {
    Occurs(files, ec, x) && Target(files, ec, x) == f
  }

  /** The file has imports of its own. */
  predicate Deep(files: Files, f: string) { f in files && files[f].imports != [] }

  /** At most one import expression names the file. */
  ghost predicate Once(files: Files, ec: Content, f: string) {
    forall x, y | NamesFile(files, ec, x, f) && NamesFile(files, ec, y, f) :: x == y
  }

  /** Every file is imported whole. */
  ghost predicate AllWhole(files: Files, ec: Content) {
    forall x | Occurs(files, ec, x) :: ALL in Imports(files, ec, x.owner)[x.i].flist
  }

  lemma {:induction false} Extend(files: Files, ec: Content, path: seq<nat>, g: string, i: nat)
    requires Leads(files, ec, path, g) && g in files && i < |files[g].imports|
    ensures Leads(files, ec, path + [i], files[g].imports[i].mname)
    decreases |path|
  {
    assert (path + [i])[0] == path[0] && (path + [i])[1..] == path[1..] + [i];
    if |path| > 1 {
      Extend(files, files[ec.imports[path[0]].mname], path[1..], g, i);
    } else {
      assert (path + [i])[1..] == [i];
    }
  }

  lemma TargetReached(files: Files, ec: Content, x: Expr)
    requires Occurs(files, ec, x)
    ensures Reaches(files, ec, Target(files, ec, x))
  {
    if x.owner.None? {
      assert Leads(files, ec, [x.i], Target(files, ec, x));
    } else {
      var path :| Leads(files, ec, path, x.owner.value);
      Extend(files, ec, path, x.owner.value, x.i);
    }
  }

  // ---- a run of the resolution ----

  /** What has been done when the stack has grown from first to stack: the
      expressions of done were followed, in files that are on the stack. */
  ghost predicate Traced(files: Files, ec: Content, first: seq<string>, stack: seq<string>, done: set<Expr>) {
    && (forall v | v in first :: v in stack)
    && (forall v | v in stack && v !in first :: Deep(files, v) && exists x :: x in done && NamesFile(files, ec, x, v))
    && (forall x | x in done :: Followed(files, ec, first, stack, x))
    && (forall x, y, f | x in done && y in done && Deep(files, f) && NamesFile(files, ec, x, f)
          && NamesFile(files, ec, y, f) :: x == y)
  }

  ghost predicate Followed(files: Files, ec: Content, first: seq<string>, stack: seq<string>, x: Expr) {
    && Occurs(files, ec, x) && (x.owner.Some? ==> x.owner.value in stack)
    && var f := Target(files, ec, x);
      f in files && f !in first && (Deep(files, f) ==> f in stack)
  }

  /** The owner is being gone through, from its expression i on. */
  ghost predicate Going(files: Files, ec: Content, stack: seq<string>, done: set<Expr>, owner: Option<string>, i: nat) {
    && Owns(files, ec, owner) && i <= |Imports(files, ec, owner)| && (owner.Some? ==> owner.value in stack)
    && forall j: nat | i <= j :: Expr(owner, j) !in done
  }

  /** New expressions are of the owner, from i on, or of files that are new. */
  ghost predicate Grown(stack: seq<string>, done: set<Expr>, stack': seq<string>, done': set<Expr>,
                        owner: Option<string>, i: nat) {
    && done <= done' && (forall v | v in stack :: v in stack')
    && forall x | x in done' && x !in done ::
         (x.owner == owner && x.i >= i) || (x.owner.Some? && x.owner.value !in stack)
  }

  /** All expressions of the owner from i on, and of the files that are new, were followed. */
  ghost predicate Covered(files: Files, ec: Content, stack: seq<string>, stack': seq<string>, done': set<Expr>,
                          owner: Option<string>, i: nat) {
    && (forall j: nat | i <= j < |Imports(files, ec, owner)| :: Expr(owner, j) in done')
    && (forall v, j: nat | v in stack' && v !in stack && v in files && j < |files[v].imports| ::
          Expr(Some(v), j) in done')
  }

  /** Why resolution fails: a file on the first stack, or one with imports that a
      second expression names; a file that is not there; or, unless all files are
      imported whole, a function that is not there. */
  ghost predicate Explained(files: Files, ec: Content, first: seq<string>, failure: Failure, whole: bool) {
    match failure
    case Circular(f) => Reaches(files, ec, f) && (f in first || (Deep(files, f) && !Once(files, ec, f)))
    case NoFile(f) => Reaches(files, ec, f) && f !in files
    case NotFound(_) => !whole
  }

  ghost predicate Outcome(files: Files, ec: Content, first: seq<string>, stack: seq<string>, done: set<Expr>,
                          done': set<Expr>, owner: Option<string>, i: nat, whole: bool,
                          r: Result<(Content, seq<string>)>) {
    if r.Err? then Explained(files, ec, first, r.error, whole)
    else
      && Traced(files, ec, first, r.value.1, done') && Grown(stack, done, r.value.1, done', owner, i)
      && (whole ==> Covered(files, ec, stack, r.value.1, done', owner, i))
  }

  /** A file that may not be read. */
  lemma ParseFails(files: Files, ec: Content, first: seq<string>, stack: seq<string>, done: set<Expr>, x: Expr,
                   whole: bool)
    requires Traced(files, ec, first, stack, done) && Occurs(files, ec, x) && x !in done
    requires Parse(files, stack, Target(files, ec, x)).Err?
    ensures Explained(files, ec, first, Parse(files, stack, Target(files, ec, x)).error, whole)
  {
    var f := Target(files, ec, x);
    TargetReached(files, ec, x);
    if f in stack && f !in first {
      var y :| y in done && NamesFile(files, ec, y, f);
      assert NamesFile(files, ec, x, f);
    }
  }

  /** One expression more is followed, and its file read. */
  lemma ParseTraced(files: Files, ec: Content, first: seq<string>, stack: seq<string>, done: set<Expr>, x: Expr)
    requires Traced(files, ec, first, stack, done) && Occurs(files, ec, x)
    requires x.owner.Some? ==> x.owner.value in stack
    requires Parse(files, stack, Target(files, ec, x)).Ok?
    ensures Traced(files, ec, first, Parse(files, stack, Target(files, ec, x)).value.1, done + {x})
  {
    var f := Target(files, ec, x);
    var stack' := Parse(files, stack, f).value.1;
    assert NamesFile(files, ec, x, f) && forall v :: v in stack' <==> v in stack || (v == f && Deep(files, f));
    forall v | v in stack' && v !in first
      ensures Deep(files, v) && exists y :: y in done + {x} && NamesFile(files, ec, y, v)
    {
      if v in stack {
        var y :| y in done && NamesFile(files, ec, y, v);
        assert y in done + {x};
      } else {
        assert x in done + {x};
      }
    }
    forall y | y in done + {x} ensures Followed(files, ec, first, stack', y) {
      if y != x {
        assert Followed(files, ec, first, stack, y);
      }
    }
    forall y, z, g | y in done + {x} && z in done + {x} && Deep(files, g) && NamesFile(files, ec, y, g)
        && NamesFile(files, ec, z, g)
      ensures y == z
    {
      assert y in done ==> Followed(files, ec, first, stack, y);
      assert z in done ==> Followed(files, ec, first, stack, z);
    }
  }

  lemma {:induction false} ImportTraced(files: Files, ec: Content, first: seq<string>, stack: seq<string>,
      done: set<Expr>, funcs: seq<string>, owner: Option<string>, cur: Content)
    returns (done': set<Expr>)
    requires Traced(files, ec, first, stack, done) && Going(files, ec, stack, done, owner, 0)
    requires cur.imports == Imports(files, ec, owner)
    ensures Outcome(files, ec, first, stack, done, done', owner, 0, ALL in funcs && AllWhole(files, ec),
                    ImportFuncs(files, stack, funcs, cur))
    decreases |Unread(files, stack)|, |cur.imports|, 1
  {
    hide Traced, Going, AllWhole;
    done' := done;
    if ALL in funcs {
      done' := FoldTraced(files, ec, first, stack, done, [], owner, 0, cur);
    } else {
      var x := Missing(funcs, Names(cur));
      if x != [] && cur.imports != [] {
        done' := FoldTraced(files, ec, first, stack, done, x, owner, 0, Wanted(funcs, cur));
      }
    }
    assert cur.imports[0..] == cur.imports;
  }

  lemma {:induction false} FoldTraced(files: Files, ec: Content, first: seq<string>, stack: seq<string>,
      done: set<Expr>, wanted: seq<string>, owner: Option<string>, i: nat, acc: Content)
    returns (done': set<Expr>)
    requires Traced(files, ec, first, stack, done) && Going(files, ec, stack, done, owner, i)
    ensures Outcome(files, ec, first, stack, done, done', owner, i, wanted == [] && AllWhole(files, ec),
                    FoldImports(files, stack, wanted, Imports(files, ec, owner)[i..], acc))
    decreases |Unread(files, stack)|, |Imports(files, ec, owner)| - i, 0
  {
    hide Traced, AllWhole, FoldImports, ImportFuncs, Explained, Grown, Covered;
    var imports := Imports(files, ec, owner);
    var whole := wanted == [] && AllWhole(files, ec);
    done' := done;
    if i == |imports| {
      FoldEnds(files, stack, wanted, acc);
      assert imports[i..] == [];
      NothingGrown(files, ec, stack, done, owner, i);
      return;
    }
    FoldTurn(files, stack, wanted, imports, i, acc);
    var x, f := Expr(owner, i), imports[i].mname;
    var next := Parse(files, stack, f);
    if next.Err? {
      ParseFails(files, ec, first, stack, done, x, whole);
      return;
    }
    ParseTraced(files, ec, first, stack, done, x);
    FewerUnread(Unread(files, next.value.1), Unread(files, stack));
    var funcs := if wanted == [] then imports[i].flist else wanted;
    var got := ImportFuncs(files, next.value.1, funcs, next.value.0);
    WholeTurn(files, ec, x, wanted);
    var sub := done + {x};
    if Deep(files, f) {
      GoesInto(files, ec, first, stack, done, x);
      sub := ImportTraced(files, ec, first, next.value.1, sub, funcs, Some(f), next.value.0);
    } else {
      LeafImport(files, next.value.1, funcs, next.value.0);
    }
    if got.Err? {
      LeafFails(files, ec, first, got.error, whole, Deep(files, f), funcs);
      return;
    }
    FewerUnread(Unread(files, got.value.1), Unread(files, stack));
    if !Deep(files, f) {
      LeafGrown(files, ec, stack, done, x, f);
    } else {
      DeepGrown(files, ec, stack, next.value.1, got.value.1, done, sub, x, f, ALL in funcs && AllWhole(files, ec));
    }
    StillGoing(files, ec, stack, got.value.1, done, sub, owner, i);
    done' := FoldTraced(files, ec, first, got.value.1, sub, wanted, owner, i + 1, Combine(acc, got.value.0));
    var r := FoldImports(files, got.value.1, wanted, imports[i + 1..], Combine(acc, got.value.0));
    if r.Ok? {
      GrownJoin(stack, done, got.value.1, sub, r.value.1, done', owner, i);
      if whole {
        CoveredJoin(files, ec, stack, done, got.value.1, sub, r.value.1, done', owner, i);
      }
    }
  }

  lemma NothingGrown(files: Files, ec: Content, stack: seq<string>, done: set<Expr>, owner: Option<string>, i: nat)
    ensures Grown(stack, done, stack, done, owner, i)
    ensures i == |Imports(files, ec, owner)| ==> Covered(files, ec, stack, stack, done, owner, i)
  {
  }

  lemma WholeTurn(files: Files, ec: Content, x: Expr, wanted: seq<string>)
    requires Occurs(files, ec, x)
    ensures wanted == [] && AllWhole(files, ec) ==>
              ALL in if wanted == [] then Imports(files, ec, x.owner)[x.i].flist else wanted
  {
  }

  lemma GoesInto(files: Files, ec: Content, first: seq<string>, stack: seq<string>, done: set<Expr>, x: Expr)
    requires Traced(files, ec, first, stack, done) && Occurs(files, ec, x)
    requires x.owner.Some? ==> x.owner.value in stack
    requires var f := Target(files, ec, x); Deep(files, f) && f !in stack
    ensures var f := Target(files, ec, x); Going(files, ec, [f] + stack, done + {x}, Some(f), 0)
  {
    var f := Target(files, ec, x);
    TargetReached(files, ec, x);
    forall j: nat ensures Expr(Some(f), j) !in done + {x} {
      assert Expr(Some(f), j) in done ==> Followed(files, ec, first, stack, Expr(Some(f), j));
    }
  }

  lemma LeafImport(files: Files, stack: seq<string>, funcs: seq<string>, cur: Content)
    requires cur.imports == []
    ensures var r := ImportFuncs(files, stack, funcs, cur);
            if r.Ok? then r.value.1 == stack else r.error.NotFound? && ALL !in funcs
  {
  }

  lemma LeafFails(files: Files, ec: Content, first: seq<string>, failure: Failure, whole: bool, deep: bool,
                  funcs: seq<string>)
    requires whole ==> ALL in funcs && AllWhole(files, ec)
    requires if deep then Explained(files, ec, first, failure, ALL in funcs && AllWhole(files, ec))
             else failure.NotFound? && ALL !in funcs
    ensures Explained(files, ec, first, failure, whole)
  {
  }

  /** What one turn of the fold has done. */
  ghost predicate Turned(files: Files, stack: seq<string>, stack2: seq<string>, done: set<Expr>, sub: set<Expr>,
                         x: Expr, whole: bool) {
    && done + {x} <= sub && (forall v | v in stack :: v in stack2)
    && (forall y | y in sub && y !in done && y != x :: y.owner.Some? && y.owner.value !in stack)
    && (whole ==> forall v, j: nat | v in stack2 && v !in stack && v in files && j < |files[v].imports| ::
          Expr(Some(v), j) in sub)
  }

  lemma LeafGrown(files: Files, ec: Content, stack: seq<string>, done: set<Expr>, x: Expr, f: string)
    ensures Turned(files, stack, stack, done, done + {x}, x, true)
  {
  }

  lemma DeepGrown(files: Files, ec: Content, stack: seq<string>, stack1: seq<string>, stack2: seq<string>,
                  done: set<Expr>, sub: set<Expr>, x: Expr, f: string, whole: bool)
    requires stack1 == [f] + stack && f in files && f !in stack
    requires Grown(stack1, done + {x}, stack2, sub, Some(f), 0)
    requires whole ==> Covered(files, ec, stack1, stack2, sub, Some(f), 0)
    ensures Turned(files, stack, stack2, done, sub, x, whole)
  {
    forall v | v in stack ensures v in stack2 {
      assert v in stack1;
    }
    forall y | y in sub && y !in done && y != x ensures y.owner.Some? && y.owner.value !in stack {
      assert y !in done + {x};
    }
  }

  lemma StillGoing(files: Files, ec: Content, stack: seq<string>, stack2: seq<string>, done: set<Expr>,
                   sub: set<Expr>, owner: Option<string>, i: nat)
    requires Going(files, ec, stack, done, owner, i) && i < |Imports(files, ec, owner)|
    requires Turned(files, stack, stack2, done, sub, Expr(owner, i), false)
    ensures Going(files, ec, stack2, sub, owner, i + 1)
  {
    forall j: nat | i + 1 <= j ensures Expr(owner, j) !in sub {
      assert Expr(owner, j) !in done;
    }
  }

  lemma GrownJoin(stack: seq<string>, done: set<Expr>, stack2: seq<string>, sub: set<Expr>, stack3: seq<string>,
                  done': set<Expr>, owner: Option<string>, i: nat)
    requires Grown(stack2, sub, stack3, done', owner, i + 1)
    requires done + {Expr(owner, i)} <= sub && (forall v | v in stack :: v in stack2)
    requires forall y | y in sub && y !in done && y != Expr(owner, i) :: y.owner.Some? && y.owner.value !in stack
    ensures Grown(stack, done, stack3, done', owner, i)
    ensures sub <= done'
  {
    forall x | x in done' && x !in done
      ensures (x.owner == owner && x.i >= i) || (x.owner.Some? && x.owner.value !in stack)
    {
      if x !in sub && x.owner.Some? && x.owner != owner {
        assert x.owner.value !in stack2;
      }
    }
  }

  lemma CoveredJoin(files: Files, ec: Content, stack: seq<string>, done: set<Expr>, stack2: seq<string>,
                    sub: set<Expr>, stack3: seq<string>, done': set<Expr>, owner: Option<string>, i: nat)
    requires Turned(files, stack, stack2, done, sub, Expr(owner, i), true) && sub <= done'
    requires Covered(files, ec, stack2, stack3, done', owner, i + 1)
    ensures Covered(files, ec, stack, stack3, done', owner, i)
  {
    assert Expr(owner, i) in done + {Expr(owner, i)};
    forall v, j: nat | v in stack3 && v !in stack && v in files && j < |files[v].imports|
      ensures Expr(Some(v), j) in done'
    {
      if v in stack2 {
        assert Expr(Some(v), j) in sub;
      }
    }
  }

  // ---- when resolution succeeds ----

  /** Every file that ec reaches is there and is not the root, and, if it has
      imports of its own, is named by a single import expression. */
  ghost predicate Resolvable(files: Files, root: string, ec: Content) {
    forall f | Reaches(files, ec, f) :: f in files && f != root && (Deep(files, f) ==> Once(files, ec, f))
  }

  lemma StartTraced(files: Files, root: string, ec: Content)
    ensures Traced(files, ec, [root], [root], {}) && Going(files, ec, [root], {}, None, 0)
  {
  }

  /** A file that the resolution of ec has dealt with. */
  predicate Good(files: Files, root: string, read: seq<string>, f: string) {
    f in files && f != root && (Deep(files, f) ==> f in read)
  }

  lemma {:induction false} GoodPath(files: Files, root: string, read: seq<string>, cur: Content, path: seq<nat>,
      f: string)
    requires forall i | 0 <= i < |cur.imports| :: Good(files, root, read, cur.imports[i].mname)
    requires forall g, i | g in read && g != root && g in files && 0 <= i < |files[g].imports| ::
               Good(files, root, read, files[g].imports[i].mname)
    requires Leads(files, cur, path, f)
    ensures Good(files, root, read, f)
    decreases |path|
  {
    if |path| > 1 {
      GoodPath(files, root, read, files[cur.imports[path[0]].mname], path[1..], f);
    }
  }

  lemma ReadIsResolvable(files: Files, root: string, ec: Content, read: seq<string>, done: set<Expr>)
    requires Traced(files, ec, [root], read, done) && Covered(files, ec, [root], read, done, None, 0)
    ensures Resolvable(files, root, ec)
  {
    forall i | 0 <= i < |ec.imports| ensures Good(files, root, read, ec.imports[i].mname) {
      assert Followed(files, ec, [root], read, Expr(None, i));
    }
    forall g, i: nat | g in read && g != root && g in files && i < |files[g].imports|
      ensures Good(files, root, read, files[g].imports[i].mname)
    {
      assert Followed(files, ec, [root], read, Expr(Some(g), i));
    }
    forall f | Reaches(files, ec, f) ensures Good(files, root, read, f) {
      var path :| Leads(files, ec, path, f);
      GoodPath(files, root, read, ec, path, f);
    }
    forall x | Occurs(files, ec, x) ensures x in done {
      assert x.owner.Some? ==> Good(files, root, read, x.owner.value);
    }
  }

  /** When every file is imported whole, resolution succeeds exactly when every file
      that is reached is there, is not the file that resolution has started from,
      and, if it has imports of its own, is named by a single import expression. */
  lemma WholeResolves(files: Files, root: string, ec: Content)
    requires AllWhole(files, ec)
    ensures ImportFuncs(files, [root], [ALL], ec).Ok? <==> Resolvable(files, root, ec)
  {
    hide ImportFuncs, Traced, Covered, AllWhole, Resolvable;
    StartTraced(files, root, ec);
    var done := ImportTraced(files, ec, [root], [root], {}, [ALL], None, ec);
    var r := ImportFuncs(files, [root], [ALL], ec);
    if r.Ok? {
      ReadIsResolvable(files, root, ec, r.value.1, done);
    } else {
      NotResolvable(files, root, ec, r.error);
    }
  }

  lemma NotResolvable(files: Files, root: string, ec: Content, failure: Failure)
    requires Explained(files, ec, [root], failure, true)
    ensures !Resolvable(files, root, ec)
  {
  }

  /** Whatever is imported by name: a file is called circular only if it is the one
      that resolution has started from, or has imports and is named by two import
      expressions; and a file is called missing only if it is reached and missing. */
  lemma FailureExplained(files: Files, root: string, funcs: seq<string>, ec: Content)
    requires ImportFuncs(files, [root], funcs, ec).Err?
    ensures Explained(files, ec, [root], ImportFuncs(files, [root], funcs, ec).error,
                      ALL in funcs && AllWhole(files, ec))
  {
    hide ImportFuncs, Traced, AllWhole;
    StartTraced(files, root, ec);
    var done := ImportTraced(files, ec, [root], [root], {}, funcs, None, ec);
  }

  // ---- what it gives ----

  /** The function n is declared at the end of a path of whole imports, or named by
      the import expression there. */
  predicate GivenAt(files: Files, ec: Content, path: seq<nat>, n: string)
    decreases |path|
  {
    if path == [] then Declares(ec, n)
    else
      && path[0] < |ec.imports|
      && var x := ec.imports[path[0]];
        if ALL in x.flist then x.mname in files && GivenAt(files, files[x.mname], path[1..], n)
        else |path| == 1 && n in x.flist
  }

  ghost predicate Given(files: Files, ec: Content, n: string) {
    exists path :: GivenAt(files, ec, path, n)
  }

  /** What one import expression gives. */
  ghost predicate GivenBy(files: Files, x: Import, n: string) {
    if ALL in x.flist then x.mname in files && Given(files, files[x.mname], n) else n in x.flist
  }

  lemma GivenUnfolds(files: Files, ec: Content, n: string)
    ensures Given(files, ec, n)
       <==> Declares(ec, n) || exists i :: 0 <= i < |ec.imports| && GivenBy(files, ec.imports[i], n)
  {
    if Given(files, ec, n) {
      var path :| GivenAt(files, ec, path, n);
      if path != [] {
        var x := ec.imports[path[0]];
        assert ALL in x.flist ==> GivenAt(files, files[x.mname], path[1..], n);
        assert GivenBy(files, x, n);
      }
    }
    if Declares(ec, n) {
      assert GivenAt(files, ec, [], n);
    }
    forall i: nat | i < |ec.imports| && GivenBy(files, ec.imports[i], n) ensures Given(files, ec, n) {
      var x := ec.imports[i];
      if ALL in x.flist {
        var path :| GivenAt(files, files[x.mname], path, n);
        assert ([i] + path)[1..] == path;
        assert GivenAt(files, ec, [i] + path, n);
      } else {
        assert GivenAt(files, ec, [i], n);
      }
    }
  }

  /** Importing a file whole gives, by name, its own functions, those that its
      imports name, and those of the files that it imports whole, and no other. */
  lemma {:induction false} WholeExactly(files: Files, stack: seq<string>, ec: Content, n: string)
    requires ImportFuncs(files, stack, [ALL], ec).Ok?
    ensures Declares(ImportFuncs(files, stack, [ALL], ec).value.0, n) <==> Given(files, ec, n)
    decreases |Unread(files, stack)|, |ec.imports|, 1
  {
    hide Given, GivenBy;
    assert ec.imports[0..] == ec.imports;
    FoldExactly(files, stack, ec.imports, 0, ec, n);
    GivenUnfolds(files, ec, n);
    NamesDeclared(ec, n);
    NamesDeclared(ImportFuncs(files, stack, [ALL], ec).value.0, n);
  }

  lemma {:induction false} FoldExactly(files: Files, stack: seq<string>, imports: seq<Import>, i: nat, acc: Content,
      n: string)
    requires i <= |imports| && FoldImports(files, stack, [], imports[i..], acc).Ok?
    ensures n in Names(FoldImports(files, stack, [], imports[i..], acc).value.0)
       <==> n in Names(acc) || exists j :: i <= j < |imports| && GivenBy(files, imports[j], n)
    decreases |Unread(files, stack)|, |imports| - i, 0
  {
    hide FoldImports, ImportFuncs, Given, GivenBy;
    if i == |imports| {
      FoldEnds(files, stack, [], acc);
      assert imports[i..] == [];
      return;
    }
    FoldTurn(files, stack, [], imports, i, acc);
    var x := imports[i];
    var next := Parse(files, stack, x.mname);
    var got := ImportFuncs(files, next.value.1, x.flist, next.value.0);
    FewerUnread(Unread(files, next.value.1), Unread(files, stack));
    FewerUnread(Unread(files, got.value.1), Unread(files, stack));
    ImportGives(files, next.value.1, x, next.value.0, n);
    CombineNames(acc, got.value.0);
    FoldExactly(files, got.value.1, imports, i + 1, Combine(acc, got.value.0), n);
  }

  lemma {:induction false} ImportGives(files: Files, stack: seq<string>, x: Import, cur: Content, n: string)
    requires ImportFuncs(files, stack, x.flist, cur).Ok? && x.mname in files && cur == files[x.mname]
    ensures n in Names(ImportFuncs(files, stack, x.flist, cur).value.0) <==> GivenBy(files, x, n)
    decreases |Unread(files, stack)|, |cur.imports|, 2
  {
    hide Given;
    if ALL in x.flist {
      assert ImportFuncs(files, stack, x.flist, cur) == ImportFuncs(files, stack, [ALL], cur);
      WholeExactly(files, stack, cur, n);
      NamesDeclared(ImportFuncs(files, stack, [ALL], cur).value.0, n);
    } else {
      NamedExactly(files, stack, x.flist, cur);
    }
  }
}
