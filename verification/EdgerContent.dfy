// What the resolution of imports gives, declaration by declaration.
module EdgerContent {
  import opened EdgerImport

  type Files = map<string, Content>

  /** A part of an interface: a declaration of a trusted or an untrusted function,
      a component, or a header to include. */
  datatype Item = Trusted(f: Func) | Untrusted(f: Func) | Component(c: int) | Include(header: string)

  predicate Has(ec: Content, x: Item) {
    match x
    case Trusted(f) => f in ec.tfuncs
    case Untrusted(f) => f in ec.ufuncs
    case Component(c) => c in ec.comps
    case Include(header) => header in ec.includes
  }

  /** Everything is asked for, or functions by their names. */
  predicate Asked(wanted: set<string>, x: Item) {
    ALL in wanted || ((x.Trusted? || x.Untrusted?) && x.f.fname in wanted)
  }

  /** What is asked of the file that x names: what x lists, when all of ec is asked
      for, and else those of the wanted functions that ec does not declare. */
  ghost function Onward(ec: Content, wanted: set<string>, x: Import): set<string> {
    if ALL in wanted then SetOf(x.flist) else set n | n in wanted && !Declares(ec, n)
  }

  /** The item is at the end of a path of import expressions, and asked for there. */
  ghost predicate ItemAt(files: Files, ec: Content, wanted: set<string>, path: seq<nat>, x: Item)
    decreases |path|, 0
  {
    if path == [] then Has(ec, x) && Asked(wanted, x)
    else path[0] < |ec.imports| && ItemBy(files, ec, wanted, ec.imports[path[0]], path[1..], x)
  }

  ghost predicate ItemBy(files: Files, ec: Content, wanted: set<string>, i: Import, path: seq<nat>, x: Item)
    decreases |path|, 1
  {
    var next := Onward(ec, wanted, i);
    (ALL in wanted || next != {}) && i.mname in files && ItemAt(files, files[i.mname], next, path, x)
  }

  ghost predicate Gets(files: Files, ec: Content, wanted: set<string>, x: Item) {
    exists path :: ItemAt(files, ec, wanted, path, x)
  }

  /** What one import expression of ec gives. */
  ghost predicate GetsBy(files: Files, ec: Content, wanted: set<string>, i: Import, x: Item) {
    exists path :: ItemBy(files, ec, wanted, i, path, x)
  }

  lemma GetsUnfolds(files: Files, ec: Content, wanted: set<string>, x: Item)
    ensures Gets(files, ec, wanted, x)
       <==> (Has(ec, x) && Asked(wanted, x))
            || exists i :: 0 <= i < |ec.imports| && GetsBy(files, ec, wanted, ec.imports[i], x)
  {
    hide ItemBy, Has, Asked;
    if Gets(files, ec, wanted, x) {
      var path :| ItemAt(files, ec, wanted, path, x);
      assert path != [] ==> ItemBy(files, ec, wanted, ec.imports[path[0]], path[1..], x);
    }
    if Has(ec, x) && Asked(wanted, x) {
      assert ItemAt(files, ec, wanted, [], x);
    }
    forall i: nat | i < |ec.imports| && GetsBy(files, ec, wanted, ec.imports[i], x) ensures Gets(files, ec, wanted, x) {
      var path :| ItemBy(files, ec, wanted, ec.imports[i], path, x);
      assert ([i] + path)[1..] == path;
      assert ItemAt(files, ec, wanted, [i] + path, x);
    }
  }

  lemma GetsByIs(files: Files, ec: Content, wanted: set<string>, i: Import, x: Item)
    ensures GetsBy(files, ec, wanted, i, x)
       <==> (ALL in wanted || Onward(ec, wanted, i) != {}) && i.mname in files
            && Gets(files, files[i.mname], Onward(ec, wanted, i), x)
  {
    hide ItemAt, Onward;
    if i.mname in files && Gets(files, files[i.mname], Onward(ec, wanted, i), x) {
      var path :| ItemAt(files, files[i.mname], Onward(ec, wanted, i), path, x);
      assert (ALL in wanted || Onward(ec, wanted, i) != {}) ==> ItemBy(files, ec, wanted, i, path, x);
    }
    if GetsBy(files, ec, wanted, i, x) {
      var path :| ItemBy(files, ec, wanted, i, path, x);
      assert ItemAt(files, files[i.mname], Onward(ec, wanted, i), path, x);
    }
  }

  lemma CombineHas(a: Content, b: Content, x: Item)
    ensures Has(Combine(a, b), x) <==> Has(a, x) || Has(b, x)
  {
  }

  lemma WantedHas(funcs: seq<string>, ec: Content, x: Item)
    requires ALL !in funcs
    ensures Has(Wanted(funcs, ec), x) <==> Has(ec, x) && Asked(SetOf(funcs), x)
  {
  }

  lemma MissingIs(funcs: seq<string>, ec: Content, i: Import)
    requires ALL !in funcs
    ensures SetOf(Missing(funcs, Names(ec))) == Onward(ec, SetOf(funcs), i)
  {
    hide Names, Declares;
    forall n ensures n in SetOf(Missing(funcs, Names(ec))) <==> n in Onward(ec, SetOf(funcs), i) {
      NamesDeclared(ec, n);
    }
  }

  /** When the functions funcs are imported from ec, or all of it, and resolution
      succeeds, the result has exactly the trusted functions, untrusted functions,
      components and headers that are asked for at the end of a path of import
      expressions, each as what it is declared there. */
  lemma {:induction false} ImportItems(files: Files, stack: seq<string>, funcs: seq<string>, ec: Content, x: Item)
    requires ImportFuncs(files, stack, funcs, ec).Ok?
    ensures Has(ImportFuncs(files, stack, funcs, ec).value.0, x) <==> Gets(files, ec, SetOf(funcs), x)
    decreases |Unread(files, stack)|, |ec.imports|, 2
  {
    hide Gets, GetsBy, Has, Asked, Onward;
    GetsUnfolds(files, ec, SetOf(funcs), x);
    assert ec.imports[0..] == ec.imports;
    if ALL in funcs {
      AllAsked(SetOf(funcs), x);
      forall i: nat | i < |ec.imports|
        ensures GetsBy(files, ec, SetOf(funcs), ec.imports[i], x)
           <==> TurnGets(files, TurnAsks([], ec.imports[i]), ec.imports[i], x)
      {
        GetsByIs(files, ec, SetOf(funcs), ec.imports[i], x);
        OnwardAll(ec, SetOf(funcs), ec.imports[i]);
      }
      FoldItems(files, stack, [], ec.imports, 0, ec, x);
    } else {
      NamedItems(files, stack, funcs, ec, x);
    }
  }

  lemma AllAsked(wanted: set<string>, x: Item)
    requires ALL in wanted
    ensures Asked(wanted, x)
  {
  }

  lemma OnwardAll(ec: Content, wanted: set<string>, i: Import)
    requires ALL in wanted
    ensures Onward(ec, wanted, i) == SetOf(i.flist)
  {
  }

  lemma {:induction false} NamedItems(files: Files, stack: seq<string>, funcs: seq<string>, ec: Content, x: Item)
    requires ALL !in funcs && ImportFuncs(files, stack, funcs, ec).Ok?
    ensures Has(ImportFuncs(files, stack, funcs, ec).value.0, x)
       <==> (Has(ec, x) && Asked(SetOf(funcs), x))
            || exists i :: 0 <= i < |ec.imports| && GetsBy(files, ec, SetOf(funcs), ec.imports[i], x)
    decreases |Unread(files, stack)|, |ec.imports|, 1
  {
    hide Gets, GetsBy, Has, Asked, Onward;
    var missing := Missing(funcs, Names(ec));
    WantedHas(funcs, ec, x);
    assert ec.imports[0..] == ec.imports;
    forall i: nat | i < |ec.imports|
      ensures GetsBy(files, ec, SetOf(funcs), ec.imports[i], x)
         <==> missing != [] && TurnGets(files, TurnAsks(missing, ec.imports[i]), ec.imports[i], x)
    {
      GetsByIs(files, ec, SetOf(funcs), ec.imports[i], x);
      MissingIs(funcs, ec, ec.imports[i]);
      assert missing != [] ==> missing[0] in SetOf(missing);
    }
    if missing != [] {
      FoldItems(files, stack, missing, ec.imports, 0, Wanted(funcs, ec), x);
    }
  }

  /** What one turn of the fold asks for, and gives. */
  function TurnAsks(wanted: seq<string>, i: Import): set<string> { SetOf(if wanted == [] then i.flist else wanted) }

  ghost predicate TurnGets(files: Files, asked: set<string>, i: Import, x: Item) {
    i.mname in files && Gets(files, files[i.mname], asked, x)
  }

  lemma {:induction false} FoldItems(files: Files, stack: seq<string>, wanted: seq<string>, imports: seq<Import>,
      i: nat, acc: Content, x: Item)
    requires i <= |imports| && FoldImports(files, stack, wanted, imports[i..], acc).Ok?
    ensures Has(FoldImports(files, stack, wanted, imports[i..], acc).value.0, x)
       <==> Has(acc, x)
            || exists j :: i <= j < |imports| && TurnGets(files, TurnAsks(wanted, imports[j]), imports[j], x)
    decreases |Unread(files, stack)|, |imports| - i, 0
  {
    hide FoldImports, ImportFuncs, Gets, Has;
    if i == |imports| {
      FoldEnds(files, stack, wanted, acc);
      assert imports[i..] == [];
      return;
    }
    FoldTurn(files, stack, wanted, imports, i, acc);
    var next := Parse(files, stack, imports[i].mname);
    var funcs := if wanted == [] then imports[i].flist else wanted;
    var got := ImportFuncs(files, next.value.1, funcs, next.value.0);
    FewerUnread(Unread(files, next.value.1), Unread(files, stack));
    FewerUnread(Unread(files, got.value.1), Unread(files, stack));
    ImportItems(files, next.value.1, funcs, next.value.0, x);
    CombineHas(acc, got.value.0, x);
    FoldItems(files, got.value.1, wanted, imports, i + 1, Combine(acc, got.value.0), x);
  }

  /** Everything of a is at the front of b's lists, in its order. */
  predicate StartsWith(b: Content, a: Content) {
    a.includes <= b.includes && a.comps <= b.comps && a.tfuncs <= b.tfuncs && a.ufuncs <= b.ufuncs
  }

  /** What a file that is imported whole has itself comes first. */
  lemma {:induction false} OwnFirst(files: Files, stack: seq<string>, wanted: seq<string>, imports: seq<Import>,
      acc: Content)
    requires FoldImports(files, stack, wanted, imports, acc).Ok?
    ensures StartsWith(FoldImports(files, stack, wanted, imports, acc).value.0, acc)
    ensures FoldImports(files, stack, wanted, imports, acc).value.0.imports == if imports == [] then acc.imports else []
    decreases |imports|
  {
    if imports != [] {
      var next := Parse(files, stack, imports[0].mname);
      var funcs := if wanted == [] then imports[0].flist else wanted;
      var got := ImportFuncs(files, next.value.1, funcs, next.value.0);
      hide ImportFuncs;
      OwnFirst(files, got.value.1, wanted, imports[1..], Combine(acc, got.value.0));
    }
  }

  /** The result has no imports left, and begins with what a file that is imported
      whole has itself. */
  lemma NothingLeft(files: Files, stack: seq<string>, funcs: seq<string>, ec: Content)
    requires ImportFuncs(files, stack, funcs, ec).Ok?
    ensures ImportFuncs(files, stack, funcs, ec).value.0.imports == []
    ensures ALL in funcs ==> StartsWith(ImportFuncs(files, stack, funcs, ec).value.0, ec)
  {
    hide FoldImports, StartsWith;
    if ALL in funcs {
      OwnFirst(files, stack, [], ec.imports, ec);
    } else {
      var x := Missing(funcs, Names(ec));
      if x != [] && ec.imports != [] {
        OwnFirst(files, stack, x, ec.imports, Wanted(funcs, ec));
      }
    }
  }

  // ---- a function that is not found ----

  /** From a file without imports it is the first one asked for that is not there. */
  lemma FirstMissing(files: Files, stack: seq<string>, funcs: seq<string>, ec: Content) returns (i: nat)
    requires ec.imports == [] && ImportFuncs(files, stack, funcs, ec).Err?
    ensures i < |funcs| && ImportFuncs(files, stack, funcs, ec) == Err(NotFound(funcs[i])) && !Declares(ec, funcs[i])
    ensures forall j | 0 <= j < i :: Declares(ec, funcs[j])
  {
    hide Declares;
    i := FirstOf(funcs, ec);
  }

  lemma {:induction false} FirstOf(funcs: seq<string>, ec: Content) returns (i: nat)
    requires Missing(funcs, Names(ec)) != []
    ensures i < |funcs| && Missing(funcs, Names(ec))[0] == funcs[i] && !Declares(ec, funcs[i])
    ensures forall j | 0 <= j < i :: Declares(ec, funcs[j])
    decreases |funcs|
  {
    hide Declares, Names;
    NamesDeclared(ec, funcs[0]);
    i := 0;
    if funcs[0] in Names(ec) {
      var k := FirstOf(funcs[1..], ec);
      i := k + 1;
      forall j | 0 <= j < i ensures Declares(ec, funcs[j]) {
        assert j > 0 ==> funcs[j] == funcs[1..][j - 1] && Declares(ec, funcs[1..][j - 1]);
      }
    }
  }

  /** An import expression of ec or of some file names the function. */
  ghost predicate Listed(files: Files, ec: Content, n: string) {
    || (exists i :: 0 <= i < |ec.imports| && n in ec.imports[i].flist)
    || (exists f, i :: f in files && 0 <= i < |files[f].imports| && n in files[f].imports[i].flist)
  }

  /** A file without imports, from which the function was wanted, does not declare it. */
  ghost predicate Lacking(files: Files, ec: Content, n: string) {
    || (ec.imports == [] && !Declares(ec, n))
    || (exists f :: f in files && files[f].imports == [] && !Declares(files[f], n))
  }

  ghost predicate MissingWell(files: Files, funcs: seq<string>, ec: Content, failure: Failure) {
    failure.NotFound? ==>
      && failure.func != ALL && (failure.func in funcs || Listed(files, ec, failure.func))
      && Lacking(files, ec, failure.func)
  }

  /** A function is reported as not found only if it is imported by name and a file
      that it was wanted from has neither a declaration of it nor imports. */
  lemma {:induction false} NotFoundMeans(files: Files, stack: seq<string>, funcs: seq<string>, ec: Content)
    requires ImportFuncs(files, stack, funcs, ec).Err?
    ensures MissingWell(files, funcs, ec, ImportFuncs(files, stack, funcs, ec).error)
    decreases |Unread(files, stack)|, |ec.imports|, 1
  {
    assert ec.imports[0..] == ec.imports;
    if ALL in funcs {
      FoldNotFound(files, stack, [], ec.imports, 0, ec, ec, funcs);
    } else {
      var x := Missing(funcs, Names(ec));
      assert x != [] ==> x[0] in x;
      if x != [] && ec.imports == [] {
        NamesDeclared(ec, x[0]);
      } else if x != [] {
        FoldNotFound(files, stack, x, ec.imports, 0, Wanted(funcs, ec), ec, funcs);
      }
    }
  }

  lemma {:induction false} FoldNotFound(files: Files, stack: seq<string>, wanted: seq<string>, imports: seq<Import>,
      i: nat, acc: Content, ec: Content, funcs: seq<string>)
    requires imports == ec.imports && i <= |imports| && FoldImports(files, stack, wanted, imports[i..], acc).Err?
    requires forall n | n in wanted :: n in funcs
    ensures MissingWell(files, funcs, ec, FoldImports(files, stack, wanted, imports[i..], acc).error)
    decreases |Unread(files, stack)|, |imports| - i, 0
  {
    hide FoldImports, ImportFuncs, Declares;
    assert i == |imports| ==> imports[i..] == [];
    FoldEnds(files, stack, wanted, acc);
    if i == |imports| {
      return;
    }
    FoldTurn(files, stack, wanted, imports, i, acc);
    var next := Parse(files, stack, imports[i].mname);
    if next.Ok? {
      FewerUnread(Unread(files, next.value.1), Unread(files, stack));
      var asks := if wanted == [] then imports[i].flist else wanted;
      var got := ImportFuncs(files, next.value.1, asks, next.value.0);
      if got.Err? {
        NotFoundMeans(files, next.value.1, asks, next.value.0);
      } else {
        FewerUnread(Unread(files, got.value.1), Unread(files, stack));
        FoldNotFound(files, got.value.1, wanted, imports, i + 1, Combine(acc, got.value.0), ec, funcs);
      }
    }
  }
}
