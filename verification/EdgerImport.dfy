// How the edge-routine generator resolves the import expressions of an
// interface file: recursively, with a stack of the files it is in.
module EdgerImport {

  /** import_decl: a file, and the functions wanted from it. */
  datatype Import = Import(mname: string, flist: seq<string>)

  /** A function declaration, as far as resolution looks at it. */
  datatype Func = Func(fname: string, decl: int)

  /** enclave_content. */
  datatype Content = Content(includes: seq<string>, imports: seq<Import>, comps: seq<int>, tfuncs: seq<Func>,
    ufuncs: seq<Func>)

  /** The exceptions that end the generator. */
  datatype Failure = Circular(file: string) | NoFile(file: string) | NotFound(func: string)

  datatype Result<+T> = Ok(value: T) | Err(error: Failure)

  const ALL := "*"

  function SetOf(s: seq<string>): set<string> { set x | x in s }

  function NamesIn(fs: seq<Func>): set<string> { set f | f in fs :: f.fname }

  function Names(ec: Content): set<string> { NamesIn(ec.tfuncs) + NamesIn(ec.ufuncs) }

  /** A function of that name is declared, trusted or not. */
  predicate Declares(ec: Content, n: string) {
    (exists f :: f in ec.tfuncs && f.fname == n) || (exists f :: f in ec.ufuncs && f.fname == n)
  }

  lemma NamesDeclared(ec: Content, n: string)
    ensures n in Names(ec) <==> Declares(ec, n)
  {
  }

  function Empty(): Content { Content([], [], [], [], []) }

  function Combine(a: Content, b: Content): Content {
    a.(includes := a.includes + b.includes, imports := [], comps := a.comps + b.comps,
       tfuncs := a.tfuncs + b.tfuncs, ufuncs := a.ufuncs + b.ufuncs)
  }

  function Filter(fs: seq<Func>, names: seq<string>): (r: seq<Func>)
    ensures forall f :: f in r <==> f in fs && f.fname in names
  {
    if fs == [] then []
    else if fs[0].fname in names then [fs[0]] + Filter(fs[1..], names)
    else Filter(fs[1..], names)
  }

  function Missing(names: seq<string>, have: set<string>): (r: seq<string>)
    ensures forall n :: n in r <==> n in names && n !in have
  {
    if names == [] then []
    else if names[0] in have then Missing(names[1..], have)
    else [names[0]] + Missing(names[1..], have)
  }

  /** check_funs: the functions of ec that are wanted. */
  function Wanted(funcs: seq<string>, ec: Content): Content {
    Empty().(tfuncs := Filter(ec.tfuncs, funcs), ufuncs := Filter(ec.ufuncs, funcs))
  }

  // ---- the stack of files ----

  /** Files with imports that are not on the stack: what resolution can still read. */
  ghost function Unread(files: map<string, Content>, stack: seq<string>): set<string> {
    set f | f in files && files[f].imports != [] && f !in stack
  }

  /** parse_import_file: a file without imports is popped again at once, a file
      with imports is never popped. */
  function Parse(files: map<string, Content>, stack: seq<string>, f: string): (r: Result<(Content, seq<string>)>)
    ensures r.Ok? ==> f in files && r.value.0 == files[f] && Unread(files, r.value.1) <= Unread(files, stack)
    ensures r.Ok? && files[f].imports != [] ==> f in Unread(files, stack) && f !in Unread(files, r.value.1)
  {
    if f in stack then Err(Circular(f))
    else if f !in files then Err(NoFile(f))
    else Ok((files[f], if files[f].imports == [] then stack else [f] + stack))
  }

  lemma {:induction false} FewerUnread(a: set<string>, b: set<string>)
    requires a <= b
    ensures |a| <= |b|
    ensures a != b ==> |a| < |b|
  {
    if a == {} {
      assert a != b ==> b != {};
    } else {
      var x :| x in a;
      FewerUnread(a - {x}, b - {x});
      assert a - {x} == b - {x} ==> a == b;
    }
  }

  // ---- resolution ----

  /** import_funcs.  It ends on every set of files, cyclic or not, because every
      file that it goes into either has no imports or leaves the unread files. */
  function ImportFuncs(files: map<string, Content>, stack: seq<string>, funcs: seq<string>, ec: Content)
    : (r: Result<(Content, seq<string>)>)
    ensures r.Ok? ==> Unread(files, r.value.1) <= Unread(files, stack)
    decreases |Unread(files, stack)|, |ec.imports|, 1
  {
    if ALL in funcs then FoldImports(files, stack, [], ec.imports, ec)
    else
      var x := Missing(funcs, Names(ec));
      if x == [] then Ok((Wanted(funcs, ec), stack))
      else if ec.imports == [] then Err(NotFound(x[0]))
      else FoldImports(files, stack, x, ec.imports, Wanted(funcs, ec))
  }

  /** The fold over the imports of a file: each is asked for the functions in
      wanted, or, when that is empty, for those that the import names. */
  function FoldImports(files: map<string, Content>, stack: seq<string>, wanted: seq<string>, imports: seq<Import>,
    acc: Content)
    : (r: Result<(Content, seq<string>)>)
    ensures r.Ok? ==> Unread(files, r.value.1) <= Unread(files, stack)
    decreases |Unread(files, stack)|, |imports|, 0
  {
    if imports == [] then Ok((acc, stack))
    else
      var next := Parse(files, stack, imports[0].mname);
      if next.Err? then Err(next.error)
      else
        FewerUnread(Unread(files, next.value.1), Unread(files, stack));
        var got := ImportFuncs(files, next.value.1, if wanted == [] then imports[0].flist else wanted, next.value.0);
        if got.Err? then Err(got.error)
        else
          FewerUnread(Unread(files, got.value.1), Unread(files, stack));
          FoldImports(files, got.value.1, wanted, imports[1..], Combine(acc, got.value.0))
  }

  // ---- what resolution gives ----

  lemma CombineNames(a: Content, b: Content)
    ensures Names(Combine(a, b)) == Names(a) + Names(b)
  {
  }

  lemma WantedNames(funcs: seq<string>, ec: Content)
    ensures Names(Wanted(funcs, ec)) == SetOf(funcs) * Names(ec)
  {
    var w := Wanted(funcs, ec);
    forall n | n in SetOf(funcs) * Names(ec) ensures n in Names(w) {
      if n in NamesIn(ec.tfuncs) {
        var f :| f in ec.tfuncs && f.fname == n;
        assert f in w.tfuncs;
      } else {
        var f :| f in ec.ufuncs && f.fname == n;
        assert f in w.ufuncs;
      }
    }
  }

  /** When functions are imported by name and resolution succeeds, the result has
      every function that was asked for and no other. */
  lemma {:induction false} NamedExactly(files: map<string, Content>, stack: seq<string>, funcs: seq<string>,
      ec: Content)
    requires ALL !in funcs && ImportFuncs(files, stack, funcs, ec).Ok?
    ensures Names(ImportFuncs(files, stack, funcs, ec).value.0) == SetOf(funcs)
    ensures forall n :: Declares(ImportFuncs(files, stack, funcs, ec).value.0, n) <==> n in funcs
    decreases |Unread(files, stack)|, |ec.imports|, 1
  {
    var x := Missing(funcs, Names(ec));
    WantedNames(funcs, ec);
    if x == [] {
      assert forall n | n in funcs :: n !in x;
    } else {
      FoldNamed(files, stack, x, ec.imports, Wanted(funcs, ec));
    }
    var r := ImportFuncs(files, stack, funcs, ec).value.0;
    hide ImportFuncs, Declares, Names;
    forall n ensures Declares(r, n) <==> n in funcs {
      NamesDeclared(r, n);
    }
  }

  lemma {:induction false} FoldNamed(files: map<string, Content>, stack: seq<string>, wanted: seq<string>,
      imports: seq<Import>, acc: Content)
    requires wanted != [] && ALL !in wanted && FoldImports(files, stack, wanted, imports, acc).Ok?
    ensures Names(FoldImports(files, stack, wanted, imports, acc).value.0)
         == Names(acc) + if imports == [] then {} else SetOf(wanted)
    decreases |Unread(files, stack)|, |imports|, 0
  {
    if imports != [] {
      var next := Parse(files, stack, imports[0].mname);
      FewerUnread(Unread(files, next.value.1), Unread(files, stack));
      NamedExactly(files, next.value.1, wanted, next.value.0);
      var got := ImportFuncs(files, next.value.1, wanted, next.value.0);
      FewerUnread(Unread(files, got.value.1), Unread(files, stack));
      CombineNames(acc, got.value.0);
      FoldNamed(files, got.value.1, wanted, imports[1..], Combine(acc, got.value.0));
    }
  }

  // ---- files that are imported twice ----

  function Importing(fs: seq<string>): Content {
    Empty().(imports := seq(|fs|, i requires 0 <= i < |fs| => Import(fs[i], [ALL])))
  }

  lemma LeafResolves(files: map<string, Content>, stack: seq<string>, ec: Content)
    requires ec.imports == []
    ensures ImportFuncs(files, stack, [ALL], ec) == Ok((ec, stack))
  {
  }

  /** One turn of the fold. */
  lemma FoldFirst(files: map<string, Content>, stack: seq<string>, i: Import, rest: seq<Import>, acc: Content)
    requires i.flist == [ALL]
    ensures var p := Parse(files, stack, i.mname);
            var r := FoldImports(files, stack, [], [i] + rest, acc);
            if p.Err? then r == Err(p.error)
            else var got := ImportFuncs(files, p.value.1, [ALL], p.value.0);
              if got.Err? then r == Err(got.error)
              else r == FoldImports(files, got.value.1, [], rest, Combine(acc, got.value.0))
                   && (rest == [] ==> r == Ok((Combine(acc, got.value.0), got.value.1)))
  {
    assert ([i] + rest)[1..] == rest;
  }

  lemma OneImport(files: map<string, Content>, stack: seq<string>, f: string)
    ensures var p := Parse(files, stack, f);
            var r := ImportFuncs(files, stack, [ALL], Importing([f]));
            if p.Err? then r == Err(p.error)
            else var got := ImportFuncs(files, p.value.1, [ALL], p.value.0);
              if got.Err? then r == Err(got.error) else r == Ok((Combine(Importing([f]), got.value.0), got.value.1))
  {
    var ec := Importing([f]);
    assert ec.imports == [Import(f, [ALL])];
    assert ImportFuncs(files, stack, [ALL], ec) == FoldImports(files, stack, [], ec.imports, ec);
    FoldFirst(files, stack, Import(f, [ALL]), [], ec);
  }

  lemma TwoImports(files: map<string, Content>, stack: seq<string>, f: string, g: string)
    requires var p := Parse(files, stack, f); p.Ok? && ImportFuncs(files, p.value.1, [ALL], p.value.0).Ok?
    ensures var p := Parse(files, stack, f);
            var q := Parse(files, ImportFuncs(files, p.value.1, [ALL], p.value.0).value.1, g);
            var r := ImportFuncs(files, stack, [ALL], Importing([f, g]));
            if q.Err? then r == Err(q.error)
            else var got := ImportFuncs(files, q.value.1, [ALL], q.value.0);
              if got.Err? then r == Err(got.error) else r.Ok?
  {
    var ec := Importing([f, g]);
    assert ec.imports == [Import(f, [ALL])] + [Import(g, [ALL])];
    assert ImportFuncs(files, stack, [ALL], ec) == FoldImports(files, stack, [], ec.imports, ec);
    FoldFirst(files, stack, Import(f, [ALL]), [Import(g, [ALL])], ec);
    var p := Parse(files, stack, f);
    var got := ImportFuncs(files, p.value.1, [ALL], p.value.0);
    assert [Import(g, [ALL])] == [Import(g, [ALL])] + [];
    FoldFirst(files, got.value.1, Import(g, [ALL]), [], Combine(ec, got.value.0));
  }

  /** An example: two files import a third one.  With a further import in that one,
      which is no circle, resolution fails; without it resolution succeeds. */
  lemma Diamond(deep: bool)
    ensures var d := if deep then Importing(["e"]) else Empty();
            var files := map["b" := Importing(["d"]), "c" := Importing(["d"]), "d" := d, "e" := Empty()];
            var r := ImportFuncs(files, ["a"], [ALL], Importing(["b", "c"]));
            if deep then r == Err(Circular("d")) else r.Ok?
  {
    hide ImportFuncs, FoldImports;
    var d := if deep then Importing(["e"]) else Empty();
    var files := map["b" := Importing(["d"]), "c" := Importing(["d"]), "d" := d, "e" := Empty()];
    LeafResolves(files, if deep then ["d", "b", "a"] else ["b", "a"], Empty());
    OneImport(files, ["d", "b", "a"], "e");
    OneImport(files, ["b", "a"], "d");
    assert ["b"] + ["a"] == ["b", "a"] && ["d"] + ["b", "a"] == ["d", "b", "a"];
    TwoImports(files, ["a"], "b", "c");
    OneImport(files, ["c"] + (if deep then ["d", "b", "a"] else ["b", "a"]), "d");
    LeafResolves(files, ["c"] + ["b", "a"], Empty());
  }

  lemma FoldTurn(files: map<string, Content>, stack: seq<string>, wanted: seq<string>, imports: seq<Import>, i: nat,
    acc: Content)
    requires i < |imports|
    ensures var p := Parse(files, stack, imports[i].mname);
            var r := FoldImports(files, stack, wanted, imports[i..], acc);
            if p.Err? then r == Err(p.error)
            else var got := ImportFuncs(files, p.value.1, if wanted == [] then imports[i].flist else wanted, p.value.0);
              if got.Err? then r == Err(got.error)
              else r == FoldImports(files, got.value.1, wanted, imports[i + 1..], Combine(acc, got.value.0))
  {
    assert imports[i..][0] == imports[i] && imports[i..][1..] == imports[i + 1..];
  }

  lemma FoldEnds(files: map<string, Content>, stack: seq<string>, wanted: seq<string>, acc: Content)
    ensures FoldImports(files, stack, wanted, [], acc) == Ok((acc, stack))
  {
  }

  // ---- the generator's own form ----

  /** SimpleStack. */
  class SimpleStack {
    var c: seq<string>

    constructor ()
      ensures c == []
    {
      c := [];
    }

    method Push(x: string)
      modifies this
      ensures c == [x] + old(c)
    {
      c := [x] + c;
    }

    /** None stands for the exception Empty. */
    method Pop() returns (ok: bool, x: string)
      modifies this
      ensures ok == (old(c) != [])
      ensures if ok then old(c) == [x] + c else c == old(c)
    {
      if c == [] {
        return false, "";
      }
      x := c[0];
      c := c[1..];
      return true, x;
    }
  }

  class Resolver {
    const files: map<string, Content>
    const alreadyRead: SimpleStack

    constructor (files: map<string, Content>, stack: SimpleStack)
      ensures this.files == files && alreadyRead == stack
    {
      this.files, alreadyRead := files, stack;
    }

    method ParseImportFile(f: string) returns (r: Result<Content>)
      modifies alreadyRead
      ensures var p := Parse(files, old(alreadyRead.c), f);
              if p.Ok? then r == Ok(p.value.0) && alreadyRead.c == p.value.1 else r == Err(p.error)
    {
      if f in alreadyRead.c {
        return Err(Circular(f));
      }
      alreadyRead.Push(f);
      if f !in files {
        return Err(NoFile(f));
      }
      var ec := files[f];
      if ec.imports == [] {
        var ok, top := alreadyRead.Pop();
        assert [top] + alreadyRead.c == [f] + old(alreadyRead.c);
        assert alreadyRead.c == ([top] + alreadyRead.c)[1..] == ([f] + old(alreadyRead.c))[1..];
      }
      return Ok(ec);
    }

    /** import_funcs, with the stack changed in place and the fold as a loop. */
    method Resolve(funcs: seq<string>, importee: Content) returns (r: Result<Content>)
      modifies alreadyRead
      ensures var p := ImportFuncs(files, old(alreadyRead.c), funcs, importee);
              if p.Ok? then r == Ok(p.value.0) && alreadyRead.c == p.value.1 else r == Err(p.error)
      decreases |Unread(files, alreadyRead.c)|, |importee.imports|, 1
    {
      if ALL in funcs {
        r := ResolveAll([], importee.imports, importee);
      } else {
        var x := Missing(funcs, Names(importee));
        if x == [] {
          r := Ok(Wanted(funcs, importee));
        } else if importee.imports == [] {
          r := Err(NotFound(x[0]));
        } else {
          r := ResolveAll(x, importee.imports, Wanted(funcs, importee));
        }
      }
    }

    method ResolveAll(wanted: seq<string>, imports: seq<Import>, start: Content) returns (r: Result<Content>)
      modifies alreadyRead
      ensures var p := FoldImports(files, old(alreadyRead.c), wanted, imports, start);
              if p.Ok? then r == Ok(p.value.0) && alreadyRead.c == p.value.1 else r == Err(p.error)
      decreases |Unread(files, alreadyRead.c)|, |imports|, 0
    {
      hide FoldImports, ImportFuncs, Parse, Unread, Combine;
      var acc := start;
      var i := 0;
      ghost var stack := alreadyRead.c;
      assert imports[0..] == imports;
      while i < |imports|
        invariant 0 <= i <= |imports|
        invariant Unread(files, alreadyRead.c) <= Unread(files, stack)
        invariant FoldImports(files, stack, wanted, imports, start)
               == FoldImports(files, alreadyRead.c, wanted, imports[i..], acc)
      {
        ghost var before := alreadyRead.c;
        FoldTurn(files, before, wanted, imports, i, acc);
        var next := ParseImportFile(imports[i].mname);
        if next.Err? {
          return Err(next.error);
        }
        FewerUnread(Unread(files, alreadyRead.c), Unread(files, before));
        FewerUnread(Unread(files, before), Unread(files, stack));
        FewerUnread(Unread(files, alreadyRead.c), Unread(files, stack));
        var got := Resolve(if wanted == [] then imports[i].flist else wanted, next.value);
        if got.Err? {
          return Err(got.error);
        }
        acc := Combine(acc, got.value);
        i := i + 1;
      }
      FoldEnds(files, alreadyRead.c, wanted, acc);
      assert imports[|imports|..] == [];
      return Ok(acc);
    }
  }
}
