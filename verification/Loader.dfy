/** Import loading: `collect_declarations` and `merge_into` of compiler/dmc.cpp, a depth-first
    search over the import graph with a visited set that is passed down and copied back.

    Paths are resolved names; a path outside `files` is one that cannot be summoned. */
module Loader {

  type Path = string
  type Name = string

  /** What parsing a file yields: its non-builtin imports and the functions it declares. */
  datatype Source = Source(imports: seq<Path>, functions: seq<Name>)

  type Files = map<Path, Source>

  /** `order` lists the files parsed, in the order in which their parsing ends. */
  datatype Outcome =
    | Loaded(loaded: set<Path>, functions: seq<Name>, order: seq<Path>)
    | Missing(path: Path)

  /** `merge_into`: only functions whose name the target does not have yet. */
  function Merge(target: seq<Name>, source: seq<Name>): seq<Name>
    decreases source
  {
    if source == [] then target
    else Merge(if source[0] in target then target else target + [source[0]], source[1..])
  }

  function Collect(files: Files, s: Source, loaded: set<Path>): (r: Outcome)
    ensures r.Loaded? ==> loaded <= r.loaded
    decreases files.Keys - loaded, |s.imports| + 1
  {
    match CollectImports(files, s.imports, loaded, [])
    case Loaded(l, fs, order) => Loaded(l, fs + s.functions, order)
    case Missing(p) => Missing(p)
  }

  function CollectImports(files: Files, imports: seq<Path>, loaded: set<Path>, functions: seq<Name>): (r: Outcome)
    ensures r.Loaded? ==> loaded <= r.loaded
    decreases files.Keys - loaded, |imports|
  {
    if imports == [] then Loaded(loaded, functions, [])
    else
      var p := imports[0];
      if p !in files then Missing(p)
      else if p in loaded then CollectImports(files, imports[1..], loaded, functions)
      else
        assert p in files.Keys - loaded && p !in files.Keys - (loaded + {p});
        match Collect(files, files[p], loaded + {p})
        case Missing(q) => Missing(q)
        case Loaded(l, fs, order) =>
          assert p in l;
          match CollectImports(files, imports[1..], l, Merge(functions, fs))
          case Missing(q) => Missing(q)
          case Loaded(l', fs', order') => Loaded(l', fs', order + [p] + order')
  }

  // ---- The parser of one file, as far as loading goes ----

  class Module {
    const files: Files
    const source: Source
    var loaded: set<Path>
    var functions: seq<Name>
    /** The files that parsers were made for on behalf of this one, as their parsing ended. */
    ghost var parsed: seq<Path>

    constructor (files: Files, source: Source, loaded: set<Path>)
      ensures this.files == files && this.source == source
      ensures this.loaded == loaded && this.functions == [] && parsed == []
    {
      this.files, this.source := files, source;
      this.loaded, this.functions, this.parsed := loaded, [], [];
    }

    method MergeInto(target: Module)
      modifies target`functions
      ensures target.functions == Merge(old(target.functions), old(this.functions))
    {
      var fs, i := functions, 0;
      while i < |fs|
        invariant 0 <= i <= |fs|
        invariant Merge(target.functions, fs[i..]) == Merge(old(target.functions), fs)
      {
        assert fs[i..][1..] == fs[i + 1..];
        if fs[i] !in target.functions {
          target.functions := target.functions + [fs[i]];
        }
        i := i + 1;
      }
    }

    /** Returns whether every import was found; `missing` names the one that was not. */
    method CollectDeclarations() returns (ok: bool, missing: Path)
      requires functions == [] && parsed == []
      modifies this
      ensures match Collect(files, source, old(loaded))
              case Loaded(l, fs, order) => ok && loaded == l && functions == fs && parsed == order
              case Missing(p) => !ok && missing == p
      decreases files.Keys - loaded
    {
      ok, missing := true, "";
      var i := 0;
      while i < |source.imports|
        invariant 0 <= i <= |source.imports|
        invariant old(loaded) <= loaded
        invariant Same(CollectImports(files, source.imports, old(loaded), []),
                       CollectImports(files, source.imports[i..], loaded, functions), parsed)
      {
        var path := source.imports[i];
        assert source.imports[i..][1..] == source.imports[i + 1..];
        NextImport(CollectImports(files, source.imports, old(loaded), []), files, source.imports[i..], loaded,
                   functions, parsed);
        if path !in files {
          return false, path;
        }
        if path !in loaded {
          assert path in files.Keys - loaded && path !in files.Keys - (loaded + {path});
          loaded := loaded + {path};
          var mod := new Module(files, files[path], loaded);
          ok, missing := mod.CollectDeclarations();
          if !ok {
            return;
          }
          mod.MergeInto(this);
          loaded := mod.loaded;
          parsed := parsed + mod.parsed + [path];
        }
        i := i + 1;
      }
      functions := functions + source.functions;
    }
  }

  /** The outcome `a` is `b` after the files `parsed` already. */
  ghost predicate Same(a: Outcome, b: Outcome, parsed: seq<Path>) {
    match a
    case Loaded(l, fs, order) => b.Loaded? && b.loaded == l && b.functions == fs && order == parsed + b.order
    case Missing(p) => b == Missing(p)
  }

  lemma NextImport(a: Outcome, files: Files, imports: seq<Path>, loaded: set<Path>, functions: seq<Name>,
                   parsed: seq<Path>)
    requires imports != [] && Same(a, CollectImports(files, imports, loaded, functions), parsed)
    ensures imports[0] !in files ==> a == Missing(imports[0])
    ensures imports[0] in files && imports[0] in loaded ==>
              Same(a, CollectImports(files, imports[1..], loaded, functions), parsed)
    ensures imports[0] in files && imports[0] !in loaded ==>
              var r := Collect(files, files[imports[0]], loaded + {imports[0]});
              (r.Missing? ==> a == r) &&
              (r.Loaded? ==> Same(a, CollectImports(files, imports[1..], r.loaded, Merge(functions, r.functions)),
                                  parsed + r.order + [imports[0]]))
  {
    if imports[0] in files && imports[0] !in loaded && a.Loaded? {
      var r := Collect(files, files[imports[0]], loaded + {imports[0]});
      if r.Loaded? {
        var rest := CollectImports(files, imports[1..], r.loaded, Merge(functions, r.functions));
        if rest.Loaded? {
          Regrouped(parsed, r.order, [imports[0]], rest.order);
        }
      }
    }
  }

  lemma Regrouped(a: seq<Path>, b: seq<Path>, c: seq<Path>, d: seq<Path>)
    ensures a + (b + c + d) == a + b + c + d
  {
  }

  // ---- Reachability ----

  /** `c` follows imports from one of `roots`; every file but the last must exist. */
  ghost predicate Chain(files: Files, roots: seq<Path>, c: seq<Path>)
    decreases |c|
  {
    && c != [] && c[0] in roots
    && (|c| == 1 || (c[0] in files && Chain(files, files[c[0]].imports, c[1..])))
  }

  ghost predicate Reachable(files: Files, roots: seq<Path>, p: Path) {
    exists c :: Chain(files, roots, c) && c[|c| - 1] == p
  }

  lemma RootReachable(files: Files, roots: seq<Path>, p: Path)
    requires p in roots
    ensures Reachable(files, roots, p)
  {
    assert Chain(files, roots, [p]);
  }

  /** What is reachable from the imports of a root is reachable from the roots. */
  lemma ReachableThrough(files: Files, roots: seq<Path>, p: Path, q: Path)
    requires p in roots && p in files && Reachable(files, files[p].imports, q)
    ensures Reachable(files, roots, q)
  {
    var c :| Chain(files, files[p].imports, c) && c[|c| - 1] == q;
    assert ([p] + c)[1..] == c;
    assert Chain(files, roots, [p] + c);
  }

  /** A set that holds the roots and is closed under imports holds all that is reachable. */
  lemma {:induction false} ClosedHoldsReachable(files: Files, roots: seq<Path>, s: set<Path>, c: seq<Path>)
    requires Chain(files, roots, c)
    requires forall p <- roots :: p in s
    requires forall p <- s :: p in files && forall q <- files[p].imports :: q in s
    ensures c[|c| - 1] in s
    decreases |c|
  {
    if |c| > 1 {
      ClosedHoldsReachable(files, files[c[0]].imports, s, c[1..]);
    }
  }

  ghost predicate Closed(files: Files, added: set<Path>, all: set<Path>) {
    forall p <- added :: p in files && forall q <- files[p].imports :: q in all
  }

  /** What a run adds: existing files, reachable from the imports, whose imports are all loaded. */
  lemma {:induction false} ImportsLoad(files: Files, imports: seq<Path>, loaded: set<Path>, functions: seq<Name>)
    ensures match CollectImports(files, imports, loaded, functions)
            case Loaded(l, _, _) =>
              (forall p <- imports :: p in l) && Closed(files, l - loaded, l) &&
              (forall p <- l - loaded :: Reachable(files, imports, p))
            case Missing(p) => p !in files && Reachable(files, imports, p)
    decreases files.Keys - loaded, |imports|
  {
    if imports != [] {
      var p, rest := imports[0], imports[1..];
      RootReachable(files, imports, p);
      if p in files && p in loaded {
        ImportsLoad(files, rest, loaded, functions);
        ReachableMore(files, imports);
      } else if p in files {
        assert p in files.Keys - loaded && p !in files.Keys - (loaded + {p});
        ImportsLoad(files, files[p].imports, loaded + {p}, []);
        ReachableVia(files, imports, p);
        match Collect(files, files[p], loaded + {p})
        case Missing(_) =>
        case Loaded(l, fs, _) =>
          ImportsLoad(files, rest, l, Merge(functions, fs));
          ReachableMore(files, imports);
      }
    }
  }

  lemma ReachableMore(files: Files, imports: seq<Path>)
    requires imports != []
    ensures forall q :: Reachable(files, imports[1..], q) ==> Reachable(files, imports, q)
  {
    forall q | Reachable(files, imports[1..], q) ensures Reachable(files, imports, q) {
      var c :| Chain(files, imports[1..], c) && c[|c| - 1] == q;
      assert Chain(files, imports, c);
    }
  }

  lemma ReachableVia(files: Files, imports: seq<Path>, p: Path)
    requires p in imports && p in files
    ensures forall q :: Reachable(files, files[p].imports, q) ==> Reachable(files, imports, q)
  {
    forall q | Reachable(files, files[p].imports, q) ensures Reachable(files, imports, q) {
      ReachableThrough(files, imports, p, q);
    }
  }

  /** From an empty visited set, cycles included: loading succeeds exactly when everything
      reachable from the imports exists, and then it loads exactly that. */
  lemma LoadsReachable(files: Files, s: Source)
    ensures Collect(files, s, {}).Loaded? <==> forall p :: Reachable(files, s.imports, p) ==> p in files
    ensures var r := Collect(files, s, {});
            r.Loaded? ==> forall p :: p in r.loaded <==> Reachable(files, s.imports, p)
  {
    ImportsLoad(files, s.imports, {}, []);
    var r := Collect(files, s, {});
    if r.Loaded? {
      forall p | Reachable(files, s.imports, p) ensures p in r.loaded {
        var c :| Chain(files, s.imports, c) && c[|c| - 1] == p;
        ClosedHoldsReachable(files, s.imports, r.loaded, c);
      }
    }
  }

  // ---- Each file once ----

  ghost predicate Distinct<T>(s: seq<T>) {
    forall i, j :: 0 <= i < j < |s| ==> s[i] != s[j]
  }

  ghost predicate Lists(s: seq<Path>, all: set<Path>) {
    Distinct(s) && forall p :: p in s <==> p in all
  }

  lemma ListsAppend(a: seq<Path>, x: set<Path>, b: seq<Path>, y: set<Path>)
    requires Lists(a, x) && Lists(b, y) && x !! y
    ensures Lists(a + b, x + y)
  {
    forall i, j | 0 <= i < j < |a + b| ensures (a + b)[i] != (a + b)[j] {
      assert i < |a| ==> a[i] in x;
      assert j >= |a| ==> b[j - |a|] in y;
    }
  }

  /** The files parsed are the newly loaded ones, each once. */
  lemma {:induction false} ParsedOnce(files: Files, imports: seq<Path>, loaded: set<Path>, functions: seq<Name>)
    requires CollectImports(files, imports, loaded, functions).Loaded?
    ensures var r := CollectImports(files, imports, loaded, functions);
            Lists(r.order, r.loaded - loaded)
    decreases files.Keys - loaded, |imports|
  {
    if imports != [] {
      var p, rest := imports[0], imports[1..];
      if p in loaded {
        ParsedOnce(files, rest, loaded, functions);
      } else {
        assert p in files.Keys - loaded && p !in files.Keys - (loaded + {p});
        ParsedOnce(files, files[p].imports, loaded + {p}, []);
        var inner := Collect(files, files[p], loaded + {p});
        var outer := CollectImports(files, rest, inner.loaded, Merge(functions, inner.functions));
        ParsedOnce(files, rest, inner.loaded, Merge(functions, inner.functions));
        ListsAppend(inner.order, inner.loaded - (loaded + {p}), [p], {p});
        ListsAppend(inner.order + [p], inner.loaded - loaded, outer.order, outer.loaded - inner.loaded);
        assert outer.loaded - loaded == (inner.loaded - loaded) + (outer.loaded - inner.loaded);
        assert inner.loaded - loaded == (inner.loaded - (loaded + {p})) + {p};
      }
    }
  }

  // ---- The order is a depth-first post-order ----

  /** Each import of `p` is done already, is `p` itself, or lies on an import cycle with `p`. */
  ghost predicate Settled(files: Files, done: set<Path>, p: Path) {
    p in files && forall q <- files[p].imports ::
      q in done || q == p || (q in files && Reachable(files, files[q].imports, p))
  }

  ghost predicate PostOrder(files: Files, done: set<Path>, order: seq<Path>)
    decreases |order|
  {
    order == [] ||
    (Settled(files, done, order[0]) && PostOrder(files, done + {order[0]}, order[1..]))
  }

  ghost function Elements(s: seq<Path>): set<Path> {
    set p | p in s
  }

  lemma {:induction false} PostOrderConcat(files: Files, done: set<Path>, a: seq<Path>, b: seq<Path>)
    requires PostOrder(files, done, a) && PostOrder(files, done + Elements(a), b)
    ensures PostOrder(files, done, a + b)
    decreases |a|
  {
    if a == [] {
      assert a + b == b && done + Elements(a) == done;
    } else {
      assert (a + b)[1..] == a[1..] + b;
      assert done + Elements(a) == done + {a[0]} + Elements(a[1..]);
      PostOrderConcat(files, done + {a[0]}, a[1..], b);
    }
  }

  lemma {:induction false} ChainStep(files: Files, roots: seq<Path>, c: seq<Path>, q: Path)
    requires Chain(files, roots, c) && c[|c| - 1] in files && q in files[c[|c| - 1]].imports
    ensures Chain(files, roots, c + [q])
    decreases |c|
  {
    if |c| > 1 {
      ChainStep(files, files[c[0]].imports, c[1..], q);
    }
    assert (c + [q])[1..] == c[1..] + [q];
  }

  lemma ReachableStep(files: Files, roots: seq<Path>, p: Path, q: Path)
    requires Reachable(files, roots, p) && p in files && q in files[p].imports
    ensures Reachable(files, roots, q)
  {
    var c :| Chain(files, roots, c) && c[|c| - 1] == p;
    ChainStep(files, roots, c, q);
    assert (c + [q])[|c + [q]| - 1] == q;
  }

  /** The files being parsed right now, each reaching all of `imports`. */
  ghost predicate Open(files: Files, gray: set<Path>, imports: seq<Path>) {
    forall g <- gray :: g in files && forall p <- imports :: Reachable(files, files[g].imports, p)
  }

  lemma OpenDeeper(files: Files, gray: set<Path>, imports: seq<Path>, p: Path)
    requires Open(files, gray, imports) && p in imports && p in files
    ensures Open(files, gray + {p}, files[p].imports)
  {
    forall g, q | g in gray + {p} && q in files[p].imports ensures g in files && Reachable(files, files[g].imports, q) {
      if g in gray {
        ReachableStep(files, files[g].imports, p, q);
      } else {
        RootReachable(files, files[p].imports, q);
      }
    }
  }

  /** Post-order: `loaded` is what is finished or open; a file ends after all its imports but
      those on a cycle with it. */
  lemma {:induction false} LoadsInPostOrder(files: Files, imports: seq<Path>, loaded: set<Path>,
                                            functions: seq<Name>, gray: set<Path>)
    requires CollectImports(files, imports, loaded, functions).Loaded?
    requires gray <= loaded && Open(files, gray, imports)
    ensures PostOrder(files, loaded - gray, CollectImports(files, imports, loaded, functions).order)
    decreases files.Keys - loaded, |imports|
  {
    if imports != [] {
      var p, rest := imports[0], imports[1..];
      if p in loaded {
        LoadsInPostOrder(files, rest, loaded, functions, gray);
      } else {
        assert p in files.Keys - loaded && p !in files.Keys - (loaded + {p});
        var inner := Collect(files, files[p], loaded + {p});
        OpenDeeper(files, gray, imports, p);
        LoadsInPostOrder(files, files[p].imports, loaded + {p}, [], gray + {p});
        LoadsInPostOrder(files, rest, inner.loaded, Merge(functions, inner.functions), gray);
        FileEnds(files, p, loaded, gray, imports);
        ParsedOnce(files, files[p].imports, loaded + {p}, []);
        var outer := CollectImports(files, rest, inner.loaded, Merge(functions, inner.functions));
        var done := loaded - gray;
        assert loaded + {p} - (gray + {p}) == done;
        assert inner.loaded - gray == done + Elements(inner.order + [p]);
        PostOrderConcat(files, done, inner.order, [p]);
        PostOrderConcat(files, done, inner.order + [p], outer.order);
      }
    }
  }

  /** When `p` has been parsed, its imports are settled. */
  lemma FileEnds(files: Files, p: Path, loaded: set<Path>, gray: set<Path>, imports: seq<Path>)
    requires p in files && p !in loaded && p in imports && gray <= loaded && Open(files, gray, imports)
    requires Collect(files, files[p], loaded + {p}).Loaded?
    ensures var inner := Collect(files, files[p], loaded + {p});
            PostOrder(files, (loaded - gray) + Elements(inner.order), [p])
  {
    var inner := Collect(files, files[p], loaded + {p});
    var done := (loaded - gray) + Elements(inner.order);
    ImportsLoad(files, files[p].imports, loaded + {p}, []);
    ParsedOnce(files, files[p].imports, loaded + {p}, []);
    assert Settled(files, done, p) by {
      forall q | q in files[p].imports
        ensures q in done || q == p || (q in files && Reachable(files, files[q].imports, p))
      {
        assert q in inner.loaded;
        if q !in done && q != p {
          assert q in gray;
        }
      }
    }
  }

  // ---- The function table ----

  ghost predicate UniqueNames(files: Files) {
    && (forall p <- files :: Distinct(files[p].functions))
    && (forall p, q {:trigger files[p], files[q]} :: p in files && q in files && p != q ==>
          forall f <- files[p].functions :: f !in files[q].functions)
  }

  function Declared(files: Files, order: seq<Path>): seq<Name> {
    if order == [] then []
    else Declared(files, order[..|order| - 1]) + (if order[|order| - 1] in files then files[order[|order| - 1]].functions else [])
  }

  lemma {:induction false} DeclaredConcat(files: Files, a: seq<Path>, b: seq<Path>)
    ensures Declared(files, a + b) == Declared(files, a) + Declared(files, b)
  {
    if b == [] {
      assert a + b == a;
    } else {
      var init := b[..|b| - 1];
      assert (a + b)[..|a + b| - 1] == a + init;
      DeclaredConcat(files, a, init);
    }
  }

  lemma {:induction false} MergeDisjoint(target: seq<Name>, source: seq<Name>)
    requires Distinct(source) && forall f <- source :: f !in target
    ensures Merge(target, source) == target + source
    decreases |source|
  {
    if source != [] {
      MergeDisjoint(target + [source[0]], source[1..]);
    }
  }

  lemma {:induction false} DeclaredBy(files: Files, order: seq<Path>, f: Name)
    requires f in Declared(files, order)
    ensures exists p :: p in order && p in files && f in files[p].functions
  {
    var last, init := order[|order| - 1], order[..|order| - 1];
    if f in Declared(files, init) {
      DeclaredBy(files, init, f);
    }
  }

  lemma {:induction false} DeclaredDistinct(files: Files, order: seq<Path>)
    requires UniqueNames(files) && Distinct(order) && forall p <- order :: p in files
    ensures Distinct(Declared(files, order))
  {
    if order != [] {
      var last, init := order[|order| - 1], order[..|order| - 1];
      DeclaredDistinct(files, init);
      var a, b := Declared(files, init), files[last].functions;
      forall i, j | 0 <= i < j < |a + b| ensures (a + b)[i] != (a + b)[j] {
        if i < |a| <= j {
          DeclaredBy(files, init, a[i]);
          assert b[j - |a|] in files[last].functions;
        }
      }
    }
  }

  lemma {:induction false} DeclaredHolds(files: Files, order: seq<Path>, p: Path)
    requires p in order && p in files
    ensures forall f <- files[p].functions :: f in Declared(files, order)
  {
    var last, init := order[|order| - 1], order[..|order| - 1];
    if p != last {
      DeclaredHolds(files, init, p);
    }
  }

  /** Merging what a freshly parsed file brings appends it. */
  lemma MergeFile(files: Files, done: seq<Path>, more: seq<Path>)
    requires UniqueNames(files) && Distinct(more)
    requires forall p <- more :: p in files && p !in done
    ensures Merge(Declared(files, done), Declared(files, more)) == Declared(files, done + more)
  {
    var target, source := Declared(files, done), Declared(files, more);
    DeclaredDistinct(files, more);
    forall f | f in source ensures f !in target {
      DeclaredBy(files, more, f);
      if f in target {
        DeclaredBy(files, done, f);
      }
    }
    MergeDisjoint(target, source);
    DeclaredConcat(files, done, more);
  }

  lemma Reassociated(a: seq<Path>, b: seq<Path>, c: seq<Path>)
    ensures a + b + c == a + (b + c)
  {
  }

  lemma {:induction false} FunctionsInOrder(files: Files, imports: seq<Path>, loaded: set<Path>,
                                            functions: seq<Name>, done: seq<Path>) returns (order: seq<Path>)
    requires UniqueNames(files) && (forall p <- done :: p in loaded) && functions == Declared(files, done)
    requires CollectImports(files, imports, loaded, functions).Loaded?
    ensures order == CollectImports(files, imports, loaded, functions).order
    ensures CollectImports(files, imports, loaded, functions).functions == Declared(files, done + order)
    decreases files.Keys - loaded, |imports|
  {
    if imports == [] {
      order := [];
      assert done + [] == done;
    } else if imports[0] in loaded {
      order := FunctionsInOrder(files, imports[1..], loaded, functions, done);
    } else {
      var p := imports[0];
      assert p in files.Keys - loaded && p !in files.Keys - (loaded + {p});
      CollectOnce(files, imports, loaded, functions);
      var inner := Collect(files, files[p], loaded + {p});
      var before := FunctionsInOrder(files, files[p].imports, loaded + {p}, [], []);
      FileMerges(files, loaded, done, p);
      var more := inner.order + [p];
      var after := FunctionsInOrder(files, imports[1..], inner.loaded, Merge(functions, inner.functions), done + more);
      order := more + after;
      Reassociated(done, more, after);
    }
  }

  /** `CollectImports` unfolded at a file that is not loaded yet. */
  lemma CollectOnce(files: Files, imports: seq<Path>, loaded: set<Path>, functions: seq<Name>)
    requires imports != [] && imports[0] in files && imports[0] !in loaded
    requires CollectImports(files, imports, loaded, functions).Loaded?
    ensures var inner := Collect(files, files[imports[0]], loaded + {imports[0]});
            inner.Loaded? &&
            var outer := CollectImports(files, imports[1..], inner.loaded, Merge(functions, inner.functions));
            outer.Loaded? && CollectImports(files, imports, loaded, functions) ==
                             Loaded(outer.loaded, outer.functions, inner.order + [imports[0]] + outer.order)
  {
  }

  /** Parsing `p` yields its subtree's declarations in order, and merging appends them. */
  lemma FileMerges(files: Files, loaded: set<Path>, done: seq<Path>, p: Path)
    requires UniqueNames(files) && p in files && p !in loaded && forall q <- done :: q in loaded
    requires Collect(files, files[p], loaded + {p}).Loaded?
    requires var r := CollectImports(files, files[p].imports, loaded + {p}, []);
             r.Loaded? && r.functions == Declared(files, [] + r.order)
    ensures var inner := Collect(files, files[p], loaded + {p});
            inner.functions == Declared(files, inner.order + [p]) &&
            (forall q <- inner.order + [p] :: q in inner.loaded) &&
            Merge(Declared(files, done), inner.functions) == Declared(files, done + (inner.order + [p]))
  {
    var inner := Collect(files, files[p], loaded + {p});
    var more := inner.order + [p];
    assert [] + inner.order == inner.order && more[..|more| - 1] == inner.order;
    ImportsLoad(files, files[p].imports, loaded + {p}, []);
    ParsedOnce(files, files[p].imports, loaded + {p}, []);
    ListsAppend(inner.order, inner.loaded - (loaded + {p}), [p], {p});
    MergeFile(files, done, more);
  }

  /** The root's function table: the declarations of every reachable file, once, in post-order,
      then its own. With names unique across files it has no duplicate exactly when the root
      is not reachable from itself (or declares nothing): the root is never marked as loaded. */
  lemma RootTable(files: Files, root: Path)
    requires root in files && UniqueNames(files) && Collect(files, files[root], {}).Loaded?
    ensures var r := Collect(files, files[root], {});
            Lists(r.order, r.loaded) && PostOrder(files, {}, r.order) &&
            r.functions == Declared(files, r.order) + files[root].functions
    ensures Distinct(Collect(files, files[root], {}).functions) <==>
            (!Reachable(files, files[root].imports, root) || files[root].functions == [])
  {
    var r := Collect(files, files[root], {});
    ParsedOnce(files, files[root].imports, {}, []);
    var none: set<Path> := {};
    LoadsInPostOrder(files, files[root].imports, none, [], none);
    assert none - none == none;
    var order := FunctionsInOrder(files, files[root].imports, none, [], []);
    assert [] + order == order == r.order;
    LoadsReachable(files, files[root]);
    TableDistinct(files, root, r.order);
  }

  /** The declarations of `order` followed by those of `root`. */
  lemma TableDistinct(files: Files, root: Path, order: seq<Path>)
    requires root in files && UniqueNames(files) && Distinct(order) && forall p <- order :: p in files
    ensures Distinct(Declared(files, order) + files[root].functions) <==>
            (root !in order || files[root].functions == [])
  {
    var own, others := files[root].functions, Declared(files, order);
    if root in order && own != [] {
      DeclaredHolds(files, order, root);
      assert own[0] in others;
      var i :| 0 <= i < |others| && others[i] == own[0];
      assert (others + own)[i] == (others + own)[|others|];
    } else if own == [] {
      DeclaredDistinct(files, order);
      assert others + own == others;
    } else {
      var all := order + [root];
      assert all[..|all| - 1] == order;
      DeclaredDistinct(files, all);
    }
  }
}
