/** The text the amalgamator writes, against in-place inclusion of every file the first time it is named. */
module Amalgam {
  import opened IncludeOrder
  import opened DependencyOrder

  /** A line that is not an include, with the file it comes from. */
  datatype Piece = Piece(file: Path, content: string)

  /** The lines of a file, from line i on, that are not includes. */
  function Body(fs: Files, path: Path, i: nat): seq<Piece>
    requires i <= |fs.lines(path)|
    decreases |fs.lines(path)| - i
  {
    if i == |fs.lines(path)| then []
    else
      match fs.lines(path)[i]
      case Include(_) => Body(fs, path, i + 1)
      case Text(content) => [Piece(path, content)] + Body(fs, path, i + 1)
  }

  function Bodies(fs: Files, order: seq<Path>): seq<Piece> {
    if |order| == 0 then []
    else Body(fs, order[0], 0) + Bodies(fs, order[1..])
  }

  // In-place expansion

  datatype Expansion = Whole(seen: set<Path>, text: seq<Piece>) | Missing(includer: Path, name: Name)

  /** The text of a file with each include replaced by the expansion of its target, empty from the second time on. */
  function Expand(fs: Files, search: seq<Dir>, path: Path, seen: set<Path>): (r: Expansion)
    requires fs.Valid() && path in fs.all
    ensures r.Whole? ==> seen <= r.seen
    decreases fs.all - seen, 0
  {
    if path in seen then Whole(seen, [])
    else
      assert path in fs.all - seen && path !in fs.all - (seen + {path});
      ExpandLines(fs, search, path, 0, seen + {path})
  }

  function ExpandLines(fs: Files, search: seq<Dir>, path: Path, i: nat, seen: set<Path>): (r: Expansion)
    requires fs.Valid() && path in fs.all && i <= |fs.lines(path)|
    ensures r.Whole? ==> seen <= r.seen
    decreases fs.all - seen, 1 + |fs.lines(path)| - i
  {
    if i == |fs.lines(path)| then Whole(seen, [])
    else
      match fs.lines(path)[i]
      case Text(content) => Before([Piece(path, content)], ExpandLines(fs, search, path, i + 1, seen))
      case Include(name) =>
        FirstMatchListed(fs, name, [fs.parent(path)] + search);
        match Resolve(fs, search, path, name)
        case None => Missing(path, name)
        case Some(v) =>
          match Expand(fs, search, v, seen)
          case Missing(u, n) => Missing(u, n)
          case Whole(s, text) => Before(text, ExpandLines(fs, search, path, i + 1, s))
  }

  function Before(text: seq<Piece>, e: Expansion): (r: Expansion)
    ensures r.Whole? <==> e.Whole?
    ensures e.Whole? ==> r.seen == e.seen
  {
    match e
    case Whole(seen, rest) => Whole(seen, text + rest)
    case Missing(_, _) => e
  }

  // When the two orders of the text are the same

  predicate HasText(fs: Files, path: Path) {
    exists i | 0 <= i < |fs.lines(path)| :: fs.lines(path)[i].Text?
  }

  /** No line that is copied is followed, in its file, by an include through which a file with text is first reached. */
  predicate TidyLines(fs: Files, search: seq<Dir>, path: Path, i: nat, t: Trace)
    requires fs.Valid() && path in fs.all && i <= |fs.lines(path)|
    decreases fs.all - t.seen, 1 + |fs.lines(path)| - i
  {
    if i == |fs.lines(path)| then true
    else
      match fs.lines(path)[i]
      case Text(_) =>
        && TidyLines(fs, search, path, i + 1, t)
        && match VisitLines(fs, search, path, i + 1, t) {
             case Done(t') => forall f | f in t'.seen && f !in t.seen :: !HasText(fs, f)
             case NotFound(_, _) => true
           }
      case Include(name) =>
        FirstMatchListed(fs, name, [fs.parent(path)] + search);
        match Resolve(fs, search, path, name)
        case None => true
        case Some(v) =>
          && Tidy(fs, search, v, t)
          && match Visit(fs, search, v, t) {
               case Done(t') => TidyLines(fs, search, path, i + 1, t')
               case NotFound(_, _) => true
             }
  }

  predicate Tidy(fs: Files, search: seq<Dir>, path: Path, t: Trace)
    requires fs.Valid() && path in fs.all
    decreases fs.all - t.seen, 0
  {
    if path in t.seen then true
    else
      assert path in fs.all - t.seen && path !in fs.all - (t.seen + {path});
      TidyLines(fs, search, path, 0, Trace(t.seen + {path}, t.order))
  }

  // Lists of bodies

  lemma {:induction false} BodiesConcat(fs: Files, a: seq<Path>, b: seq<Path>)
    ensures Bodies(fs, a + b) == Bodies(fs, a) + Bodies(fs, b)
  {
    hide Body;
    if |a| == 0 {
      assert a + b == b;
    } else {
      BodiesConcat(fs, a[1..], b);
      assert (a + b)[1..] == a[1..] + b;
    }
  }

  lemma {:induction false} BodyIsOwn(fs: Files, path: Path, i: nat)
    requires i <= |fs.lines(path)|
    ensures forall p | p in Body(fs, path, i) :: p.file == path
    ensures Body(fs, path, i) != [] <==> exists j | i <= j < |fs.lines(path)| :: fs.lines(path)[j].Text?
    decreases |fs.lines(path)| - i
  {
    if i < |fs.lines(path)| {
      BodyIsOwn(fs, path, i + 1);
    }
  }

  /** The bodies of some files hold lines of those files only, and none at all just when no file has text. */
  lemma {:induction false} BodiesAreOwn(fs: Files, order: seq<Path>)
    ensures forall p | p in Bodies(fs, order) :: p.file in order
    ensures Bodies(fs, order) == [] <==> forall f | f in order :: !HasText(fs, f)
  {
    if |order| > 0 {
      BodyIsOwn(fs, order[0], 0);
      BodiesAreOwn(fs, order[1..]);
      assert forall f :: f in order <==> f == order[0] || f in order[1..];
    }
  }

  // One walk, two texts

  /** The list grows by exactly the files newly seen. */
  ghost predicate Grows(t: Trace, t': Trace) {
    && t.order <= t'.order
    && t.seen <= t'.seen
    && forall f :: f in t'.order[|t.order|..] <==> f in t'.seen && f !in t.seen
  }

  /** The bodies newly listed, followed by the own lines still to be, against the expansion of the same stretch. */
  ghost predicate SameText(fs: Files, t: Trace, o: Outcome, own: seq<Piece>, e: Expansion, tidy: bool)
    ensures SameText(fs, t, o, own, e, tidy) ==>
              match o
              case NotFound(u, name) => e == Missing(u, name)
              case Done(t') => e.Whole? && e.seen == t'.seen
  {
    match o
    case NotFound(u, name) => e == Missing(u, name)
    case Done(t') =>
      && Grows(t, t')
      && e.Whole? && e.seen == t'.seen
      && var listed := Bodies(fs, t'.order[|t.order|..]) + own;
         multiset(listed) == multiset(e.text) && (tidy <==> listed == e.text)
  }

  lemma GrowsTransitive(fs: Files, t: Trace, t1: Trace, t2: Trace)
    requires Grows(t, t1) && Grows(t1, t2)
    ensures Grows(t, t2)
    ensures Bodies(fs, t2.order[|t.order|..])
            == Bodies(fs, t1.order[|t.order|..]) + Bodies(fs, t2.order[|t1.order|..])
  {
    var a, b := t1.order[|t.order|..], t2.order[|t1.order|..];
    assert t2.order[|t.order|..] == a + b;
    BodiesConcat(fs, a, b);
  }

  lemma Displaced(listed: seq<Piece>, own: seq<Piece>, text: seq<Piece>, x: Piece)
    requires multiset(listed + own) == multiset(text) && x !in listed
    ensures multiset(listed + ([x] + own)) == multiset([x] + text)
    ensures listed + ([x] + own) == [x] + text <==> listed == [] && listed + own == text
  {
    if listed == [] {
      assert listed + own == own && listed + ([x] + own) == [x] + own;
      assert ([x] + own)[1..] == own && ([x] + text)[1..] == text;
    } else {
      assert listed[0] in listed;
      assert (listed + ([x] + own))[0] != x && ([x] + text)[0] == x;
    }
  }

  /** A copied line keeps its place only if no text is listed before it. */
  lemma TextStep(fs: Files, path: Path, content: string, t: Trace, o: Outcome, own: seq<Piece>, e: Expansion,
                 tidy: bool)
    requires path in t.seen && SameText(fs, t, o, own, e, tidy)
    ensures var x := Piece(path, content);
            var quiet := o.Done? ==> forall f | f in o.t.seen && f !in t.seen :: !HasText(fs, f);
            SameText(fs, t, o, [x] + own, Before([x], e), tidy && quiet)
  {
    hide HasText, Bodies;
    if o.Done? {
      var x := Piece(path, content);
      var files := o.t.order[|t.order|..];
      BodiesAreOwn(fs, files);
      assert path !in files;
      Displaced(Bodies(fs, files), own, e.text, x);
    }
  }

  /** An included file keeps its place as one block. */
  lemma IncludeStep(fs: Files, t: Trace, t1: Trace, e1: Expansion, tidy1: bool, o: Outcome, own: seq<Piece>,
                    e: Expansion, tidy: bool)
    requires SameText(fs, t, Done(t1), [], e1, tidy1) && SameText(fs, t1, o, own, e, tidy)
    ensures SameText(fs, t, o, own, Before(e1.text, e), tidy1 && tidy)
  {
    hide Bodies;
    if o.Done? {
      GrowsTransitive(fs, t, t1, o.t);
      var a, b := Bodies(fs, t1.order[|t.order|..]), Bodies(fs, o.t.order[|t1.order|..]);
      assert a + [] == a;
      assert a + b + own == a + (b + own);
      assert |a| == |multiset(a)| == |multiset(e1.text)| == |e1.text|;
      if a + (b + own) == e1.text + e.text {
        assert a == (a + (b + own))[..|a|] && b + own == (a + (b + own))[|a|..];
      }
    }
  }

  lemma BodiesOne(fs: Files, path: Path)
    ensures Bodies(fs, [path]) == Body(fs, path, 0)
  {
    hide Body;
    assert [path][1..] == [];
    assert Bodies(fs, [path]) == Body(fs, path, 0) + Bodies(fs, []);
  }

  /** Listing a file turns its own lines into a listed body. */
  lemma Listed(fs: Files, path: Path, t: Trace, t1: Trace, e: Expansion, tidy: bool)
    requires path !in t.seen
    requires SameText(fs, Trace(t.seen + {path}, t.order), Done(t1), Body(fs, path, 0), e, tidy)
    ensures SameText(fs, t, Done(Trace(t1.seen, t1.order + [path])), [], e, tidy)
  {
    hide Body, Bodies;
    var order := t1.order + [path];
    var files := t1.order[|t.order|..];
    assert order[|t.order|..] == files + [path];
    BodiesConcat(fs, files, [path]);
    BodiesOne(fs, path);
    assert Bodies(fs, files + [path]) + [] == Bodies(fs, files) + Body(fs, path, 0);
  }

  lemma {:induction false} VisitText(fs: Files, search: seq<Dir>, path: Path, t: Trace)
    requires fs.Valid() && path in fs.all
    ensures SameText(fs, t, Visit(fs, search, path, t), [], Expand(fs, search, path, t.seen), Tidy(fs, search, path, t))
    decreases fs.all - t.seen, 0
  {
    hide VisitLines, ExpandLines, TidyLines, Body, SameText;
    if path in t.seen {
      NothingListed(fs, t);
    } else {
      var t0 := Trace(t.seen + {path}, t.order);
      assert path in fs.all - t.seen && path !in fs.all - t0.seen;
      LinesText(fs, search, path, 0, t0);
      match VisitLines(fs, search, path, 0, t0) {
        case NotFound(u, name) =>
          MissingBoth(fs, t, u, name, [], TidyLines(fs, search, path, 0, t0));
        case Done(t1) =>
          Listed(fs, path, t, t1, ExpandLines(fs, search, path, 0, t0.seen), TidyLines(fs, search, path, 0, t0));
      }
    }
  }

  lemma {:induction false} LinesText(fs: Files, search: seq<Dir>, path: Path, i: nat, t: Trace)
    requires fs.Valid() && path in fs.all && i <= |fs.lines(path)| && path in t.seen
    ensures SameText(fs, t, VisitLines(fs, search, path, i, t), Body(fs, path, i),
                     ExpandLines(fs, search, path, i, t.seen), TidyLines(fs, search, path, i, t))
    decreases fs.all - t.seen, 1 + |fs.lines(path)| - i
  {
    hide SameText, FirstMatch, Visit, Expand, Tidy, HasText;
    if i == |fs.lines(path)| {
      NothingListed(fs, t);
    } else {
      match fs.lines(path)[i] {
        case Text(content) =>
          LinesText(fs, search, path, i + 1, t);
          TextStep(fs, path, content, t, VisitLines(fs, search, path, i + 1, t), Body(fs, path, i + 1),
                   ExpandLines(fs, search, path, i + 1, t.seen), TidyLines(fs, search, path, i + 1, t));
        case Include(name) =>
          FirstMatchListed(fs, name, [fs.parent(path)] + search);
          match Resolve(fs, search, path, name) {
            case None =>
              MissingBoth(fs, t, path, name, Body(fs, path, i), TidyLines(fs, search, path, i, t));
            case Some(v) =>
              VisitText(fs, search, v, t);
              var e1 := Expand(fs, search, v, t.seen);
              match Visit(fs, search, v, t) {
                case NotFound(u, n) =>
                  MissingBoth(fs, t, u, n, Body(fs, path, i), TidyLines(fs, search, path, i, t));
                case Done(t1) =>
                  assert fs.all - t1.seen <= fs.all - t.seen;
                  LinesText(fs, search, path, i + 1, t1);
                  IncludeStep(fs, t, t1, e1, Tidy(fs, search, v, t), VisitLines(fs, search, path, i + 1, t1),
                              Body(fs, path, i + 1), ExpandLines(fs, search, path, i + 1, t1.seen),
                              TidyLines(fs, search, path, i + 1, t1));
              }
          }
      }
    }
  }

  lemma NothingListed(fs: Files, t: Trace)
    ensures SameText(fs, t, Done(t), [], Whole(t.seen, []), true)
  {
    assert t.order[|t.order|..] == [];
  }

  lemma MissingBoth(fs: Files, t: Trace, u: Path, name: Name, own: seq<Piece>, tidy: bool)
    ensures SameText(fs, t, NotFound(u, name), own, Missing(u, name), tidy)
  {
  }

  // The whole text

  function InPlace(fs: Files, search: seq<Dir>, root: Path): Expansion
    requires fs.Valid() && root in fs.all
  {
    Expand(fs, search, root, {})
  }

  /**
   For every include graph, cyclic or not: the listed bodies are a rearrangement of the in-place expansion; they are
   that expansion, line for line, just when the walk is tidy; and the two fail on the same include.
   */
  lemma AmalgamationPreservesText(fs: Files, search: seq<Dir>, root: Path)
    requires fs.Valid() && root in fs.all
    ensures match OrderFor(fs, search, root)
            case NotFound(u, name) => InPlace(fs, search, root) == Missing(u, name)
            case Done(t) =>
              && InPlace(fs, search, root).Whole?
              && multiset(Bodies(fs, t.order)) == multiset(InPlace(fs, search, root).text)
              && (Bodies(fs, t.order) == InPlace(fs, search, root).text
                  <==> Tidy(fs, search, root, Trace({}, [])))
  {
    hide Visit, Expand, Tidy, Bodies;
    VisitText(fs, search, root, Trace({}, []));
    match OrderFor(fs, search, root) {
      case NotFound(_, _) =>
      case Done(t) =>
        assert t.order[0..] == t.order;
        assert Bodies(fs, t.order) + [] == Bodies(fs, t.order);
    }
  }

  // Includes first

  /** All the includes of a file come before any other line of it. */
  predicate IncludesFirst(fs: Files, path: Path) {
    forall i, j | 0 <= i < j < |fs.lines(path)| && fs.lines(path)[j].Include? :: fs.lines(path)[i].Include?
  }

  ghost predicate AllIncludesFirst(fs: Files, search: seq<Dir>, path: Path) {
    forall u | Reaches(fs, search, path, u) :: IncludesFirst(fs, u)
  }

  lemma {:induction false} TextOnly(fs: Files, search: seq<Dir>, path: Path, i: nat, t: Trace)
    requires fs.Valid() && path in fs.all && i <= |fs.lines(path)|
    requires forall j | i <= j < |fs.lines(path)| :: fs.lines(path)[j].Text?
    ensures VisitLines(fs, search, path, i, t) == Done(t) && TidyLines(fs, search, path, i, t)
    decreases |fs.lines(path)| - i
  {
    if i < |fs.lines(path)| {
      TextOnly(fs, search, path, i + 1, t);
    }
  }

  lemma {:induction false} IncludesFirstIsTidy(fs: Files, search: seq<Dir>, path: Path, t: Trace)
    requires fs.Valid() && path in fs.all && AllIncludesFirst(fs, search, path)
    ensures Tidy(fs, search, path, t)
    decreases fs.all - t.seen, 0
  {
    hide TidyLines, AllIncludesFirst;
    if path !in t.seen {
      var t0 := Trace(t.seen + {path}, t.order);
      assert path in fs.all - t.seen && path !in fs.all - t0.seen;
      IncludesFirstLines(fs, search, path, 0, t0);
    }
  }

  lemma {:induction false} IncludesFirstLines(fs: Files, search: seq<Dir>, path: Path, i: nat, t: Trace)
    requires fs.Valid() && path in fs.all && i <= |fs.lines(path)| && AllIncludesFirst(fs, search, path)
    ensures TidyLines(fs, search, path, i, t)
    decreases fs.all - t.seen, 1 + |fs.lines(path)| - i
  {
    hide Reaches, Visit, Tidy, HasText, FirstMatch;
    ReachesItself(fs, search, path);
    if i < |fs.lines(path)| {
      match fs.lines(path)[i] {
        case Text(_) =>
          assert IncludesFirst(fs, path);
          TextOnly(fs, search, path, i, t);
        case Include(name) =>
          FirstMatchListed(fs, name, [fs.parent(path)] + search);
          match Resolve(fs, search, path, name) {
            case None =>
            case Some(v) =>
              assert Edge(fs, search, path, v);
              IncludesFirstBelow(fs, search, path, v);
              IncludesFirstIsTidy(fs, search, v, t);
              match Visit(fs, search, v, t) {
                case NotFound(_, _) =>
                case Done(t1) =>
                  assert fs.all - t1.seen <= fs.all - t.seen;
                  IncludesFirstLines(fs, search, path, i + 1, t1);
              }
          }
      }
    }
  }

  lemma IncludesFirstBelow(fs: Files, search: seq<Dir>, path: Path, v: Path)
    requires AllIncludesFirst(fs, search, path) && Edge(fs, search, path, v)
    ensures AllIncludesFirst(fs, search, v)
  {
    hide Edge, Reaches;
    EdgeReaches(fs, search, path, v);
    forall u | Reaches(fs, search, v, u)
      ensures IncludesFirst(fs, u)
    {
      ReachesTransitive(fs, search, path, v, u);
    }
  }

  /** With every reachable file's includes at its top, the bodies in order are the in-place expansion. */
  lemma IncludesFirstKeepsOrder(fs: Files, search: seq<Dir>, root: Path)
    requires fs.Valid() && root in fs.all && AllIncludesFirst(fs, search, root)
    requires OrderFor(fs, search, root).Done?
    ensures InPlace(fs, search, root).Whole?
    ensures Bodies(fs, OrderFor(fs, search, root).t.order) == InPlace(fs, search, root).text
  {
    hide Visit, Expand, Tidy, Bodies, Reaches;
    AmalgamationPreservesText(fs, search, root);
    IncludesFirstIsTidy(fs, search, root, Trace({}, []));
  }

  /** Two files: a.c has a line above its include of b.h. */
  function Example(): Files {
    Files({"a.c", "b.h"}, p => if p == "a.c" then [Text("x"), Include("b.h")] else [Text("y")], p => "src", p => p,
          (d, n) => if n == "b.h" then Some("b.h") else None)
  }

  /** A line above an include is written after the included file, where in-place expansion has it before. */
  lemma LateIncludeMovesText()
    ensures var fs := Example();
            && fs.Valid()
            && OrderFor(fs, [], "a.c") == Done(Trace({"a.c", "b.h"}, ["b.h", "a.c"]))
            && Bodies(fs, ["b.h", "a.c"]) == [Piece("b.h", "y"), Piece("a.c", "x")]
            && InPlace(fs, [], "a.c") == Whole({"a.c", "b.h"}, [Piece("a.c", "x"), Piece("b.h", "y")])
  {
    var fs, search: seq<Dir>, a, b := Example(), [], "a.c", "b.h";
    assert a != b && Resolve(fs, search, a, b) == Some(b);
    LateInclude(fs, search, a, b, b);
  }

  lemma LateInclude(fs: Files, search: seq<Dir>, a: Path, b: Path, name: Name)
    requires fs.Valid() && a in fs.all && b in fs.all && a != b
    requires fs.lines(a) == [Text("x"), Include(name)] && fs.lines(b) == [Text("y")]
    requires Resolve(fs, search, a, name) == Some(b)
    ensures OrderFor(fs, search, a) == Done(Trace({a, b}, [b, a]))
    ensures Bodies(fs, [b, a]) == [Piece(b, "y"), Piece(a, "x")]
    ensures InPlace(fs, search, a) == Whole({a, b}, [Piece(a, "x"), Piece(b, "y")])
  {
    hide Resolve, FirstMatch;
    assert {a} + {b} == {a, b};
    assert VisitLines(fs, search, b, 1, Trace({a, b}, [])) == Done(Trace({a, b}, []));
    assert Visit(fs, search, b, Trace({a}, [])) == Done(Trace({a, b}, [b]));
    assert VisitLines(fs, search, a, 2, Trace({a, b}, [b])) == Done(Trace({a, b}, [b]));
    assert VisitLines(fs, search, a, 1, Trace({a}, [])) == Done(Trace({a, b}, [b]));
    assert VisitLines(fs, search, a, 0, Trace({a}, [])) == Done(Trace({a, b}, [b]));
    var start: set<Path> := {};
    assert start + {a} == {a};
    assert Visit(fs, search, a, Trace(start, [])) == Done(Trace({a, b}, [b] + [a]));
    assert ExpandLines(fs, search, b, 1, {a, b}) == Whole({a, b}, []);
    assert Expand(fs, search, b, {a}) == Whole({a, b}, [Piece(b, "y")]);
    assert ExpandLines(fs, search, a, 1, {a}) == Whole({a, b}, [Piece(b, "y")]);
    assert ExpandLines(fs, search, a, 0, {a}) == Whole({a, b}, [Piece(a, "x"), Piece(b, "y")]);
    assert Body(fs, a, 1) == Body(fs, a, 2) == [];
    assert Body(fs, b, 1) == [];
    assert Bodies(fs, [a]) == [Piece(a, "x")];
    assert [b, a][1..] == [a];
  }

  // What is written out

  /** A chunk of the output: a line copied from a file, or a line the amalgamator adds. */
  datatype Chunk = Copied(piece: Piece) | Added(line: string)

  const FOLD_BEGIN := "// {{{ "
  const FOLD_END := "// }}}"

  function Copies(pieces: seq<Piece>): seq<Chunk> {
    if |pieces| == 0 then [] else [Copied(pieces[0])] + Copies(pieces[1..])
  }

  /** One file between its fold markers. */
  function Section(fs: Files, path: Path): seq<Chunk> {
    [Added(""), Added(FOLD_BEGIN + fs.name(path))] + Copies(Body(fs, path, 0)) + [Added(""), Added(FOLD_END)]
  }

  function Sections(fs: Files, order: seq<Path>): seq<Chunk> {
    if |order| == 0 then [] else Section(fs, order[0]) + Sections(fs, order[1..])
  }

  function Header(script: string): seq<Chunk> {
    [Added("// generated by " + script), Added("// vim: set foldmethod=marker foldlevel=0:")]
  }

  /** emit: the lines of one file that are not includes, in order and unchanged. */
  method Emit(fs: Files, path: Path) returns (out: seq<Chunk>)
    ensures out == Copies(Body(fs, path, 0))
  {
    out := [];
    var lines := fs.lines(path);
    for i := 0 to |lines|
      invariant out + Copies(Body(fs, path, i)) == Copies(Body(fs, path, 0))
    {
      match lines[i] {
        case Include(_) =>
        case Text(content) =>
          var chunk := Copied(Piece(path, content));
          ghost var rest := Body(fs, path, i + 1);
          assert ([Piece(path, content)] + rest)[1..] == rest;
          assert out + ([chunk] + Copies(rest)) == (out + [chunk]) + Copies(rest);
          out := out + [chunk];
      }
    }
  }

  /** The second half of main: the header, and then every file of the order between its markers. */
  method WriteOut(fs: Files, script: string, order: seq<Path>) returns (out: seq<Chunk>)
    ensures out == Header(script) + Sections(fs, order)
  {
    hide Body, Copies;
    out := Header(script);
    ghost var goal := out + Sections(fs, order);
    for i := 0 to |order|
      invariant out + Sections(fs, order[i..]) == goal
    {
      var path := order[i];
      assert order[i..][1..] == order[i + 1..];
      ghost var rest := Sections(fs, order[i + 1..]);
      out := out + [Added(""), Added(FOLD_BEGIN + fs.name(path))];
      var body := Emit(fs, path);
      out := out + body + [Added(""), Added(FOLD_END)];
    }
  }

  datatype Report = Written(out: seq<Chunk>) | Exit(includer: Path, name: Name)

  /** main: the order is built first, so nothing is written when a file is missing. */
  method Amalgamate(fs: Files, search: seq<Dir>, script: string, root: Path) returns (r: Report)
    requires fs.Valid() && root in fs.all
    ensures var o := OrderFor(fs, search, root);
            && (o.NotFound? ==> r == Exit(o.includer, o.name))
            && (o.Done? ==> r == Written(Header(script) + Sections(fs, o.t.order)))
  {
    hide Visit, Header, Sections;
    var walk := new Traversal(fs, search);
    var error := walk.VisitPath(root);
    if error.Some? {
      return Exit(error.value.0, error.value.1);
    }
    var out := WriteOut(fs, script, walk.order);
    return Written(out);
  }

  // The copied lines of the output

  function CopiedFrom(chunks: seq<Chunk>): seq<Piece> {
    if |chunks| == 0 then []
    else (if chunks[0].Copied? then [chunks[0].piece] else []) + CopiedFrom(chunks[1..])
  }

  lemma {:induction false} CopiedFromConcat(a: seq<Chunk>, b: seq<Chunk>)
    ensures CopiedFrom(a + b) == CopiedFrom(a) + CopiedFrom(b)
  {
    if |a| == 0 {
      assert a + b == b;
    } else {
      var first := if a[0].Copied? then [a[0].piece] else [];
      CopiedFromConcat(a[1..], b);
      assert (a + b)[0] == a[0] && (a + b)[1..] == a[1..] + b;
      assert first + (CopiedFrom(a[1..]) + CopiedFrom(b)) == (first + CopiedFrom(a[1..])) + CopiedFrom(b);
    }
  }

  lemma {:induction false} CopiesRoundTrip(pieces: seq<Piece>)
    ensures CopiedFrom(Copies(pieces)) == pieces
  {
    if |pieces| > 0 {
      CopiesRoundTrip(pieces[1..]);
      assert ([Copied(pieces[0])] + Copies(pieces[1..]))[1..] == Copies(pieces[1..]);
    }
  }

  lemma NothingCopied(a: Chunk, b: Chunk)
    requires a.Added? && b.Added?
    ensures CopiedFrom([a, b]) == []
  {
    assert [b][1..] == [];
    assert CopiedFrom([b]) == [];
    assert [a, b][1..] == [b];
  }

  lemma SectionCopiesBody(fs: Files, path: Path)
    ensures CopiedFrom(Section(fs, path)) == Body(fs, path, 0)
  {
    hide Body, Copies, CopiedFrom;
    var opening, body := [Added(""), Added(FOLD_BEGIN + fs.name(path))], Copies(Body(fs, path, 0));
    var closing := [Added(""), Added(FOLD_END)];
    NothingCopied(opening[0], opening[1]);
    NothingCopied(closing[0], closing[1]);
    CopiesRoundTrip(Body(fs, path, 0));
    CopiedFromConcat(opening, body);
    CopiedFromConcat(opening + body, closing);
  }

  lemma {:induction false} SectionsCopyBodies(fs: Files, order: seq<Path>)
    ensures CopiedFrom(Sections(fs, order)) == Bodies(fs, order)
  {
    hide Section, Body;
    if |order| > 0 {
      SectionsCopyBodies(fs, order[1..]);
      SectionCopiesBody(fs, order[0]);
      CopiedFromConcat(Section(fs, order[0]), Sections(fs, order[1..]));
    }
  }

  /** Setting aside the markers and blank lines, the output is a rearrangement of the in-place expansion. */
  lemma OutputPreservesText(fs: Files, search: seq<Dir>, script: string, root: Path)
    requires fs.Valid() && root in fs.all && OrderFor(fs, search, root).Done?
    ensures var out := CopiedFrom(Header(script) + Sections(fs, OrderFor(fs, search, root).t.order));
            && InPlace(fs, search, root).Whole?
            && multiset(out) == multiset(InPlace(fs, search, root).text)
            && (out == InPlace(fs, search, root).text <==> Tidy(fs, search, root, Trace({}, [])))
  {
    hide Visit, Expand, Tidy, Bodies, Sections;
    var order := OrderFor(fs, search, root).t.order;
    NothingCopied(Header(script)[0], Header(script)[1]);
    CopiedFromConcat(Header(script), Sections(fs, order));
    SectionsCopyBodies(fs, order);
    AmalgamationPreservesText(fs, search, root);
  }

  lemma {:induction false} SectionsConcat(fs: Files, a: seq<Path>, b: seq<Path>)
    ensures Sections(fs, a + b) == Sections(fs, a) + Sections(fs, b)
  {
    hide Section;
    if |a| == 0 {
      assert a + b == b;
    } else {
      SectionsConcat(fs, a[1..], b);
      assert (a + b)[1..] == a[1..] + b;
    }
  }

  lemma {:induction false} CopiesAreCopied(pieces: seq<Piece>)
    ensures forall c | c in Copies(pieces) :: c.Copied?
  {
    if |pieces| > 0 {
      CopiesAreCopied(pieces[1..]);
    }
  }

  /**
   The output is the two header lines and then, for each file in order and after all the text of those before it, a
   blank line, the begin marker with the file's name, the file's own lines and nothing else, a blank line, and the
   end marker.
   */
  lemma EachFileIsFolded(fs: Files, script: string, order: seq<Path>, i: nat)
    returns (pre: seq<Chunk>, body: seq<Chunk>, post: seq<Chunk>)
    requires i < |order|
    ensures Header(script) + Sections(fs, order) ==
            pre + [Added(""), Added("// {{{ " + fs.name(order[i]))] + body + [Added(""), Added("// }}}")] + post
    ensures (forall c | c in body :: c.Copied?) && CopiedFrom(body) == Body(fs, order[i], 0)
    ensures CopiedFrom(pre) == Bodies(fs, order[..i]) && CopiedFrom(post) == Bodies(fs, order[i + 1..])
    ensures |pre| >= 2 && (i == 0 ==> |pre| == 2)
    ensures pre[..2] == [Added("// generated by " + script), Added("// vim: set foldmethod=marker foldlevel=0:")]
  {
    hide Body, Copies, CopiedFrom, Bodies, Sections;
    var path := order[i];
    pre := Header(script) + Sections(fs, order[..i]);
    body := Copies(Body(fs, path, 0));
    post := Sections(fs, order[i + 1..]);
    assert order == order[..i] + ([path] + order[i + 1..]);
    SectionsConcat(fs, order[..i], [path] + order[i + 1..]);
    SectionsConcat(fs, [path], order[i + 1..]);
    OneSection(fs, path);
    if i == 0 {
      assert order[..i] == [];
      OneSection(fs, path);
    }
    CopiesRoundTrip(Body(fs, path, 0));
    CopiesAreCopied(Body(fs, path, 0));
    NothingCopied(Header(script)[0], Header(script)[1]);
    CopiedFromConcat(Header(script), Sections(fs, order[..i]));
    SectionsCopyBodies(fs, order[..i]);
    SectionsCopyBodies(fs, order[i + 1..]);
  }

  lemma OneSection(fs: Files, path: Path)
    ensures Sections(fs, [path]) == Section(fs, path) && Sections(fs, []) == []
  {
    hide Section;
    assert [path][1..] == [];
    assert Sections(fs, [path]) == Section(fs, path) + Sections(fs, []);
  }
}
