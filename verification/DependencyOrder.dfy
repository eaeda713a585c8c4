/** What the include traversal promises: the files reached, once each, dependencies first; and its exact failures. */
module DependencyOrder {
  import opened IncludeOrder

  ghost predicate NoDuplicates(order: seq<Path>) {
    forall i, j | 0 <= i < j < |order| :: order[i] != order[j]
  }

  /** Every file listed has each of its includes before it, save those that lead back to it. */
  ghost predicate DependenciesFirst(fs: Files, search: seq<Dir>, order: seq<Path>) {
    forall i, v | 0 <= i < |order| && Edge(fs, search, order[i], v) ::
      v in order[..i] || Reaches(fs, search, v, order[i])
  }

  /** Every include of file u leads to a file in s. */
  ghost predicate Closed(fs: Files, search: seq<Dir>, u: Path, s: set<Path>) {
    forall name | Include(name) in fs.lines(u) ::
      Resolve(fs, search, u, name).Some? && Resolve(fs, search, u, name).value in s
  }

  /** Seen but not yet listed: the files whose traversal is under way. */
  ghost predicate Open(t: Trace, u: Path) {
    u in t.seen && u !in t.order
  }

  /** What holds whenever a file is about to be visited. */
  ghost predicate Ready(fs: Files, search: seq<Dir>, path: Path, t: Trace) {
    && NoDuplicates(t.order)
    && (forall u | u in t.order :: u in t.seen && Closed(fs, search, u, t.seen))
    && DependenciesFirst(fs, search, t.order)
    && (forall u | Open(t, u) :: Reaches(fs, search, u, path))
  }

  /** What a traversal adds to its collections, all of it reachable from path. */
  ghost predicate Advanced(fs: Files, search: seq<Dir>, path: Path, t: Trace, t': Trace) {
    && t.order <= t'.order
    && t.seen <= t'.seen
    && (forall u :: Open(t', u) <==> Open(t, u))
    && (forall u | u in t'.seen && u !in t.seen :: Reaches(fs, search, path, u))
  }

  ghost predicate Fails(fs: Files, search: seq<Dir>, path: Path, u: Path, name: Name) {
    Reaches(fs, search, path, u) && Dangling(fs, search, u, name)
  }

  lemma ReadyThrough(fs: Files, search: seq<Dir>, path: Path, v: Path, t: Trace)
    requires Ready(fs, search, path, t) && Edge(fs, search, path, v)
    ensures Ready(fs, search, v, t)
  {
    hide Edge, Reaches, DependenciesFirst, Closed;
    EdgeReaches(fs, search, path, v);
    forall u | Open(t, u)
      ensures Reaches(fs, search, u, v)
    {
      ReachesTransitive(fs, search, u, path, v);
    }
  }

  /** After a file has been visited from path, path is ready to go on. */
  lemma ReadyAgain(fs: Files, search: seq<Dir>, path: Path, v: Path, t: Trace, t': Trace)
    requires Ready(fs, search, path, t) && Ready(fs, search, v, t') && Advanced(fs, search, v, t, t')
    ensures Ready(fs, search, path, t')
  {
    hide Edge, Reaches, DependenciesFirst, Closed;
  }

  lemma AdvancedTransitive(fs: Files, search: seq<Dir>, path: Path, v: Path, t: Trace, t': Trace, t'': Trace)
    requires Edge(fs, search, path, v)
    requires Advanced(fs, search, v, t, t') && Advanced(fs, search, path, t', t'')
    ensures Advanced(fs, search, path, t, t'')
  {
    hide Edge, Reaches, Open;
    EdgeReaches(fs, search, path, v);
    forall u | u in t'.seen && u !in t.seen
      ensures Reaches(fs, search, path, u)
    {
      ReachesTransitive(fs, search, path, v, u);
    }
  }

  lemma FailsThrough(fs: Files, search: seq<Dir>, path: Path, v: Path, u: Path, name: Name)
    requires Edge(fs, search, path, v) && Fails(fs, search, v, u, name)
    ensures Fails(fs, search, path, u, name)
  {
    hide Edge, Reaches;
    EdgeReaches(fs, search, path, v);
    ReachesTransitive(fs, search, path, v, u);
  }

  /** Marking a file as seen before its lines are read. */
  lemma Entering(fs: Files, search: seq<Dir>, path: Path, t: Trace)
    requires Ready(fs, search, path, t) && path !in t.seen
    ensures Ready(fs, search, path, Trace(t.seen + {path}, t.order))
  {
    hide Edge, Reaches, DependenciesFirst;
    ReachesItself(fs, search, path);
    var t1 := Trace(t.seen + {path}, t.order);
    assert forall u | u in t.order :: Closed(fs, search, u, t1.seen);
  }

  /** Listing a file once its lines have been read: what it includes is listed already, or leads back to it. */
  lemma Leaving(fs: Files, search: seq<Dir>, path: Path, t: Trace, t1: Trace)
    requires path !in t.seen
    requires Ready(fs, search, path, t) && Ready(fs, search, path, t1)
    requires Advanced(fs, search, path, Trace(t.seen + {path}, t.order), t1)
    requires Closed(fs, search, path, t1.seen)
    ensures var t' := Trace(t1.seen, t1.order + [path]);
            Ready(fs, search, path, t') && Advanced(fs, search, path, t, t')
  {
    hide Reaches;
    ReachesItself(fs, search, path);
    var t0, t' := Trace(t.seen + {path}, t.order), Trace(t1.seen, t1.order + [path]);
    assert Open(t0, path);
    assert Open(t1, path);
    forall i, v | 0 <= i < |t'.order| && Edge(fs, search, t'.order[i], v)
      ensures v in t'.order[..i] || Reaches(fs, search, v, t'.order[i])
    {
      if i < |t1.order| {
        assert t'.order[..i] == t1.order[..i];
      } else {
        assert v in t1.seen;
        assert t'.order[..i] == t1.order;
        assert v !in t1.order ==> Open(t1, v);
      }
    }
    forall u
      ensures Open(t', u) <==> Open(t, u)
    {
      assert Open(t0, u) <==> Open(t1, u);
    }
  }

  lemma {:induction false} VisitWorks(fs: Files, search: seq<Dir>, path: Path, t: Trace)
    requires fs.Valid() && path in fs.all && Ready(fs, search, path, t)
    ensures match Visit(fs, search, path, t)
            case Done(t') =>
              && Advanced(fs, search, path, t, t')
              && Ready(fs, search, path, t')
              && path in t'.seen
              && (path !in t.seen ==> |t'.order| > 0 && t'.order[|t'.order| - 1] == path)
            case NotFound(u, name) => Fails(fs, search, path, u, name)
    decreases fs.all - t.seen, 0
  {
    hide Edge, Reaches, DependenciesFirst, Ready, Advanced, Fails;
    if path in t.seen {
      AdvancedReflexive(fs, search, path, t);
    } else {
      var t0 := Trace(t.seen + {path}, t.order);
      assert path in fs.all - t.seen && path !in fs.all - t0.seen;
      Entering(fs, search, path, t);
      LinesWork(fs, search, path, 0, t0);
      match VisitLines(fs, search, path, 0, t0) {
        case Done(t1) =>
          ClosedFromLines(fs, search, path, t1.seen);
          Leaving(fs, search, path, t, t1);
        case NotFound(u, name) =>
      }
    }
  }

  lemma AdvancedReflexive(fs: Files, search: seq<Dir>, path: Path, t: Trace)
    ensures Advanced(fs, search, path, t, t)
  {
  }

  /** The includes from line i on all lead into s. */
  ghost predicate ClosedFrom(fs: Files, search: seq<Dir>, path: Path, i: nat, s: set<Path>) {
    forall j | i <= j < |fs.lines(path)| && fs.lines(path)[j].Include? ::
      var target := Resolve(fs, search, path, fs.lines(path)[j].name);
      target.Some? && target.value in s
  }

  lemma ClosedFromLines(fs: Files, search: seq<Dir>, path: Path, s: set<Path>)
    requires ClosedFrom(fs, search, path, 0, s)
    ensures Closed(fs, search, path, s)
  {
    forall name | Include(name) in fs.lines(path)
      ensures Resolve(fs, search, path, name).Some? && Resolve(fs, search, path, name).value in s
    {
      var j :| 0 <= j < |fs.lines(path)| && fs.lines(path)[j] == Include(name);
    }
  }

  lemma {:induction false} LinesWork(fs: Files, search: seq<Dir>, path: Path, i: nat, t: Trace)
    requires fs.Valid() && path in fs.all && i <= |fs.lines(path)| && Ready(fs, search, path, t)
    ensures match VisitLines(fs, search, path, i, t)
            case Done(t') =>
              && Advanced(fs, search, path, t, t')
              && Ready(fs, search, path, t')
              && ClosedFrom(fs, search, path, i, t'.seen)
            case NotFound(u, name) => Fails(fs, search, path, u, name)
    decreases fs.all - t.seen, 2 * (|fs.lines(path)| - i) + 1
  {
    hide Reaches, DependenciesFirst, Ready, Advanced, Fails, Resolve;
    if i == |fs.lines(path)| {
      AdvancedReflexive(fs, search, path, t);
    } else {
      match fs.lines(path)[i] {
        case Text(_) =>
          LinesWork(fs, search, path, i + 1, t);
        case Include(name) =>
          IncludeWorks(fs, search, path, i, t, name);
      }
    }
  }

  lemma {:induction false} IncludeWorks(fs: Files, search: seq<Dir>, path: Path, i: nat, t: Trace, name: Name)
    requires fs.Valid() && path in fs.all && i < |fs.lines(path)| && Ready(fs, search, path, t)
    requires fs.lines(path)[i] == Include(name)
    ensures match VisitLines(fs, search, path, i, t)
            case Done(t') =>
              && Advanced(fs, search, path, t, t')
              && Ready(fs, search, path, t')
              && ClosedFrom(fs, search, path, i, t'.seen)
            case NotFound(u, name) => Fails(fs, search, path, u, name)
    decreases fs.all - t.seen, 2 * (|fs.lines(path)| - i)
  {
    hide Reaches, DependenciesFirst, Ready, Advanced;
    assert Include(name) in fs.lines(path);
    FirstMatchListed(fs, name, [fs.parent(path)] + search);
    match Resolve(fs, search, path, name) {
      case None =>
        ReachesItself(fs, search, path);
      case Some(v) =>
        assert Edge(fs, search, path, v);
        ReadyThrough(fs, search, path, v, t);
        VisitWorks(fs, search, v, t);
        match Visit(fs, search, v, t) {
          case NotFound(u, n) =>
            FailsThrough(fs, search, path, v, u, n);
          case Done(t1) =>
            ReadyAgain(fs, search, path, v, t, t1);
            assert fs.all - t1.seen <= fs.all - t.seen;
            LinesWork(fs, search, path, i + 1, t1);
            match VisitLines(fs, search, path, i + 1, t1) {
              case NotFound(_, _) =>
              case Done(t') =>
                AdvancedTransitive(fs, search, path, v, t, t1, t');
            }
        }
    }
  }

  // The whole traversal

  function OrderFor(fs: Files, search: seq<Dir>, root: Path): Outcome
    requires fs.Valid() && root in fs.all
  {
    Visit(fs, search, root, Trace({}, []))
  }

  lemma StartReady(fs: Files, search: seq<Dir>, root: Path)
    ensures Ready(fs, search, root, Trace({}, []))
  {
  }

  /** A set that holds the start of a walk and everything its members include holds the end of it. */
  lemma {:induction false} ClosedHoldsWalk(fs: Files, search: seq<Dir>, s: set<Path>, p: seq<Path>)
    requires Walk(fs, search, p) && p[0] in s && forall u | u in s :: Closed(fs, search, u, s)
    ensures p[|p| - 1] in s
    decreases |p|
  {
    if |p| > 1 {
      var q := p[..|p| - 1];
      forall i | 0 <= i < |q| - 1
        ensures Edge(fs, search, q[i], q[i + 1])
      {
        assert Edge(fs, search, p[i], p[i + 1]);
      }
      ClosedHoldsWalk(fs, search, s, q);
      assert Edge(fs, search, p[|p| - 2], p[|p| - 2 + 1]);
    }
  }

  /**
   When the traversal returns, its list has no duplicates, holds exactly the files reachable from the root, ends
   with the root, and puts every file after each file it includes that cannot itself reach it.
   */
  lemma OrderIsDependencyOrder(fs: Files, search: seq<Dir>, root: Path)
    requires fs.Valid() && root in fs.all && OrderFor(fs, search, root).Done?
    ensures var order := OrderFor(fs, search, root).t.order;
            && NoDuplicates(order)
            && (forall u :: u in order <==> Reaches(fs, search, root, u))
            && |order| > 0 && order[|order| - 1] == root
            && DependenciesFirst(fs, search, order)
  {
    hide Edge, Closed;
    StartReady(fs, search, root);
    VisitWorks(fs, search, root, Trace({}, []));
    var t := OrderFor(fs, search, root).t;
    assert forall u :: !Open(t, u) by {
      assert forall u :: !Open(Trace({}, []), u);
    }
    forall u | u in t.seen
      ensures u in t.order
    {
      assert !Open(t, u);
    }
    forall u | Reaches(fs, search, root, u)
      ensures u in t.order
    {
      var p :| Walk(fs, search, p) && p[0] == root && p[|p| - 1] == u;
      ClosedHoldsWalk(fs, search, t.seen, p);
    }
  }

  /** The order the documentation names: every file after all the files it includes. */
  ghost predicate Topological(fs: Files, search: seq<Dir>, order: seq<Path>) {
    forall i, v | 0 <= i < |order| && Edge(fs, search, order[i], v) :: v in order[..i]
  }

  /** In such an order a walk never moves to a later file. */
  lemma {:induction false} WalkDescends(fs: Files, search: seq<Dir>, order: seq<Path>, p: seq<Path>, i: nat)
    returns (j: nat)
    requires Topological(fs, search, order) && Walk(fs, search, p) && i < |order| && order[i] == p[0]
    ensures j <= i && order[j] == p[|p| - 1]
    decreases |p|
  {
    hide Edge;
    j := i;
    if |p| > 1 {
      assert Edge(fs, search, p[0], p[0 + 1]);
      var k :| 0 <= k < i && order[k] == p[1];
      var q := p[1..];
      forall n | 0 <= n < |q| - 1
        ensures Edge(fs, search, q[n], q[n + 1])
      {
        assert Edge(fs, search, p[n + 1], p[n + 1 + 1]);
      }
      j := WalkDescends(fs, search, order, q, k);
    }
  }

  /** A file with an include that leads back to it stands in no topological order, however that was made. */
  lemma {:induction false} CycleHasNoPlace(fs: Files, search: seq<Dir>, order: seq<Path>, u: Path, v: Path, i: nat)
    requires Topological(fs, search, order) && Edge(fs, search, u, v) && Reaches(fs, search, v, u)
    requires i < |order|
    ensures order[i] != u
    decreases i
  {
    hide Edge;
    if order[i] == u {
      var j :| 0 <= j < i && order[j] == v;
      var p :| Walk(fs, search, p) && p[0] == v && p[|p| - 1] == u;
      var k := WalkDescends(fs, search, order, p, j);
      CycleHasNoPlace(fs, search, order, u, v, k);
    }
  }

  /** Some file that u reaches, u itself included, has an include that leads back to it. */
  ghost predicate CycleBelow(fs: Files, search: seq<Dir>, root: Path) {
    exists u, v :: Reaches(fs, search, root, u) && Edge(fs, search, u, v) && Reaches(fs, search, v, u)
  }

  /** With a cycle among the reachable files, no list of them whatever is in topological order. */
  lemma CyclesHaveNoOrder(fs: Files, search: seq<Dir>, root: Path, order: seq<Path>)
    requires CycleBelow(fs, search, root)
    requires forall u | Reaches(fs, search, root, u) :: u in order
    ensures !Topological(fs, search, order)
  {
    hide Edge, Topological;
    var u, v :| Reaches(fs, search, root, u) && Edge(fs, search, u, v) && Reaches(fs, search, v, u);
    var i :| 0 <= i < |order| && order[i] == u;
    if Topological(fs, search, order) {
      CycleHasNoPlace(fs, search, order, u, v, i);
    }
  }

  /** The list is in topological order just when no reachable file has an include that leads back to it. */
  lemma TopologicalIffAcyclic(fs: Files, search: seq<Dir>, root: Path)
    requires fs.Valid() && root in fs.all && OrderFor(fs, search, root).Done?
    ensures Topological(fs, search, OrderFor(fs, search, root).t.order) <==> !CycleBelow(fs, search, root)
  {
    hide Edge;
    OrderIsDependencyOrder(fs, search, root);
    if CycleBelow(fs, search, root) {
      CyclesHaveNoOrder(fs, search, root, OrderFor(fs, search, root).t.order);
    }
  }

  /** Two files that include each other. */
  function TwoFileCycle(): Files {
    Files({"a.h", "b.h"}, p => [Include(if p == "a.h" then "b.h" else "a.h")], p => "src", p => p,
          (d, n) => if n == "a.h" || n == "b.h" then Some(n) else None)
  }

  /** The traversal of a cycle returns normally, and its list is not in topological order. */
  lemma CycleIsListedAnyway()
    ensures var fs := TwoFileCycle();
            && fs.Valid()
            && OrderFor(fs, [], "a.h") == Done(Trace({"a.h", "b.h"}, ["b.h", "a.h"]))
            && !Topological(fs, [], ["b.h", "a.h"])
  {
    var fs, search: seq<Dir>, a, b := TwoFileCycle(), [], "a.h", "b.h";
    assert a != b && a[0] != b[0];
    assert Resolve(fs, search, a, b) == Some(b) && Resolve(fs, search, b, a) == Some(a);
    TwoFiles(fs, search, a, b, b, a);
    assert ["b.h", "a.h"] == [b, a] && {"a.h", "b.h"} == {a, b};
  }

  lemma TwoFiles(fs: Files, search: seq<Dir>, a: Path, b: Path, toB: Name, toA: Name)
    requires fs.Valid() && a in fs.all && b in fs.all && a != b
    requires fs.lines(a) == [Include(toB)] && Resolve(fs, search, a, toB) == Some(b)
    requires fs.lines(b) == [Include(toA)] && Resolve(fs, search, b, toA) == Some(a)
    ensures OrderFor(fs, search, a) == Done(Trace({a, b}, [b, a]))
    ensures !Topological(fs, search, [b, a])
  {
    hide Resolve, FirstMatch;
    assert {a} + {b} == {a, b};
    assert Visit(fs, search, a, Trace({a, b}, [])) == Done(Trace({a, b}, []));
    assert VisitLines(fs, search, b, 1, Trace({a, b}, [])) == Done(Trace({a, b}, []));
    assert VisitLines(fs, search, b, 0, Trace({a, b}, [])) == Done(Trace({a, b}, []));
    assert Visit(fs, search, b, Trace({a}, [])) == Done(Trace({a, b}, [b]));
    assert VisitLines(fs, search, a, 1, Trace({a, b}, [b])) == Done(Trace({a, b}, [b]));
    assert VisitLines(fs, search, a, 0, Trace({a}, [])) == Done(Trace({a, b}, [b]));
    var start: set<Path> := {};
    assert start + {a} == {a};
    assert Visit(fs, search, a, Trace(start, [])) == Done(Trace({a, b}, [b] + [a]));
    assert Include(toA) in fs.lines(b);
    assert Edge(fs, search, b, a);
    var order := [b, a];
    assert order[0] == b && a !in order[..0];
  }

  /** FileNotFoundError is raised just when some reachable file has an include that leads nowhere. */
  lemma FailureIsExact(fs: Files, search: seq<Dir>, root: Path)
    requires fs.Valid() && root in fs.all
    ensures OrderFor(fs, search, root).NotFound? <==>
            exists u, name :: Reaches(fs, search, root, u) && Dangling(fs, search, u, name)
    ensures match OrderFor(fs, search, root)
            case NotFound(u, name) => Reaches(fs, search, root, u) && Dangling(fs, search, u, name)
            case Done(_) => true
  {
    hide Edge, Reaches;
    StartReady(fs, search, root);
    VisitWorks(fs, search, root, Trace({}, []));
    match OrderFor(fs, search, root) {
      case NotFound(u, name) =>
        assert Reaches(fs, search, root, u) && Dangling(fs, search, u, name);
      case Done(t) =>
        OrderIsDependencyOrder(fs, search, root);
        forall u, name | Reaches(fs, search, root, u)
          ensures !Dangling(fs, search, u, name)
        {
          assert u in t.order;
          assert Closed(fs, search, u, t.seen);
        }
    }
  }

  // Where the files come from

  /** The i-th directory is the first that has the name. */
  ghost predicate FirstAt(fs: Files, name: Name, dirs: seq<Dir>, i: nat, v: Path) {
    i < |dirs| && fs.at(dirs[i], name) == Some(v) && forall j | 0 <= j < i :: fs.at(dirs[j], name).None?
  }

  /** The file that an including file's own directory has under the name, or else the earliest search directory's. */
  ghost predicate Candidate(fs: Files, search: seq<Dir>, u: Path, name: Name, v: Path) {
    || fs.at(fs.parent(u), name) == Some(v)
    || (fs.at(fs.parent(u), name).None? && exists i :: FirstAt(fs, name, search, i, v))
  }

  lemma CandidateResolves(fs: Files, search: seq<Dir>, u: Path, name: Name, v: Path)
    ensures Candidate(fs, search, u, name, v) <==> Resolve(fs, search, u, name) == Some(v)
  {
    var dirs := [fs.parent(u)] + search;
    assert dirs[0] == fs.parent(u) && dirs[1..] == search;
    FirstMatchIsFirst(fs, name, search);
    var r := FirstMatch(fs, name, search);
    if r.Some? {
      var k :| 0 <= k < |search| && fs.at(search[k], name) == r
               && forall j | 0 <= j < k :: fs.at(search[j], name).None?;
      assert FirstAt(fs, name, search, k, r.value);
      if i: nat :| FirstAt(fs, name, search, i, v) {
        assert i == k;
      }
    }
  }

  /**
   A listed file's include brings in the file of that name in its own directory; if that has none, the one in the
   earliest search directory that has the name; and nothing else is listed, save through other includes.
   */
  lemma OwnDirectoryFirst(fs: Files, search: seq<Dir>, root: Path, u: Path, name: Name, v: Path)
    requires fs.Valid() && root in fs.all && OrderFor(fs, search, root).Done?
    requires u in OrderFor(fs, search, root).t.order && Include(name) in fs.lines(u)
    ensures fs.at(fs.parent(u), name) == Some(v) ==> v in OrderFor(fs, search, root).t.order
    ensures Candidate(fs, search, u, name, v) ==> v in OrderFor(fs, search, root).t.order
  {
    hide Resolve, Reaches;
    if Candidate(fs, search, u, name, v) {
      CandidateResolves(fs, search, u, name, v);
      assert Edge(fs, search, u, v);
      OrderIsDependencyOrder(fs, search, root);
      EdgeReaches(fs, search, u, v);
      ReachesTransitive(fs, search, root, u, v);
    }
  }

  /** Each listed file but the root is the candidate of some include of a listed file. */
  lemma ListedByCandidate(fs: Files, search: seq<Dir>, root: Path, v: Path)
    requires fs.Valid() && root in fs.all && OrderFor(fs, search, root).Done?
    requires v in OrderFor(fs, search, root).t.order && v != root
    ensures exists u, name :: u in OrderFor(fs, search, root).t.order && Include(name) in fs.lines(u)
                              && Candidate(fs, search, u, name, v)
  {
    hide Resolve, Candidate;
    OrderIsDependencyOrder(fs, search, root);
    var p :| Walk(fs, search, p) && p[0] == root && p[|p| - 1] == v;
    var q := p[..|p| - 1];
    var u := q[|q| - 1];
    forall i | 0 <= i < |q| - 1
      ensures Edge(fs, search, q[i], q[i + 1])
    {
      assert Edge(fs, search, p[i], p[i + 1]);
    }
    assert Walk(fs, search, q) && q[0] == root && q[|q| - 1] == u;
    assert Reaches(fs, search, root, u);
    assert Edge(fs, search, p[|p| - 2], p[|p| - 2 + 1]);
    var name :| Include(name) in fs.lines(u) && Resolve(fs, search, u, name) == Some(v);
    CandidateResolves(fs, search, u, name, v);
  }

  /** A source file with two includes; x.h is also in a search directory, and y.h in two of them. */
  function TwoCandidates(): Files {
    Files({"a.c", "x.h", "inc/x.h", "inc/y.h", "alt/y.h"},
          p => if p == "a.c" then [Include("x"), Include("y")] else [], p => "src", p => p,
          (d, n) => if d == "src" && n == "x" then Some("x.h")
                    else if d == "inc" && n == "x" then Some("inc/x.h")
                    else if d == "inc" && n == "y" then Some("inc/y.h")
                    else if d == "alt" && n == "y" then Some("alt/y.h")
                    else None)
  }

  /** The own directory comes before the search paths, those come in their order, and so do the includes of a file. */
  lemma LookupExample()
    ensures var fs := TwoCandidates();
            && fs.Valid()
            && OrderFor(fs, ["inc", "alt"], "a.c") == Done(Trace({"a.c", "x.h", "inc/y.h"}, ["x.h", "inc/y.h", "a.c"]))
  {
    var fs, search := TwoCandidates(), ["inc", "alt"];
    var a, x, y := "a.c", "x.h", "inc/y.h";
    assert a[0] != x[0] && a[0] != y[0] && |x| != |y|;
    assert "src"[0] != "inc"[0] && "src"[0] != "alt"[0] && "inc"[0] != "alt"[0] && "x"[0] != "y"[0];
    assert fs.at("src", "y").None? && FirstAt(fs, "y", search, 0, y);
    assert Candidate(fs, search, a, "x", x) && Candidate(fs, search, a, "y", y);
    CandidateResolves(fs, search, a, "x", x);
    CandidateResolves(fs, search, a, "y", y);
    TwoLeaves(fs, search, a, x, y, "x", "y");
  }

  /** A root with two includes of files that have none. */
  lemma TwoLeaves(fs: Files, search: seq<Dir>, a: Path, x: Path, y: Path, toX: Name, toY: Name)
    requires fs.Valid() && {a, x, y} <= fs.all && a != x && a != y && x != y
    requires fs.lines(a) == [Include(toX), Include(toY)] && fs.lines(x) == [] && fs.lines(y) == []
    requires Resolve(fs, search, a, toX) == Some(x) && Resolve(fs, search, a, toY) == Some(y)
    ensures OrderFor(fs, search, a) == Done(Trace({a, x, y}, [x, y, a]))
  {
    hide Resolve, FirstMatch;
    assert VisitLines(fs, search, x, 0, Trace({a} + {x}, [])) == Done(Trace({a} + {x}, []));
    var none: seq<Path> := [];
    assert none + [x] == [x] && [x] + [y] == [x, y];
    assert Visit(fs, search, x, Trace({a}, none)) == Done(Trace({a} + {x}, none + [x]));
    assert {a} + {x} + {y} == {a, x, y};
    assert VisitLines(fs, search, y, 0, Trace({a} + {x} + {y}, [x])) == Done(Trace({a} + {x} + {y}, [x]));
    assert Visit(fs, search, y, Trace({a} + {x}, [x])) == Done(Trace({a, x, y}, [x] + [y]));
    assert VisitLines(fs, search, a, 2, Trace({a, x, y}, [x, y])) == Done(Trace({a, x, y}, [x, y]));
    assert VisitLines(fs, search, a, 1, Trace({a} + {x}, [x])) == Done(Trace({a, x, y}, [x, y]));
    assert VisitLines(fs, search, a, 0, Trace({a}, [])) == Done(Trace({a, x, y}, [x, y]));
    var start: set<Path> := {};
    assert start + {a} == {a};
    assert Visit(fs, search, a, Trace(start, [])) == Done(Trace({a, x, y}, [x, y] + [a]));
  }
}
