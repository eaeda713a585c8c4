/** The include traversal of the amalgamator: which files it lists, in what order, and when it fails. */
module IncludeOrder {

  type Path = string
  type Dir = string
  type Name = string

  datatype Option<+T> = None | Some(value: T)

  /** A line of a file, as the include pattern classifies it. */
  datatype Line = Include(name: Name) | Text(content: string)

  /** A file system: at(d, n) is the resolved path of name n under directory d when that is a file. */
  datatype Files = Files(all: set<Path>, lines: Path -> seq<Line>, parent: Path -> Dir, name: Path -> string,
                         at: (Dir, Name) -> Option<Path>)
  {
    ghost predicate Valid() {
      forall d, n :: at(d, n).Some? ==> at(d, n).value in all
    }
  }

  // Looking a file up

  /** The first directory that has the name. */
  function FirstMatch(fs: Files, name: Name, dirs: seq<Dir>): Option<Path> {
    if |dirs| == 0 then None
    else if fs.at(dirs[0], name).Some? then fs.at(dirs[0], name)
    else FirstMatch(fs, name, dirs[1..])
  }

  /** find_file. */
  method FindFile(fs: Files, name: Name, dirs: seq<Dir>) returns (r: Option<Path>)
    ensures r == FirstMatch(fs, name, dirs)
  {
    for i := 0 to |dirs|
      invariant FirstMatch(fs, name, dirs) == FirstMatch(fs, name, dirs[i..])
    {
      if fs.at(dirs[i], name).Some? {
        return fs.at(dirs[i], name);
      }
      assert dirs[i..][1..] == dirs[i + 1..];
    }
    return None;
  }

  /** A name is found in the earliest directory that has it, and in none only when no directory does. */
  lemma {:induction false} FirstMatchIsFirst(fs: Files, name: Name, dirs: seq<Dir>)
    ensures var r := FirstMatch(fs, name, dirs);
            && (r.None? <==> forall i | 0 <= i < |dirs| :: fs.at(dirs[i], name).None?)
            && (r.Some? ==> exists i | 0 <= i < |dirs| ::
                  fs.at(dirs[i], name) == r && forall j | 0 <= j < i :: fs.at(dirs[j], name).None?)
  {
    if |dirs| != 0 {
      FirstMatchIsFirst(fs, name, dirs[1..]);
      var r := FirstMatch(fs, name, dirs);
      if fs.at(dirs[0], name).None? && r.Some? {
        var i :| 0 <= i < |dirs[1..]| && fs.at(dirs[1..][i], name) == r
                 && forall j | 0 <= j < i :: fs.at(dirs[1..][j], name).None?;
        assert fs.at(dirs[i + 1], name) == r;
        forall j | 0 <= j < i + 1
          ensures fs.at(dirs[j], name).None?
        {
          if j > 0 {
            assert dirs[j] == dirs[1..][j - 1];
          }
        }
      }
      assert forall i | 0 < i < |dirs| :: dirs[i] == dirs[1..][i - 1];
    }
  }

  /** Where an include leads: the including file's own directory comes before the search paths. */
  function Resolve(fs: Files, search: seq<Dir>, includer: Path, name: Name): Option<Path> {
    FirstMatch(fs, name, [fs.parent(includer)] + search)
  }

  lemma {:induction false} FirstMatchListed(fs: Files, name: Name, dirs: seq<Dir>)
    requires fs.Valid()
    ensures FirstMatch(fs, name, dirs).Some? ==> FirstMatch(fs, name, dirs).value in fs.all
  {
    if |dirs| != 0 {
      FirstMatchListed(fs, name, dirs[1..]);
    }
  }

  // The include graph

  ghost predicate Edge(fs: Files, search: seq<Dir>, u: Path, v: Path) {
    exists name :: Include(name) in fs.lines(u) && Resolve(fs, search, u, name) == Some(v)
  }

  /** File u has an include of this name that leads nowhere. */
  predicate Dangling(fs: Files, search: seq<Dir>, u: Path, name: Name) {
    Include(name) in fs.lines(u) && Resolve(fs, search, u, name).None?
  }

  ghost predicate Walk(fs: Files, search: seq<Dir>, p: seq<Path>) {
    |p| > 0 && forall i | 0 <= i < |p| - 1 :: Edge(fs, search, p[i], p[i + 1])
  }

  ghost predicate Reaches(fs: Files, search: seq<Dir>, u: Path, v: Path) {
    exists p :: Walk(fs, search, p) && p[0] == u && p[|p| - 1] == v
  }

  lemma ReachesItself(fs: Files, search: seq<Dir>, u: Path)
    ensures Reaches(fs, search, u, u)
  {
    assert Walk(fs, search, [u]) && [u][0] == u;
  }

  lemma ReachesTransitive(fs: Files, search: seq<Dir>, u: Path, v: Path, w: Path)
    requires Reaches(fs, search, u, v) && Reaches(fs, search, v, w)
    ensures Reaches(fs, search, u, w)
  {
    hide Edge;
    var p :| Walk(fs, search, p) && p[0] == u && p[|p| - 1] == v;
    var q :| Walk(fs, search, q) && q[0] == v && q[|q| - 1] == w;
    var r := p + q[1..];
    forall i | 0 <= i < |r| - 1
      ensures Edge(fs, search, r[i], r[i + 1])
    {
      if i < |p| - 1 {
        assert Edge(fs, search, p[i], p[i + 1]);
      } else {
        assert Edge(fs, search, q[i - (|p| - 1)], q[i - (|p| - 1) + 1]);
      }
    }
    assert Walk(fs, search, r) && r[0] == u && r[|r| - 1] == w;
  }

  lemma EdgeReaches(fs: Files, search: seq<Dir>, u: Path, v: Path)
    requires Edge(fs, search, u, v)
    ensures Reaches(fs, search, u, v)
  {
    hide Edge;
    var p := [u, v];
    assert Walk(fs, search, p) && p[0] == u && p[|p| - 1] == v;
  }

  // The traversal

  datatype Trace = Trace(seen: set<Path>, order: seq<Path>)

  /** The traversal ends with its two collections, or by raising FileNotFoundError for one include. */
  datatype Outcome = Done(t: Trace) | NotFound(includer: Path, name: Name)

  function Visit(fs: Files, search: seq<Dir>, path: Path, t: Trace): (r: Outcome)
    requires fs.Valid() && path in fs.all
    ensures r.Done? ==> t.seen <= r.t.seen
    decreases fs.all - t.seen, 0
  {
    if path in t.seen then Done(t)
    else
      assert path in fs.all - t.seen && path !in fs.all - (t.seen + {path});
      match VisitLines(fs, search, path, 0, Trace(t.seen + {path}, t.order))
      case Done(t') => Done(Trace(t'.seen, t'.order + [path]))
      case NotFound(u, name) => NotFound(u, name)
  }

  /** The lines of a file from line i on. */
  function VisitLines(fs: Files, search: seq<Dir>, path: Path, i: nat, t: Trace): (r: Outcome)
    requires fs.Valid() && path in fs.all && i <= |fs.lines(path)|
    ensures r.Done? ==> t.seen <= r.t.seen
    decreases fs.all - t.seen, 1 + |fs.lines(path)| - i
  {
    if i == |fs.lines(path)| then Done(t)
    else
      match fs.lines(path)[i]
      case Text(_) => VisitLines(fs, search, path, i + 1, t)
      case Include(name) =>
        FirstMatchListed(fs, name, [fs.parent(path)] + search);
        match Resolve(fs, search, path, name)
        case None => NotFound(path, name)
        case Some(v) =>
          match Visit(fs, search, v, t)
          case Done(t') => VisitLines(fs, search, path, i + 1, t')
          case NotFound(u, n) => NotFound(u, n)
  }

  /** The traversal with the set and the list that the nested function updates. */
  class Traversal {
    const fs: Files
    const search: seq<Dir>
    var seen: set<Path>
    var order: seq<Path>

    constructor (fs: Files, search: seq<Dir>)
      ensures this.fs == fs && this.search == search && seen == {} && order == []
    {
      this.fs, this.search := fs, search;
      seen, order := {}, [];
    }

    /** visit: None stands for a normal return, Some for the exception. */
    method VisitPath(path: Path) returns (error: Option<(Path, Name)>)
      requires fs.Valid() && path in fs.all
      modifies this
      ensures match Visit(fs, search, path, Trace(old(seen), old(order)))
              case Done(t) => error.None? && Trace(seen, order) == t
              case NotFound(u, name) => error == Some((u, name))
      decreases fs.all - seen
    {
      ghost var goal := Visit(fs, search, path, Trace(seen, order));
      if path in seen {
        return None;
      }
      assert path in fs.all - seen && path !in fs.all - (seen + {path});
      ghost var before := seen;
      seen := seen + {path};
      ghost var inner := VisitLines(fs, search, path, 0, Trace(seen, order));
      var lines := fs.lines(path);
      for i := 0 to |lines|
        invariant before + {path} <= seen
        invariant VisitLines(fs, search, path, i, Trace(seen, order)) == inner
      {
        match lines[i]
        case Text(_) =>
        case Include(name) =>
          FirstMatchListed(fs, name, [fs.parent(path)] + search);
          var target := FindFile(fs, name, [fs.parent(path)] + search);
          if target.None? {
            return Some((path, name));
          }
          assert fs.all - seen <= fs.all - (before + {path});
          error := VisitPath(target.value);
          if error.Some? {
            return;
          }
      }
      order := order + [path];
      return None;
    }
  }
}
