/** CFSVerifier::AddPath: the directory walk, over a file system in which links
    may lead anywhere, also back up. */
module Verifier {

  /** What stat(), realpath() and readdir() show. `resolve` has every path that
      leads to a directory, with its real path; `entries` lists a real directory. */
  datatype FileSystem = FileSystem(resolve: map<string, string>, entries: map<string, seq<string>>)

  predicate WFSystem(fs: FileSystem) {
    forall p :: p in fs.resolve ==> fs.resolve[p] in fs.entries
  }

  function Join(dir: string, name: string): string { dir + "/" + name }

  predicate IsDot(name: string) { name == "." || name == ".." }

  /** strncmp() with the length of the excluded path: a prefix of characters,
      not of path components. */
  predicate Excluded(exclude: seq<string>, path: string) {
    exists k :: 0 <= k < |exclude| && exclude[k] <= path
  }

  /** Real directory `b` is entered from real directory `a`. */
  predicate Edge(fs: FileSystem, exclude: seq<string>, a: string, b: string) {
    a in fs.entries && exists k :: 0 <= k < |fs.entries[a]| && Leads(fs, exclude, a, fs.entries[a][k], b)
  }

  predicate Leads(fs: FileSystem, exclude: seq<string>, a: string, name: string, b: string) {
    !IsDot(name) && Join(a, name) in fs.resolve && fs.resolve[Join(a, name)] == b && !Excluded(exclude, b)
  }

  /** From `a` to `b` in `n` steps over directories outside `avoid`. */
  ghost predicate Walk(fs: FileSystem, exclude: seq<string>, avoid: set<string>, n: nat, a: string, b: string) {
    a !in avoid &&
    if n == 0 then a == b
    else exists c :: Edge(fs, exclude, a, c) && Walk(fs, exclude, avoid, n - 1, c, b)
  }

  ghost predicate Reachable(fs: FileSystem, exclude: seq<string>, avoid: set<string>, a: string, b: string) {
    exists n: nat :: Walk(fs, exclude, avoid, n, a, b)
  }

  /** All directories entered from those in `from` are in `all`. */
  ghost predicate Explored(fs: FileSystem, exclude: seq<string>, from: set<string>, all: set<string>) {
    forall a, b :: a in from && Edge(fs, exclude, a, b) ==> b in all
  }

  lemma {:induction false} WalkMore(fs: FileSystem, exclude: seq<string>, avoid: set<string>, avoid': set<string>, n: nat, a: string, b: string)
    requires avoid <= avoid' && Walk(fs, exclude, avoid', n, a, b)
    ensures Walk(fs, exclude, avoid, n, a, b)
    decreases n
  {
    hide Edge;
    if n > 0 {
      var c :| Edge(fs, exclude, a, c) && Walk(fs, exclude, avoid', n - 1, c, b);
      WalkMore(fs, exclude, avoid, avoid', n - 1, c, b);
    }
  }

  /** What is explored outside `old` holds all that can be reached without it. */
  lemma {:induction false} ExploredAll(fs: FileSystem, exclude: seq<string>, old_: set<string>, all: set<string>, n: nat, a: string, b: string)
    requires old_ <= all && a in all && Explored(fs, exclude, all - old_, all) && Walk(fs, exclude, old_, n, a, b)
    ensures b in all
    decreases n
  {
    hide Edge;
    if n > 0 {
      var c :| Edge(fs, exclude, a, c) && Walk(fs, exclude, old_, n - 1, c, b);
      ExploredAll(fs, exclude, old_, all, n - 1, c, b);
    }
  }

  /** From a set that holds all its own entries, avoiding it changes nothing. */
  lemma {:induction false} ClosedAvoid(fs: FileSystem, exclude: seq<string>, old_: set<string>, n: nat, a: string, b: string)
    requires Explored(fs, exclude, old_, old_) && Walk(fs, exclude, {}, n, a, b)
    ensures b in old_ || Walk(fs, exclude, old_, n, a, b)
    decreases n
  {
    hide Edge;
    if n > 0 {
      var c :| Edge(fs, exclude, a, c) && Walk(fs, exclude, {}, n - 1, c, b);
      ClosedAvoid(fs, exclude, old_, n - 1, c, b);
      if a in old_ { StaysInside(fs, exclude, old_, n, a, b); }
    }
  }

  lemma {:induction false} StaysInside(fs: FileSystem, exclude: seq<string>, old_: set<string>, n: nat, a: string, b: string)
    requires Explored(fs, exclude, old_, old_) && a in old_ && Walk(fs, exclude, {}, n, a, b)
    ensures b in old_
    decreases n
  {
    hide Edge;
    if n > 0 {
      var c :| Edge(fs, exclude, a, c) && Walk(fs, exclude, {}, n - 1, c, b);
      StaysInside(fs, exclude, old_, n - 1, c, b);
    }
  }

  /** With one more excluded path a walk reaches no more than before, and nothing
      that begins with that path. */
  lemma {:induction false} ExcludeLess(fs: FileSystem, exclude: seq<string>, path: string, avoid: set<string>, n: nat, a: string, b: string)
    requires Walk(fs, exclude + [path], avoid, n, a, b)
    ensures Walk(fs, exclude, avoid, n, a, b) && (n > 0 ==> !(path <= b))
    decreases n
  {
    if n > 0 {
      var c :| Edge(fs, exclude + [path], a, c) && Walk(fs, exclude + [path], avoid, n - 1, c, b);
      EdgeLess(fs, exclude, path, a, c);
      ExcludeLess(fs, exclude, path, avoid, n - 1, c, b);
    }
  }

  lemma EdgeLess(fs: FileSystem, exclude: seq<string>, path: string, a: string, b: string)
    ensures Edge(fs, exclude + [path], a, b) <==> Edge(fs, exclude, a, b) && !(path <= b)
  {
    assert Excluded(exclude + [path], b) <==> Excluded(exclude, b) || path <= b by {
      var more := exclude + [path];
      assert more[|exclude|] == path;
      forall k | 0 <= k < |exclude| ensures more[k] == exclude[k] {}
      if k :| 0 <= k < |exclude| && exclude[k] <= b { assert more[k] <= b; }
    }
    if Edge(fs, exclude, a, b) && !(path <= b) {
      var k :| 0 <= k < |fs.entries[a]| && Leads(fs, exclude, a, fs.entries[a][k], b);
      assert Leads(fs, exclude + [path], a, fs.entries[a][k], b);
    }
  }

  class CFSVerifier {
    const fs: FileSystem
    var m_exclude: seq<string>
    var m_paths: map<string, bool>

    constructor (fs: FileSystem)
      ensures this.fs == fs && m_exclude == [] && m_paths == map[]
    {
      this.fs, m_exclude, m_paths := fs, [], map[];
    }

    method AddExclude(path: string)
      modifies `m_exclude
      ensures m_exclude == old(m_exclude) + [path]
    {
      m_exclude := m_exclude + [path];
    }

    /** The real directories not yet added. */
    function Missing(): set<string>
      reads this
    {
      fs.entries.Keys - m_paths.Keys
    }

    /** The set of paths grows by exactly the directories that can be reached
        from the argument over directories that were not in it. */
    method AddPath(path: string, recurse: bool) returns (added: bool)
      requires WFSystem(fs)
      modifies `m_paths
      ensures added <==> path in fs.resolve && !Excluded(m_exclude, fs.resolve[path]) && fs.resolve[path] !in old(m_paths)
      ensures !added ==> m_paths == old(m_paths)
      ensures path in fs.resolve && !Excluded(m_exclude, fs.resolve[path]) ==> fs.resolve[path] in m_paths
      ensures added && !recurse ==> m_paths == old(m_paths)[fs.resolve[path] := false]
      ensures old(m_paths.Keys) <= m_paths.Keys && forall p :: p in old(m_paths) ==> m_paths[p] == old(m_paths[p])
      ensures added && recurse ==>
                forall b :: b in m_paths <==>
                  b in old(m_paths) || Reachable(fs, m_exclude, old(m_paths.Keys), fs.resolve[path], b)
      ensures recurse ==> forall p :: p in m_paths && p !in old(m_paths) ==> m_paths[p]
      ensures added && recurse ==> Explored(fs, m_exclude, m_paths.Keys - old(m_paths.Keys), m_paths.Keys)
      decreases Missing()
    {
      hide Edge, Walk, Explored;
      if path !in fs.resolve { return false; }
      var dir := fs.resolve[path];
      for k := 0 to |m_exclude|
        invariant forall j :: 0 <= j < k ==> !(m_exclude[j] <= dir)
      {
        if m_exclude[k] <= dir { return false; }
      }
      if dir in m_paths { return false; }
      ghost var before := m_paths.Keys;
      m_paths := m_paths[dir := recurse];
      added := true;
      WalkNone(fs, m_exclude, before, dir);
      if recurse {
        var names := fs.entries[dir];
        NoneExplored(fs, m_exclude, m_paths.Keys);
        assert m_paths.Keys - before - {dir} == {};
        for k := 0 to |names|
          invariant before + {dir} <= m_paths.Keys
          invariant forall p :: p in old(m_paths) ==> m_paths[p] == old(m_paths[p])
          invariant forall p :: p in m_paths && p !in before ==> m_paths[p]
          invariant forall b :: b in m_paths ==> b in before || Reachable(fs, m_exclude, before, dir, b)
          invariant Explored(fs, m_exclude, m_paths.Keys - before - {dir}, m_paths.Keys)
          invariant forall j, b :: 0 <= j < k && Leads(fs, m_exclude, dir, names[j], b) ==> b in m_paths
        {
          if !IsDot(names[k]) {
            ghost var mid := m_paths.Keys;
            ghost var next := Join(dir, names[k]);
            var more := AddPath(Join(dir, names[k]), true);
            if more {
              assert Edge(fs, m_exclude, dir, fs.resolve[next]) by { LeadsEdge(fs, m_exclude, dir, k, fs.resolve[next]); }
              forall b | b in m_paths && b !in mid ensures Reachable(fs, m_exclude, before, dir, b) {
                ReachOn(fs, m_exclude, before, mid, dir, fs.resolve[next], b);
              }
            }
            ExploredBoth(fs, m_exclude, before, mid, m_paths.Keys, dir);
          }
        }
        RootExplored(fs, m_exclude, before, m_paths.Keys, dir);
        forall b | Reachable(fs, m_exclude, before, dir, b) ensures b in m_paths {
          var n: nat :| Walk(fs, m_exclude, before, n, dir, b);
          ExploredAll(fs, m_exclude, before, m_paths.Keys, n, dir, b);
        }
      }
    }
  }

  lemma WalkNone(fs: FileSystem, exclude: seq<string>, avoid: set<string>, a: string)
    requires a !in avoid
    ensures Reachable(fs, exclude, avoid, a, a)
  {
    assert Walk(fs, exclude, avoid, 0, a, a);
  }

  lemma NoneExplored(fs: FileSystem, exclude: seq<string>, all: set<string>)
    ensures Explored(fs, exclude, {}, all)
  {}

  lemma LeadsEdge(fs: FileSystem, exclude: seq<string>, a: string, k: nat, b: string)
    requires a in fs.entries && k < |fs.entries[a]| && Leads(fs, exclude, a, fs.entries[a][k], b)
    ensures Edge(fs, exclude, a, b)
  {}

  /** One step to a directory from which `b` is reached. */
  lemma ReachOn(fs: FileSystem, exclude: seq<string>, before: set<string>, mid: set<string>, a: string, c: string, b: string)
    requires before <= mid && a !in before && Edge(fs, exclude, a, c) && Reachable(fs, exclude, mid, c, b)
    ensures Reachable(fs, exclude, before, a, b)
  {
    hide Edge;
    var n: nat :| Walk(fs, exclude, mid, n, c, b);
    WalkMore(fs, exclude, before, mid, n, c, b);
    assert Walk(fs, exclude, before, n + 1, a, b);
  }

  lemma ExploredBoth(fs: FileSystem, exclude: seq<string>, before: set<string>, mid: set<string>, now: set<string>, dir: string)
    requires mid <= now && Explored(fs, exclude, mid - before - {dir}, mid) && (Explored(fs, exclude, now - mid, now) || now == mid)
    ensures Explored(fs, exclude, now - before - {dir}, now)
  {
    hide Edge;
  }

  lemma RootExplored(fs: FileSystem, exclude: seq<string>, before: set<string>, now: set<string>, dir: string)
    requires Explored(fs, exclude, now - before - {dir}, now) && dir in fs.entries
    requires forall j, b :: 0 <= j < |fs.entries[dir]| && Leads(fs, exclude, dir, fs.entries[dir][j], b) ==> b in now
    ensures Explored(fs, exclude, now - before, now)
  {
    forall a, b | a in now - before && Edge(fs, exclude, a, b) ensures b in now {
      if a == dir {
        var k :| 0 <= k < |fs.entries[a]| && Leads(fs, exclude, a, fs.entries[a][k], b);
      }
    }
  }

  /** `b` is the real path of an entry of `a`, other than . and .., that is a
      directory and does not begin with an excluded path. */
  predicate Below(fs: FileSystem, exclude: seq<string>, a: string, name: string, b: string) {
    && a in fs.entries && name in fs.entries[a] && name != "." && name != ".."
    && a + "/" + name in fs.resolve && b == fs.resolve[a + "/" + name]
    && forall k :: 0 <= k < |exclude| ==> !(exclude[k] <= b)
  }

  lemma EdgeBelow(fs: FileSystem, exclude: seq<string>, a: string, b: string)
    ensures Edge(fs, exclude, a, b) <==> exists name :: Below(fs, exclude, a, name, b)
  {
    if Edge(fs, exclude, a, b) {
      var k :| 0 <= k < |fs.entries[a]| && Leads(fs, exclude, a, fs.entries[a][k], b);
      assert Below(fs, exclude, a, fs.entries[a][k], b);
    }
    if name :| Below(fs, exclude, a, name, b) {
      var k :| 0 <= k < |fs.entries[a]| && fs.entries[a][k] == name;
      assert Leads(fs, exclude, a, fs.entries[a][k], b);
    }
  }

  /** A walk of some steps ends with a step from a directory that is reached. */
  lemma {:induction false} LastStep(fs: FileSystem, exclude: seq<string>, avoid: set<string>, n: nat, a: string, b: string) returns (c: string)
    requires n > 0 && Walk(fs, exclude, avoid, n, a, b)
    ensures Walk(fs, exclude, avoid, n - 1, a, c) && c !in avoid && Edge(fs, exclude, c, b)
    decreases n
  {
    hide Edge;
    var d :| Edge(fs, exclude, a, d) && Walk(fs, exclude, avoid, n - 1, d, b);
    if n == 1 {
      c := a;
    } else {
      c := LastStep(fs, exclude, avoid, n - 1, d, b);
      assert Walk(fs, exclude, avoid, n - 1, a, c);
    }
  }

  /** After a recursive AddPath every directory in a directory that was added is
      there, but for those excluded; and what was added is the argument, or is
      in a directory that was added. */
  method AddTree(v: CFSVerifier, path: string) returns (added: bool)
    requires WFSystem(v.fs)
    modifies v`m_paths
    ensures added ==> forall a, name, b :: a in v.m_paths && a !in old(v.m_paths) && Below(v.fs, v.m_exclude, a, name, b) ==> b in v.m_paths
    ensures added ==>
              path in v.fs.resolve && forall b :: b in v.m_paths && b !in old(v.m_paths) ==>
                b == v.fs.resolve[path] ||
                exists a, name :: a in v.m_paths && a !in old(v.m_paths) && Below(v.fs, v.m_exclude, a, name, b)
  {
    hide Walk, Edge, Below;
    ghost var before := v.m_paths.Keys;
    added := v.AddPath(path, true);
    if added {
      var root := v.fs.resolve[path];
      forall a, name, b | a in v.m_paths && a !in before && Below(v.fs, v.m_exclude, a, name, b) ensures b in v.m_paths {
        EdgeBelow(v.fs, v.m_exclude, a, b);
      }
      forall b | b in v.m_paths && b !in before && b != root
        ensures exists a, name :: a in v.m_paths && a !in before && Below(v.fs, v.m_exclude, a, name, b)
      {
        var n: nat :| Walk(v.fs, v.m_exclude, before, n, root, b);
        WalkZero(v.fs, v.m_exclude, before, n, root, b);
        var a := LastStep(v.fs, v.m_exclude, before, n, root, b);
        assert Reachable(v.fs, v.m_exclude, before, root, a);
        EdgeBelow(v.fs, v.m_exclude, a, b);
        var name :| Below(v.fs, v.m_exclude, a, name, b);
      }
    }
  }

  lemma WalkZero(fs: FileSystem, exclude: seq<string>, avoid: set<string>, n: nat, a: string, b: string)
    requires Walk(fs, exclude, avoid, n, a, b)
    ensures n == 0 ==> a == b
  {}

  /** From paths that hold all their own entries, recursive AddPath adds exactly
      what can be reached from the argument at all. */
  method AddClosed(v: CFSVerifier, path: string) returns (added: bool)
    requires WFSystem(v.fs) && Explored(v.fs, v.m_exclude, v.m_paths.Keys, v.m_paths.Keys)
    modifies v`m_paths
    ensures Explored(v.fs, v.m_exclude, v.m_paths.Keys, v.m_paths.Keys)
    ensures path in v.fs.resolve && !Excluded(v.m_exclude, v.fs.resolve[path]) ==>
              forall b :: b in v.m_paths <==> b in old(v.m_paths) || Reachable(v.fs, v.m_exclude, {}, v.fs.resolve[path], b)
  {
    hide Walk, Edge;
    ghost var before := v.m_paths.Keys;
    added := v.AddPath(path, true);
    if path in v.fs.resolve && !Excluded(v.m_exclude, v.fs.resolve[path]) {
      var a := v.fs.resolve[path];
      forall b ensures b in v.m_paths <==> b in before || Reachable(v.fs, v.m_exclude, {}, a, b) {
        AvoidOrNot(v.fs, v.m_exclude, before, a, b);
        NoneFromAvoided(v.fs, v.m_exclude, before, a, b);
      }
    }
  }

  lemma NoneFromAvoided(fs: FileSystem, exclude: seq<string>, avoid: set<string>, a: string, b: string)
    ensures a in avoid ==> !Reachable(fs, exclude, avoid, a, b)
  {}

  lemma AvoidOrNot(fs: FileSystem, exclude: seq<string>, before: set<string>, a: string, b: string)
    requires Explored(fs, exclude, before, before)
    ensures b in before || Reachable(fs, exclude, {}, a, b) <==> b in before || Reachable(fs, exclude, before, a, b)
  {
    hide Walk, Edge;
    if Reachable(fs, exclude, {}, a, b) {
      var n: nat :| Walk(fs, exclude, {}, n, a, b);
      ClosedAvoid(fs, exclude, before, n, a, b);
    }
    if Reachable(fs, exclude, before, a, b) {
      var n: nat :| Walk(fs, exclude, before, n, a, b);
      WalkMore(fs, exclude, {}, before, n, a, b);
    }
  }
}
