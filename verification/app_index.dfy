/** The directory index of the application monitor: two tables, path to watch descriptor and back, beside the watches
    the kernel really keeps. */
module AppIndex {
  import opened Options
  import opened Sets

  /** A path as its components; a name never contains a slash. */
  type Path = seq<string>

  /** The three tables (of the records only which paths have one), the live kernel watches by descriptor, and the
      descriptor the kernel gives out next. */
  datatype World = World(root: Path, pathToWd: map<Path, int>, wdToPath: map<int, Path>, apps: set<Path>,
                         live: map<int, Path>, nextWd: int)

  predicate HasSliceSuffix(p: Path) {
    p != [] && var name := p[|p| - 1]; |name| >= 6 && name[|name| - 6..] == ".slice"
  }

  /** inotify_add_watch: the descriptor of the directory if it is watched already, otherwise a new one. */
  ghost function KernelWd(w: World, p: Path): int {
    if exists wd :: wd in w.live && w.live[wd] == p
    then (var wd :| wd in w.live && w.live[wd] == p; wd)
    else w.nextWd
  }

  function WatchAdded(w: World, p: Path, wd: int): World {
    w.(live := w.live[wd := p], nextWd := if wd >= w.nextWd then wd + 1 else w.nextWd)
  }

  /** The watch stored for the path before is forgotten and removed. */
  function OldDropped(w: World, p: Path): World {
    if p in w.pathToWd then
      var old_ := w.pathToWd[p];
      w.(pathToWd := w.pathToWd - {p}, wdToPath := w.wdToPath - {old_}, live := w.live - {old_})
    else w
  }

  function Recorded(w: World, p: Path, wd: int): World {
    w.(pathToWd := w.pathToWd[p := wd], wdToPath := w.wdToPath[wd := p])
  }

  /** `isDir`: the path still is a directory when its record is made. */
  function AppNoted(w: World, p: Path, isDir: bool): World {
    if p != w.root && !HasSliceSuffix(p) && isDir && w.root <= p then w.(apps := w.apps + {p}) else w
  }

  function Entered(w: World, p: Path, wd: int, isDir: bool): World {
    AppNoted(Recorded(OldDropped(WatchAdded(w, p, wd), p), p, wd), p, isDir)
  }

  ghost function Add(w: World, p: Path, isDir: bool): World {
    Entered(w, p, KernelWd(w, p), isDir)
  }

  /** A delete event: an unknown path looks up as 0, which is no descriptor. */
  function Delete(w: World, p: Path): World {
    var wd := if p in w.pathToWd then w.pathToWd[p] else 0;
    w.(pathToWd := w.pathToWd - {p}, wdToPath := w.wdToPath - {wd}, apps := w.apps - {p}, live := w.live - {wd})
  }

  /** Looking up the record of a directory makes it if there is none. */
  function Touch(w: World, p: Path, isDir: bool): World {
    if isDir && w.root <= p then w.(apps := w.apps + {p}) else w
  }

  /** The kernel drops the watch of a directory that goes away. */
  function Vanish(w: World, p: Path): World {
    w.(live := map wd | wd in w.live && w.live[wd] != p :: w.live[wd])
  }

  /** Mutual inverses, positive descriptors, and every live watch indexed under its path. */
  ghost predicate Inv(w: World) {
    && (forall p :: p in w.pathToWd ==> w.pathToWd[p] in w.wdToPath && w.wdToPath[w.pathToWd[p]] == p)
    && (forall wd :: wd in w.wdToPath ==> w.wdToPath[wd] in w.pathToWd && w.pathToWd[w.wdToPath[wd]] == wd)
    && (forall wd :: wd in w.wdToPath ==> 0 < wd < w.nextWd)
    && (forall wd :: wd in w.live ==> wd in w.wdToPath && w.wdToPath[wd] == w.live[wd])
    && w.nextWd > 0
  }

  ghost predicate Watched(w: World, p: Path) {
    exists wd :: wd in w.live && w.live[wd] == p
  }

  /** Under the invariant a watched path has one watch, the one it is indexed with. */
  lemma WatchedWd(w: World, p: Path)
    requires Inv(w)
    ensures Watched(w, p) <==> p in w.pathToWd && w.pathToWd[p] in w.live
    ensures KernelWd(w, p) == if Watched(w, p) then w.pathToWd[p] else w.nextWd
  {
    if p in w.pathToWd && w.pathToWd[p] in w.live {
      var wd := w.pathToWd[p];
      assert w.wdToPath[wd] == p;
      assert wd in w.live && w.wdToPath[wd] == w.live[wd];
    }
    if wd :| wd in w.live && w.live[wd] == p {
      assert wd in w.wdToPath && w.wdToPath[wd] == p;
      assert w.pathToWd[p] == wd;
    }
  }

  lemma AddInv(w: World, p: Path, isDir: bool)
    requires Inv(w)
    ensures Inv(Add(w, p, isDir))
    ensures Add(w, p, isDir).pathToWd.Keys == w.pathToWd.Keys + {p}
  {
    WatchedWd(w, p);
  }

  lemma DeleteInv(w: World, p: Path)
    requires Inv(w)
    ensures Inv(Delete(w, p))
    ensures Delete(w, p).pathToWd.Keys == w.pathToWd.Keys - {p}
  {
  }

  lemma VanishInv(w: World, p: Path)
    requires Inv(w)
    ensures Inv(Vanish(w, p)) && forall q :: Watched(Vanish(w, p), q) <==> Watched(w, q) && q != p
  {
    var t := Vanish(w, p);
    forall q ensures Watched(t, q) <==> Watched(w, q) && q != p {
      if wd :| wd in w.live && w.live[wd] == q && q != p { assert wd in t.live; }
    }
  }

  /** Adding a path ends with the path watched if and only if it was not watched before: for one that was, the
      watch just returned is the one removed. Other paths keep theirs. */
  lemma AddWatchesIffNew(w: World, p: Path, isDir: bool, q: Path)
    requires Inv(w)
    ensures Watched(Add(w, p, isDir), p) <==> !Watched(w, p)
    ensures q != p ==> (Watched(Add(w, p, isDir), q) <==> Watched(w, q))
  {
    var t := Add(w, p, isDir);
    WatchedWd(w, p);
    WatchedWd(w, q);
    AddInv(w, p, isDir);
    WatchedWd(t, p);
    WatchedWd(t, q);
  }

  lemma AddNew(w: World, p: Path, isDir: bool)
    requires Inv(w) && p !in w.pathToWd
    ensures
      var n := w.nextWd;
      Add(w, p, isDir) == AppNoted(w.(pathToWd := w.pathToWd[p := n], wdToPath := w.wdToPath[n := p],
                                      live := w.live[n := p], nextWd := n + 1), p, isDir)
  {
    WatchedWd(w, p);
  }

  /** A delete event undoes an add of a new path: tables, records and watches are as before. */
  lemma DeleteUndoesAdd(w: World, p: Path, isDir: bool)
    requires Inv(w) && p !in w.pathToWd && p !in w.apps
    ensures Delete(Add(w, p, isDir), p) == w.(nextWd := w.nextWd + 1)
  {
    var n := w.nextWd;
    AddNew(w, p, isDir);
    assert n !in w.wdToPath && n !in w.live;
    assert w.pathToWd[p := n] - {p} == w.pathToWd;
    assert w.wdToPath[n := p] - {n} == w.wdToPath;
    assert w.live[n := p] - {n} == w.live;
    assert Add(w, p, isDir).apps - {p} == w.apps;
  }

  // -------------------------------------------------------------------- runs

  datatype Op = OpAdd(path: Path, isDir: bool) | OpDelete(path: Path) | OpVanish(path: Path)
              | OpTouch(path: Path, isDir: bool)

  ghost function Next(w: World, op: Op): World {
    match op
    case OpAdd(p, isDir) => Add(w, p, isDir)
    case OpDelete(p) => Delete(w, p)
    case OpVanish(p) => Vanish(w, p)
    case OpTouch(p, isDir) => Touch(w, p, isDir)
  }

  ghost function Run(w: World, ops: seq<Op>): World
    decreases |ops|
  {
    if ops == [] then w else Run(Next(w, ops[0]), ops[1..])
  }

  function Empty(root: Path): World { World(root, map[], map[], {}, map[], 1) }

  lemma {:induction false} RunInv(w: World, ops: seq<Op>)
    requires Inv(w)
    ensures Inv(Run(w, ops))
    decreases |ops|
  {
    if ops != [] {
      match ops[0]
      case OpAdd(p, isDir) => AddInv(w, p, isDir); RunInv(Next(w, ops[0]), ops[1..]);
      case OpDelete(p) => DeleteInv(w, p); RunInv(Next(w, ops[0]), ops[1..]);
      case OpVanish(p) => VanishInv(w, p); RunInv(Next(w, ops[0]), ops[1..]);
      case OpTouch(p, isDir) => RunInv(Next(w, ops[0]), ops[1..]);
    }
  }

  /** After any sequence of creations, deletions, re-creations and directories that vanish, the two tables are
      mutual inverses and no live watch is outside them: none leaks. */
  lemma NoWatchLeaks(root: Path, ops: seq<Op>)
    ensures
      var w := Run(Empty(root), ops);
      && (forall p, wd :: (p in w.pathToWd && w.pathToWd[p] == wd) <==> (wd in w.wdToPath && w.wdToPath[wd] == p))
      && (forall wd :: wd in w.live ==> wd in w.wdToPath)
      && |w.live| <= |w.wdToPath|
  {
    RunInv(Empty(root), ops);
    var w := Run(Empty(root), ops);
    forall wd | wd in w.live.Keys ensures wd in w.wdToPath.Keys {
      assert wd in w.live;
    }
    SubsetCount(w.live.Keys, w.wdToPath.Keys);
  }

  lemma {:induction false} RunConcat(w: World, ops: seq<Op>, more: seq<Op>)
    ensures Run(w, ops + more) == Run(Run(w, ops), more)
    decreases |ops|
  {
    if ops == [] {
      assert ops + more == more;
    } else {
      assert (ops + more)[1..] == ops[1..] + more;
      RunConcat(Next(w, ops[0]), ops[1..], more);
    }
  }

  // -------------------------------------------------------------------- trees

  /** `watchable`: whether inotify_add_watch succeeds on the directory. */
  datatype Tree = File | Dir(entries: seq<Entry>, watchable: bool)

  datatype Entry = Entry(name: string, sub: Tree)

  /** The directories below a directory, each before what it contains. */
  function DirPaths(dir: Path, entries: seq<Entry>): seq<Path>
    decreases entries
  {
    if entries == [] then []
    else
      (match entries[0].sub
       case File => []
       case Dir(inner, _) => [dir + [entries[0].name]] + DirPaths(dir + [entries[0].name], inner))
      + DirPaths(dir, entries[1..])
  }

  function Adds(paths: seq<Path>): seq<Op> {
    seq(|paths|, i requires 0 <= i < |paths| => OpAdd(paths[i], true))
  }

  function PathSet(paths: seq<Path>): set<Path> { set p | p in paths }

  function Recordable(paths: seq<Path>): set<Path> { set p | p in paths && !HasSliceSuffix(p) }

  lemma PathSetCons(p: Path, rest: seq<Path>)
    ensures PathSet([p] + rest) == {p} + PathSet(rest)
    ensures Recordable([p] + rest) == (if HasSliceSuffix(p) then {} else {p}) + Recordable(rest)
  {
  }

  lemma AddsCons(w: World, paths: seq<Path>)
    requires paths != []
    ensures Run(w, Adds(paths)) == Run(Add(w, paths[0], true), Adds(paths[1..]))
  {
    assert Adds(paths)[0] == OpAdd(paths[0], true) && Adds(paths)[1..] == Adds(paths[1..]);
  }

  /** What adding a list of paths below the root must come to. */
  ghost predicate Indexed(w: World, t: World, paths: seq<Path>) {
    && Inv(t) && t.root == w.root
    && t.pathToWd.Keys == w.pathToWd.Keys + PathSet(paths)
    && t.apps == w.apps + Recordable(paths)
  }

  lemma AddIndexed(w: World, p: Path)
    requires Inv(w) && w.root < p
    ensures Indexed(w, Add(w, p, true), [p])
  {
    AddInv(w, p, true);
    assert PathSet([p]) == {p};
    assert Recordable([p]) == if HasSliceSuffix(p) then {} else {p};
  }

  lemma IndexedTwice(w: World, w1: World, t: World, p: Path, rest: seq<Path>)
    requires Indexed(w, w1, [p]) && Indexed(w1, t, rest)
    ensures Indexed(w, t, [p] + rest)
  {
    PathSetCons(p, []);
    PathSetCons(p, rest);
    assert [p] + [] == [p] && PathSet([]) == {} && Recordable([]) == {};
  }

  /** A walk over a stable tree indexes exactly the directories below its start beside what was indexed, and makes a
      record for exactly those that do not end in .slice. */
  lemma {:induction false} AddsComplete(w: World, paths: seq<Path>)
    requires Inv(w) && forall i :: 0 <= i < |paths| ==> w.root < paths[i]
    ensures Indexed(w, Run(w, Adds(paths)), paths)
    decreases |paths|, 0
  {
    if paths == [] {
      assert PathSet(paths) == {} && Recordable(paths) == {};
    } else {
      AddIndexed(w, paths[0]);
      AddsCons(w, paths);
      AddsTail(w, Add(w, paths[0], true), paths);
    }
  }

  lemma {:induction false} AddsTail(w: World, w1: World, paths: seq<Path>)
    requires paths != [] && Indexed(w, w1, [paths[0]])
    requires forall i :: 0 <= i < |paths| ==> w.root < paths[i]
    ensures Indexed(w, Run(w1, Adds(paths[1..])), paths)
    decreases |paths| - 1, 1
  {
    AddsComplete(w1, paths[1..]);
    assert paths == [paths[0]] + paths[1..];
    IndexedTwice(w, w1, Run(w1, Adds(paths[1..])), paths[0], paths[1..]);
  }

  ghost predicate DistinctPaths(paths: seq<Path>) {
    forall i, j :: 0 <= i < j < |paths| ==> paths[i] != paths[j]
  }

  /** Of the paths added, those are watched that were not watched before. */
  lemma {:induction false} AddsWatch(w: World, paths: seq<Path>, q: Path)
    requires Inv(w) && DistinctPaths(paths)
    ensures Watched(Run(w, Adds(paths)), q) <==> (Watched(w, q) <==> q !in paths)
    decreases |paths|
  {
    if paths != [] {
      var p, rest := paths[0], paths[1..];
      AddInv(w, p, true);
      AddsCons(w, paths);
      AddsWatch(Add(w, p, true), rest, q);
      AddWatchesIffNew(w, p, true, q);
      assert paths == [p] + rest;
      assert p !in rest;
    }
  }

  /** Names are distinct in every directory of a tree. */
  ghost predicate TreeNames(entries: seq<Entry>)
    decreases entries
  {
    && (forall i, j :: 0 <= i < j < |entries| ==> entries[i].name != entries[j].name)
    && forall e :: e in entries && e.sub.Dir? ==> TreeNames(e.sub.entries)
  }

  /** Every directory below `dir` lies under one of its entries. */
  lemma {:induction false} DirPathsBelow(dir: Path, entries: seq<Entry>, p: Path)
    requires p in DirPaths(dir, entries)
    ensures dir < p && exists e :: e in entries && p[|dir|] == e.name
    decreases entries
  {
    var e := entries[0];
    if e.sub.Dir? && p == dir + [e.name] {
      assert p[|dir|] == e.name;
    } else if e.sub.Dir? && p in DirPaths(dir + [e.name], e.sub.entries) {
      DirPathsBelow(dir + [e.name], e.sub.entries, p);
      assert p[|dir|] == (dir + [e.name])[|dir|];
    } else {
      DirPathsBelow(dir, entries[1..], p);
      var x :| x in entries[1..] && p[|dir|] == x.name;
      assert x in entries;
    }
  }

  lemma AppendDistinct(dir: Path, name: string, first: seq<Path>, rest: seq<Path>)
    requires DistinctPaths(first) && DistinctPaths(rest)
    requires forall i :: 0 <= i < |first| ==> dir < first[i] && first[i][|dir|] == name
    requires forall i :: 0 <= i < |rest| ==> dir < rest[i] && rest[i][|dir|] != name
    ensures DistinctPaths(first + rest)
  {
  }

  lemma {:induction false} DirPathsDistinct(dir: Path, entries: seq<Entry>)
    requires TreeNames(entries)
    ensures DistinctPaths(DirPaths(dir, entries))
    decreases entries
  {
    if entries != [] {
      var e, rest := entries[0], DirPaths(dir, entries[1..]);
      DirPathsDistinct(dir, entries[1..]);
      if e.sub.Dir? {
        var here := dir + [e.name];
        var inner := DirPaths(here, e.sub.entries);
        DirPathsDistinct(here, e.sub.entries);
        forall i | 0 <= i < |inner| ensures here < inner[i] && inner[i][|dir|] == e.name {
          DirPathsBelow(here, e.sub.entries, inner[i]);
          assert inner[i][|dir|] == here[|dir|];
        }
        forall i | 0 <= i < |rest| ensures dir < rest[i] && rest[i][|dir|] != e.name {
          DirPathsBelow(dir, entries[1..], rest[i]);
          var x :| x in entries[1..] && rest[i][|dir|] == x.name;
          var k :| 0 <= k < |entries[1..]| && entries[1..][k] == x;
          assert entries[k + 1] == x;
        }
        AppendDistinct(dir, e.name, [here] + inner, rest);
        assert DirPaths(dir, entries) == [here] + inner + rest;
      } else {
        assert DirPaths(dir, entries) == rest;
      }
    }
  }

  /** Following the names from a directory leads through directories to a directory. */
  ghost predicate Leads(entries: seq<Entry>, names: seq<string>)
    decreases |names|
  {
    names != []
    && exists e :: e in entries && e.name == names[0] && e.sub.Dir?
                   && (|names| == 1 || Leads(e.sub.entries, names[1..]))
  }

  /** The walk goes to exactly the directories that can be reached by names. */
  lemma {:induction false} DirPathsExact(dir: Path, entries: seq<Entry>, p: Path)
    ensures p in DirPaths(dir, entries) <==> dir < p && Leads(entries, p[|dir|..])
    decreases entries, 0
  {
    if entries != [] {
      var e, more := entries[0], entries[1..];
      DirPathsExact(dir, more, p);
      if e.sub.Dir? { EntryExact(dir, e, p); }
      if dir < p {
        assert p[|dir|..] != [];
        LeadsSplits(e, more, p[|dir|..]);
        assert [e] + more == entries;
      }
    }
  }

  /** The part of the walk at one entry. */
  lemma {:induction false} EntryExact(dir: Path, e: Entry, p: Path)
    requires e.sub.Dir?
    ensures p in [dir + [e.name]] + DirPaths(dir + [e.name], e.sub.entries) <==> dir < p && Leads([e], p[|dir|..])
    decreases e.sub.entries, 1
  {
    var here := dir + [e.name];
    DirPathsExact(here, e.sub.entries, p);
    assert e in [e];
    if dir < p {
      var names := p[|dir|..];
      assert p == dir + names;
      assert names[1..] == p[|dir| + 1..];
      if |names| == 1 {
        assert p == here <==> names[0] == e.name;
      } else {
        assert here < p <==> names[0] == e.name;
      }
    }
  }

  lemma LeadsSplits(e: Entry, more: seq<Entry>, names: seq<string>)
    requires names != []
    ensures Leads([e] + more, names) <==> Leads([e], names) || Leads(more, names)
  {
    var all := [e] + more;
    assert forall x :: x in all <==> x == e || x in more;
  }

  // ------------------------------------------------------------ adds that fail

  /** A watch can be had for every directory the walk goes to. */
  ghost predicate AllWatchable(entries: seq<Entry>)
    decreases entries
  {
    forall e :: e in entries && e.sub.Dir? ==> e.sub.watchable && AllWatchable(e.sub.entries)
  }

  /** The walk for a number of turns. A directory that cannot be watched is tried again in the next turn: the program
      goes on without reading the next name. None if the turns do not suffice. */
  ghost function Walk(w: World, dir: Path, entries: seq<Entry>, turns: nat): Option<World>
    decreases turns
  {
    if entries == [] then Some(w)
    else if turns == 0 then None
    else
      var e := entries[0];
      match e.sub
      case File => Walk(w, dir, entries[1..], turns - 1)
      case Dir(inner, watchable) =>
        if !watchable then Walk(w, dir, entries, turns - 1)
        else
          match Walk(Add(w, dir + [e.name], true), dir + [e.name], inner, turns - 1)
          case None => None
          case Some(t) => Walk(t, dir, entries[1..], turns - 1)
  }

  lemma AllWatchableCons(entries: seq<Entry>)
    requires entries != []
    ensures AllWatchable(entries) <==>
              (entries[0].sub.Dir? ==> entries[0].sub.watchable && AllWatchable(entries[0].sub.entries))
              && AllWatchable(entries[1..])
  {
    assert entries == [entries[0]] + entries[1..];
    assert forall e :: e in entries <==> e == entries[0] || e in entries[1..];
  }

  /** What a walk goes to before it stays at a directory for ever; everything if it does not. */
  ghost function Reached(dir: Path, entries: seq<Entry>): seq<Path>
    decreases entries, 0
  {
    if entries == [] then []
    else if entries[0].sub.File? then Reached(dir, entries[1..])
    else
      ReachedFrom(dir + [entries[0].name], entries[0].sub)
      + (if Walkable(entries[0].sub) then Reached(dir, entries[1..]) else [])
  }

  ghost function ReachedFrom(here: Path, sub: Tree): seq<Path>
    requires sub.Dir?
    decreases sub.entries, 1
  {
    if sub.watchable then [here] + Reached(here, sub.entries) else []
  }

  ghost predicate Walkable(sub: Tree) {
    sub.Dir? ==> sub.watchable && AllWatchable(sub.entries)
  }

  lemma {:induction false} ReachedAll(dir: Path, entries: seq<Entry>)
    requires AllWatchable(entries)
    ensures Reached(dir, entries) == DirPaths(dir, entries)
    decreases entries
  {
    if entries != [] {
      var e := entries[0];
      AllWatchableCons(entries);
      ReachedAll(dir, entries[1..]);
      if e.sub.Dir? {
        ReachedAll(dir + [e.name], e.sub.entries);
      } else {
        assert [] + DirPaths(dir, entries[1..]) == DirPaths(dir, entries[1..]);
      }
    }
  }

  lemma {:induction false} WalkNeedsAll(w: World, dir: Path, entries: seq<Entry>, turns: nat)
    requires Walk(w, dir, entries, turns).Some?
    ensures AllWatchable(entries)
    decreases turns
  {
    if entries != [] {
      var e, here := entries[0], dir + [entries[0].name];
      if e.sub.File? {
        WalkNeedsAll(w, dir, entries[1..], turns - 1);
        AllWatchableCons(entries);
      } else if !e.sub.watchable {
        WalkNeedsAll(w, dir, entries, turns - 1);
      } else {
        var first := Walk(Add(w, here, true), here, e.sub.entries, turns - 1);
        WalkNeedsAll(Add(w, here, true), here, e.sub.entries, turns - 1);
        WalkNeedsAll(first.value, dir, entries[1..], turns - 1);
        AllWatchableCons(entries);
      }
    }
  }

  /** More turns do no harm. */
  lemma {:induction false} WalkLonger(w: World, dir: Path, entries: seq<Entry>, turns: nat, more: nat)
    requires Walk(w, dir, entries, turns).Some? && turns <= more
    ensures Walk(w, dir, entries, more) == Walk(w, dir, entries, turns)
    decreases turns
  {
    if entries != [] {
      var e := entries[0];
      if e.sub.Dir? {
        if !e.sub.watchable {
          WalkLonger(w, dir, entries, turns - 1, more - 1);
        } else {
          var here := dir + [e.name];
          var t := Walk(Add(w, here, true), here, e.sub.entries, turns - 1).value;
          WalkLonger(Add(w, here, true), here, e.sub.entries, turns - 1, more - 1);
          WalkLonger(t, dir, entries[1..], turns - 1, more - 1);
        }
      } else {
        WalkLonger(w, dir, entries[1..], turns - 1, more - 1);
      }
    }
  }

  /** A directory, what is below it, and then the rest of the walk. */
  lemma WalkSplits(w: World, here: Path, inner: seq<Path>, rest: seq<Path>)
    ensures Run(w, Adds([here] + inner + rest))
            == Run(Run(Add(w, here, true), Adds(inner)), Adds(rest))
  {
    var paths := [here] + inner + rest;
    assert paths[1..] == inner + rest;
    AddsCons(w, paths);
    AddsConcat(inner, rest);
    RunConcat(Add(w, here, true), Adds(inner), Adds(rest));
  }

  lemma AddsConcat(first: seq<Path>, rest: seq<Path>)
    ensures Adds(first + rest) == Adds(first) + Adds(rest)
  {
  }

  /** If every directory can be watched the walk ends, with all of them added. */
  lemma {:induction false} WalkEnds(w: World, dir: Path, entries: seq<Entry>) returns (turns: nat)
    requires AllWatchable(entries)
    ensures Walk(w, dir, entries, turns) == Some(Run(w, Adds(DirPaths(dir, entries))))
    decreases entries
  {
    turns := 0;
    if entries == [] {
      assert Adds(DirPaths(dir, entries)) == [];
    } else {
      var e := entries[0];
      AllWatchableCons(entries);
      if e.sub.Dir? {
        var here := dir + [e.name];
        var inside := WalkEnds(Add(w, here, true), here, e.sub.entries);
        var t := Run(Add(w, here, true), Adds(DirPaths(here, e.sub.entries)));
        var after := WalkEnds(t, dir, entries[1..]);
        turns := WalkEndsDir(w, t, dir, entries, inside, after);
        WalkSplits(w, here, DirPaths(here, e.sub.entries), DirPaths(dir, entries[1..]));
      } else {
        var after := WalkEnds(w, dir, entries[1..]);
        turns := after + 1;
        assert [] + DirPaths(dir, entries[1..]) == DirPaths(dir, entries[1..]);
      }
    }
  }

  /** A directory that can be watched, and the entries behind it. */
  lemma WalkEndsDir(w: World, t: World, dir: Path, entries: seq<Entry>, inside: nat, after: nat) returns (turns: nat)
    requires entries != [] && entries[0].sub.Dir? && entries[0].sub.watchable
    requires
      var here := dir + [entries[0].name];
      Walk(Add(w, here, true), here, entries[0].sub.entries, inside) == Some(t)
    requires Walk(t, dir, entries[1..], after).Some?
    ensures Walk(w, dir, entries, turns) == Walk(t, dir, entries[1..], after)
  {
    var here := dir + [entries[0].name];
    var most := if inside < after then after else inside;
    WalkLonger(Add(w, here, true), here, entries[0].sub.entries, inside, most);
    WalkLonger(t, dir, entries[1..], after, most);
    turns := most + 1;
  }

  /** The walk ends if and only if every directory it goes to can be watched; otherwise it stays for ever at the first
      that cannot. */
  lemma WalkEndsIffWatchable(w: World, dir: Path, entries: seq<Entry>)
    ensures (exists turns: nat :: Walk(w, dir, entries, turns).Some?) <==> AllWatchable(entries)
  {
    if turns: nat :| Walk(w, dir, entries, turns).Some? {
      WalkNeedsAll(w, dir, entries, turns);
    }
    if AllWatchable(entries) {
      var turns := WalkEnds(w, dir, entries);
      assert Walk(w, dir, entries, turns).Some?;
    }
  }

  /** Whenever it ends, it has added exactly what it went to. */
  lemma WalkAdds(w: World, dir: Path, entries: seq<Entry>, turns: nat)
    requires Walk(w, dir, entries, turns).Some?
    ensures Walk(w, dir, entries, turns) == Some(Run(w, Adds(DirPaths(dir, entries))))
  {
    WalkNeedsAll(w, dir, entries, turns);
    var enough := WalkEnds(w, dir, entries);
    if turns <= enough {
      WalkLonger(w, dir, entries, turns, enough);
    } else {
      WalkLonger(w, dir, entries, enough, turns);
    }
  }

  /** What adding a list of distinct paths below the root comes to for one path. */
  lemma PathsAdded(w: World, paths: seq<Path>, q: Path)
    requires Inv(w) && DistinctPaths(paths) && forall i :: 0 <= i < |paths| ==> w.root < paths[i]
    ensures
      var t := Run(w, Adds(paths));
      && Inv(t) && (q in t.pathToWd <==> q in w.pathToWd || q in paths)
      && (Watched(t, q) <==> (Watched(w, q) <==> q !in paths))
      && (q in t.apps <==>
            q in w.apps || (q in paths && var name := q[|q| - 1]; !(|name| >= 6 && name[|name| - 6..] == ".slice")))
  {
    AddsComplete(w, paths);
    AddsWatch(w, paths, q);
    assert q in PathSet(paths) <==> q in paths;
    assert q in Recordable(paths) <==> q in paths && !HasSliceSuffix(q);
  }

  /** The monitor's start on a stable tree, if its walk ends: afterwards the path index has exactly the root and the
      directories that can be reached from it, all of them are watched, and those not ending in .slice have a
      record. */
  lemma StartCoversTree(root: Path, entries: seq<Entry>, turns: nat, p: Path)
    requires TreeNames(entries) && Walk(Add(Empty(root), root, true), root, entries, turns).Some?
    ensures
      var t := Walk(Add(Empty(root), root, true), root, entries, turns).value;
      var reached := root < p && Leads(entries, p[|root|..]);
      && Inv(t)
      && (p in t.pathToWd <==> p == root || reached)
      && (Watched(t, p) <==> p == root || reached)
      && (p in t.apps <==> reached && var name := p[|p| - 1]; !(|name| >= 6 && name[|name| - 6..] == ".slice"))
  {
    var w := Add(Empty(root), root, true);
    var paths := DirPaths(root, entries);
    WalkAdds(w, root, entries, turns);
    AddInv(Empty(root), root, true);
    AddWatchesIffNew(Empty(root), root, true, p);
    assert w.apps == {};
    forall i | 0 <= i < |paths| ensures root < paths[i] {
      DirPathsBelow(root, entries, paths[i]);
    }
    DirPathsDistinct(root, entries);
    PathsAdded(w, paths, p);
    DirPathsExact(root, entries, p);
  }
}
