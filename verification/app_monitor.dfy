/** The application monitor object: its tables, the recursive walk, the event handler and the loop over a buffer of
    inotify records. */
module AppMonitor {
  import opened Options
  import opened AppIndex
  import opened InotifyRecords

  const IN_ATTRIB: int := 0x4
  const IN_CREATE: int := 0x100
  const IN_DELETE: int := 0x200
  const IN_ISDIR: int := 0x4000_0000

  /** What is found at a path while an event is handled: a directory and its contents, or nothing of the kind. */
  type Found = Tree

  /** The path an event is about. A descriptor without a path prints as "(null)". */
  function EventPath(w: World, r: Record): Path {
    (if r.wd in w.wdToPath then w.wdToPath[r.wd] else ["(null)"]) + [CName(r.name)]
  }

  /** What an event does to the tables. Touching a directory only makes its record. */
  ghost function EventOps(w: World, r: Record, found: Found): seq<Op> {
    if r.name == [] then []
    else
      var p := EventPath(w, r);
      if r.mask == IN_ATTRIB + IN_ISDIR then [OpTouch(p, found.Dir?)]
      else if r.mask == IN_CREATE + IN_ISDIR then
        (if found.File? then []
         else (if found.watchable then [OpAdd(p, true)] else []) + Adds(Reached(p, found.entries)))
      else if r.mask == IN_DELETE + IN_ISDIR then [OpDelete(p)]
      else []
  }

  /** Handling the event comes to an end: if it walks a directory, every directory below can be watched. */
  ghost predicate Ends(r: Record, found: Found) {
    r.name != [] && r.mask == IN_CREATE + IN_ISDIR && found.Dir? ==> AllWatchable(found.entries)
  }

  /** The records of a buffer one after the other, with what each finds, up to one whose handling does not end. */
  ghost function Handled(w: World, rs: seq<Record>, found: seq<Found>): World
    requires |rs| == |found|
    decreases |rs|
  {
    if rs == [] then w
    else
      var t := Run(w, EventOps(w, rs[0], found[0]));
      if Ends(rs[0], found[0]) then Handled(t, rs[1..], found[1..]) else t
  }

  class RAppMonitor {
    const root: Path
    var pathToWd: map<Path, int>
    var wdToPath: map<int, Path>
    var apps: set<Path>
    /** The kernel's side. */
    var live: map<int, Path>
    var nextWd: int

    function Now(): World reads this {
      World(root, pathToWd, wdToPath, apps, live, nextWd)
    }

    constructor (root: Path)
      ensures Inv(Now()) && Now() == Empty(root)
    {
      this.root := root;
      pathToWd, wdToPath, apps, live, nextWd := map[], map[], {}, map[], 1;
    }

    // ---------------------------------------------------------- kernel

    method InotifyAddWatch(path: Path) returns (wd: int)
      requires Inv(Now())
      modifies this`live, this`nextWd
      ensures wd == old(KernelWd(Now(), path)) && Now() == WatchAdded(old(Now()), path, wd)
    {
      WatchedWd(Now(), path);
      if exists d :: d in live && live[d] == path {
        wd :| wd in live && live[wd] == path;
        assert wdToPath[wd] == path;
      } else {
        wd := nextWd;
        nextWd := nextWd + 1;
      }
      live := live[wd := path];
    }

    method InotifyRmWatch(wd: int)
      modifies this`live
      ensures live == old(live) - {wd}
    {
      live := live - {wd};
    }

    /** A directory goes away and the kernel drops its watch. */
    method DirectoryVanishes(path: Path)
      requires Inv(Now())
      modifies this`live
      ensures Inv(Now()) && Now() == Vanish(old(Now()), path)
    {
      VanishInv(Now(), path);
      live := map wd | wd in live && live[wd] != path :: live[wd];
    }

    // ---------------------------------------------------------- tables

    method GetAppInfoFromPath(path: Path, isDir: bool)
      modifies this`apps
      ensures apps == old(apps) + if isDir && root <= path then {path} else {}
    {
      if !isDir { return; }
      if !(root <= path) { return; }
      if path !in apps { apps := apps + {path}; }
    }

    /** Fails, changing nothing, if no watch can be had; otherwise the path is indexed under the new watch, and the
        watch it was indexed under before is removed. */
    method InotifyAddCgroupDir(path: Path, watchable: bool, isDir: bool) returns (ok: bool)
      requires Inv(Now())
      modifies this
      ensures Inv(Now()) && ok == watchable
      ensures Now() == if watchable then Add(old(Now()), path, isDir) else old(Now())
    {
      if !watchable { return false; }
      AddInv(Now(), path, isDir);
      Enter(path, isDir);
      return true;
    }

    method Enter(path: Path, isDir: bool)
      requires Inv(Now())
      modifies this
      ensures Now() == Add(old(Now()), path, isDir)
    {
      var wd := InotifyAddWatch(path);
      ghost var added := Now();
      if path in pathToWd {
        var oldWd := pathToWd[path];
        pathToWd := pathToWd - {path};
        wdToPath := wdToPath - {oldWd};
        InotifyRmWatch(oldWd);
      }
      assert Now() == OldDropped(added, path);
      pathToWd := pathToWd[path := wd];
      wdToPath := wdToPath[wd := path];
      ghost var recorded := Now();
      assert recorded == Recorded(OldDropped(added, path), path, wd);
      if path != root && !HasSliceSuffix(path) {
        GetAppInfoFromPath(path, isDir);
      }
      assert Now() == AppNoted(recorded, path, isDir);
    }

    /** The walk over the entries of a directory, on a tree that does not change under it. A directory that cannot be
        watched is tried again for ever: there the walk does not end, with what it reached added. */
    method InotifyAddRecursiveWatchOnDir(dir: Path, entries: seq<Entry>) returns (ended: bool)
      requires Inv(Now())
      modifies this
      ensures Inv(Now()) && Now() == Run(old(Now()), Adds(Reached(dir, entries)))
      ensures ended <==> AllWatchable(entries)
      decreases entries, 0
    {
      var i := 0;
      ghost var final := Run(Now(), Adds(Reached(dir, entries)));
      assert entries[0..] == entries;
      while i < |entries|
        invariant 0 <= i <= |entries| && Inv(Now())
        invariant Run(Now(), Adds(Reached(dir, entries[i..]))) == final
        invariant AllWatchable(entries) <==> AllWatchable(entries[i..])
      {
        EntryThenRest(Now(), dir, entries, i);
        if entries[i].sub.Dir? {
          var sub := entries[i].sub;
          ended := WalkSubdirectory(dir + [entries[i].name], sub);
          if !ended { return; }
        }
        i := i + 1;
      }
      assert entries[|entries|..] == [];
      return true;
    }

    /** A subdirectory and everything below it. */
    method WalkSubdirectory(path: Path, sub: Tree) returns (ended: bool)
      requires Inv(Now()) && sub.Dir?
      modifies this
      ensures Inv(Now()) && Now() == Run(old(Now()), Adds(ReachedFrom(path, sub)))
      ensures ended <==> Walkable(sub)
      decreases sub.entries, 1
    {
      ghost var w := Now();
      var ok := InotifyAddCgroupDir(path, sub.watchable, true);
      if !ok {
        assert Adds([]) == [];
        return false;
      }
      ended := InotifyAddRecursiveWatchOnDir(path, sub.entries);
      WalkSplits(w, path, Reached(path, sub.entries), []);
      assert [path] + Reached(path, sub.entries) + [] == [path] + Reached(path, sub.entries);
      assert Adds([]) == [];
    }

    /** A new directory: whether it can be watched itself does not matter for the walk below it. */
    method AddCreated(path: Path, entries: seq<Entry>, watchable: bool) returns (ended: bool)
      requires Inv(Now())
      modifies this
      ensures Inv(Now())
      ensures Now() == Run(old(Now()), (if watchable then [OpAdd(path, true)] else []) + Adds(Reached(path, entries)))
      ensures ended <==> AllWatchable(entries)
    {
      ghost var w, inner := Now(), Adds(Reached(path, entries));
      var ok := InotifyAddCgroupDir(path, watchable, true);
      ended := InotifyAddRecursiveWatchOnDir(path, entries);
      if watchable {
        RunOne(w, OpAdd(path, true));
        RunConcat(w, [OpAdd(path, true)], inner);
      } else {
        assert [] + inner == inner;
      }
    }

    // ---------------------------------------------------------- events

    method HandleInotifyEvent(r: Record, found: Found) returns (ended: bool)
      requires Inv(Now())
      modifies this
      ensures Inv(Now()) && Now() == Run(old(Now()), EventOps(old(Now()), r, found))
      ensures ended <==> (r.name != [] && r.mask == 0x4000_0100 && found.Dir? ==> AllWatchable(found.entries))
    {
      ended := true;
      ghost var w := Now();
      RunInv(w, EventOps(w, r, found));
      if |r.name| == 0 { return; }
      var parent := if r.wd in wdToPath then wdToPath[r.wd] else ["(null)"];
      var path := parent + [CName(r.name)];
      if r.mask == IN_ATTRIB + IN_ISDIR {
        RunOne(w, OpTouch(path, found.Dir?));
        GetAppInfoFromPath(path, found.Dir?);
      }
      if r.mask == IN_CREATE + IN_ISDIR && found.Dir? {
        ended := AddCreated(path, found.entries, found.watchable);
      }
      if r.mask == IN_DELETE + IN_ISDIR {
        RunOne(w, OpDelete(path));
        var wd := if path in pathToWd then pathToWd[path] else 0;
        pathToWd := pathToWd - {path};
        wdToPath := wdToPath - {wd};
        apps := apps - {path};
        InotifyRmWatch(wd);
      }
    }

    /** The struct at a position of the buffer. */
    method ReadRecord(buffer: array<Byte>, p: nat, end: nat) returns (r: Record)
      requires p <= end <= buffer.Length && end - p >= HEADER
      requires end - p >= HEADER + LengthAt(buffer[..end][p..])
      ensures r == RecordAt(buffer[..end][p..])
    {
      assert buffer[p..end] == buffer[..end][p..];
      r := RecordAt(buffer[p..end]);
    }

    /** One turn of the loop: the record at p, and p behind it. */
    method HandleNext(buffer: array<Byte>, p: nat, bytesRead: nat, found: seq<Found>, n: nat, ghost all: seq<Record>,
                      ghost final: World)
      returns (ended: bool, next: nat)
      requires Inv(Now()) && p < bytesRead <= buffer.Length
      requires AtRecord(buffer[..bytesRead], p, all, n) && ToGo(Now(), all, found, n, final)
      modifies this
      ensures Inv(Now()) && next > p && n < |all| && (ended <==> Ends(all[n], found[n]))
      ensures AtRecord(buffer[..bytesRead], next, all, n + 1)
      ensures if ended then ToGo(Now(), all, found, n + 1, final) else Now() == final
    {
      ParseNext(buffer[..bytesRead], p, all, n);
      HandledNext(Now(), all, found, n, final);
      var r := ReadRecord(buffer, p, bytesRead);
      ended := HandleInotifyEvent(r, found[n]);
      next := p + HEADER + |r.name|;
    }

    /** The pointer loop over a buffer the kernel filled with whole records: it stays in bounds, stops exactly at the
        end of what was read, and handles exactly the records there, in order. It ends if and only if the handling of
        every record does. */
    method ReceivedInotifyData(buffer: array<Byte>, bytesRead: nat, found: seq<Found>) returns (ended: bool, p: nat)
      requires Inv(Now()) && bytesRead <= buffer.Length
      requires Parse(buffer[..bytesRead]).Some? && |found| == |Parse(buffer[..bytesRead]).value|
      modifies this
      ensures Inv(Now()) && p <= bytesRead && (ended ==> p == bytesRead)
      ensures Now() == Handled(old(Now()), Parse(buffer[..bytesRead]).value, found)
      ensures ended <==> forall i :: 0 <= i < |found| ==> Ends(Parse(buffer[..bytesRead]).value[i], found[i])
    {
      p := 0;
      ghost var bytes := buffer[..bytesRead];
      ghost var all := Parse(bytes).value;
      ghost var final := Handled(Now(), all, found);
      var n := 0;
      LoopStart(Now(), bytes, all, found, final);
      while p < bytesRead
        invariant Inv(Now()) && buffer[..bytesRead] == bytes
        invariant AtRecord(bytes, p, all, n) && ToGo(Now(), all, found, n, final)
        invariant forall i :: 0 <= i < n ==> Ends(all[i], found[i])
      {
        var next: nat;
        ended, next := HandleNext(buffer, p, bytesRead, found, n, all, final);
        if !ended { return; }
        p, n := next, n + 1;
      }
      LoopEnd(Now(), bytes, p, all, found, n, final);
      return true, p;
    }
  }

  // -------------------------------------------------- what events come to

  /** The path of an event, spelled out: the watched directory's, or "(null)", and the name. */
  ghost predicate IsEventPath(w: World, r: Record, path: Path) {
    r.name != [] && path == (if r.wd in w.wdToPath then w.wdToPath[r.wd] else ["(null)"]) + [CName(r.name)]
  }

  /** The characters of a name are its bytes up to the padding. */
  lemma {:induction false} CNameIsText(text: seq<Byte>, padding: seq<Byte>)
    requires (forall i :: 0 <= i < |text| ==> text[i] != 0) && (padding == [] || padding[0] == 0)
    ensures |CName(text + padding)| == |text|
    ensures forall i :: 0 <= i < |text| ==> CName(text + padding)[i] == text[i] as char
  {
    if text == [] {
      assert text + padding == padding;
    } else {
      CNameIsText(text[1..], padding);
      assert (text + padding)[1..] == text[1..] + padding;
    }
  }

  /** A directory was deleted: nothing is left of its path in any table, nor a watch on it, and every other path has
      what it had. */
  lemma DeletedEvent(w: World, r: Record, found: Found, path: Path, q: Path)
    requires Inv(w) && IsEventPath(w, r, path) && r.mask == 0x4000_0200
    ensures
      var t := Run(w, EventOps(w, r, found));
      && path !in t.pathToWd && path !in t.apps && !Watched(t, path)
      && (forall wd :: wd in t.wdToPath ==> t.wdToPath[wd] != path)
      && (q != path ==>
            && (q in t.pathToWd <==> q in w.pathToWd) && (q in w.pathToWd ==> t.pathToWd[q] == w.pathToWd[q])
            && (q in t.apps <==> q in w.apps) && (Watched(t, q) <==> Watched(w, q)))
  {
    var t := Delete(w, path);
    RunOne(w, OpDelete(path));
    DeleteInv(w, path);
    WatchedWd(w, q);
    WatchedWd(t, q);
    WatchedWd(t, path);
  }

  /** A directory was created: it and what is reachable below it are indexed beside what was, with records for those
      not ending in .slice; of these, those are watched that were not before, and of all others those that were. */
  lemma CreatedEvent(w: World, r: Record, found: Found, path: Path, q: Path)
    requires Inv(w) && IsEventPath(w, r, path) && r.mask == 0x4000_0100 && w.root < path
    requires found.Dir? && AllWatchable(found.entries) && TreeNames(found.entries)
    ensures
      var t := Run(w, EventOps(w, r, found));
      var here := (q == path && found.watchable) || (path < q && Leads(found.entries, q[|path|..]));
      && Inv(t)
      && (q in t.pathToWd <==> q in w.pathToWd || here)
      && (Watched(t, q) <==> (Watched(w, q) <==> !here))
      && (q in t.apps <==>
            q in w.apps || (here && var name := q[|q| - 1]; !(|name| >= 6 && name[|name| - 6..] == ".slice")))
  {
    var paths := CreatedPaths(w, r, found, path);
    PathsAdded(w, paths, q);
    DirPathsExact(path, found.entries, q);
  }

  /** What a creation adds: the directory if it can be watched, and everything below. */
  lemma CreatedPaths(w: World, r: Record, found: Found, path: Path) returns (paths: seq<Path>)
    requires IsEventPath(w, r, path) && r.mask == 0x4000_0100
    requires found.Dir? && AllWatchable(found.entries) && TreeNames(found.entries)
    ensures EventOps(w, r, found) == Adds(paths) && DistinctPaths(paths)
    ensures forall p :: p in paths <==> (p == path && found.watchable) || p in DirPaths(path, found.entries)
    ensures forall i :: 0 <= i < |paths| ==> path <= paths[i]
  {
    var below := DirPaths(path, found.entries);
    paths := (if found.watchable then [path] else []) + below;
    ReachedAll(path, found.entries);
    assert EventOps(w, r, found) == Adds(paths);
    DirPathsDistinct(path, found.entries);
    forall i | 0 <= i < |below| ensures path < below[i] {
      DirPathsBelow(path, found.entries, below[i]);
    }
  }

  /** The attributes of a directory below the root changed: it has a record. Nothing else happens, and nothing at all
      where there is no directory. */
  lemma AttributeEvent(w: World, r: Record, found: Found, path: Path)
    requires IsEventPath(w, r, path) && r.mask == 0x4000_0004
    ensures Run(w, EventOps(w, r, found)) ==
            if found.Dir? && w.root <= path then w.(apps := w.apps + {path}) else w
  {
    RunOne(w, OpTouch(path, found.Dir?));
  }

  /** Any other event changes nothing. */
  lemma OtherEvent(w: World, r: Record, found: Found)
    requires r.name == [] || r.mask !in {0x4000_0004, 0x4000_0100, 0x4000_0200}
          || (r.mask == 0x4000_0100 && found.File?)
    ensures Run(w, EventOps(w, r, found)) == w
  {
    assert EventOps(w, r, found) == [];
  }

  /** The records of a buffer are handled one by one, each in the tables its predecessors left, up to one that does
      not end. */
  lemma {:induction false} HandledOneByOne(w: World, rs: seq<Record>, found: seq<Found>, k: nat)
    requires |rs| == |found| && k < |rs| && forall i :: 0 <= i < k ==> Ends(rs[i], found[i])
    ensures
      var before := Handled(w, rs[..k], found[..k]);
      var after := Run(before, EventOps(before, rs[k], found[k]));
      && Handled(w, rs[..k + 1], found[..k + 1]) == after
      && (!Ends(rs[k], found[k]) ==> Handled(w, rs, found) == after)
    decreases k
  {
    if k == 0 {
      assert rs[..1] == [rs[0]] && found[..1] == [found[0]];
    } else {
      var t := Run(w, EventOps(w, rs[0], found[0]));
      HandledOneByOne(t, rs[1..], found[1..], k - 1);
      assert rs[..k][1..] == rs[1..][..k - 1] && found[..k][1..] == found[1..][..k - 1];
      assert rs[..k + 1][1..] == rs[1..][..k] && found[..k + 1][1..] == found[1..][..k];
    }
  }

  /** The position of the loop: the n-th record starts at p. */
  ghost predicate AtRecord(bytes: seq<Byte>, p: nat, all: seq<Record>, n: nat) {
    p <= |bytes| && n <= |all| && Parse(bytes[p..]) == Some(all[n..])
  }

  /** Handling the records from the n-th on leads to the final state. */
  ghost predicate ToGo(w: World, all: seq<Record>, found: seq<Found>, n: nat, final: World) {
    n <= |all| == |found| && Handled(w, all[n..], found[n..]) == final
  }

  lemma LoopStart(w: World, bytes: seq<Byte>, all: seq<Record>, found: seq<Found>, final: World)
    requires Parse(bytes) == Some(all) && |found| == |all| && final == Handled(w, all, found)
    ensures AtRecord(bytes, 0, all, 0) && ToGo(w, all, found, 0, final)
  {
    assert bytes[0..] == bytes && all[0..] == all && found[0..] == found;
  }

  lemma LoopEnd(w: World, bytes: seq<Byte>, p: nat, all: seq<Record>, found: seq<Found>, n: nat, final: World)
    requires AtRecord(bytes, p, all, n) && ToGo(w, all, found, n, final) && p == |bytes|
    ensures w == final && n == |all|
  {
    assert bytes[p..] == [];
    assert all[n..] == [];
  }

  lemma ParseNext(bytes: seq<Byte>, p: nat, all: seq<Record>, n: nat)
    requires AtRecord(bytes, p, all, n) && p < |bytes|
    ensures n < |all| && |bytes| - p >= HEADER
    ensures |bytes| - p >= HEADER + LengthAt(bytes[p..])
    ensures all[n] == RecordAt(bytes[p..]) && |all[n].name| == LengthAt(bytes[p..])
    ensures AtRecord(bytes, p + HEADER + |all[n].name|, all, n + 1)
  {
    var b := bytes[p..];
    assert b != [];
    assert |all[n..]| > 0;
    assert all[n..][0] == all[n] && all[n..][1..] == all[n + 1..];
    assert b[HEADER + LengthAt(b)..] == bytes[p + HEADER + LengthAt(b)..];
  }

  lemma HandledNext(w: World, all: seq<Record>, found: seq<Found>, n: nat, final: World)
    requires n < |all| && ToGo(w, all, found, n, final)
    ensures
      var t := Run(w, EventOps(w, all[n], found[n]));
      if Ends(all[n], found[n]) then ToGo(t, all, found, n + 1, final) else t == final
  {
    assert all[n..][0] == all[n] && all[n..][1..] == all[n + 1..];
    assert found[n..][0] == found[n] && found[n..][1..] == found[n + 1..];
  }

  lemma RunOne(w: World, op: Op)
    ensures Run(w, [op]) == Next(w, op)
  {
    assert [op][1..] == [];
    assert Run(Next(w, op), []) == Next(w, op);
  }

  /** The walk over the entries from the i-th on begins with the i-th, and goes on if that ends. */
  lemma EntryThenRest(w: World, dir: Path, entries: seq<Entry>, i: nat)
    requires i < |entries|
    ensures
      var e, rest := entries[i], Reached(dir, entries[i + 1..]);
      && (AllWatchable(entries[i..]) <==> Walkable(e.sub) && AllWatchable(entries[i + 1..]))
      && Run(w, Adds(Reached(dir, entries[i..]))) ==
           if e.sub.File? then Run(w, Adds(rest))
           else
             var t := Run(w, Adds(ReachedFrom(dir + [e.name], e.sub)));
             if Walkable(e.sub) then Run(t, Adds(rest)) else t
  {
    var e, rest := entries[i], Reached(dir, entries[i + 1..]);
    assert entries[i..][0] == e && entries[i..][1..] == entries[i + 1..];
    AllWatchableCons(entries[i..]);
    if e.sub.Dir? {
      var first := ReachedFrom(dir + [e.name], e.sub);
      if Walkable(e.sub) {
        AddsConcat(first, rest);
        RunConcat(w, Adds(first), Adds(rest));
      } else {
        assert first + [] == first;
      }
    }
  }
}
