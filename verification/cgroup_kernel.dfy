/** cgroupify against a concurrent kernel, as a transition system: its control points inside
    `move_to_subgroup` and the inotify callback, interleaved with forks, exits and pid reuse. */
module CgroupKernel {
  import opened Sets

  /** A directory name; a process goes by its pid in decimal. */
  type Name = string

  datatype Group = Root | Sub(name: Name)

  /** Where cgroupify is between two system calls. Outside these it waits in its event loop or loops over pids. */
  datatype Control =
    | Idle
    | Made(pid: Name)
    | Watching(pid: Name)
    | Leaving(pid: Name)
    | Reaping(name: Name)
    | Closing(name: Name)

  /** `group` has the live processes. `created` are the existing directories made by this cgroupify, `watch` its
      active event sources, `pending` those with an event not dispatched yet. */
  datatype State = State(dirs: set<Name>, group: map<Name, Group>, created: set<Name>,
                         watch: set<Name>, pending: set<Name>, control: Control)

  predicate Populated(group: map<Name, Group>, d: Name) {
    exists p :: p in group && group[p] == Sub(d)
  }

  /** The kernel signals a watched cgroup.events whenever its "populated" value changes. */
  function Settle(s: State, group: map<Name, Group>): State {
    s.(group := group,
       pending := s.pending + set d | d in s.watch && (Populated(s.group, d) <==> !Populated(group, d)))
  }

  datatype Step =
    // the environment
    | Fork(parent: Name, child: Name)
    | Exit(pid: Name)
    | Spurious(name: Name)
    // move_to_subgroup
    | Mkdir(pid: Name, error: bool)
    | AddWatch(failed: bool)
    | OpenFailed
    | Write(refused: bool)
    | Unlink
    | Disable
    // the inotify callback
    | Dispatch(name: Name)
    | Rmdir

  predicate Enabled(s: State, e: Step) {
    match e
    case Fork(parent, child) => parent in s.group && child !in s.group
    case Exit(pid) => pid in s.group
    case Spurious(name) => name in s.watch
    case Mkdir(_, _) => s.control.Idle?
    case AddWatch(_) => s.control.Made?
    case OpenFailed => s.control.Watching?
    case Write(_) => s.control.Watching?
    case Unlink => s.control.Leaving?
    case Disable => s.control.Closing?
    case Dispatch(name) => s.control.Idle? && name in s.pending && name in s.watch
    case Rmdir => s.control.Reaping?
  }

  /** rmdir and unlinkat: ENOENT if the directory is gone, EBUSY if it is populated, otherwise it goes. */
  function Remove(s: State, name: Name): State {
    if name !in s.dirs then s.(control := Closing(name))
    else if Populated(s.group, name) then s.(control := Idle)
    else s.(dirs := s.dirs - {name}, created := s.created - {name}, control := Closing(name))
  }

  function Next(s: State, e: Step): State
    requires Enabled(s, e)
  {
    match e
    case Fork(parent, child) => Settle(s, s.group[child := s.group[parent]])
    case Exit(pid) => Settle(s, s.group - {pid})
    case Spurious(name) => s.(pending := s.pending + {name})
    case Mkdir(pid, error) =>
      if error || pid in s.dirs then s
      else s.(dirs := s.dirs + {pid}, created := s.created + {pid}, control := Made(pid))
    case AddWatch(failed) =>
      if failed then s.(control := Leaving(s.control.pid))
      else s.(watch := s.watch + {s.control.pid}, control := Watching(s.control.pid))
    case OpenFailed => s.(control := Leaving(s.control.pid))
    case Write(refused) =>
      var pid := s.control.pid;
      // ESRCH when the process is gone.
      if refused || pid !in s.group then s.(control := Leaving(pid))
      else Settle(s, s.group[pid := Sub(pid)]).(control := Leaving(pid))
    case Unlink => Remove(s, s.control.pid)
    case Disable =>
      s.(watch := s.watch - {s.control.name}, pending := s.pending - {s.control.name}, control := Idle)
    case Dispatch(name) => s.(pending := s.pending - {name}, control := Reaping(name))
    case Rmdir => Remove(s, s.control.name)
  }

  /** The directory a control point is busy with is the only one that may lack its watch or its event. */
  ghost predicate Inv(s: State) {
    && (forall p :: p in s.group && s.group[p].Sub? ==> s.group[p].name in s.dirs)
    && s.created <= s.dirs
    && s.pending <= s.watch
    && (forall d :: d in s.watch ==> d in s.created || s.control == Closing(d))
    && (forall d :: d in s.created ==>
          s.control == Made(d) || (s.control == Leaving(d) && !Populated(s.group, d)) || d in s.watch)
    && (forall d :: d in s.created && !Populated(s.group, d) ==>
          d in s.pending || s.control == Made(d) || s.control == Watching(d) || s.control == Leaving(d)
          || s.control == Reaping(d))
    && match s.control
       case Idle => true
       case Made(p) => p in s.created && p !in s.watch && !Populated(s.group, p)
       case Watching(p) => p in s.created && p in s.watch && !Populated(s.group, p)
       case Leaving(p) => p in s.created
       case Reaping(d) => d in s.created && d in s.watch
       case Closing(d) => d !in s.dirs
  }

  /** A start with any directories and processes, none of them made or watched by this cgroupify. */
  ghost predicate Init(s: State) {
    && (forall p :: p in s.group && s.group[p].Sub? ==> s.group[p].name in s.dirs)
    && s.created == {} && s.watch == {} && s.pending == {} && s.control == Idle
  }

  lemma SettleInv(s: State, group: map<Name, Group>)
    requires Inv(s)
    requires forall p :: p in group && group[p].Sub? ==> group[p].name in s.dirs
    requires match s.control
             case Made(p) => !Populated(group, p)
             case Watching(p) => !Populated(group, p)
             case Leaving(p) => p !in s.watch ==> !Populated(group, p)
             case _ => true
    ensures Inv(Settle(s, group))
  {
  }

  /** A fork or an exit never populates an empty group. */
  lemma EnvironmentKeepsEmpty(s: State, e: Step, d: Name)
    requires Enabled(s, e) && (e.Fork? || e.Exit?) && !Populated(s.group, d)
    ensures !Populated(Next(s, e).group, d)
  {
    match e
    case Fork(parent, child) => assert s.group[parent] != Sub(d);
    case Exit(pid) =>
  }

  lemma EnvironmentInv(s: State, e: Step)
    requires Inv(s) && Enabled(s, e) && (e.Fork? || e.Exit?)
    ensures Inv(Next(s, e))
  {
    var t := Next(s, e);
    forall d | !Populated(s.group, d) ensures !Populated(t.group, d) { EnvironmentKeepsEmpty(s, e, d); }
    SettleInv(s, t.group);
  }

  lemma WriteInv(s: State, refused: bool)
    requires Inv(s) && s.control.Watching?
    ensures Inv(Next(s, Write(refused)))
  {
    var pid := s.control.pid;
    if !refused && pid in s.group {
      var between := s.(control := Leaving(pid));
      assert Inv(between);
      SettleInv(between, s.group[pid := Sub(pid)]);
      assert Next(s, Write(refused)) == Settle(between, s.group[pid := Sub(pid)]);
    }
  }

  lemma RemoveInv(s: State, name: Name)
    requires Inv(s) && (s.control == Leaving(name) || s.control == Reaping(name))
    ensures Inv(Remove(s, name))
  {
  }

  lemma StepInv(s: State, e: Step)
    requires Inv(s) && Enabled(s, e)
    ensures Inv(Next(s, e))
  {
    match e
    case Fork(_, _) => EnvironmentInv(s, e);
    case Exit(_) => EnvironmentInv(s, e);
    case Spurious(_) =>
    case Mkdir(pid, error) => MkdirInv(s, pid, error);
    case AddWatch(failed) => AddWatchInv(s, failed);
    case OpenFailed =>
    case Write(refused) => WriteInv(s, refused);
    case Unlink => RemoveInv(s, s.control.pid);
    case Disable => DisableInv(s);
    case Dispatch(name) =>
    case Rmdir => RemoveInv(s, s.control.name);
  }

  lemma MkdirInv(s: State, pid: Name, error: bool)
    requires Inv(s) && s.control.Idle?
    ensures Inv(Next(s, Mkdir(pid, error)))
  {
    if pid !in s.dirs { assert !Populated(s.group, pid); }
  }

  lemma AddWatchInv(s: State, failed: bool)
    requires Inv(s) && s.control.Made?
    ensures Inv(Next(s, AddWatch(failed)))
  {
  }

  lemma DisableInv(s: State)
    requires Inv(s) && s.control.Closing?
    ensures Inv(Next(s, Disable))
  {
  }

  // -------------------------------------------------------------------- runs

  ghost function Run(s: State, steps: seq<Step>): State
    requires EnabledRun(s, steps)
    decreases |steps|
  {
    if steps == [] then s else Run(Next(s, steps[0]), steps[1..])
  }

  ghost predicate EnabledRun(s: State, steps: seq<Step>)
    decreases |steps|
  {
    steps != [] ==> Enabled(s, steps[0]) && EnabledRun(Next(s, steps[0]), steps[1..])
  }

  lemma {:induction false} RunInv(s: State, steps: seq<Step>)
    requires Inv(s) && EnabledRun(s, steps)
    ensures Inv(Run(s, steps))
    decreases |steps|
  {
    if steps != [] {
      StepInv(s, steps[0]);
      RunInv(Next(s, steps[0]), steps[1..]);
    }
  }

  lemma InitInv(s: State)
    requires Init(s)
    ensures Inv(s)
  {
  }

  /** Nothing empty is forgotten. In every interleaving, whenever cgroupify is outside `move_to_subgroup` and the
      callback, a created group exists exactly while its watch is active, and an empty one always has an event
      pending; so with no event pending no empty group is left. */
  lemma ReaperForgetsNothing(s0: State, steps: seq<Step>)
    requires Init(s0) && EnabledRun(s0, steps) && Run(s0, steps).control.Idle?
    ensures
      var s := Run(s0, steps);
      && s.created == s.watch && s.created <= s.dirs
      && (forall d :: d in s.created && !Populated(s.group, d) ==> d in s.pending)
      && (s.pending == {} ==> forall d :: d in s.created ==> Populated(s.group, d))
  {
    InitInv(s0);
    RunInv(s0, steps);
  }

  // ---------------------------------------------------------------- separation

  /** One step changes the group of no process other than by cgroupify's own write, and that takes exactly the pid it
      names into the group of that name, from a different one. Processes come by forks, into the group of their
      parent, and go by exits. */
  lemma OnlyNamedProcessMoves(s: State, e: Step, p: Name)
    requires Inv(s) && Enabled(s, e)
    ensures
      var t := Next(s, e);
      && (p in s.group && p in t.group ==>
            (t.group[p] != s.group[p] <==> e == Write(false) && s.control == Watching(p))
            && (t.group[p] != s.group[p] ==> t.group[p] == Sub(p) && s.group[p] != Sub(p)))
      && (p !in s.group && p in t.group <==> e.Fork? && e.child == p)
      && (e.Fork? && e.child == p ==> t.group[p] == s.group[e.parent])
      && (p in s.group && p !in t.group <==> e == Exit(p))
  {
    assert s.control == Watching(p) ==> !Populated(s.group, p);
  }

  /** A directory appears by a mkdir of cgroupify, and disappears when it is empty, by a rmdir of cgroupify that is busy
      with it. */
  lemma DirectoriesComeAndGo(s: State, e: Step, d: Name)
    requires Inv(s) && Enabled(s, e)
    ensures
      var t := Next(s, e);
      && (d !in s.dirs && d in t.dirs <==> e == Mkdir(d, false) && d !in s.dirs)
      && (d in s.dirs && d !in t.dirs <==>
            (forall p :: p in s.group ==> s.group[p] != Sub(d))
            && ((e == Unlink && s.control == Leaving(d)) || (e == Rmdir && s.control == Reaping(d))))
  {
  }

  /** Forks and exits, and events for nothing, are possible at any moment, wherever cgroupify is; and the kernel
      signals exactly the watched groups that become empty or populated. */
  lemma EnvironmentIsFree(s: State, p: Name, q: Name, d: Name)
    requires Inv(s) && p in s.group && q !in s.group
    ensures Enabled(s, Fork(p, q)) && Enabled(s, Exit(p)) && (d in s.watch ==> Enabled(s, Spurious(d)))
    ensures d in s.watch ==> d in Next(s, Spurious(d)).pending
    ensures
      var t := Next(s, Exit(p));
      d in t.pending <==>
        d in s.pending || (d in s.watch && s.group[p] == Sub(d) && forall x :: x in t.group ==> t.group[x] != Sub(d))
    ensures Next(s, Fork(p, q)).pending == s.pending
  {
    var t, u := Next(s, Exit(p)), Next(s, Fork(p, q));
    assert Populated(t.group, d) ==> Populated(s.group, d) by {
      if x :| x in t.group && t.group[x] == Sub(d) { assert x in s.group && s.group[x] == Sub(d); }
    }
    if Populated(s.group, d) && s.group[p] != Sub(d) {
      var x :| x in s.group && s.group[x] == Sub(d);
      assert x in t.group && t.group[x] == Sub(d);
    }
    forall c ensures Populated(u.group, c) <==> Populated(s.group, c) {
      if Populated(s.group, c) {
        var x :| x in s.group && s.group[x] == Sub(c);
        assert x in u.group && u.group[x] == Sub(c);
      } else {
        EnvironmentKeepsEmpty(s, Fork(p, q), c);
      }
    }
  }

  /** So a process is moved at most once in its life: in its own group it stays until it exits. */
  lemma {:induction false} OwnGroupIsFinal(s: State, steps: seq<Step>, p: Name)
    requires Inv(s) && EnabledRun(s, steps) && p in s.group && s.group[p] == Sub(p)
    requires Exit(p) !in steps
    ensures p in Run(s, steps).group && Run(s, steps).group[p] == Sub(p)
    decreases |steps|
  {
    if steps != [] {
      var e := steps[0];
      assert e in steps && e != Exit(p);
      OnlyNamedProcessMoves(s, e, p);
      StepInv(s, e);
      assert forall x :: x in steps[1..] ==> x in steps;
      OwnGroupIsFinal(Next(s, e), steps[1..], p);
    }
  }

  /** A directory cgroupify did not make is never removed or watched by it. */
  lemma ForeignDirectoriesStay(s: State, e: Step, d: Name)
    requires Inv(s) && Enabled(s, e) && d in s.dirs && d !in s.created
    ensures d in Next(s, e).dirs && d !in Next(s, e).created && (d !in s.watch ==> d !in Next(s, e).watch)
  {
  }

  // ------------------------------------------------------------------ draining

  lemma {:induction false} RunConcat(s: State, first: seq<Step>, rest: seq<Step>)
    requires EnabledRun(s, first) && EnabledRun(Run(s, first), rest)
    ensures EnabledRun(s, first + rest) && Run(s, first + rest) == Run(Run(s, first), rest)
    decreases |first|
  {
    if first == [] {
      assert first + rest == rest;
    } else {
      assert (first + rest)[1..] == first[1..] + rest;
      RunConcat(Next(s, first[0]), first[1..], rest);
    }
  }

  lemma OneStep(s: State, e: Step)
    requires Enabled(s, e)
    ensures EnabledRun(s, [e]) && Run(s, [e]) == Next(s, e)
  {
    assert [e][1..] == [];
  }

  /** The steps of the inotify callback. */
  predicate IsDrain(e: Step) { e.Dispatch? || e.Rmdir? || e.Disable? }

  predicate Draining(s: State) { s.control.Idle? || s.control.Reaping? || s.control.Closing? }

  /** Every event was dispatched and the callback is back. */
  predicate Drained(s: State) { s.control.Idle? && s.pending == {} }

  function StepsToDrain(s: State): nat {
    3 * |s.pending| + (if s.control.Reaping? then 2 else if s.control.Closing? then 1 else 0)
  }

  lemma DrainStep(s: State, e: Step)
    requires Inv(s) && Draining(s) && Enabled(s, e) && IsDrain(e)
    ensures
      var t := Next(s, e);
      && Draining(t) && t.group == s.group && StepsToDrain(t) < StepsToDrain(s)
      && (forall d :: Populated(s.group, d) ==> (d in t.created <==> d in s.created))
      && t.created <= s.created
  {
    match e
    case Disable => SubsetCount(s.pending - {s.control.name}, s.pending);
    case _ =>
  }

  /** Until everything is dispatched there is always a next step. */
  lemma DrainGoesOn(s: State) returns (e: Step)
    requires Inv(s) && Draining(s) && !Drained(s)
    ensures Enabled(s, e) && IsDrain(e)
  {
    if s.control.Reaping? {
      e := Rmdir;
    } else if s.control.Closing? {
      e := Disable;
    } else {
      var d :| d in s.pending;
      e := Dispatch(d);
    }
  }

  /** While processes do not change, events may be dispatched in any order: it ends after three steps an event at the
      latest, and then every empty group is reaped and no other. */
  lemma {:induction false} DrainReapsAll(s: State, steps: seq<Step>)
    requires Inv(s) && Draining(s) && EnabledRun(s, steps) && forall e :: e in steps ==> IsDrain(e)
    ensures Run(s, steps).group == s.group && |steps| + StepsToDrain(Run(s, steps)) <= StepsToDrain(s)
    ensures Drained(Run(s, steps)) ==>
              forall d :: d in Run(s, steps).created <==> d in s.created && Populated(s.group, d)
    decreases |steps|
  {
    if steps == [] {
      assert Run(s, steps) == s;
    } else {
      assert steps[0] in steps;
      assert forall e :: e in steps[1..] ==> e in steps;
      StepInv(s, steps[0]);
      DrainStep(s, steps[0]);
      DrainReapsAll(Next(s, steps[0]), steps[1..]);
    }
  }
}
