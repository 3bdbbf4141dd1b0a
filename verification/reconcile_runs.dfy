/** Runs of updates against a systemd whose other units change freely: the incremental diff ends where a full
    recomputation would. */
module ReconcileRuns {
  import opened Options
  import opened Uids
  import opened Allocation
  import opened ReconcileSafety
  import ManagerConfig

  /** The resource properties of a unit; None is a weight that was never set. */
  datatype Props = Props(cpu: Option<int>, io: Option<int>, memoryMin: U64, memoryLow: U64)

  const UNSET := Props(None, None, 0, 0)

  type World = Unit -> Props

  /** A request sets both memory values, and each weight unless it is the ignored one. */
  function Merge(before: Props, alloc: RAllocation): Props {
    Props(if alloc.cpuWeight == WEIGHT_IGNORE then before.cpu else Some(alloc.cpuWeight),
          if alloc.ioWeight == WEIGHT_IGNORE then before.io else Some(alloc.ioWeight),
          alloc.memoryMin, alloc.memoryLow)
  }

  function Effect(calls: seq<Call>, unit: Unit, before: Props): Props {
    if calls == [] then before
    else
      var prior := Effect(calls[..|calls| - 1], unit, before);
      var last := calls[|calls| - 1];
      if last.unit == unit then Merge(prior, last.alloc) else prior
  }

  /** The properties show an allocation, as far as it sets them. */
  ghost predicate Shows(p: Props, alloc: RAllocation) {
    && p.memoryMin == alloc.memoryMin
    && p.memoryLow == alloc.memoryLow
    && (alloc.cpuWeight != WEIGHT_IGNORE ==> p.cpu == Some(alloc.cpuWeight))
    && (alloc.ioWeight != WEIGHT_IGNORE ==> p.io == Some(alloc.ioWeight))
  }

  lemma {:induction false} EffectShowsTold(calls: seq<Call>, unit: Unit, before: Props)
    ensures match Told(calls, unit)
            case Some(alloc) => Shows(Effect(calls, unit, before), alloc)
            case None => Effect(calls, unit, before) == before
  {
    if calls != [] && calls[|calls| - 1].unit != unit {
      EffectShowsTold(calls[..|calls| - 1], unit, before);
    }
  }

  datatype State = State(known: Snapshot, world: World, log: seq<Call>)

  datatype Event =
    | Update(snapshot: Snapshot, force: bool, graphical: Graphical)
    | Elsewhere(world: World)

  /** New snapshots come sorted; outside an update only units of users in neither stored array change. */
  ghost predicate Possible(s: State, e: Event) {
    match e
    case Update(snapshot, _, _) => Increasing(snapshot.graphical)
    case Elsewhere(world) =>
      forall unit: Unit :: unit == UserSlice || unit.uid in s.known.graphical || unit.uid in s.known.all
                           ==> world(unit) == s.world(unit)
  }

  function After(cfg: Config, s: State, e: Event): State {
    match e
    case Update(snapshot, force, graphical) =>
      var calls := UpdateCalls(cfg, s.known, snapshot, force, graphical);
      State(snapshot, unit => Effect(calls, unit, s.world(unit)), s.log + calls)
    case Elsewhere(world) => s.(world := world)
  }

  function Run(cfg: Config, s: State, events: seq<Event>): State {
    if events == [] then s else After(cfg, Run(cfg, s, events[..|events| - 1]), events[|events| - 1])
  }

  ghost predicate PossibleRun(cfg: Config, s: State, events: seq<Event>) {
    events != [] ==>
      var before := events[..|events| - 1];
      PossibleRun(cfg, s, before) && Possible(Run(cfg, s, before), events[|events| - 1])
  }

  const NOBODY := Snapshot([], [])

  function Start(world: World): State { State(NOBODY, world, []) }

  /** The slice of every known user shows its allocation, and the service the same or nothing. */
  ghost predicate Agrees(cfg: Config, s: State) {
    forall u: Uid :: u in s.known.graphical || u in s.known.all ==>
      && Shows(s.world(SliceOf(u)), if u in s.known.graphical then cfg.active else INACTIVE)
      && (Shows(s.world(ServiceOf(u)), INACTIVE)
          || (u in s.known.graphical && Shows(s.world(ServiceOf(u)), cfg.active)))
  }

  ghost predicate Good(cfg: Config, s: State) {
    && Increasing(s.known.graphical)
    && Settled(cfg, s.log, Elements(s.known.graphical), |s.known.graphical|)
    && TwoLevels(cfg, s.log)
    && Agrees(cfg, s)
  }

  lemma StartGood(cfg: Config, world: World)
    ensures Good(cfg, Start(world))
  {
    var s := Start(world);
    assert Protected(s.log) == {};
    assert Budgeted(cfg, s.log, 0);
    assert s.log[..0] == s.log;
    assert Elements([]) == {};
  }

  lemma {:induction false} UserCallsTwoLevels(cfg: Config, uids: seq<Uid>, active: bool, graphical: Graphical)
    ensures TwoLevels(cfg, AllUserCalls(cfg, uids, active, graphical))
  {
    if uids != [] { UserCallsTwoLevels(cfg, uids[..|uids| - 1], active, graphical); }
  }

  lemma UpdateTwoLevels(cfg: Config, old_: Snapshot, new_: Snapshot, force: bool, graphical: Graphical)
    ensures TwoLevels(cfg, UpdateCalls(cfg, old_, new_, force, graphical))
  {
    UserCallsTwoLevels(cfg, Departed(old_.graphical, new_.graphical), false, graphical);
    UserCallsTwoLevels(cfg, Unknown(old_.all, new_.graphical, new_.all), false, graphical);
    UserCallsTwoLevels(cfg, Promoted(old_.graphical, new_.graphical, force), true, graphical);
  }

  /** What an update leaves on a unit of a user it knows. */
  lemma UpdateAgreesOn(cfg: Config, s: State, e: Event, unit: Unit)
    requires Agrees(cfg, s) && e.Update?
    requires unit != UserSlice && (unit.uid in e.snapshot.graphical || unit.uid in e.snapshot.all)
    ensures
      var p, active := After(cfg, s, e).world(unit), unit.uid in e.snapshot.graphical;
      if unit.SliceOf? then Shows(p, if active then cfg.active else INACTIVE)
      else Shows(p, INACTIVE) || (active && Shows(p, cfg.active))
  {
    var calls := UpdateCalls(cfg, s.known, e.snapshot, e.force, e.graphical);
    var p := Effect(calls, unit, s.world(unit));
    assert After(cfg, s, e).world(unit) == p;
    UpdateTold(cfg, s.known, e.snapshot, e.force, e.graphical, unit);
    EffectShowsTold(calls, unit, s.world(unit));
    if Told(calls, unit).None? {
      assert unit.uid in s.known.graphical || unit.uid in s.known.all;
      assert unit.uid in e.snapshot.graphical <==> unit.uid in s.known.graphical;
      assert p == s.world(unit);
      assert unit == SliceOf(unit.uid) || unit == ServiceOf(unit.uid);
    }
  }

  lemma UpdateAgrees(cfg: Config, s: State, e: Event)
    requires Agrees(cfg, s) && e.Update?
    ensures Agrees(cfg, After(cfg, s, e))
  {
    forall u: Uid | u in e.snapshot.graphical || u in e.snapshot.all
      ensures Shows(After(cfg, s, e).world(SliceOf(u)), if u in e.snapshot.graphical then cfg.active else INACTIVE)
      ensures
        var p := After(cfg, s, e).world(ServiceOf(u));
        Shows(p, INACTIVE) || (u in e.snapshot.graphical && Shows(p, cfg.active))
    {
      UpdateAgreesOn(cfg, s, e, SliceOf(u));
      UpdateAgreesOn(cfg, s, e, ServiceOf(u));
    }
  }

  lemma StepGood(cfg: Config, s: State, e: Event)
    requires Good(cfg, s) && Possible(s, e)
    ensures Good(cfg, After(cfg, s, e))
  {
    if e.Update? {
      UpdateSafe(cfg, s.log, s.known, e.snapshot, e.force, e.graphical);
      UpdateTwoLevels(cfg, s.known, e.snapshot, e.force, e.graphical);
      UpdateAgrees(cfg, s, e);
    }
  }

  lemma {:induction false} RunGood(cfg: Config, s: State, events: seq<Event>)
    requires Good(cfg, s) && PossibleRun(cfg, s, events)
    ensures Good(cfg, Run(cfg, s, events))
  {
    if events != [] {
      var n := |events| - 1;
      RunGood(cfg, s, events[..n]);
      StepGood(cfg, Run(cfg, s, events[..n]), events[n]);
    }
  }

  /** Recomputing everything: a forced update of a snapshot from nothing. */
  function Scratch(cfg: Config, snapshot: Snapshot, graphical: Graphical, unit: Unit): Props {
    Effect(UpdateCalls(cfg, NOBODY, snapshot, true, graphical), unit, UNSET)
  }

  lemma ScratchShows(cfg: Config, snapshot: Snapshot, graphical: Graphical, unit: Unit)
    requires unit != UserSlice && (unit.uid in snapshot.graphical || unit.uid in snapshot.all)
    ensures Shows(Scratch(cfg, snapshot, graphical, unit),
                  UserAlloc(cfg, unit, unit.uid in snapshot.graphical, graphical))
  {
    UpdateTold(cfg, NOBODY, snapshot, true, graphical, unit);
    EffectShowsTold(UpdateCalls(cfg, NOBODY, snapshot, true, graphical), unit, UNSET);
  }

  // ------------------------------------------------------- histories of a weight

  /** One of the two weights. */
  function WeightIn(p: Props, io: bool): Option<int> { if io then p.io else p.cpu }

  function Configured(cfg: Config, io: bool): int { if io then cfg.active.ioWeight else cfg.active.cpuWeight }

  /** The snapshot stored after a run. */
  function LastSnapshot(events: seq<Event>): Snapshot {
    if events == [] then NOBODY
    else
      var e := events[|events| - 1];
      if e.Update? then e.snapshot else LastSnapshot(events[..|events| - 1])
  }

  /** An update that sets a user inactive: one who leaves the graphical users, or was not known at all. */
  predicate Revokes(old_: Snapshot, new_: Snapshot, u: Uid) {
    u !in new_.graphical && (u in old_.graphical || (u in new_.all && u !in old_.all))
  }

  /** No update has set the user inactive since the weight was last unset, at the start or from elsewhere. */
  predicate LeftUnset(world: World, events: seq<Event>, u: Uid, io: bool) {
    if events == [] then WeightIn(world(SliceOf(u)), io) == None
    else
      var before := events[..|events| - 1];
      match events[|events| - 1]
      case Update(snapshot, _, _) => LeftUnset(world, before, u, io) && !Revokes(LastSnapshot(before), snapshot, u)
      case Elsewhere(w) => WeightIn(w(SliceOf(u)), io) == None
  }

  lemma {:induction false} KnownIsLast(cfg: Config, world: World, events: seq<Event>)
    ensures Run(cfg, Start(world), events).known == LastSnapshot(events)
  {
    if events != [] { KnownIsLast(cfg, world, events[..|events| - 1]); }
  }

  lemma {:induction false} OnlyCall(calls: seq<Call>, unit: Unit, before: Props)
    requires Count(calls, unit) == 1
    ensures Told(calls, unit).Some? && Effect(calls, unit, before) == Merge(before, Told(calls, unit).value)
  {
    var n := |calls| - 1;
    if calls[n].unit == unit {
      NoCall(calls[..n], unit, before);
    } else {
      OnlyCall(calls[..n], unit, before);
    }
  }

  lemma {:induction false} NoCall(calls: seq<Call>, unit: Unit, before: Props)
    requires Count(calls, unit) == 0
    ensures Effect(calls, unit, before) == before
  {
    if calls != [] { NoCall(calls[..|calls| - 1], unit, before); }
  }

  /** One update and an ignored weight: revoking sets it, anything else leaves it. */
  lemma UpdateWeight(cfg: Config, s: State, e: Event, u: Uid, io: bool)
    requires e.Update? && Possible(s, e) && Configured(cfg, io) == WEIGHT_IGNORE
    ensures
      var before, after := s.world(SliceOf(u)), After(cfg, s, e).world(SliceOf(u));
      WeightIn(after, io) == if Revokes(s.known, e.snapshot, u) then Some(100) else WeightIn(before, io)
  {
    var calls, unit := UpdateCalls(cfg, s.known, e.snapshot, e.force, e.graphical), SliceOf(u);
    UpdateTold(cfg, s.known, e.snapshot, e.force, e.graphical, unit);
    EffectShowsTold(calls, unit, s.world(unit));
    if u in e.snapshot.graphical && Told(calls, unit).Some? {
      UpdateCount(cfg, s.known, e.snapshot, e.force, e.graphical, unit);
      IncreasingIsDistinct(e.snapshot.graphical, u);
      OnlyCall(calls, unit, s.world(unit));
    }
  }

  /** After a run an ignored weight is unset if and only if its history left it so. */
  lemma {:induction false} IgnoredWeight(cfg: Config, world: World, events: seq<Event>, u: Uid, io: bool)
    requires PossibleRun(cfg, Start(world), events) && Configured(cfg, io) == WEIGHT_IGNORE
    ensures WeightIn(Run(cfg, Start(world), events).world(SliceOf(u)), io) == None <==> LeftUnset(world, events, u, io)
  {
    if events != [] {
      var n := |events| - 1;
      IgnoredWeight(cfg, world, events[..n], u, io);
      KnownIsLast(cfg, world, events[..n]);
      if events[n].Update? {
        UpdateWeight(cfg, Run(cfg, Start(world), events[..n]), events[n], u, io);
      }
    }
  }

  lemma {:induction false} RunConcat(cfg: Config, s: State, first: seq<Event>, rest: seq<Event>)
    ensures Run(cfg, s, first + rest) == Run(cfg, Run(cfg, s, first), rest)
  {
    if rest == [] {
      assert first + rest == first;
    } else {
      var n := |rest| - 1;
      RunConcat(cfg, s, first, rest[..n]);
      assert (first + rest)[..|first + rest| - 1] == first + rest[..n];
    }
  }

  lemma {:induction false} PossibleConcat(cfg: Config, s: State, first: seq<Event>, rest: seq<Event>)
    requires PossibleRun(cfg, s, first) && PossibleRun(cfg, Run(cfg, s, first), rest)
    ensures PossibleRun(cfg, s, first + rest)
  {
    if rest == [] {
      assert first + rest == first;
    } else {
      var before := rest[..|rest| - 1];
      PossibleConcat(cfg, s, first, before);
      RunConcat(cfg, s, first, before);
      assert (first + rest)[..|first + rest| - 1] == first + before;
    }
  }

  /** The weight of an active user's slice is the recomputed one exactly if it is configured or was left unset. */
  lemma ActiveWeightIff(cfg: Config, world: World, events: seq<Event>, graphical: Graphical, u: Uid, io: bool)
    requires PossibleRun(cfg, Start(world), events)
    requires u in Run(cfg, Start(world), events).known.graphical
    ensures
      var s := Run(cfg, Start(world), events);
      WeightIn(s.world(SliceOf(u)), io) == WeightIn(Scratch(cfg, s.known, graphical, SliceOf(u)), io)
      <==> Configured(cfg, io) != WEIGHT_IGNORE || LeftUnset(world, events, u, io)
  {
    var s := Run(cfg, Start(world), events);
    StartGood(cfg, world);
    RunGood(cfg, Start(world), events);
    ScratchShows(cfg, s.known, graphical, SliceOf(u));
    if Configured(cfg, io) == WEIGHT_IGNORE {
      IgnoredWeight(cfg, world, events, u, io);
      UpdateWeight(cfg, Start(_ => UNSET), Update(s.known, true, graphical), u, io);
    }
  }

  // ------------------------------------------------------- users outside

  /** Nobody outside the graphical users was last told anything but the inactive allocation, for slice or service. */
  ghost predicate InactiveOutside(log: seq<Call>, known: Snapshot) {
    forall unit: Unit :: unit != UserSlice && unit.uid !in known.graphical
                         ==> Told(log, unit) == None || Told(log, unit) == Some(INACTIVE)
  }

  lemma UpdateOutside(cfg: Config, s: State, e: Event)
    requires e.Update? && InactiveOutside(s.log, s.known)
    ensures InactiveOutside(After(cfg, s, e).log, e.snapshot)
  {
    var calls := UpdateCalls(cfg, s.known, e.snapshot, e.force, e.graphical);
    forall unit: Unit | unit != UserSlice && unit.uid !in e.snapshot.graphical
      ensures Told(s.log + calls, unit) == None || Told(s.log + calls, unit) == Some(INACTIVE)
    {
      UpdateTold(cfg, s.known, e.snapshot, e.force, e.graphical, unit);
      ToldConcat(s.log, calls, unit);
    }
  }

  lemma {:induction false} RunOutside(cfg: Config, world: World, events: seq<Event>)
    ensures InactiveOutside(Run(cfg, Start(world), events).log, Run(cfg, Start(world), events).known)
  {
    if events != [] {
      var n := |events| - 1;
      RunOutside(cfg, world, events[..n]);
      if events[n].Update? { UpdateOutside(cfg, Run(cfg, Start(world), events[..n]), events[n]); }
    }
  }

  /** Main result on runs. After any run of forced and unforced updates, whatever happens to other users' units in
      between: every known user's slice has exactly the memory of a full recomputation, and all its properties if
      and only if the user is inactive or each weight is configured or was left unset by the run; nobody outside the
      graphical users was last told anything but the inactive allocation; user.slice was last computed for the
      current number; and after every single call of the run it was computed for at least as many users as were
      protected. */
  lemma IncrementalIsScratch(cfg: Config, world: World, events: seq<Event>, graphical: Graphical, u: Uid)
    requires PossibleRun(cfg, Start(world), events)
    ensures
      var s := Run(cfg, Start(world), events);
      var scratch := Scratch(cfg, s.known, graphical, SliceOf(u));
      && (u in s.known.graphical || u in s.known.all ==>
           && s.world(SliceOf(u)).memoryMin == scratch.memoryMin
           && s.world(SliceOf(u)).memoryLow == scratch.memoryLow
           && (s.world(SliceOf(u)) == scratch <==>
                 u in s.known.graphical ==>
                   forall io :: Configured(cfg, io) != WEIGHT_IGNORE || LeftUnset(world, events, u, io)))
      && InactiveOutside(s.log, s.known)
      && (HoldsMemory(s.log, u) ==> u in s.known.graphical)
      && Budgeted(cfg, s.log, |s.known.graphical|)
      && AlwaysSafe(cfg, s.log)
  {
    var s := Run(cfg, Start(world), events);
    StartGood(cfg, world);
    RunGood(cfg, Start(world), events);
    RunOutside(cfg, world, events);
    if u in s.known.graphical || u in s.known.all {
      var scratch := Scratch(cfg, s.known, graphical, SliceOf(u));
      ScratchShows(cfg, s.known, graphical, SliceOf(u));
      SameProps(s.world(SliceOf(u)), scratch);
      if u in s.known.graphical {
        ActiveWeightIff(cfg, world, events, graphical, u, false);
        ActiveWeightIff(cfg, world, events, graphical, u, true);
      }
    }
    ProtectedIff(s.log, u);
  }

  lemma SameProps(p: Props, q: Props)
    requires p.memoryMin == q.memoryMin && p.memoryLow == q.memoryLow
    ensures p == q <==> WeightIn(p, false) == WeightIn(q, false) && WeightIn(p, true) == WeightIn(q, true)
  {
  }

  /** A forced update also recomputes every graphical user's service, which an unforced one does not. */
  lemma ForcedUpdateRefreshesServices(cfg: Config, s: State, e: Event, u: Uid)
    requires Good(cfg, s) && Possible(s, e) && e.Update? && e.force && u in e.snapshot.graphical
    ensures Shows(After(cfg, s, e).world(ServiceOf(u)), if e.graphical(u) then cfg.active else INACTIVE)
    ensures Shows(Scratch(cfg, e.snapshot, e.graphical, ServiceOf(u)), if e.graphical(u) then cfg.active else INACTIVE)
  {
    UpdateTold(cfg, s.known, e.snapshot, e.force, e.graphical, ServiceOf(u));
    EffectShowsTold(UpdateCalls(cfg, s.known, e.snapshot, e.force, e.graphical), ServiceOf(u), s.world(ServiceOf(u)));
    ScratchShows(cfg, e.snapshot, e.graphical, ServiceOf(u));
  }

  // ------------------------------------------------------- user.slice itself

  lemma {:induction false} EffectConcat(first: seq<Call>, rest: seq<Call>, unit: Unit, before: Props)
    ensures Effect(first + rest, unit, before) == Effect(rest, unit, Effect(first, unit, before))
  {
    if rest == [] {
      assert first + rest == first;
    } else {
      var n := |rest| - 1;
      EffectConcat(first, rest[..n], unit, before);
      assert (first + rest)[..|first + rest| - 1] == first + rest[..n];
    }
  }

  /** The calls set no weight of user.slice. */
  ghost predicate LeavesWeights(calls: seq<Call>) {
    forall c :: c in calls && c.unit == UserSlice ==>
      c.alloc.cpuWeight == WEIGHT_IGNORE && c.alloc.ioWeight == WEIGHT_IGNORE
  }

  lemma {:induction false} WeightsLeft(calls: seq<Call>, before: Props)
    requires LeavesWeights(calls)
    ensures Effect(calls, UserSlice, before).cpu == before.cpu && Effect(calls, UserSlice, before).io == before.io
  {
    if calls != [] {
      var n := |calls| - 1;
      assert calls[n] in calls;
      WeightsLeft(calls[..n], before);
    }
  }

  lemma UserCallsLeaveWeights(cfg: Config, uids: seq<Uid>, active: bool, graphical: Graphical)
    ensures LeavesWeights(AllUserCalls(cfg, uids, active, graphical))
  {
    UserCallsWithin(cfg, uids, active, graphical, Elements(uids));
  }

  lemma UpdateLeavesWeights(cfg: Config, old_: Snapshot, new_: Snapshot, force: bool, graphical: Graphical)
    ensures LeavesWeights(UpdateCalls(cfg, old_, new_, force, graphical))
  {
    UserCallsLeaveWeights(cfg, Departed(old_.graphical, new_.graphical), false, graphical);
    UserCallsLeaveWeights(cfg, Unknown(old_.all, new_.graphical, new_.all), false, graphical);
    UserCallsLeaveWeights(cfg, Promoted(old_.graphical, new_.graphical, force), true, graphical);
  }

  lemma {:induction false} RunOfUserSlice(cfg: Config, world: World, events: seq<Event>)
    requires PossibleRun(cfg, Start(world), events)
    ensures
      var s := Run(cfg, Start(world), events);
      LeavesWeights(s.log) && s.world(UserSlice) == Effect(s.log, UserSlice, world(UserSlice))
  {
    if events != [] {
      var n := |events| - 1;
      var s, e := Run(cfg, Start(world), events[..n]), events[n];
      RunOfUserSlice(cfg, world, events[..n]);
      if e.Update? {
        UpdateLeavesWeights(cfg, s.known, e.snapshot, e.force, e.graphical);
        EffectConcat(s.log, UpdateCalls(cfg, s.known, e.snapshot, e.force, e.graphical), UserSlice, world(UserSlice));
      }
    }
  }

  /** Over every run, and the stop after it, user.slice keeps the weights it had, and has the memory it was last told,
      if any. */
  lemma UserSliceKeepsWeights(cfg: Config, world: World, events: seq<Event>, graphical: Graphical)
    requires PossibleRun(cfg, Start(world), events)
    ensures
      var s := Run(cfg, Start(world), events);
      var stopped := Effect(StopCalls(cfg, s.known, graphical), UserSlice, s.world(UserSlice));
      && s.world(UserSlice).cpu == world(UserSlice).cpu && s.world(UserSlice).io == world(UserSlice).io
      && stopped.cpu == world(UserSlice).cpu && stopped.io == world(UserSlice).io
      && s.world(UserSlice).memoryMin ==
           (if Told(s.log, UserSlice).Some? then ToldMemory(s.log, UserSlice, false) else world(UserSlice).memoryMin)
      && s.world(UserSlice).memoryLow ==
           (if Told(s.log, UserSlice).Some? then ToldMemory(s.log, UserSlice, true) else world(UserSlice).memoryLow)
      && stopped.memoryMin == 0 && stopped.memoryLow == 0
  {
    var s := Run(cfg, Start(world), events);
    RunOfUserSlice(cfg, world, events);
    WeightsLeft(s.log, world(UserSlice));
    EffectShowsTold(s.log, UserSlice, world(UserSlice));
    var calls, stop := AllUserCalls(cfg, s.known.all, false, graphical), StopCalls(cfg, s.known, graphical);
    UserCallsLeaveWeights(cfg, s.known.all, false, graphical);
    WeightsLeft(stop, s.world(UserSlice));
    ToldSnoc(calls, UserSliceCall(cfg, 0), UserSlice);
    EffectShowsTold(stop, UserSlice, s.world(UserSlice));
  }

  // ---------------------------------------------------- services of active users

  /** What the program found out about a user's graphical session when it last told the user active. */
  function LastAnswer(events: seq<Event>, u: Uid): bool {
    if events == [] then false
    else
      var before := events[..|events| - 1];
      match events[|events| - 1]
      case Update(snapshot, force, graphical) =>
        if u in snapshot.graphical && (force || u !in LastSnapshot(before).graphical) then graphical(u)
        else LastAnswer(before, u)
      case Elsewhere(_) => LastAnswer(before, u)
  }

  function ServiceAlloc(cfg: Config, answer: bool): RAllocation { if answer then cfg.active else INACTIVE }

  lemma UpdateService(cfg: Config, s: State, e: Event, u: Uid, before: bool)
    requires e.Update? && u in e.snapshot.graphical
    requires u in s.known.graphical ==>
               && Told(s.log, ServiceOf(u)) == Some(ServiceAlloc(cfg, before))
               && Shows(s.world(ServiceOf(u)), ServiceAlloc(cfg, before))
    ensures
      var t, answer := After(cfg, s, e), if e.force || u !in s.known.graphical then e.graphical(u) else before;
      && Told(t.log, ServiceOf(u)) == Some(ServiceAlloc(cfg, answer))
      && Shows(t.world(ServiceOf(u)), ServiceAlloc(cfg, answer))
  {
    var calls, unit := UpdateCalls(cfg, s.known, e.snapshot, e.force, e.graphical), ServiceOf(u);
    UpdateTold(cfg, s.known, e.snapshot, e.force, e.graphical, unit);
    ToldConcat(s.log, calls, unit);
    EffectShowsTold(calls, unit, s.world(unit));
  }

  /** An active user's service was told, and shows, the allocation for that answer. */
  lemma {:induction false} ServiceFollowsAnswer(cfg: Config, world: World, events: seq<Event>, u: Uid)
    requires PossibleRun(cfg, Start(world), events) && u in Run(cfg, Start(world), events).known.graphical
    ensures
      var s := Run(cfg, Start(world), events);
      && Told(s.log, ServiceOf(u)) == Some(ServiceAlloc(cfg, LastAnswer(events, u)))
      && Shows(s.world(ServiceOf(u)), ServiceAlloc(cfg, LastAnswer(events, u)))
  {
    var n := |events| - 1;
    var s, e := Run(cfg, Start(world), events[..n]), events[n];
    if u in s.known.graphical { ServiceFollowsAnswer(cfg, world, events[..n], u); }
    if e.Update? {
      KnownIsLast(cfg, world, events[..n]);
      UpdateService(cfg, s, e, u, LastAnswer(events[..n], u));
    }
  }

  /** One weight of a unit after a run, given the one it was told last: that one, or not known if it was ignored. */
  predicate WeightIs(weight: Option<int>, told: int) { told == -0x8000_0000 || weight == Some(told) }

  /** The numbers: after any run a known user's slice has the configured memory and weights if the user is graphical,
      and otherwise no memory and the neutral weight 100. A graphical user's service has the configured ones if there
      was a session when the program last told it, and otherwise the neutral ones. */
  lemma UnitsByFields(cfg: Config, world: World, events: seq<Event>, u: Uid)
    requires PossibleRun(cfg, Start(world), events)
    ensures
      var s := Run(cfg, Start(world), events);
      var active := u in s.known.graphical;
      && (active || u in s.known.all ==>
            var slice := s.world(SliceOf(u));
            && slice.memoryMin == (if active then cfg.active.memoryMin else 0)
            && slice.memoryLow == (if active then cfg.active.memoryLow else 0)
            && WeightIs(slice.cpu, if active then cfg.active.cpuWeight else 100)
            && WeightIs(slice.io, if active then cfg.active.ioWeight else 100))
      && (active ==>
            var service, answer := s.world(ServiceOf(u)), LastAnswer(events, u);
            && service.memoryMin == (if answer then cfg.active.memoryMin else 0)
            && service.memoryLow == (if answer then cfg.active.memoryLow else 0)
            && WeightIs(service.cpu, if answer then cfg.active.cpuWeight else 100)
            && WeightIs(service.io, if answer then cfg.active.ioWeight else 100))
  {
    StartGood(cfg, world);
    RunGood(cfg, Start(world), events);
    if u in Run(cfg, Start(world), events).known.graphical { ServiceFollowsAnswer(cfg, world, events, u); }
  }

  /** So after any run an active user's service has the memory of a recomputation if and only if the last answer is
      today's or there is no memory to differ in, and with both weights configured all properties if and only if the
      last answer is today's or active and inactive allocations are the same. */
  lemma ServiceRecomputedIff(cfg: Config, world: World, events: seq<Event>, graphical: Graphical, u: Uid)
    requires PossibleRun(cfg, Start(world), events) && u in Run(cfg, Start(world), events).known.graphical
    ensures
      var s := Run(cfg, Start(world), events);
      var p, scratch := s.world(ServiceOf(u)), Scratch(cfg, s.known, graphical, ServiceOf(u));
      && (p.memoryMin == scratch.memoryMin && p.memoryLow == scratch.memoryLow
          <==> LastAnswer(events, u) == graphical(u) || (cfg.active.memoryMin == 0 && cfg.active.memoryLow == 0))
      && (cfg.active.cpuWeight != WEIGHT_IGNORE && cfg.active.ioWeight != WEIGHT_IGNORE ==>
            (p == scratch <==> LastAnswer(events, u) == graphical(u) || cfg.active == INACTIVE))
  {
    var s := Run(cfg, Start(world), events);
    ServiceFollowsAnswer(cfg, world, events, u);
    ScratchShows(cfg, s.known, graphical, ServiceOf(u));
  }

  /** Such a history: without a readable file, or with a file that gives the ignored value, a user seen as inactive
      first keeps the neutral weight that a recomputation would never set. */
  lemma IgnoredWeightRemembersHistory(file: Option<ManagerConfig.Keys>, ram: U64, u: Uid, graphical: Graphical)
    requires file.None? || file.value.cpuWeight == Some(WEIGHT_IGNORE)
    ensures
      var cfg := ManagerConfig.ReadConfig(file, ram);
      var idle, busy := Update(Snapshot([], [u]), false, graphical), Update(Snapshot([u], [u]), false, graphical);
      var s := Run(cfg, Start(_ => UNSET), [idle, busy]);
      s.world(SliceOf(u)).cpu == Some(100) && Scratch(cfg, s.known, graphical, SliceOf(u)).cpu == None
  {
    var cfg := ManagerConfig.ReadConfig(file, ram);
    ManagerConfig.IgnoredIff(file, ram);
    var idle, busy := Snapshot([], [u]), Snapshot([u], [u]);
    var first, second := Update(idle, false, graphical), Update(busy, false, graphical);
    var s0 := Start(_ => UNSET);
    assert [first, second][..1] == [first] && [first][..0] == [];
    var s1 := After(cfg, s0, first);
    assert Run(cfg, s0, [first]) == s1;
    assert Run(cfg, s0, [first, second]) == After(cfg, s1, second);
    UpdateWeight(cfg, s0, first, u, false);
    UpdateWeight(cfg, s1, second, u, false);
    UpdateWeight(cfg, s0, Update(busy, true, graphical), u, false);
  }

  /** Safe after each call, with a doubt about the last one. */
  ghost predicate SafeButLast(cfg: Config, log: seq<Call>) {
    log != [] && AlwaysSafe(cfg, log[..|log| - 1])
  }

  /** Every call of a run and the stop after it. */
  function WholeLog(cfg: Config, world: World, events: seq<Event>, graphical: Graphical): seq<Call> {
    var s := Run(cfg, Start(world), events);
    s.log + StopCalls(cfg, s.known, graphical)
  }

  /** Any run followed by a stop is safe after every call up to the last, and after the last one, too, if and only if
      the last snapshot lists every user who is still protected among all users. Then nobody is protected any more
      and user.slice was computed for nobody. */
  lemma RunThenStop(cfg: Config, world: World, events: seq<Event>, graphical: Graphical)
    requires PossibleRun(cfg, Start(world), events)
    ensures
      var s := Run(cfg, Start(world), events);
      var log, listed := WholeLog(cfg, world, events, graphical), Protected(s.log) <= Elements(s.known.all);
      && SafeButLast(cfg, log)
      && (AlwaysSafe(cfg, log) <==> listed)
      && (Protected(log) == {} <==> listed)
      && Told(log, UserSlice) == Some(UserSliceAlloc(cfg, 0))
  {
    var s := Run(cfg, Start(world), events);
    StartGood(cfg, world);
    RunGood(cfg, Start(world), events);
    StopSafe(cfg, s.log, s.known, graphical);
    StopWithdraws(cfg, s.log, s.known, graphical);
    var calls := AllUserCalls(cfg, s.known.all, false, graphical);
    var log := WholeLog(cfg, world, events, graphical);
    assert log == s.log + calls + [UserSliceCall(cfg, 0)];
    assert log[..|log| - 1] == s.log + calls;
    ToldSnoc(s.log + calls, UserSliceCall(cfg, 0), UserSlice);
  }

  ghost predicate AtMost(events: seq<Event>, n: nat) {
    forall e :: e in events && e.Update? ==> |e.snapshot.graphical| <= n
  }

  lemma UserCallsCountNobody(cfg: Config, uids: seq<Uid>, active: bool, graphical: Graphical, n: nat)
    ensures CountsWithin(AllUserCalls(cfg, uids, active, graphical), n)
  {
    UserCallsWithin(cfg, uids, active, graphical, Elements(uids));
  }

  lemma UpdateCounts(cfg: Config, old_: Snapshot, new_: Snapshot, force: bool, graphical: Graphical, n: nat)
    requires |new_.graphical| <= n
    ensures CountsWithin(UpdateCalls(cfg, old_, new_, force, graphical), n)
  {
    UserCallsCountNobody(cfg, Departed(old_.graphical, new_.graphical), false, graphical, n);
    UserCallsCountNobody(cfg, Unknown(old_.all, new_.graphical, new_.all), false, graphical, n);
    UserCallsCountNobody(cfg, Promoted(old_.graphical, new_.graphical, force), true, graphical, n);
  }

  lemma {:induction false} RunCounts(cfg: Config, world: World, events: seq<Event>, n: nat)
    requires AtMost(events, n)
    ensures CountsWithin(Run(cfg, Start(world), events).log, n)
  {
    if events != [] {
      var m := |events| - 1;
      assert forall e :: e in events[..m] ==> e in events;
      RunCounts(cfg, world, events[..m], n);
      var e := events[m];
      assert e in events;
      if e.Update? {
        UpdateCounts(cfg, Run(cfg, Start(world), events[..m]).known, e.snapshot, e.force, e.graphical, n);
      }
    }
  }

  lemma WholeLedger(cfg: Config, world: World, events: seq<Event>, graphical: Graphical, n: nat)
    requires PossibleRun(cfg, Start(world), events) && AtMost(events, n)
    ensures
      var log := WholeLog(cfg, world, events, graphical);
      log != [] && TwoLevels(cfg, log) && CountsWithin(log, n)
  {
    var s := Run(cfg, Start(world), events);
    StartGood(cfg, world);
    RunGood(cfg, Start(world), events);
    UserCallsTwoLevels(cfg, s.known.all, false, graphical);
    RunCounts(cfg, world, events, n);
    UserCallsCountNobody(cfg, s.known.all, false, graphical, n);
  }

  /** A ledger that may be unsafe after its last call only. */
  lemma CoversUpTo(cfg: Config, log: seq<Call>, n: nat, k: nat, uids: set<Uid>, low: bool)
    requires TwoLevels(cfg, log) && CountsWithin(log, n) && Fits(cfg, n, low)
    requires SafeButLast(cfg, log)
    requires k < |log| || (k == |log| && AlwaysSafe(cfg, log))
    ensures Covers(cfg, log[..k], uids, low)
  {
    if k < |log| {
      EveryCallCovers(cfg, log[..|log| - 1], n, k, uids, low);
      assert log[..|log| - 1][..k] == log[..k];
    } else {
      EveryCallCovers(cfg, log, n, k, uids, low);
    }
  }

  /** Safety in bytes, over any run and the stop after it. After every single call user.slice has at least
      MIN(what any users' slices were told together, the configured maximum), if the memory of the largest number
      of users fits in 64 bits; after the very last call of the stop, if everyone protected was listed. */
  lemma EveryCallOfRunCovers(cfg: Config, world: World, events: seq<Event>, graphical: Graphical, n: nat, k: nat,
                             uids: set<Uid>, low: bool)
    requires PossibleRun(cfg, Start(world), events) && AtMost(events, n) && Fits(cfg, n, low)
    requires
      var s := Run(cfg, Start(world), events);
      var calls := |WholeLog(cfg, world, events, graphical)|;
      k < calls || (k == calls && Protected(s.log) <= Elements(s.known.all))
    ensures Covers(cfg, WholeLog(cfg, world, events, graphical)[..k], uids, low)
  {
    var log := WholeLog(cfg, world, events, graphical);
    RunThenStop(cfg, world, events, graphical);
    WholeLedger(cfg, world, events, graphical, n);
    CoversUpTo(cfg, log, n, k, uids, low);
  }

  /** A user the last snapshot does not list among all users keeps the slice's memory beyond the stop. */
  lemma StopKeepsUnlisted(cfg: Config, log: seq<Call>, known: Snapshot, graphical: Graphical, u: Uid)
    requires HoldsMemory(log, u) && u !in known.all
    ensures HoldsMemory(log + StopCalls(cfg, known, graphical), u)
  {
    ProtectedIff(log, u);
    StopWithdraws(cfg, log, known, graphical);
    ProtectedIff(log + StopCalls(cfg, known, graphical), u);
  }

  /** Such a run exists: logind reports a graphical user and, read later, no users at all. */
  lemma StopMissesUnlistedUser(cfg: Config, u: Uid, graphical: Graphical)
    requires cfg.active.memoryMin != 0
    ensures
      var s := After(cfg, Start(_ => UNSET), Update(Snapshot([u], []), false, graphical));
      HoldsMemory(s.log + StopCalls(cfg, s.known, graphical), u)
  {
    var snapshot := Snapshot([u], []);
    var calls := UpdateCalls(cfg, NOBODY, snapshot, false, graphical);
    assert [] + calls == calls;
    UpdateTold(cfg, NOBODY, snapshot, false, graphical, SliceOf(u));
    StopKeepsUnlisted(cfg, calls, snapshot, graphical, u);
  }
}
