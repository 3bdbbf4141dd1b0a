/** The daemon around logind: notices, the quiet timer, the signal handlers and the reconciler together. */
module Convergence {
  import opened Options
  import opened Uids
  import opened Allocation
  import opened SdLogin
  import opened ReconcileSafety
  import R = ReconcileRuns

  /** `unseen` is a change of logind whose notice was not dispatched yet; `lastSeen` is when the last one was.
      `lastRead` is what the last collection read of logind, where any part may have failed. */
  datatype Daemon = Daemon(logind: Reading, unseen: bool, now: nat, lastSeen: nat, debounce: Debounce,
                           lastRead: Reading, held: Snapshot, handlers: nat, rec: R.State)

  datatype Move =
    | LogindChanges(reading: Reading)
    | Clock
    | Notice
    | Fire(source: nat, read: Reading, held: Snapshot, graphical: Graphical)
    | BusUpdate(graphical: Graphical)
    | NameAcquired(graphical: Graphical)
    | Elsewhere(world: R.World)

  ghost predicate Enabled(d: Daemon, m: Move) {
    match m
    case LogindChanges(_) => true
    case Clock => true
    case Notice => d.unseen
    case Fire(source, read, held, _) =>
      && source in d.debounce.timers && d.debounce.timers[source] <= d.now
      && ReadOf(d.logind, read) && Collected(read, held)
    case BusUpdate(_) => true
    case NameAcquired(_) => true
    case Elsewhere(world) => R.Possible(d.rec, R.Elsewhere(world))
  }

  /** The "changed" signal runs every connected handler, each an unforced update. */
  function Emit(cfg: Config, rec: R.State, held: Snapshot, handlers: nat, graphical: Graphical): R.State {
    R.Run(cfg, rec, seq(handlers, _ => R.Update(held, false, graphical)))
  }

  function Next(cfg: Config, d: Daemon, m: Move): Daemon {
    match m
    case LogindChanges(reading) => d.(logind := reading, unseen := true)
    case Clock => d.(now := d.now + 1)
    case Notice => d.(unseen := false, lastSeen := d.now, debounce := Restart(d.debounce, d.now))
    case Fire(source, read, held, graphical) =>
      d.(debounce := Fired(d.debounce, source), lastRead := read, held := held,
         rec := Emit(cfg, d.rec, held, d.handlers, graphical))
    case BusUpdate(graphical) => d.(rec := R.After(cfg, d.rec, R.Update(d.held, true, graphical)))
    case NameAcquired(graphical) =>
      d.(handlers := d.handlers + 1, rec := R.After(cfg, d.rec, R.Update(d.held, false, graphical)))
    case Elsewhere(world) => d.(rec := R.After(cfg, d.rec, R.Elsewhere(world)))
  }

  function Run(cfg: Config, d: Daemon, moves: seq<Move>): Daemon {
    if moves == [] then d else Next(cfg, Run(cfg, d, moves[..|moves| - 1]), moves[|moves| - 1])
  }

  ghost predicate EnabledRun(cfg: Config, d: Daemon, moves: seq<Move>) {
    forall k :: 0 <= k < |moves| ==> Enabled(Run(cfg, d, moves[..k]), moves[k])
  }

  /** The login object reads logind as it is created; nobody is connected yet. */
  ghost predicate Booted(d: Daemon) {
    && ReadOf(d.logind, d.lastRead) && Collected(d.lastRead, d.held)
    && d.debounce == Debounce(0, map[], 1)
    && d.handlers == 0 && d.lastSeen <= d.now
    && d.rec == R.Start(d.rec.world)
  }

  ghost predicate Quiet(d: Daemon) { !d.unseen && d.debounce.timers == map[] }

  ghost predicate Inv(cfg: Config, d: Daemon) {
    && OneTimer(d.debounce)
    && d.lastSeen <= d.now
    && (forall t :: t in d.debounce.timers ==> d.debounce.timers[t] == d.lastSeen + QUIET_MS)
    && (Quiet(d) ==> ReadOf(d.logind, d.lastRead))
    && Collected(d.lastRead, d.held)
    && Increasing(d.held.graphical)
    && (d.handlers > 0 ==> d.rec.known == d.held)
    && R.Good(cfg, d.rec)
  }

  lemma EmitLast(cfg: Config, rec: R.State, held: Snapshot, handlers: nat, graphical: Graphical)
    requires handlers > 0
    ensures Emit(cfg, rec, held, handlers, graphical)
            == R.After(cfg, Emit(cfg, rec, held, handlers - 1, graphical), R.Update(held, false, graphical))
  {
    var e := R.Update(held, false, graphical);
    assert seq(handlers, _ => e)[..handlers - 1] == seq(handlers - 1, _ => e);
  }

  lemma {:induction false} EmitPossible(cfg: Config, rec: R.State, held: Snapshot, handlers: nat, graphical: Graphical)
    requires Increasing(held.graphical)
    ensures R.PossibleRun(cfg, rec, seq(handlers, _ => R.Update(held, false, graphical)))
  {
    if handlers > 0 {
      var e := R.Update(held, false, graphical);
      EmitPossible(cfg, rec, held, handlers - 1, graphical);
      assert seq(handlers, _ => e)[..handlers - 1] == seq(handlers - 1, _ => e);
    }
  }

  lemma EmitGood(cfg: Config, rec: R.State, held: Snapshot, handlers: nat, graphical: Graphical)
    requires R.Good(cfg, rec) && Increasing(held.graphical)
    ensures R.Good(cfg, Emit(cfg, rec, held, handlers, graphical))
    ensures handlers > 0 ==> Emit(cfg, rec, held, handlers, graphical).known == held
  {
    EmitPossible(cfg, rec, held, handlers, graphical);
    R.RunGood(cfg, rec, seq(handlers, _ => R.Update(held, false, graphical)));
    if handlers > 0 { EmitLast(cfg, rec, held, handlers, graphical); }
  }

  /** Only the first handler finds something to do. */
  lemma {:induction false} FurtherHandlersAreSilent(cfg: Config, rec: R.State, held: Snapshot, handlers: nat,
                                                    graphical: Graphical)
    requires handlers >= 1
    ensures Emit(cfg, rec, held, handlers, graphical).log
            == rec.log + UpdateCalls(cfg, rec.known, held, false, graphical)
    ensures Emit(cfg, rec, held, handlers, graphical).known == held
  {
    EmitLast(cfg, rec, held, handlers, graphical);
    if handlers > 1 {
      FurtherHandlersAreSilent(cfg, rec, held, handlers - 1, graphical);
      UnchangedIssuesNothing(cfg, held, graphical);
    } else {
      assert Emit(cfg, rec, held, 0, graphical) == rec;
    }
  }

  lemma StepInv(cfg: Config, d: Daemon, m: Move)
    requires Inv(cfg, d) && Enabled(d, m)
    ensures Inv(cfg, Next(cfg, d, m))
  {
    match m
    case LogindChanges(_) =>
    case Clock =>
    case Notice => RestartKeepsOneTimer(d.debounce, d.now);
    case Fire(source, _, held, graphical) =>
      FiredLeavesNoTimer(d.debounce, source);
      EmitGood(cfg, d.rec, held, d.handlers, graphical);
    case BusUpdate(graphical) => R.StepGood(cfg, d.rec, R.Update(d.held, true, graphical));
    case NameAcquired(graphical) => R.StepGood(cfg, d.rec, R.Update(d.held, false, graphical));
    case Elsewhere(world) => R.StepGood(cfg, d.rec, R.Elsewhere(world));
  }

  lemma BootInv(cfg: Config, d: Daemon)
    requires Booted(d)
    ensures Inv(cfg, d)
  {
    R.StartGood(cfg, d.rec.world);
  }

  lemma PrefixEnabled(cfg: Config, d: Daemon, moves: seq<Move>, n: nat)
    requires n <= |moves| && EnabledRun(cfg, d, moves)
    ensures EnabledRun(cfg, d, moves[..n])
  {
    forall k | 0 <= k < n ensures Enabled(Run(cfg, d, moves[..n][..k]), moves[..n][k]) {
      assert moves[..n][..k] == moves[..k];
    }
  }

  lemma {:induction false} RunInv(cfg: Config, d: Daemon, moves: seq<Move>)
    requires Inv(cfg, d) && EnabledRun(cfg, d, moves)
    ensures Inv(cfg, Run(cfg, d, moves))
  {
    if moves != [] {
      var n := |moves| - 1;
      PrefixEnabled(cfg, d, moves, n);
      RunInv(cfg, d, moves[..n]);
      StepInv(cfg, Run(cfg, d, moves[..n]), moves[n]);
    }
  }

  // ------------------------------------------------------------ the updates in it

  /** The updates and changes elsewhere that one move brings about. */
  function MoveEvents(d: Daemon, m: Move): seq<R.Event> {
    match m
    case Fire(_, _, held, graphical) => seq(d.handlers, _ => R.Update(held, false, graphical))
    case BusUpdate(graphical) => [R.Update(d.held, true, graphical)]
    case NameAcquired(graphical) => [R.Update(d.held, false, graphical)]
    case Elsewhere(world) => [R.Elsewhere(world)]
    case _ => []
  }

  function EventsOf(cfg: Config, d: Daemon, moves: seq<Move>): seq<R.Event> {
    if moves == [] then []
    else
      var before := moves[..|moves| - 1];
      EventsOf(cfg, d, before) + MoveEvents(Run(cfg, d, before), moves[|moves| - 1])
  }

  lemma OneEvent(cfg: Config, s: R.State, e: R.Event)
    requires R.Possible(s, e)
    ensures R.Run(cfg, s, [e]) == R.After(cfg, s, e) && R.PossibleRun(cfg, s, [e])
  {
    assert [e][..0] == [];
  }

  lemma MoveIsEvents(cfg: Config, d: Daemon, m: Move)
    requires Inv(cfg, d) && Enabled(d, m)
    ensures Next(cfg, d, m).rec == R.Run(cfg, d.rec, MoveEvents(d, m))
    ensures R.PossibleRun(cfg, d.rec, MoveEvents(d, m))
  {
    match m
    case Fire(_, _, held, graphical) => EmitPossible(cfg, d.rec, held, d.handlers, graphical);
    case BusUpdate(graphical) => OneEvent(cfg, d.rec, R.Update(d.held, true, graphical));
    case NameAcquired(graphical) => OneEvent(cfg, d.rec, R.Update(d.held, false, graphical));
    case Elsewhere(world) => OneEvent(cfg, d.rec, R.Elsewhere(world));
    case _ =>
  }

  /** A run of the daemon is, for the reconciler, a run of updates and changes elsewhere. */
  lemma {:induction false} MovesAreEvents(cfg: Config, d: Daemon, moves: seq<Move>)
    requires Inv(cfg, d) && EnabledRun(cfg, d, moves)
    ensures Run(cfg, d, moves).rec == R.Run(cfg, d.rec, EventsOf(cfg, d, moves))
    ensures R.PossibleRun(cfg, d.rec, EventsOf(cfg, d, moves))
  {
    if moves != [] {
      var n := |moves| - 1;
      PrefixEnabled(cfg, d, moves, n);
      MovesAreEvents(cfg, d, moves[..n]);
      RunInv(cfg, d, moves[..n]);
      var now := Run(cfg, d, moves[..n]);
      MoveIsEvents(cfg, now, moves[n]);
      R.RunConcat(cfg, d.rec, EventsOf(cfg, d, moves[..n]), MoveEvents(now, moves[n]));
      R.PossibleConcat(cfg, d.rec, EventsOf(cfg, d, moves[..n]), MoveEvents(now, moves[n]));
    }
  }

  /** A known user's slice is as a recomputation from the snapshot leaves it: the memory always, and all properties if
      and only if the user is inactive or each weight is configured or was left unset by the events so far. */
  ghost predicate Recomputed(cfg: Config, world: R.World, events: seq<R.Event>, s: R.State, graphical: Graphical,
                             u: Uid)
  {
    u in s.known.graphical || u in s.known.all ==>
      var scratch := R.Scratch(cfg, s.known, graphical, SliceOf(u));
      && s.world(SliceOf(u)).memoryMin == scratch.memoryMin
      && s.world(SliceOf(u)).memoryLow == scratch.memoryLow
      && (s.world(SliceOf(u)) == scratch <==>
            u in s.known.graphical ==>
              forall io :: R.Configured(cfg, io) != WEIGHT_IGNORE || R.LeftUnset(world, events, u, io))
  }

  /** Logind as the moves have left it. */
  function LastLogind(first: Reading, moves: seq<Move>): Reading {
    if moves == [] then first
    else
      var m := moves[|moves| - 1];
      if m.LogindChanges? then m.reading else LastLogind(first, moves[..|moves| - 1])
  }

  /** The bus name was acquired at least once. */
  ghost predicate NameCame(moves: seq<Move>) { exists m :: m in moves && m.NameAcquired? }

  lemma {:induction false} RunByMoves(cfg: Config, d: Daemon, moves: seq<Move>)
    ensures
      var e := Run(cfg, d, moves);
      e.logind == LastLogind(d.logind, moves) && (e.handlers > 0 <==> d.handlers > 0 || NameCame(moves))
  {
    if moves != [] {
      var before, m := moves[..|moves| - 1], moves[|moves| - 1];
      RunByMoves(cfg, d, before);
      assert moves == before + [m];
      if m.NameAcquired? { assert m in moves; }
      if x :| x in before && x.NameAcquired? { assert x in moves; }
    }
  }

  /** What is stored is what the last collection read of logind as it is now: all of it where no read failed, and
      otherwise nobody who is not there. */
  ghost predicate Current(logind: Reading, lastRead: Reading, known: Snapshot) {
    && ReadOf(logind, lastRead) && Collected(lastRead, known)
    && (lastRead == logind && logind.seats.Some? && logind.uids.Some? ==>
          && multiset(known.all) == multiset(logind.uids.value)
          && Elements(known.graphical) == GraphicalUids(logind.seats.value))
    && forall u :: u in known.graphical ==> logind.seats.Some? && u in GraphicalUids(logind.seats.value)
  }

  /** Convergence. In every run from boot there is never more than one timer, and it is due 100 ms after the last
      notice; the ledger is safe after every call; and whenever it is quiet and the name was acquired, what the
      manager stored is current, every known user's slice is as recomputed from that, nobody else was last told
      anything but the inactive allocation, and user.slice was computed for that many users. */
  lemma QuietMeansConverged(cfg: Config, d0: Daemon, moves: seq<Move>, graphical: Graphical, u: Uid)
    requires Booted(d0) && EnabledRun(cfg, d0, moves)
    ensures
      var d := Run(cfg, d0, moves);
      && |d.debounce.timers| <= 1
      && (forall t :: t in d.debounce.timers ==> d.debounce.timers[t] == d.lastSeen + 100)
      && (Quiet(d) && NameCame(moves) ==>
            && Current(LastLogind(d0.logind, moves), d.lastRead, d.rec.known)
            && Recomputed(cfg, d0.rec.world, EventsOf(cfg, d0, moves), d.rec, graphical, u)
            && R.InactiveOutside(d.rec.log, d.rec.known)
            && (HoldsMemory(d.rec.log, u) ==> u in d.rec.known.graphical)
            && Budgeted(cfg, d.rec.log, |d.rec.known.graphical|))
      && AlwaysSafe(cfg, d.rec.log)
  {
    var d := Run(cfg, d0, moves);
    BootInv(cfg, d0);
    RunInv(cfg, d0, moves);
    RunByMoves(cfg, d0, moves);
    assert |d.debounce.timers| == |d.debounce.timers.Keys|;
    MovesAreEvents(cfg, d0, moves);
    R.IncrementalIsScratch(cfg, d0.rec.world, EventsOf(cfg, d0, moves), graphical, u);
    if Quiet(d) && NameCame(moves) {
      forall v | v in d.rec.known.graphical ensures d.logind.seats.Some? && v in GraphicalUids(d.logind.seats.value) {
        ReadLosesUsers(d.logind, d.lastRead, d.held, v);
      }
    }
  }

  /** The method on the bus forces: after it every graphical user's service has the allocation of today's answer. */
  lemma BusUpdateRefreshesServices(cfg: Config, d: Daemon, graphical: Graphical, u: Uid)
    requires Inv(cfg, d) && u in d.held.graphical
    ensures
      var p := Next(cfg, d, BusUpdate(graphical)).rec.world(ServiceOf(u));
      && p.memoryMin == (if graphical(u) then cfg.active.memoryMin else 0)
      && p.memoryLow == (if graphical(u) then cfg.active.memoryLow else 0)
  {
    var e := R.Update(d.held, true, graphical);
    assert Next(cfg, d, BusUpdate(graphical)).rec == R.After(cfg, d.rec, e);
    ForcedByFields(cfg, d.rec, e, u);
  }

  lemma ForcedByFields(cfg: Config, s: R.State, e: R.Event, u: Uid)
    requires R.Good(cfg, s) && R.Possible(s, e) && e.Update? && e.force && u in e.snapshot.graphical
    ensures
      var p := R.After(cfg, s, e).world(ServiceOf(u));
      && p.memoryMin == (if e.graphical(u) then cfg.active.memoryMin else 0)
      && p.memoryLow == (if e.graphical(u) then cfg.active.memoryLow else 0)
  {
    R.ForcedUpdateRefreshesServices(cfg, s, e, u);
  }

  // ---------------------------------------------------------------- progress

  predicate Undisturbed(m: Move) { m.Notice? || m.Clock? || m.Fire? }

  /** Nothing is to be done before the clock moves on. */
  predicate MayWait(d: Daemon) {
    !d.unseen && forall t :: t in d.debounce.timers ==> d.debounce.timers[t] > d.now
  }

  /** The daemon alone, in any order, but prompt: the clock does not overtake a notice or a due timer. */
  ghost predicate Alone(cfg: Config, d: Daemon, moves: seq<Move>) {
    && EnabledRun(cfg, d, moves)
    && (forall m :: m in moves ==> Undisturbed(m))
    && (forall k :: 0 <= k < |moves| && moves[k].Clock? ==> MayWait(Run(cfg, d, moves[..k])))
  }

  /** Milliseconds until the timer is due. */
  function Left(d: Daemon): nat {
    if d.debounce.timers == map[] || d.lastSeen + QUIET_MS <= d.now then 0 else d.lastSeen + QUIET_MS - d.now
  }

  /** At most so many more moves, and milliseconds, until it is quiet. */
  function MovesToGo(d: Daemon): nat {
    (if d.unseen then QUIET_MS + 2 else Left(d)) + (if d.debounce.timers == map[] then 0 else 1)
  }

  function TimeToGo(d: Daemon): nat { if d.unseen then QUIET_MS else Left(d) }

  lemma MoveOn(cfg: Config, d: Daemon, m: Move)
    requires Inv(cfg, d) && Enabled(d, m) && Undisturbed(m) && (m.Clock? ==> MayWait(d))
    ensures
      var e := Next(cfg, d, m);
      if Quiet(d) then Quiet(e)
      else MovesToGo(e) < MovesToGo(d) && e.now + TimeToGo(e) <= d.now + TimeToGo(d)
  {
    match m
    case Notice => RestartKeepsOneTimer(d.debounce, d.now);
    case Fire(source, _, _, _) => FiredLeavesNoTimer(d.debounce, source);
    case Clock =>
      if !Quiet(d) {
        var t :| t in d.debounce.timers;
        assert d.debounce.timers[t] == d.lastSeen + QUIET_MS;
      }
  }

  lemma PrefixAlone(cfg: Config, d: Daemon, moves: seq<Move>, n: nat)
    requires Alone(cfg, d, moves) && n <= |moves|
    ensures Alone(cfg, d, moves[..n])
  {
    PrefixEnabled(cfg, d, moves, n);
    forall k | 0 <= k < n && moves[..n][k].Clock? ensures MayWait(Run(cfg, d, moves[..n][..k])) {
      assert moves[..n][..k] == moves[..k];
    }
  }

  lemma {:induction false} AloneGoesOn(cfg: Config, d: Daemon, moves: seq<Move>)
    requires Inv(cfg, d) && Alone(cfg, d, moves)
    ensures
      var e := Run(cfg, d, moves);
      Quiet(e) || (|moves| + MovesToGo(e) <= MovesToGo(d) && e.now + TimeToGo(e) <= d.now + TimeToGo(d))
  {
    if moves != [] {
      var n := |moves| - 1;
      PrefixAlone(cfg, d, moves, n);
      AloneGoesOn(cfg, d, moves[..n]);
      RunInv(cfg, d, moves[..n]);
      assert moves[n] in moves;
      MoveOn(cfg, Run(cfg, d, moves[..n]), moves[n]);
    }
  }

  /** However the daemon goes on alone, it is quiet after 103 moves at the latest. */
  lemma GetsQuiet(cfg: Config, d: Daemon, moves: seq<Move>)
    requires Inv(cfg, d) && Alone(cfg, d, moves) && |moves| >= 103
    ensures Quiet(Run(cfg, d, moves))
  {
    AloneGoesOn(cfg, d, moves);
  }

  /** And as long as it is not, no more than 100 ms have passed. */
  lemma QuietWithin100ms(cfg: Config, d: Daemon, moves: seq<Move>)
    requires Inv(cfg, d) && Alone(cfg, d, moves)
    ensures Quiet(Run(cfg, d, moves)) || Run(cfg, d, moves).now <= d.now + 100
  {
    AloneGoesOn(cfg, d, moves);
  }

  /** It never gets stuck: there is always a move, and none but the clock's once it is quiet. Logind, the bus and the
      clock may interfere at any moment. */
  lemma NeverStuck(cfg: Config, d: Daemon, held: Snapshot, graphical: Graphical) returns (m: Move)
    requires Inv(cfg, d) && Collected(d.logind, held)
    ensures Enabled(d, m) && Undisturbed(m) && (m.Clock? ==> MayWait(d))
    ensures Quiet(d) ==> m == Clock
    ensures forall reading :: Enabled(d, LogindChanges(reading))
    ensures Enabled(d, Clock) && Enabled(d, BusUpdate(graphical)) && Enabled(d, NameAcquired(graphical))
  {
    if d.unseen {
      m := Notice;
    } else if t :| t in d.debounce.timers && d.debounce.timers[t] <= d.now {
      m := Fire(t, d.logind, held, graphical);
    } else {
      m := Clock;
    }
  }

  /** A read that fails altogether can be the last one: the manager then forgets everybody, while logind says what it
      said before, and no notice follows. */
  lemma FailedReadForgets(cfg: Config, d: Daemon, source: nat, graphical: Graphical)
    requires Inv(cfg, d) && !d.unseen && d.handlers > 0
    requires source in d.debounce.timers && d.debounce.timers[source] <= d.now
    ensures
      var fails := Fire(source, Reading(None, None), Snapshot([], []), graphical);
      var e := Next(cfg, d, fails);
      Enabled(d, fails) && Quiet(e) && e.logind == d.logind && e.rec.known == Snapshot([], [])
  {
    FiredLeavesNoTimer(d.debounce, source);
    FurtherHandlersAreSilent(cfg, d.rec, Snapshot([], []), d.handlers, graphical);
  }

  /** A failed read lasts: once it is quiet, the daemon alone changes nothing any more, until logind does. */
  lemma {:induction false} QuietLasts(cfg: Config, d: Daemon, moves: seq<Move>)
    requires Inv(cfg, d) && Quiet(d) && Alone(cfg, d, moves)
    ensures Quiet(Run(cfg, d, moves)) && Run(cfg, d, moves) == d.(now := Run(cfg, d, moves).now)
  {
    if moves != [] {
      var n := |moves| - 1;
      PrefixAlone(cfg, d, moves, n);
      QuietLasts(cfg, d, moves[..n]);
      assert moves[n] in moves;
      assert Enabled(Run(cfg, d, moves[..n]), moves[n]);
    }
  }
}
