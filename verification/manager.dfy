/** The manager object: its stored arrays, the calls it issues, and the count of what it still waits for. */
module Manager {
  import opened Options
  import opened Uids
  import opened Allocation
  import opened ReconcileSafety
  import opened SdLogin
  import ManagerConfig
  import Life = Lifecycle

  /** The bus side of the count: what GDBus still owes, and how far the connection got. */
  datatype Bus = Bus(inFlight: nat, lost: nat, nameNotice: bool, objNotice: bool, acquired: bool, stopped: bool)

  /** n more requests: answered later if there is a connection, lost otherwise. */
  function Issued(b: Bus, connected: bool, n: nat): Bus {
    if connected then b.(inFlight := b.inFlight + n) else b.(lost := b.lost + n)
  }

  /** One more element of an array, walked with a filter. */
  lemma CallsNext(cfg: Config, s: seq<Uid>, i: nat, drop: set<Uid>, active: bool, graphical: Graphical)
    requires i < |s|
    ensures AllUserCalls(cfg, Without(s[..i + 1], drop), active, graphical)
            == AllUserCalls(cfg, Without(s[..i], drop), active, graphical)
               + if s[i] in drop then [] else UserCalls(cfg, s[i], active, graphical)
  {
    assert s[..i + 1][..i] == s[..i];
    var before := Without(s[..i], drop);
    if s[i] in drop {
      assert before + [] == before;
    } else {
      assert (before + [s[i]])[..|before|] == before;
    }
  }

  lemma IssuedNext(cfg: Config, log: seq<Call>, s: seq<Uid>, i: nat, skip: seq<Uid>, skip2: seq<Uid>, active: bool,
                   graphical: Graphical)
    requires i < |s|
    ensures Outside(cfg, log, s[..i], skip, skip2, active, graphical)
            + (if s[i] in skip || s[i] in skip2 then [] else UserCalls(cfg, s[i], active, graphical))
            == Outside(cfg, log, s[..i + 1], skip, skip2, active, graphical)
  {
    var drop := Elements(skip) + Elements(skip2);
    CallsNext(cfg, s, i, drop, active, graphical);
    Associate(log, AllUserCalls(cfg, Without(s[..i], drop), active, graphical),
              if s[i] in drop then [] else UserCalls(cfg, s[i], active, graphical));
  }

  /** A ledger after the calls for every user outside two arrays. */
  function Outside(cfg: Config, log: seq<Call>, uids: seq<Uid>, skip: seq<Uid>, skip2: seq<Uid>, active: bool,
                   graphical: Graphical): seq<Call>
  {
    log + AllUserCalls(cfg, Without(uids, Elements(skip) + Elements(skip2)), active, graphical)
  }

  lemma Associate(p: seq<Call>, q: seq<Call>, r: seq<Call>)
    ensures p + q + r == p + (q + r)
  {
  }

  /** A ledger fits a snapshot: user.slice was safe after every call so far, and covers the snapshot's graphical
      users. */
  ghost predicate InStep(cfg: Config, log: seq<Call>, known: Snapshot) {
    Increasing(known.graphical) && Settled(cfg, log, Elements(known.graphical), |known.graphical|)
  }

  lemma UpdateInStep(cfg: Config, log: seq<Call>, old_: Snapshot, new_: Snapshot, force: bool, graphical: Graphical)
    requires InStep(cfg, log, old_) && Increasing(new_.graphical)
    ensures InStep(cfg, log + UpdateCalls(cfg, old_, new_, force, graphical), new_)
  {
    UpdateSafe(cfg, log, old_, new_, force, graphical);
  }

  /** A forced update tells every graphical user's units. */
  lemma ForcedTells(cfg: Config, log: seq<Call>, was: Snapshot, now: Snapshot, graphical: Graphical, u: Uid)
    requires u in now.graphical
    ensures
      var after := log + UpdateCalls(cfg, was, now, true, graphical);
      && Told(after, SliceOf(u)) == Some(cfg.active)
      && Told(after, ServiceOf(u)) == Some(if graphical(u) then cfg.active else INACTIVE)
  {
    var calls := UpdateCalls(cfg, was, now, true, graphical);
    UpdateTold(cfg, was, now, true, graphical, SliceOf(u));
    UpdateTold(cfg, was, now, true, graphical, ServiceOf(u));
    ToldConcat(log, calls, SliceOf(u));
    ToldConcat(log, calls, ServiceOf(u));
  }

  /** A stop ends in step exactly if everyone protected was listed. */
  lemma StopInStep(cfg: Config, log: seq<Call>, old_: Snapshot, graphical: Graphical)
    requires InStep(cfg, log, old_)
    ensures InStep(cfg, log + StopCalls(cfg, old_, graphical), Snapshot([], []))
      <==> Protected(log) <= Elements(old_.all)
  {
    StopSafe(cfg, log, old_, graphical);
    assert Elements([]) == {};
  }

  lemma NothingInStep(cfg: Config)
    ensures InStep(cfg, [], Snapshot([], []))
  {
    var log: seq<Call> := [];
    assert Protected(log) == {};
    assert log[..0] == log;
    assert Elements([]) == {};
  }

  lemma EmptySkip(s: seq<Uid>)
    ensures Elements(s) + Elements([]) == Elements(s)
  {
  }

  lemma {:induction false} WithoutNothing(s: seq<Uid>)
    ensures Without(s, {}) == s
  {
    if s != [] {
      WithoutNothing(s[..|s| - 1]);
      assert s == s[..|s| - 1] + [s[|s| - 1]];
    }
  }

  lemma IncreasingIsOrdered(s: seq<Uid>)
    requires Increasing(s)
    ensures NonDecreasing(s)
  {
  }

  class RManager {
    const cfg: Config
    var graphicalUsers: UidArray
    var allUsers: UidArray
    var pendingCalls: int
    var connection: bool
    var busName: bool
    var dbusObj: bool
    var login: RSdLogin?

    var bus: Bus

    /** Every request so far. */
    ghost var log: seq<Call>

    function Known(): Snapshot reads this, graphicalUsers, allUsers {
      Snapshot(graphicalUsers.elems, allUsers.elems)
    }

    /** The count and what is outstanding, as the lifecycle sees them. */
    function LifeNow(): Life.Life reads this {
      Life.Life(pendingCalls, bus.inFlight, bus.lost, bus.nameNotice, bus.objNotice,
                connection, busName, dbusObj, bus.acquired, bus.stopped)
    }

    /** Since a moment with this bus side and this count, only requests were made, and all were counted. */
    ghost predicate Grew(b: Bus, pending: int) reads this {
      pendingCalls >= pending && bus == Issued(b, connection, pendingCalls - pending)
    }

    /** The stored arrays are the manager's own, sorted copies. */
    ghost predicate Valid(base: int) reads this, graphicalUsers, allUsers, login {
      && graphicalUsers != allUsers
      && (login != null ==>
            {graphicalUsers, allUsers} !! {login.graphicalUsers, login.allUsers} && login.Valid())
      && InWindow(base, graphicalUsers.elems) && NonDecreasing(graphicalUsers.elems)
      && InWindow(base, allUsers.elems) && NonDecreasing(allUsers.elems)
    }

    /** The ledger fits what is stored. */
    ghost predicate Covered() reads this, graphicalUsers, allUsers {
      InStep(cfg, log, Known())
    }

    /** The configuration is read once, before anything else. */
    constructor (file: Option<ManagerConfig.Keys>, ram: U64, ghost base: int)
      ensures Valid(base) && Covered() && cfg == ManagerConfig.ReadConfig(file, ram) && LifeNow() == Life.BORN
      ensures fresh(graphicalUsers) && fresh(allUsers) && login == null
      ensures Known() == Snapshot([], []) && log == []
    {
      var config := ManagerConfig.ReadConfigFile(file, ram);
      cfg := config;
      graphicalUsers := new UidArray([]);
      allUsers := new UidArray([]);
      pendingCalls, connection, busName, dbusObj, login := 0, false, false, false, null;
      bus := Bus(0, 0, false, false, false, false);
      log := [];
      new;
      NothingInStep(config);
    }

    // ------------------------------------------------------- requests

    method SetUnitResources(unit: Unit, alloc: RAllocation, ghost users: nat)
      modifies this`log, this`pendingCalls, this`bus
      ensures pendingCalls == old(pendingCalls) + 1 && bus == Issued(old(bus), connection, 1)
      ensures log == old(log) + [Call(unit, alloc, users)]
    {
      log := log + [Call(unit, alloc, users)];
      // Without a connection GDBus rejects the call and never runs the callback.
      bus := Issued(bus, connection, 1);
      pendingCalls := pendingCalls + 1;
    }

    method SetUnitResourcesCb()
      requires Life.Possible(LifeNow(), Life.Reply)
      modifies this`pendingCalls, this`bus
      ensures LifeNow() == Life.After(old(LifeNow()), Life.Reply)
    {
      bus := bus.(inFlight := bus.inFlight - 1);
      pendingCalls := pendingCalls - 1;
    }

    method SetUserSliceResources(activeUsers: nat)
      modifies this`log, this`pendingCalls, this`bus
      ensures pendingCalls == old(pendingCalls) + 1 && bus == Issued(old(bus), connection, 1)
      ensures log == old(log) + [UserSliceCall(cfg, activeUsers)]
    {
      var memoryMin := Min((activeUsers * cfg.active.memoryMin) % TWO64, cfg.maxMin);
      var memoryLow := Min((activeUsers * cfg.active.memoryLow) % TWO64, cfg.maxLow);
      SetUnitResources(UserSlice, RAllocation(WEIGHT_IGNORE, WEIGHT_IGNORE, memoryMin, memoryLow), activeUsers);
    }

    method SetUserResources(uid: Uid, active: bool, graphical: Graphical)
      modifies this`log, this`pendingCalls, this`bus
      ensures pendingCalls == old(pendingCalls) + 2 && bus == Issued(old(bus), connection, 2)
      ensures log == old(log) + UserCalls(cfg, uid, active, graphical)
    {
      if active {
        SetUnitResources(SliceOf(uid), cfg.active, 0);
        if graphical(uid) {
          SetUnitResources(ServiceOf(uid), cfg.active, 0);
        } else {
          SetUnitResources(ServiceOf(uid), INACTIVE, 0);
        }
      } else {
        SetUnitResources(SliceOf(uid), INACTIVE, 0);
        SetUnitResources(ServiceOf(uid), INACTIVE, 0);
      }
    }

    // -------------------------------------------------------- updates

    /** Sets up one user unless a search finds it in one of two sorted arrays. */
    method SetUserOutside(uid: Uid, active: bool, skip: seq<Uid>, skip2: seq<Uid>, graphical: Graphical,
                          ghost base: int)
      requires base <= uid < base + TWO31 && InWindow(base, skip) && InWindow(base, skip2)
      requires NonDecreasing(skip) && NonDecreasing(skip2)
      modifies this`log, this`pendingCalls, this`bus
      ensures log == old(log) + if uid in skip || uid in skip2 then [] else UserCalls(cfg, uid, active, graphical)
      ensures Grew(old(bus), old(pendingCalls))
    {
      SearchDecides(base, skip, uid);
      SearchDecides(base, skip2, uid);
      if BinarySearch(skip, uid) { return; }
      if !BinarySearch(skip2, uid) {
        SetUserResources(uid, active, graphical);
      }
    }

    /** Walks an array and sets up every user outside two sorted arrays. */
    method SetUsersOutside(uids: seq<Uid>, active: bool, skip: seq<Uid>, skip2: seq<Uid>, graphical: Graphical,
                           ghost base: int)
      requires InWindow(base, uids) && InWindow(base, skip) && InWindow(base, skip2)
      requires NonDecreasing(skip) && NonDecreasing(skip2)
      modifies this`log, this`pendingCalls, this`bus
      ensures log == old(log) + AllUserCalls(cfg, Without(uids, Elements(skip) + Elements(skip2)), active, graphical)
      ensures Grew(old(bus), old(pendingCalls))
    {
      for i := 0 to |uids|
        invariant log == Outside(cfg, old(log), uids[..i], skip, skip2, active, graphical)
        invariant Grew(old(bus), old(pendingCalls))
      {
        IssuedNext(cfg, old(log), uids, i, skip, skip2, active, graphical);
        SetUserOutside(uids[i], active, skip, skip2, graphical, base);
      }
      assert uids[..|uids|] == uids;
    }

    method RaiseUserSlice(gui: seq<Uid>)
      modifies this`log, this`pendingCalls, this`bus
      ensures Grew(old(bus), old(pendingCalls)) && log == old(log) + RaiseCalls(cfg, graphicalUsers.elems, gui)
    {
      if |gui| > |graphicalUsers.elems| { SetUserSliceResources(|gui|); }
    }

    method RevokeDeparted(gui: seq<Uid>, graphical: Graphical, ghost base: int)
      requires Valid(base) && InWindow(base, gui) && NonDecreasing(gui)
      modifies this`log, this`pendingCalls, this`bus
      ensures Grew(old(bus), old(pendingCalls))
      ensures log == old(log) + AllUserCalls(cfg, Departed(graphicalUsers.elems, gui), false, graphical)
    {
      EmptySkip(gui);
      SetUsersOutside(graphicalUsers.elems, false, gui, [], graphical, base);
    }

    method RevokeUnknown(gui: seq<Uid>, all: seq<Uid>, graphical: Graphical, ghost base: int)
      requires Valid(base) && InWindow(base, gui) && NonDecreasing(gui) && InWindow(base, all)
      modifies this`log, this`pendingCalls, this`bus
      ensures Grew(old(bus), old(pendingCalls))
      ensures log == old(log) + AllUserCalls(cfg, Unknown(allUsers.elems, gui, all), false, graphical)
    {
      SetUsersOutside(all, false, gui, allUsers.elems, graphical, base);
    }

    method AssignActive(gui: seq<Uid>, forceActive: bool, graphical: Graphical, ghost base: int)
      requires Valid(base) && InWindow(base, gui)
      modifies this`log, this`pendingCalls, this`bus
      ensures Grew(old(bus), old(pendingCalls))
      ensures log == old(log) + AllUserCalls(cfg, Promoted(graphicalUsers.elems, gui, forceActive), true, graphical)
    {
      var skip := if forceActive then [] else graphicalUsers.elems;
      assert Without(gui, Elements(skip) + Elements([])) == Promoted(graphicalUsers.elems, gui, forceActive) by {
        EmptySkip(skip);
        WithoutNothing(gui);
        assert Elements([]) == {};
      }
      SetUsersOutside(gui, true, skip, [], graphical, base);
    }

    method LowerUserSlice(gui: seq<Uid>)
      modifies this`log, this`pendingCalls, this`bus
      ensures Grew(old(bus), old(pendingCalls)) && log == old(log) + LowerCalls(cfg, graphicalUsers.elems, gui)
    {
      if |gui| < |graphicalUsers.elems| { SetUserSliceResources(|gui|); }
    }

    /** First raise `user.slice`, then revoke those no longer active and those not known before. */
    method RevokeUsers(gui: seq<Uid>, all: seq<Uid>, graphical: Graphical, ghost base: int)
      requires Valid(base) && InWindow(base, gui) && NonDecreasing(gui) && InWindow(base, all)
      modifies this`log, this`pendingCalls, this`bus
      ensures Grew(old(bus), old(pendingCalls))
      ensures
        var was, now := Known(), Snapshot(gui, all);
        log == old(log) + RaiseCalls(cfg, was.graphical, gui) + DepartedCalls(cfg, was, now, graphical)
               + UnknownCalls(cfg, was, now, graphical)
    {
      RaiseUserSlice(gui);
      RevokeDeparted(gui, graphical, base);
      RevokeUnknown(gui, all, graphical, base);
    }

    /** Then assign resources, and lower `user.slice` last. */
    method GrantUsers(gui: seq<Uid>, all: seq<Uid>, forceActive: bool, graphical: Graphical, ghost base: int)
      requires Valid(base) && InWindow(base, gui)
      modifies this`log, this`pendingCalls, this`bus
      ensures Grew(old(bus), old(pendingCalls))
      ensures
        var was, now := Known(), Snapshot(gui, all);
        log == old(log) + PromotedCalls(cfg, was, now, forceActive, graphical) + LowerCalls(cfg, was.graphical, gui)
    {
      AssignActive(gui, forceActive, graphical, base);
      LowerUserSlice(gui);
    }

    /** The calls of an update. */
    method ReconcileUsers(gui: seq<Uid>, all: seq<Uid>, forceActive: bool, graphical: Graphical, ghost base: int)
      requires Covered() && Increasing(gui)
      requires Valid(base) && InWindow(base, gui) && NonDecreasing(gui) && InWindow(base, all)
      modifies this`log, this`pendingCalls, this`bus
      ensures Grew(old(bus), old(pendingCalls))
      ensures log == old(log) + UpdateCalls(cfg, Known(), Snapshot(gui, all), forceActive, graphical)
      ensures InStep(cfg, log, Snapshot(gui, all))
    {
      UpdateInStep(cfg, log, Known(), Snapshot(gui, all), forceActive, graphical);
      RevokeUsers(gui, all, graphical, base);
      GrantUsers(gui, all, forceActive, graphical, base);
      ghost var was, now := Known(), Snapshot(gui, all);
      AppendFive(old(log), RaiseCalls(cfg, was.graphical, gui), DepartedCalls(cfg, was, now, graphical),
                 UnknownCalls(cfg, was, now, graphical), PromotedCalls(cfg, was, now, forceActive, graphical),
                 LowerCalls(cfg, was.graphical, gui));
    }

    /** The arrays stored after an update are new ones, never those of the login object. */
    method StoreCopies(gui: UidArray, all: UidArray, ghost held: Snapshot, ghost base: int)
      requires Valid(base) && held == Snapshot(gui.elems, all.elems)
      requires InWindow(base, gui.elems) && InWindow(base, all.elems) && NonDecreasing(all.elems)
      requires InStep(cfg, log, held)
      modifies this`graphicalUsers, this`allUsers
      ensures Covered()
      ensures Valid(base) && Known() == held
      ensures fresh(graphicalUsers) && fresh(allUsers)
    {
      IncreasingIsOrdered(gui.elems);
      graphicalUsers := new UidArray(gui.elems);
      allUsers := new UidArray(all.elems);
    }

    method TellSystemd(now: Snapshot, forceActive: bool, graphical: Graphical, ghost base: int)
      requires Valid(base) && Covered()
      requires Increasing(now.graphical) && InWindow(base, now.graphical) && InWindow(base, now.all)
      modifies this`log, this`pendingCalls, this`bus
      ensures Valid(base) && Grew(old(bus), old(pendingCalls))
      ensures log == old(log) + UpdateCalls(cfg, Known(), now, forceActive, graphical)
      ensures InStep(cfg, log, now)
    {
      IncreasingIsOrdered(now.graphical);
      ReconcileUsers(now.graphical, now.all, forceActive, graphical, base);
    }

    method UpdateAgainst(gui: UidArray, all: UidArray, forceActive: bool, graphical: Graphical, ghost base: int)
      requires Valid(base) && Covered()
      requires InWindow(base, gui.elems) && Increasing(gui.elems)
      requires InWindow(base, all.elems) && NonDecreasing(all.elems)
      modifies this`graphicalUsers, this`allUsers, this`log, this`pendingCalls, this`bus
      ensures Valid(base) && Covered() && Grew(old(bus), old(pendingCalls))
      ensures log == old(log) + UpdateCalls(cfg, old(Known()), Snapshot(gui.elems, all.elems), forceActive, graphical)
      ensures Known() == Snapshot(gui.elems, all.elems)
      ensures fresh(graphicalUsers) && fresh(allUsers)
    {
      var now := Snapshot(gui.elems, all.elems);
      TellSystemd(now, forceActive, graphical, base);
      StoreCopies(gui, all, now, base);
    }

    method UpdateFrom(from: RSdLogin, forceActive: bool, graphical: Graphical, ghost base: int)
      requires login == from && Valid(base) && Covered()
      requires InWindow(base, from.graphicalUsers.elems) && Increasing(from.graphicalUsers.elems)
      requires InWindow(base, from.allUsers.elems) && NonDecreasing(from.allUsers.elems)
      modifies this`graphicalUsers, this`allUsers, this`log, this`pendingCalls, this`bus
      ensures Valid(base) && Covered() && Grew(old(bus), old(pendingCalls))
      ensures log == old(log) + UpdateCalls(cfg, old(Known()), from.Held(), forceActive, graphical)
      ensures Known() == from.Held()
      ensures fresh(graphicalUsers) && fresh(allUsers)
    {
      var all, gui := from.GetUsers();
      UpdateAgainst(gui, all, forceActive, graphical, base);
    }

    /** Where nothing but requests were made, that is the lifecycle's event of so many requests. */
    twostate lemma GrewByRequests()
      requires Grew(old(bus), old(pendingCalls))
      requires connection == old(connection) && busName == old(busName) && dbusObj == old(dbusObj)
      ensures LifeNow() == Life.After(old(LifeNow()), Life.Requests(pendingCalls - old(pendingCalls)))
    {
    }

    /** The incremental update, run on the login object's live arrays; the arrays stored afterwards are copies. */
    method UpdateUserAllocations(forceActive: bool, graphical: Graphical, ghost base: int)
      requires login != null && Valid(base) && Covered()
      requires InWindow(base, login.graphicalUsers.elems) && Increasing(login.graphicalUsers.elems)
      requires InWindow(base, login.allUsers.elems) && NonDecreasing(login.allUsers.elems)
      modifies this`graphicalUsers, this`allUsers, this`log, this`pendingCalls, this`bus
      ensures Valid(base) && Covered() && pendingCalls >= old(pendingCalls)
      ensures LifeNow() == Life.After(old(LifeNow()), Life.Requests(pendingCalls - old(pendingCalls)))
      ensures log == old(log) + UpdateCalls(cfg, old(Known()), login.Held(), forceActive, graphical)
      ensures Known() == login.Held()
      ensures fresh(graphicalUsers) && fresh(allUsers)
    {
      UpdateFrom(login, forceActive, graphical, base);
      GrewByRequests();
    }

    /** The method on the bus: the same update, but forced. */
    method HandleDBusMethodCall(graphical: Graphical, ghost base: int)
      requires login != null && Valid(base) && Covered()
      requires InWindow(base, login.graphicalUsers.elems) && Increasing(login.graphicalUsers.elems)
      requires InWindow(base, login.allUsers.elems) && NonDecreasing(login.allUsers.elems)
      modifies this`graphicalUsers, this`allUsers, this`log, this`pendingCalls, this`bus
      ensures Valid(base) && Covered() && Known() == login.Held()
      ensures log == old(log) + UpdateCalls(cfg, old(Known()), login.Held(), true, graphical)
      ensures forall u :: u in login.graphicalUsers.elems ==>
                && Told(log, SliceOf(u)) == Some(cfg.active)
                && Told(log, ServiceOf(u)) == Some(if graphical(u) then cfg.active else INACTIVE)
    {
      ghost var was, now := Known(), login.Held();
      UpdateUserAllocations(true, graphical, base);
      forall u | u in now.graphical
        ensures Told(log, SliceOf(u)) == Some(cfg.active)
        ensures Told(log, ServiceOf(u)) == Some(if graphical(u) then cfg.active else INACTIVE)
      {
        ForcedTells(cfg, old(log), was, now, graphical, u);
      }
    }

    // ------------------------------------------- start, stop and flush

    method Start(login: RSdLogin)
      requires Life.Possible(LifeNow(), Life.Start)
      modifies this`login, this`pendingCalls, this`busName, this`bus
      ensures LifeNow() == Life.After(old(LifeNow()), Life.Start)
      ensures this.login == login
    {
      this.login := login;
      pendingCalls := pendingCalls + 1;
      busName, bus := true, bus.(nameNotice := true);
    }

    /** Registering the object may fail; then the name is given up and the main loop told to quit. */
    method BusAcquired(registered: bool) returns (quit: bool)
      requires Life.Possible(LifeNow(), Life.BusAcquired(registered))
      modifies this`connection, this`pendingCalls, this`dbusObj, this`bus, this`busName
      ensures LifeNow() == Life.After(old(LifeNow()), Life.BusAcquired(registered))
      ensures quit == !registered
    {
      connection := true;
      pendingCalls := pendingCalls + 1;
      bus := bus.(acquired := true);
      dbusObj := registered || dbusObj;
      if registered { bus := bus.(objNotice := true); }
      if !registered {
        pendingCalls := pendingCalls - 1;
        busName := false;
      }
      return !registered;
    }

    /** The destroy notification of the name or of the object. */
    method DecreasePendingCalls(ofName: bool)
      requires Life.Possible(LifeNow(), if ofName then Life.NameNotice else Life.ObjectNotice)
      modifies this`pendingCalls, this`bus
      ensures LifeNow() == Life.After(old(LifeNow()), if ofName then Life.NameNotice else Life.ObjectNotice)
    {
      bus := if ofName then bus.(nameNotice := false) else bus.(objNotice := false);
      pendingCalls := pendingCalls - 1;
    }

    method RevokeEveryone(graphical: Graphical)
      modifies this`log, this`pendingCalls, this`bus
      ensures Grew(old(bus), old(pendingCalls))
      ensures log == old(log) + AllUserCalls(cfg, allUsers.elems, false, graphical)
    {
      var users := allUsers.elems;
      ghost var issued: seq<Call> := [];
      for i := 0 to |users|
        invariant log == old(log) + issued
        invariant issued == AllUserCalls(cfg, users[..i], false, graphical)
        invariant Grew(old(bus), old(pendingCalls))
      {
        SetUserResources(users[i], false, graphical);
        ghost var more := UserCalls(cfg, users[i], false, graphical);
        assert issued + more == AllUserCalls(cfg, users[..i + 1], false, graphical) by {
          assert users[..i + 1][..i] == users[..i];
        }
        assert log == old(log) + (issued + more) by { Associate(old(log), issued, more); }
        issued := issued + more;
      }
      assert users[..|users|] == users;
    }

    /** Everyone revoked, user.slice for nobody. */
    method WithdrawAll(graphical: Graphical)
      modifies this`log, this`pendingCalls, this`bus
      ensures Grew(old(bus), old(pendingCalls)) && pendingCalls > old(pendingCalls)
      ensures log == old(log) + StopCalls(cfg, Known(), graphical)
    {
      RevokeEveryone(graphical);
      SetUserSliceResources(0);
      assert log == old(log) + StopCalls(cfg, Known(), graphical) by {
        Associate(old(log), AllUserCalls(cfg, Known().all, false, graphical), [UserSliceCall(cfg, 0)]);
      }
    }

    method GiveUpBus()
      modifies this`dbusObj, this`busName, this`connection, this`bus
      ensures LifeNow() == old(LifeNow()).(stopped := true, connection := false, busName := false, dbusObj := false)
    {
      if dbusObj { dbusObj := false; }
      busName := false;
      connection := false;
      bus := bus.(stopped := true);
    }

    method ForgetUsers(ghost base: int)
      requires Valid(base)
      modifies this`login, graphicalUsers, allUsers
      ensures Valid(base) && login == null && Known() == Snapshot([], [])
    {
      graphicalUsers.elems := [];
      allUsers.elems := [];
      login := null;
    }

    method Stop(graphical: Graphical, ghost base: int)
      requires Valid(base)
      modifies this`login, this`log, this`pendingCalls, this`bus
      modifies this`dbusObj, this`busName, this`connection, graphicalUsers, allUsers
      ensures Valid(base) && login == null
      ensures log == old(log) + StopCalls(cfg, old(Known()), graphical)
      ensures pendingCalls > old(pendingCalls)
      ensures LifeNow() == Life.After(old(LifeNow()), Life.Stop(pendingCalls - old(pendingCalls)))
      ensures Known() == Snapshot([], [])
    {
      WithdrawAll(graphical);
      ForgetUsers(base);
      GiveUpBus();
    }

    /** Waits until nothing is pending. Each turn of the main loop delivers one of the outstanding notifications,
        whichever comes; with none to come the turn blocks and the program never gets any further. That happens
        exactly if a request was lost. */
    method Flush() returns (ended: bool)
      requires Life.Accounted(LifeNow()) && !busName && !dbusObj
      modifies this`pendingCalls, this`bus
      ensures ended <==> old(bus.lost) == 0
      ensures pendingCalls == old(bus.lost) && bus.inFlight == 0 && !bus.nameNotice && !bus.objNotice
    {
      while pendingCalls > 0
        invariant Life.Accounted(LifeNow()) && bus.lost == old(bus.lost)
        decreases pendingCalls
      {
        ghost var before := LifeNow();
        if {
          case bus.inFlight > 0 => SetUnitResourcesCb(); Life.DeliveryStep(before, Life.Reply);
          case bus.nameNotice => DecreasePendingCalls(true); Life.DeliveryStep(before, Life.NameNotice);
          case bus.objNotice => DecreasePendingCalls(false); Life.DeliveryStep(before, Life.ObjectNotice);
          case bus.inFlight == 0 && !bus.nameNotice && !bus.objNotice => return false;
        }
      }
      return true;
    }
  }

  lemma CollectedIsSorted(held: Snapshot, r: Reading)
    requires Collected(r, held)
    ensures Increasing(held.graphical) && NonDecreasing(held.graphical) && NonDecreasing(held.all)
  {
  }

  /** Quiet after a change: the login object refills its arrays in place and the manager's handler runs. Since the
      stored arrays are copies, the update is told the difference to what was stored before. */
  method Refresh(manager: RManager, login: RSdLogin, reading: Reading, graphical: Graphical, ghost base: int)
    requires manager.Valid(base) && manager.Covered() && manager.login == login && UidsInWindow(base, reading)
    modifies login`debounce, login.graphicalUsers, login.allUsers
    modifies manager`graphicalUsers, manager`allUsers, manager`log, manager`pendingCalls, manager`bus
    ensures manager.Valid(base) && manager.Covered() && Collected(reading, manager.Known())
    ensures manager.log ==
            old(manager.log) + UpdateCalls(manager.cfg, old(manager.Known()), manager.Known(), false, graphical)
  {
    login.LogindQuiet(reading, base);
    CollectedIsSorted(login.Held(), reading);
    manager.UpdateUserAllocations(false, graphical, base);
  }

  /** The end of the daemon: stop and flush leave nothing pending, as finalize asserts, if and only if the connection
      was there; otherwise they do not end. The ledger ends safe, with nobody protected, exactly if everyone protected
      is on the stored list of all users. */
  method Quit(manager: RManager, graphical: Graphical, ghost base: int) returns (ended: bool)
    requires manager.Valid(base) && manager.Covered()
    requires Life.Accounted(manager.LifeNow()) && !manager.bus.stopped
    modifies manager, manager.graphicalUsers, manager.allUsers
    ensures ended <==> old(manager.connection)
    ensures ended <==> manager.pendingCalls == 0
    ensures manager.log == old(manager.log) + StopCalls(manager.cfg, old(manager.Known()), graphical)
    ensures InStep(manager.cfg, manager.log, Snapshot([], []))
      <==> Protected(old(manager.log)) <= Elements(old(manager.allUsers.elems))
  {
    ghost var before := manager.LifeNow();
    StopInStep(manager.cfg, manager.log, manager.Known(), graphical);
    manager.Stop(graphical, base);
    Life.StepAccounted(before, Life.Stop(manager.pendingCalls - before.pending));
    ended := manager.Flush();
  }
}
