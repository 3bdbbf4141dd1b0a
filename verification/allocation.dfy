/** What one update tells systemd, as a value: the calls of a diff between two snapshots, and what a
    ledger of calls says about each unit. */
module Allocation {
  import opened Options
  import opened Uids

  const TWO64: int := 0x1_0000_0000_0000_0000
  type U64 = x: int | 0 <= x < 0x1_0000_0000_0000_0000

  /** The weight that stands for "do not set": G_MININT. */
  const WEIGHT_IGNORE: int := -0x8000_0000

  datatype RAllocation = RAllocation(cpuWeight: int, ioWeight: int, memoryMin: U64, memoryLow: U64)

  /** `inactive_user`: neutral weights, no memory (the fields are zero-initialised and never configured). */
  const INACTIVE := RAllocation(100, 100, 0, 0)

  datatype Config = Config(active: RAllocation, maxMin: U64, maxLow: U64)

  /** user.slice, user-N.slice and user@N.service. */
  datatype Unit = UserSlice | SliceOf(uid: Uid) | ServiceOf(uid: Uid)

  /** One SetUnitProperties request. For user.slice, `users` is the number of active users it was computed for; it is
      not sent, and 0 for other units. */
  datatype Call = Call(unit: Unit, alloc: RAllocation, users: nat)

  /** Answers of `user_has_systemd_graphical` during one update. */
  type Graphical = Uid -> bool

  function Min(a: U64, b: U64): U64 { if a < b then a else b }

  /** The product wraps at 64 bits before it is capped. */
  function UserSliceAlloc(cfg: Config, activeUsers: nat): RAllocation {
    RAllocation(WEIGHT_IGNORE, WEIGHT_IGNORE,
                Min((activeUsers * cfg.active.memoryMin) % TWO64, cfg.maxMin),
                Min((activeUsers * cfg.active.memoryLow) % TWO64, cfg.maxLow))
  }

  function UserSliceCall(cfg: Config, activeUsers: nat): Call {
    Call(UserSlice, UserSliceAlloc(cfg, activeUsers), activeUsers)
  }

  /** A request for a unit of one user. */
  function UserCall(unit: Unit, alloc: RAllocation): Call { Call(unit, alloc, 0) }

  function UserCalls(cfg: Config, uid: Uid, active: bool, graphical: Graphical): seq<Call> {
    if active then
      [UserCall(SliceOf(uid), cfg.active), UserCall(ServiceOf(uid), if graphical(uid) then cfg.active else INACTIVE)]
    else
      [UserCall(SliceOf(uid), INACTIVE), UserCall(ServiceOf(uid), INACTIVE)]
  }

  function AllUserCalls(cfg: Config, uids: seq<Uid>, active: bool, graphical: Graphical): seq<Call> {
    if uids == [] then []
    else AllUserCalls(cfg, uids[..|uids| - 1], active, graphical) + UserCalls(cfg, uids[|uids| - 1], active, graphical)
  }

  /** The elements of `s` outside `drop`, in order. */
  function Without(s: seq<Uid>, drop: set<Uid>): seq<Uid> {
    if s == [] then []
    else Without(s[..|s| - 1], drop) + (if s[|s| - 1] in drop then [] else [s[|s| - 1]])
  }

  /** The users an update touches, given the stored arrays g, a and the new ones g', a'. */
  function Departed(g: seq<Uid>, g': seq<Uid>): seq<Uid> { Without(g, Elements(g')) }

  function Unknown(a: seq<Uid>, g': seq<Uid>, a': seq<Uid>): seq<Uid> {
    Without(a', Elements(g') + Elements(a))
  }

  function Promoted(g: seq<Uid>, g': seq<Uid>, force: bool): seq<Uid> {
    if force then g' else Without(g', Elements(g))
  }

  function RaiseCalls(cfg: Config, g: seq<Uid>, g': seq<Uid>): seq<Call> {
    if |g'| > |g| then [UserSliceCall(cfg, |g'|)] else []
  }

  function LowerCalls(cfg: Config, g: seq<Uid>, g': seq<Uid>): seq<Call> {
    if |g'| < |g| then [UserSliceCall(cfg, |g'|)] else []
  }

  datatype Snapshot = Snapshot(graphical: seq<Uid>, all: seq<Uid>)

  /** Every call of one update, in the order in which it is issued. */
  function UpdateCalls(cfg: Config, old_: Snapshot, new_: Snapshot, force: bool, graphical: Graphical): seq<Call> {
    var g, g' := old_.graphical, new_.graphical;
    RaiseCalls(cfg, g, g')
    + DepartedCalls(cfg, old_, new_, graphical)
    + UnknownCalls(cfg, old_, new_, graphical)
    + PromotedCalls(cfg, old_, new_, force, graphical)
    + LowerCalls(cfg, g, g')
  }

  /** Every call of a stop. */
  function StopCalls(cfg: Config, old_: Snapshot, graphical: Graphical): seq<Call> {
    AllUserCalls(cfg, old_.all, false, graphical) + [UserSliceCall(cfg, 0)]
  }

  // ------------------------------------------------------------------ ledger

  /** What the log last told a unit. */
  function Told(log: seq<Call>, unit: Unit): Option<RAllocation> {
    if log == [] then None
    else if log[|log| - 1].unit == unit then Some(log[|log| - 1].alloc)
    else Told(log[..|log| - 1], unit)
  }

  /** How often the log addresses a unit. */
  function Count(log: seq<Call>, unit: Unit): nat {
    if log == [] then 0
    else Count(log[..|log| - 1], unit) + (if log[|log| - 1].unit == unit then 1 else 0)
  }

  /** The later word if there is one. */
  function Latest(later: Option<RAllocation>, earlier: Option<RAllocation>): Option<RAllocation> {
    if later.Some? then later else earlier
  }

  lemma {:induction false} ToldConcat(log: seq<Call>, more: seq<Call>, unit: Unit)
    ensures Told(log + more, unit) == Latest(Told(more, unit), Told(log, unit))
  {
    if more == [] {
      assert log + more == log;
    } else {
      var n := |more| - 1;
      assert (log + more)[..|log + more| - 1] == log + more[..n];
      ToldConcat(log, more[..n], unit);
    }
  }

  lemma {:induction false} CountConcat(log: seq<Call>, more: seq<Call>, unit: Unit)
    ensures Count(log + more, unit) == Count(log, unit) + Count(more, unit)
  {
    if more == [] {
      assert log + more == log;
    } else {
      var n := |more| - 1;
      assert (log + more)[..|log + more| - 1] == log + more[..n];
      CountConcat(log, more[..n], unit);
    }
  }

  lemma PairLedger(c: Call, d: Call, unit: Unit)
    ensures Told([c, d], unit) ==
            if d.unit == unit then Some(d.alloc) else if c.unit == unit then Some(c.alloc) else None
    ensures Count([c, d], unit) == (if c.unit == unit then 1 else 0) + (if d.unit == unit then 1 else 0)
  {
    assert [c, d][..1] == [c];
    assert [c][..0] == [];
    assert Told([c], unit) == if c.unit == unit then Some(c.alloc) else None;
    assert Count([c], unit) == if c.unit == unit then 1 else 0;
    assert |[c, d]| - 1 == 1;
  }

  lemma AppendFive(log: seq<Call>, p: seq<Call>, q: seq<Call>, r: seq<Call>, s: seq<Call>, t: seq<Call>)
    ensures log + (p + q + r + s + t) == log + p + q + r + s + t
  {
  }

  lemma FiveLedger(p: seq<Call>, q: seq<Call>, r: seq<Call>, s: seq<Call>, t: seq<Call>, unit: Unit)
    ensures Told(p + q + r + s + t, unit) ==
            Latest(Told(t, unit), Latest(Told(s, unit), Latest(Told(r, unit), Latest(Told(q, unit), Told(p, unit)))))
    ensures Count(p + q + r + s + t, unit) ==
            Count(p, unit) + Count(q, unit) + Count(r, unit) + Count(s, unit) + Count(t, unit)
  {
    ToldConcat(p, q, unit);
    ToldConcat(p + q, r, unit);
    ToldConcat(p + q + r, s, unit);
    ToldConcat(p + q + r + s, t, unit);
    CountConcat(p, q, unit);
    CountConcat(p + q, r, unit);
    CountConcat(p + q + r, s, unit);
    CountConcat(p + q + r + s, t, unit);
  }

  lemma {:induction false} WithoutElements(s: seq<Uid>, drop: set<Uid>, u: Uid)
    ensures Occurrences(Without(s, drop), u) == if u in drop then 0 else Occurrences(s, u)
    ensures u in Without(s, drop) <==> u in s && u !in drop
  {
    if s != [] {
      var n := |s| - 1;
      WithoutElements(s[..n], drop, u);
      assert s == s[..n] + [s[n]];
    }
  }

  /** What the calls for one user put on a unit of that user. */
  function UserAlloc(cfg: Config, unit: Unit, active: bool, graphical: Graphical): RAllocation
    requires unit != UserSlice
  {
    if active && (unit.SliceOf? || graphical(unit.uid)) then cfg.active else INACTIVE
  }

  /** Calls for a list of users: each occurrence addresses the slice and the service once, and nothing else. */
  lemma {:induction false} UserCallsLedger(cfg: Config, uids: seq<Uid>, active: bool, graphical: Graphical, unit: Unit)
    ensures
      var calls := AllUserCalls(cfg, uids, active, graphical);
      && Count(calls, unit) == (if unit == UserSlice then 0 else Occurrences(uids, unit.uid))
      && Told(calls, unit) ==
           if unit != UserSlice && unit.uid in uids then Some(UserAlloc(cfg, unit, active, graphical)) else None
  {
    if uids != [] {
      var n := |uids| - 1;
      var rest, last := AllUserCalls(cfg, uids[..n], active, graphical), UserCalls(cfg, uids[n], active, graphical);
      UserCallsLedger(cfg, uids[..n], active, graphical, unit);
      assert uids == uids[..n] + [uids[n]];
      PairLedger(last[0], last[1], unit);
      assert last == [last[0], last[1]];
      ToldConcat(rest, last, unit);
      CountConcat(rest, last, unit);
    }
  }

  /** Membership in the three lists an update walks, and how often. */
  lemma ListsOfUpdate(old_: Snapshot, new_: Snapshot, force: bool, u: Uid)
    ensures
      var g, a, g', a' := old_.graphical, old_.all, new_.graphical, new_.all;
      && (u in Departed(g, g') <==> u in g && u !in g')
      && Occurrences(Departed(g, g'), u) == (if u in g' then 0 else Occurrences(g, u))
      && (u in Unknown(a, g', a') <==> u in a' && u !in g' && u !in a)
      && Occurrences(Unknown(a, g', a'), u) == (if u in g' || u in a then 0 else Occurrences(a', u))
      && (u in Promoted(g, g', force) <==> u in g' && (force || u !in g))
      && Occurrences(Promoted(g, g', force), u) == (if u in g && !force then 0 else Occurrences(g', u))
  {
    WithoutElements(old_.graphical, Elements(new_.graphical), u);
    WithoutElements(new_.all, Elements(new_.graphical) + Elements(old_.all), u);
    WithoutElements(new_.graphical, Elements(old_.graphical), u);
  }

  function DepartedCalls(cfg: Config, old_: Snapshot, new_: Snapshot, graphical: Graphical): seq<Call> {
    AllUserCalls(cfg, Departed(old_.graphical, new_.graphical), false, graphical)
  }

  function UnknownCalls(cfg: Config, old_: Snapshot, new_: Snapshot, graphical: Graphical): seq<Call> {
    AllUserCalls(cfg, Unknown(old_.all, new_.graphical, new_.all), false, graphical)
  }

  function PromotedCalls(cfg: Config, old_: Snapshot, new_: Snapshot, force: bool, graphical: Graphical): seq<Call> {
    AllUserCalls(cfg, Promoted(old_.graphical, new_.graphical, force), true, graphical)
  }

  /** What each of the three lists does to a unit. */
  lemma PartsOfUpdate(cfg: Config, old_: Snapshot, new_: Snapshot, force: bool, graphical: Graphical, unit: Unit)
    requires unit != UserSlice
    ensures
      var u := unit.uid;
      var g, a, g', a' := old_.graphical, old_.all, new_.graphical, new_.all;
      var left, unknown := DepartedCalls(cfg, old_, new_, graphical), UnknownCalls(cfg, old_, new_, graphical);
      var gained := PromotedCalls(cfg, old_, new_, force, graphical);
      && Told(left, unit) == (if u in g && u !in g' then Some(INACTIVE) else None)
      && Count(left, unit) == (if u in g' then 0 else Occurrences(g, u))
      && Told(unknown, unit) == (if u in a' && u !in g' && u !in a then Some(INACTIVE) else None)
      && Count(unknown, unit) == (if u in g' || u in a then 0 else Occurrences(a', u))
      && Told(gained, unit) ==
           (if u in g' && (force || u !in g) then Some(UserAlloc(cfg, unit, true, graphical)) else None)
      && Count(gained, unit) == (if u in g && !force then 0 else Occurrences(g', u))
  {
    var g, a, g', a' := old_.graphical, old_.all, new_.graphical, new_.all;
    UserCallsLedger(cfg, Departed(g, g'), false, graphical, unit);
    UserCallsLedger(cfg, Unknown(a, g', a'), false, graphical, unit);
    UserCallsLedger(cfg, Promoted(g, g', force), true, graphical, unit);
    ListsOfUpdate(old_, new_, force, unit.uid);
  }

  lemma UpdateLedger(cfg: Config, old_: Snapshot, new_: Snapshot, force: bool, graphical: Graphical, unit: Unit)
    ensures
      var calls := UpdateCalls(cfg, old_, new_, force, graphical);
      var up, down := RaiseCalls(cfg, old_.graphical, new_.graphical), LowerCalls(cfg, old_.graphical, new_.graphical);
      var left, unknown := DepartedCalls(cfg, old_, new_, graphical), UnknownCalls(cfg, old_, new_, graphical);
      var gained := PromotedCalls(cfg, old_, new_, force, graphical);
      && Told(calls, unit) ==
           Latest(Told(down, unit), Latest(Told(gained, unit),
             Latest(Told(unknown, unit), Latest(Told(left, unit), Told(up, unit)))))
      && Count(calls, unit) ==
           Count(up, unit) + Count(left, unit) + Count(unknown, unit) + Count(gained, unit) + Count(down, unit)
  {
    FiveLedger(RaiseCalls(cfg, old_.graphical, new_.graphical), DepartedCalls(cfg, old_, new_, graphical),
               UnknownCalls(cfg, old_, new_, graphical), PromotedCalls(cfg, old_, new_, force, graphical),
               LowerCalls(cfg, old_.graphical, new_.graphical), unit);
  }

  lemma EdgeLedger(cfg: Config, g: seq<Uid>, g': seq<Uid>, unit: Unit)
    ensures Told(RaiseCalls(cfg, g, g'), unit) ==
            if |g'| > |g| && unit == UserSlice then Some(UserSliceAlloc(cfg, |g'|)) else None
    ensures Told(LowerCalls(cfg, g, g'), unit) ==
            if |g'| < |g| && unit == UserSlice then Some(UserSliceAlloc(cfg, |g'|)) else None
    ensures Count(RaiseCalls(cfg, g, g'), unit) == if |g'| > |g| && unit == UserSlice then 1 else 0
    ensures Count(LowerCalls(cfg, g, g'), unit) == if |g'| < |g| && unit == UserSlice then 1 else 0
  {
    var c := UserSliceCall(cfg, |g'|);
    assert [c][..0] == [];
    assert Told([c], unit) == if unit == UserSlice then Some(c.alloc) else None;
    assert Count([c], unit) == if unit == UserSlice then 1 else 0;
  }

  /** What one update tells a unit, by the place of its user in the four arrays. */
  function Verdict(cfg: Config, old_: Snapshot, new_: Snapshot, force: bool, graphical: Graphical, unit: Unit)
    : Option<RAllocation>
  {
    var g, a, g', a' := old_.graphical, old_.all, new_.graphical, new_.all;
    if unit == UserSlice then
      if |g| == |g'| then None
      else
        Some(RAllocation(-0x8000_0000, -0x8000_0000,
                         Min(|g'| * cfg.active.memoryMin % 0x1_0000_0000_0000_0000, cfg.maxMin),
                         Min(|g'| * cfg.active.memoryLow % 0x1_0000_0000_0000_0000, cfg.maxLow)))
    else
      var u := unit.uid;
      if u in g' && (force || u !in g) then Some(if unit.SliceOf? || graphical(u) then cfg.active else INACTIVE)
      else if u !in g' && (u in g || (u in a' && u !in a)) then Some(INACTIVE)
      else None
  }

  /** The later lists win, and the lists are disjoint. */
  lemma UpdateTold(cfg: Config, old_: Snapshot, new_: Snapshot, force: bool, graphical: Graphical, unit: Unit)
    ensures Told(UpdateCalls(cfg, old_, new_, force, graphical), unit)
            == Verdict(cfg, old_, new_, force, graphical, unit)
  {
    var g, a, g', a' := old_.graphical, old_.all, new_.graphical, new_.all;
    UpdateLedger(cfg, old_, new_, force, graphical, unit);
    EdgeLedger(cfg, g, g', unit);
    if unit == UserSlice {
      UserCallsLedger(cfg, Departed(g, g'), false, graphical, unit);
      UserCallsLedger(cfg, Unknown(a, g', a'), false, graphical, unit);
      UserCallsLedger(cfg, Promoted(g, g', force), true, graphical, unit);
    } else {
      PartsOfUpdate(cfg, old_, new_, force, graphical, unit);
    }
  }

  // ------------------------------------------------------------ minimal diff

  /** How often an update addresses a unit: once for each list its user is in. */
  lemma UpdateCount(cfg: Config, old_: Snapshot, new_: Snapshot, force: bool, graphical: Graphical, unit: Unit)
    ensures
      var g, a, g', a' := old_.graphical, old_.all, new_.graphical, new_.all;
      Count(UpdateCalls(cfg, old_, new_, force, graphical), unit) ==
        if unit == UserSlice then (if |g| == |g'| then 0 else 1)
        else
          var u := unit.uid;
          (if u in g' then 0 else Occurrences(g, u))
          + (if u in g' || u in a then 0 else Occurrences(a', u))
          + (if u in g && !force then 0 else Occurrences(g', u))
  {
    var g, a, g', a' := old_.graphical, old_.all, new_.graphical, new_.all;
    UpdateLedger(cfg, old_, new_, force, graphical, unit);
    EdgeLedger(cfg, g, g', unit);
    if unit == UserSlice {
      UserCallsLedger(cfg, Departed(g, g'), false, graphical, unit);
      UserCallsLedger(cfg, Unknown(a, g', a'), false, graphical, unit);
      UserCallsLedger(cfg, Promoted(g, g', force), true, graphical, unit);
    } else {
      PartsOfUpdate(cfg, old_, new_, force, graphical, unit);
    }
  }

  /** Graphical users are increasing; all users hold no duplicate. */
  ghost predicate Proper(s: Snapshot) {
    Increasing(s.graphical) && Distinct(s.all)
  }

  /** An unforced update addresses exactly the users of (G - G') + ((A' - G') - A) + (G' - G), each exactly
      once, and user.slice exactly when the number of graphical users changed. */
  lemma MinimalDiff(cfg: Config, old_: Snapshot, new_: Snapshot, graphical: Graphical, unit: Unit)
    requires Proper(old_) && Proper(new_)
    requires Elements(old_.graphical) <= Elements(old_.all)
    ensures
      var g, a, g', a' := Elements(old_.graphical), Elements(old_.all), Elements(new_.graphical), Elements(new_.all);
      Count(UpdateCalls(cfg, old_, new_, false, graphical), unit) ==
        if (if unit == UserSlice then |g| != |g'| else unit.uid in (g - g') + ((a' - g') - a) + (g' - g)) then 1 else 0
  {
    UpdateCount(cfg, old_, new_, false, graphical, unit);
    IncreasingCardinality(old_.graphical);
    IncreasingCardinality(new_.graphical);
    if unit != UserSlice {
      var u := unit.uid;
      IncreasingIsDistinct(old_.graphical, u);
      IncreasingIsDistinct(new_.graphical, u);
      assert Occurrences(new_.all, u) == if u in new_.all then 1 else 0;
      assert u in old_.graphical ==> u in Elements(old_.all);
    }
  }

  lemma {:induction false} WithoutAll(s: seq<Uid>, drop: set<Uid>)
    requires forall u :: u in s ==> u in drop
    ensures Without(s, drop) == []
  {
    if s != [] { WithoutAll(s[..|s| - 1], drop); }
  }

  /** An unchanged snapshot issues nothing. */
  lemma UnchangedIssuesNothing(cfg: Config, s: Snapshot, graphical: Graphical)
    ensures UpdateCalls(cfg, s, s, false, graphical) == []
  {
    WithoutAll(s.graphical, Elements(s.graphical));
    WithoutAll(s.all, Elements(s.graphical) + Elements(s.all));
  }
}
