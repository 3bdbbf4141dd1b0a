/** Memory safety at every single call: user.slice is never told less memory than its users' slices need. */
module ReconcileSafety {
  import opened Options
  import opened Sets
  import opened Uids
  import opened Allocation

  ghost predicate HoldsMemory(log: seq<Call>, u: Uid) {
    var told := Told(log, SliceOf(u));
    told.Some? && (told.value.memoryMin != 0 || told.value.memoryLow != 0)
  }

  ghost function Addressed(log: seq<Call>): set<Uid> {
    set c | c in log && c.unit.SliceOf? :: c.unit.uid
  }

  /** The users whose slice was last told to protect some memory. */
  ghost function Protected(log: seq<Call>): set<Uid> {
    set u | u in Addressed(log) && HoldsMemory(log, u)
  }

  lemma {:induction false} ToldMeansAddressed(log: seq<Call>, unit: Unit)
    requires Told(log, unit).Some?
    ensures exists c :: c in log && c.unit == unit && c.alloc == Told(log, unit).value
  {
    var n := |log| - 1;
    if log[n].unit != unit {
      ToldMeansAddressed(log[..n], unit);
      var c :| c in log[..n] && c.unit == unit && c.alloc == Told(log[..n], unit).value;
      assert c in log;
    } else {
      assert log[n] in log;
    }
  }

  lemma ProtectedIff(log: seq<Call>, u: Uid)
    ensures u in Protected(log) <==> HoldsMemory(log, u)
  {
    if HoldsMemory(log, u) {
      ToldMeansAddressed(log, SliceOf(u));
      var c :| c in log && c.unit == SliceOf(u);
      assert c.unit.uid in Addressed(log);
    }
  }

  /** The number of users that user.slice was last computed for; 0 before any call. */
  function CountUsed(log: seq<Call>): nat {
    if log == [] then 0
    else if log[|log| - 1].unit == UserSlice then log[|log| - 1].users
    else CountUsed(log[..|log| - 1])
  }

  /** That number is n, and user.slice was told the allocation for it. */
  ghost predicate Budgeted(cfg: Config, log: seq<Call>, n: nat) {
    var told := Told(log, UserSlice);
    CountUsed(log) == n && (told == Some(UserSliceAlloc(cfg, n)) || (n == 0 && told == None))
  }

  /** No more users are protected than user.slice was last computed for. */
  ghost predicate Safe(cfg: Config, log: seq<Call>) {
    Budgeted(cfg, log, CountUsed(log)) && |Protected(log)| <= CountUsed(log)
  }

  /** Safe after each call, not only after the last one. */
  ghost predicate AlwaysSafe(cfg: Config, log: seq<Call>) {
    forall k {:trigger Safe(cfg, log[..k])} :: 0 <= k <= |log| ==> Safe(cfg, log[..k])
  }

  /** The state between two updates: at most the users in `s` are protected and user.slice covers them all. */
  ghost predicate Settled(cfg: Config, log: seq<Call>, s: set<Uid>, n: nat) {
    AlwaysSafe(cfg, log) && Protected(log) <= s && |s| <= n && Budgeted(cfg, log, n)
  }

  /** A call that addresses one user's units and protects memory only for a user in `s`. */
  ghost predicate Within(c: Call, s: set<Uid>) {
    c.unit != UserSlice
    && (c.unit.SliceOf? && c.unit.uid !in s ==> c.alloc.memoryMin == 0 && c.alloc.memoryLow == 0)
  }

  lemma AppendSafe(cfg: Config, log: seq<Call>, c: Call)
    requires AlwaysSafe(cfg, log) && Safe(cfg, log + [c])
    ensures AlwaysSafe(cfg, log + [c])
  {
    forall k | 0 <= k <= |log| + 1 ensures Safe(cfg, (log + [c])[..k]) {
      if k <= |log| {
        assert (log + [c])[..k] == log[..k];
      } else {
        assert (log + [c])[..k] == log + [c];
      }
    }
  }

  lemma ToldSnoc(log: seq<Call>, c: Call, unit: Unit)
    ensures Told(log + [c], unit) == if c.unit == unit then Some(c.alloc) else Told(log, unit)
    ensures CountUsed(log + [c]) == if c.unit == UserSlice then c.users else CountUsed(log)
  {
    assert (log + [c])[..|log|] == log;
  }

  lemma {:induction false} WithinSettled(cfg: Config, log: seq<Call>, calls: seq<Call>, s: set<Uid>, n: nat)
    requires Settled(cfg, log, s, n)
    requires forall c :: c in calls ==> Within(c, s)
    ensures Settled(cfg, log + calls, s, n)
  {
    if calls == [] {
      assert log + calls == log;
    } else {
      var m := |calls| - 1;
      var c := calls[m];
      assert c in calls;
      WithinSettled(cfg, log, calls[..m], s, n);
      var before := log + calls[..m];
      assert log + calls == before + [c];
      ToldSnoc(before, c, UserSlice);
      forall u | u in Protected(before + [c]) ensures u in s {
        ProtectedIff(before + [c], u);
        ProtectedIff(before, u);
        ToldSnoc(before, c, SliceOf(u));
      }
      SubsetCount(Protected(before + [c]), s);
      assert Budgeted(cfg, before + [c], n);
      AppendSafe(cfg, before, c);
    }
  }

  /** A user.slice call may go anywhere between the number of protected users and beyond. */
  lemma BudgetSettled(cfg: Config, log: seq<Call>, s: set<Uid>, n: nat, n': nat)
    requires Settled(cfg, log, s, n) && |s| <= n'
    ensures Settled(cfg, log + [UserSliceCall(cfg, n')], s, n')
  {
    var c := UserSliceCall(cfg, n');
    ToldSnoc(log, c, UserSlice);
    forall u | u in Protected(log + [c]) ensures u in s {
      ProtectedIff(log + [c], u);
      ProtectedIff(log, u);
      ToldSnoc(log, c, SliceOf(u));
    }
    SubsetCount(Protected(log + [c]), s);
    assert Budgeted(cfg, log + [c], n');
    AppendSafe(cfg, log, c);
  }

  lemma {:induction false} UserCallsWithin(cfg: Config, uids: seq<Uid>, active: bool, graphical: Graphical, s: set<Uid>)
    requires active ==> Elements(uids) <= s
    ensures forall c :: c in AllUserCalls(cfg, uids, active, graphical) ==> Within(c, s)
  {
    if uids != [] {
      var n := |uids| - 1;
      assert active ==> uids[n] in Elements(uids) && Elements(uids[..n]) <= Elements(uids);
      UserCallsWithin(cfg, uids[..n], active, graphical, s);
    }
  }

  /** Revoking a list of users leaves none of them protected. */
  lemma RevokeShrinks(cfg: Config, log: seq<Call>, uids: seq<Uid>, graphical: Graphical, s: set<Uid>, n: nat)
    requires Settled(cfg, log, s, n)
    ensures Settled(cfg, log + AllUserCalls(cfg, uids, false, graphical), s - Elements(uids), n)
  {
    var calls := AllUserCalls(cfg, uids, false, graphical);
    UserCallsWithin(cfg, uids, false, graphical, s);
    WithinSettled(cfg, log, calls, s, n);
    forall u | u in Protected(log + calls) ensures u !in Elements(uids) {
      ProtectedIff(log + calls, u);
      ToldConcat(log, calls, SliceOf(u));
      UserCallsLedger(cfg, uids, false, graphical, SliceOf(u));
    }
    SubsetCount(s - Elements(uids), s);
  }

  /** Raising the budget first and revoking next leaves at most the staying users protected. */
  lemma RevokePhase(cfg: Config, log: seq<Call>, g: seq<Uid>, g': seq<Uid>, graphical: Graphical)
    requires Settled(cfg, log, Elements(g), |g|)
    requires Increasing(g) && Increasing(g')
    ensures Settled(cfg, log + RaiseCalls(cfg, g, g') + AllUserCalls(cfg, Departed(g, g'), false, graphical),
                    Elements(g'), if |g'| > |g| then |g'| else |g|)
  {
    var S, S' := Elements(g), Elements(g');
    var n := if |g'| > |g| then |g'| else |g|;
    IncreasingCardinality(g);
    IncreasingCardinality(g');
    var up := RaiseCalls(cfg, g, g');
    if |g'| > |g| {
      BudgetSettled(cfg, log, S, |g|, |g'|);
    } else {
      assert log + up == log;
    }
    RevokeShrinks(cfg, log + up, Departed(g, g'), graphical, S, n);
    forall u | u in S - Elements(Departed(g, g')) ensures u in S' {
      WithoutElements(g, S', u);
    }
  }

  /** Granting only inside the new set, and lowering the budget last, is safe. */
  lemma GrantPhase(cfg: Config, log: seq<Call>, old_: Snapshot, new_: Snapshot, force: bool, graphical: Graphical,
                   n: nat)
    requires Settled(cfg, log, Elements(new_.graphical), n)
    requires Increasing(new_.graphical)
    requires n == if |new_.graphical| > |old_.graphical| then |new_.graphical| else |old_.graphical|
    ensures Settled(cfg, log + UnknownCalls(cfg, old_, new_, graphical)
                         + PromotedCalls(cfg, old_, new_, force, graphical)
                         + LowerCalls(cfg, old_.graphical, new_.graphical),
                    Elements(new_.graphical), |new_.graphical|)
  {
    var g, g' := old_.graphical, new_.graphical;
    var S' := Elements(g');
    IncreasingCardinality(g');
    var unknown, gained := UnknownCalls(cfg, old_, new_, graphical), PromotedCalls(cfg, old_, new_, force, graphical);
    UserCallsWithin(cfg, Unknown(old_.all, g', new_.all), false, graphical, S');
    WithinSettled(cfg, log, unknown, S', n);
    forall u | u in Elements(Promoted(g, g', force)) ensures u in S' {
      WithoutElements(g', Elements(g), u);
    }
    UserCallsWithin(cfg, Promoted(g, g', force), true, graphical, S');
    WithinSettled(cfg, log + unknown, gained, S', n);
    var before := log + unknown + gained;
    if |g'| < |g| {
      BudgetSettled(cfg, before, S', n, |g'|);
    } else {
      assert before + LowerCalls(cfg, g, g') == before;
    }
  }

  /** One update keeps user.slice safe after each of its calls: it is raised before any slice is, and lowered
      after every slice that has to be. */
  lemma UpdateSafe(cfg: Config, log: seq<Call>, old_: Snapshot, new_: Snapshot, force: bool, graphical: Graphical)
    requires Settled(cfg, log, Elements(old_.graphical), |old_.graphical|)
    requires Increasing(old_.graphical) && Increasing(new_.graphical)
    ensures Settled(cfg, log + UpdateCalls(cfg, old_, new_, force, graphical),
                    Elements(new_.graphical), |new_.graphical|)
  {
    var g, g' := old_.graphical, new_.graphical;
    var up, left := RaiseCalls(cfg, g, g'), DepartedCalls(cfg, old_, new_, graphical);
    var unknown, gained := UnknownCalls(cfg, old_, new_, graphical), PromotedCalls(cfg, old_, new_, force, graphical);
    var down := LowerCalls(cfg, g, g');
    RevokePhase(cfg, log, g, g', graphical);
    GrantPhase(cfg, log + up + left, old_, new_, force, graphical, if |g'| > |g| then |g'| else |g|);
    AppendFive(log, up, left, unknown, gained, down);
  }

  /** Granting memory to one more user is safe exactly while user.slice was computed for more users than are protected;
      so it has to be raised before. */
  lemma GrantSafeIff(cfg: Config, log: seq<Call>, u: Uid)
    requires Safe(cfg, log) && u !in Protected(log) && (cfg.active.memoryMin != 0 || cfg.active.memoryLow != 0)
    ensures Safe(cfg, log + [UserCall(SliceOf(u), cfg.active)]) <==> |Protected(log)| < CountUsed(log)
  {
    var c := UserCall(SliceOf(u), cfg.active);
    ToldSnoc(log, c, UserSlice);
    forall v ensures v in Protected(log + [c]) <==> v in Protected(log) || v == u {
      ProtectedIff(log + [c], v);
      ProtectedIff(log, v);
      ToldSnoc(log, c, SliceOf(v));
    }
    assert Protected(log + [c]) == Protected(log) + {u};
  }

  /** Computing user.slice for n users is safe exactly if no more are protected; so it has to be lowered after. */
  lemma BudgetSafeIff(cfg: Config, log: seq<Call>, n: nat)
    ensures Safe(cfg, log + [UserSliceCall(cfg, n)]) <==> |Protected(log)| <= n
  {
    var c := UserSliceCall(cfg, n);
    ToldSnoc(log, c, UserSlice);
    forall v ensures v in Protected(log + [c]) <==> v in Protected(log) {
      ProtectedIff(log + [c], v);
      ProtectedIff(log, v);
      ToldSnoc(log, c, SliceOf(v));
    }
    assert Protected(log + [c]) == Protected(log);
  }

  /** Which users are still protected after a stop: those protected before that the stored list of all users
      misses. So a stop withdraws all memory if and only if that list has every protected user. */
  lemma StopWithdraws(cfg: Config, log: seq<Call>, old_: Snapshot, graphical: Graphical)
    ensures Protected(log + StopCalls(cfg, old_, graphical)) == Protected(log) - Elements(old_.all)
    ensures Protected(log + StopCalls(cfg, old_, graphical)) == {} <==> Protected(log) <= Elements(old_.all)
  {
    var calls, last := AllUserCalls(cfg, old_.all, false, graphical), UserSliceCall(cfg, 0);
    var after := log + StopCalls(cfg, old_, graphical);
    assert after == log + calls + [last];
    forall u: Uid ensures u in Protected(after) <==> u in Protected(log) && u !in Elements(old_.all) {
      ProtectedIff(after, u);
      ProtectedIff(log, u);
      ToldSnoc(log + calls, last, SliceOf(u));
      ToldConcat(log, calls, SliceOf(u));
      UserCallsLedger(cfg, old_.all, false, graphical, SliceOf(u));
    }
  }

  /** A stop stays safe up to its last call, which takes user.slice to nobody; and that one is safe if and only if the
      list of all users has every protected one. Then nobody is protected any more. */
  lemma StopSafe(cfg: Config, log: seq<Call>, old_: Snapshot, graphical: Graphical)
    requires Settled(cfg, log, Elements(old_.graphical), |old_.graphical|)
    ensures AlwaysSafe(cfg, log + AllUserCalls(cfg, old_.all, false, graphical))
    ensures AlwaysSafe(cfg, log + StopCalls(cfg, old_, graphical)) <==> Protected(log) <= Elements(old_.all)
    ensures Protected(log) <= Elements(old_.all) ==> Settled(cfg, log + StopCalls(cfg, old_, graphical), {}, 0)
  {
    var calls, last := AllUserCalls(cfg, old_.all, false, graphical), UserSliceCall(cfg, 0);
    var after := log + StopCalls(cfg, old_, graphical);
    assert after == log + calls + [last];
    RevokeShrinks(cfg, log, old_.all, graphical, Elements(old_.graphical), |old_.graphical|);
    StopWithdraws(cfg, log, old_, graphical);
    ToldSnoc(log + calls, last, UserSlice);
    assert after[..|after|] == after;
    assert AlwaysSafe(cfg, after) ==> Safe(cfg, after[..|after|]);
    if Protected(log) <= Elements(old_.all) {
      assert Protected(after) == {};
      assert Safe(cfg, after);
      AppendSafe(cfg, log + calls, last);
    }
  }

  // ----------------------------------------------------------- memory values

  /** Every call on a user's slice carries one of the two allocations. */
  ghost predicate TwoLevels(cfg: Config, log: seq<Call>) {
    forall c :: c in log && c.unit.SliceOf? ==> c.alloc == cfg.active || c.alloc == INACTIVE
  }

  /** MemoryMin, or MemoryLow when `low`, as a unit was last told; nothing told is no protection. */
  ghost function ToldMemory(log: seq<Call>, unit: Unit, low: bool): nat {
    var told := Told(log, unit);
    if told.None? then 0 else if low then told.value.memoryLow else told.value.memoryMin
  }

  ghost function ToldSum(log: seq<Call>, uids: set<Uid>, low: bool): nat {
    if uids == {} then 0 else
      var u :| u in uids;
      ToldMemory(log, SliceOf(u), low) + ToldSum(log, uids - {u}, low)
  }

  function Level(cfg: Config, low: bool): U64 { if low then cfg.active.memoryLow else cfg.active.memoryMin }

  function Cap(cfg: Config, low: bool): U64 { if low then cfg.maxLow else cfg.maxMin }

  lemma ToldLevel(cfg: Config, log: seq<Call>, u: Uid, low: bool)
    requires TwoLevels(cfg, log)
    ensures ToldMemory(log, SliceOf(u), low) == (if u in Protected(log) then Level(cfg, low) else 0)
  {
    ProtectedIff(log, u);
    if Told(log, SliceOf(u)).Some? { ToldMeansAddressed(log, SliceOf(u)); }
  }

  lemma RemoveOne(s: set<Uid>, t: set<Uid>, u: Uid)
    requires u in s
    ensures |s * t| == |(s - {u}) * t| + if u in t then 1 else 0
  {
    if u in t {
      assert s * t == (s - {u}) * t + {u};
    } else {
      assert s * t == (s - {u}) * t;
    }
  }

  function Repeat(k: nat, level: nat): nat { if k == 0 then 0 else Repeat(k - 1, level) + level }

  lemma {:induction false} RepeatIsProduct(k: nat, level: nat)
    ensures Repeat(k, level) == k * level
  {
    if k > 0 {
      RepeatIsProduct(k - 1, level);
      assert (k - 1) * level + level == k * level;
    }
  }

  lemma {:induction false} SumOfLevels(log: seq<Call>, uids: set<Uid>, low: bool, holders: set<Uid>, level: nat)
    requires forall u :: u in uids ==> ToldMemory(log, SliceOf(u), low) == if u in holders then level else 0
    ensures ToldSum(log, uids, low) == Repeat(|uids * holders|, level)
  {
    if uids == {} {
      assert uids * holders == {};
    } else {
      var u :| u in uids && ToldSum(log, uids, low) == ToldMemory(log, SliceOf(u), low) + ToldSum(log, uids - {u}, low);
      SumOfLevels(log, uids - {u}, low, holders, level);
      RemoveOne(uids, holders, u);
    }
  }

  lemma SumIsCountTimesLevel(cfg: Config, log: seq<Call>, uids: set<Uid>, low: bool)
    requires TwoLevels(cfg, log)
    ensures ToldSum(log, uids, low) == |uids * Protected(log)| * Level(cfg, low)
  {
    forall u | u in uids
      ensures ToldMemory(log, SliceOf(u), low) == if u in Protected(log) then Level(cfg, low) else 0
    {
      ToldLevel(cfg, log, u, low);
    }
    SumOfLevels(log, uids, low, Protected(log), Level(cfg, low));
    RepeatIsProduct(|uids * Protected(log)|, Level(cfg, low));
  }

  /** In every safe state without overflow, user.slice is told at least the sum over any set of users' slices, or
      the configured maximum where that is less. */
  lemma UserSliceCoversUsers(cfg: Config, log: seq<Call>, uids: set<Uid>, low: bool)
    requires TwoLevels(cfg, log) && Safe(cfg, log)
    requires CountUsed(log) * Level(cfg, low) < TWO64
    ensures Covers(cfg, log, uids, low)
  {
    var n := CountUsed(log);
    SumIsCountTimesLevel(cfg, log, uids, low);
    var m := |uids * Protected(log)|;
    SubsetCount(uids * Protected(log), Protected(log));
    MulMonotone(m, n, Level(cfg, low));
    NoWrap(n * Level(cfg, low));
  }

  /** user.slice has at least MIN(what the users' slices have together, the configured maximum). */
  ghost predicate Covers(cfg: Config, log: seq<Call>, uids: set<Uid>, low: bool) {
    var sum, cap := ToldSum(log, uids, low), Cap(cfg, low);
    ToldMemory(log, UserSlice, low) >= if sum < cap then sum else cap
  }

  /** Every user.slice call of the log was computed for at most n users. */
  ghost predicate CountsWithin(log: seq<Call>, n: nat) {
    forall c :: c in log && c.unit == UserSlice ==> c.users <= n
  }

  lemma {:induction false} CountUsedWithin(log: seq<Call>, n: nat)
    requires CountsWithin(log, n)
    ensures CountUsed(log) <= n
  {
    if log != [] {
      var m := |log| - 1;
      assert log[m] in log;
      if log[m].unit != UserSlice { CountUsedWithin(log[..m], n); }
    }
  }

  /** The memory of n active users fits in 64 bits. */
  ghost predicate Fits(cfg: Config, n: nat, low: bool) { n * Level(cfg, low) < TWO64 }

  /** So after each single call of a safe log. */
  lemma EveryCallCovers(cfg: Config, log: seq<Call>, n: nat, k: nat, uids: set<Uid>, low: bool)
    requires AlwaysSafe(cfg, log) && TwoLevels(cfg, log) && CountsWithin(log, n)
    requires Fits(cfg, n, low) && k <= |log|
    ensures Covers(cfg, log[..k], uids, low)
  {
    assert Safe(cfg, log[..k]);
    CountUsedWithin(log[..k], n);
    MulMonotone(CountUsed(log[..k]), n, Level(cfg, low));
    UserSliceCoversUsers(cfg, log[..k], uids, low);
  }

  lemma NoWrap(x: nat)
    requires x < TWO64
    ensures x % TWO64 == x
  {
  }

  lemma MulMonotone(m: nat, n: nat, k: nat)
    requires m <= n
    ensures m * k <= n * k
  {
    assert n * k == m * k + (n - m) * k;
  }

  function UserSliceMemory(cfg: Config, n: nat, low: bool): U64 {
    var alloc := UserSliceAlloc(cfg, n);
    if low then alloc.memoryLow else alloc.memoryMin
  }

  lemma UserSliceIsMin(cfg: Config, n: nat, low: bool, demand: nat)
    requires demand == n * Level(cfg, low)
    ensures UserSliceMemory(cfg, n, low) == Min(demand % TWO64, Cap(cfg, low))
  {
  }

  /** The cap arithmetic meets its intent, the smaller of demand and cap, if and only if the product does not
      wrap below the cap. */
  lemma UserSliceExact(cfg: Config, n: nat, low: bool, demand: nat)
    requires demand == n * Level(cfg, low)
    ensures
      var cap := Cap(cfg, low);
      UserSliceMemory(cfg, n, low) == (if demand < cap then demand else cap)
      <==> demand < TWO64 || demand % TWO64 >= cap
  {
    UserSliceIsMin(cfg, n, low, demand);
    if demand < TWO64 { NoWrap(demand); }
  }

  /** Two users with 2^63 bytes each make user.slice drop to nothing. */
  lemma UserSliceWraps(cfg: Config)
    requires cfg.active.memoryMin == 0x8000_0000_0000_0000 && cfg.maxMin > 0
    ensures UserSliceAlloc(cfg, 1).memoryMin > 0 && UserSliceAlloc(cfg, 2).memoryMin == 0
  {
  }

  /** Never above the cap, and monotone in the number of users while nothing wraps. */
  lemma UserSliceMonotone(cfg: Config, m: nat, n: nat, low: bool)
    ensures UserSliceMemory(cfg, n, low) <= Cap(cfg, low)
    ensures m <= n && n * Level(cfg, low) < TWO64 ==> UserSliceMemory(cfg, m, low) <= UserSliceMemory(cfg, n, low)
  {
    var d, e := m * Level(cfg, low), n * Level(cfg, low);
    UserSliceIsMin(cfg, m, low, d);
    UserSliceIsMin(cfg, n, low, e);
    if m <= n && e < TWO64 {
      MulMonotone(m, n, Level(cfg, low));
      CappedMonotone(d, e, Cap(cfg, low));
    }
  }

  lemma CappedMonotone(d: nat, e: nat, cap: U64)
    requires d <= e < TWO64
    ensures Min(d % TWO64, cap) <= Min(e % TWO64, cap)
  {
    NoWrap(d);
    NoWrap(e);
  }
}
