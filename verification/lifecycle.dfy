/** The pending-call count from start to finalize, as a state machine over everything that can happen to it. */
module Lifecycle {

  function One(b: bool): nat { if b then 1 else 0 }

  /** `pending` is the program's count. The rest is what is really outstanding: requests that will be answered,
      requests made without a connection, and the destroy notifications GDBus owes for the name and the object. */
  datatype Life = Life(pending: int, inFlight: nat, lost: nat, nameNotice: bool, objNotice: bool,
                       connection: bool, busName: bool, dbusObj: bool, acquired: bool, stopped: bool)

  const BORN := Life(0, 0, 0, false, false, false, false, false, false, false)

  datatype Event =
    | Start
    | BusAcquired(registered: bool)
    | Requests(n: nat)
    | Reply
    | NameNotice
    | ObjectNotice
    | Stop(n: nat)

  predicate IsDelivery(e: Event) { e.Reply? || e.NameNotice? || e.ObjectNotice? }

  /** The bus callback runs once; requests before the stop need the bus; a stop always issues at least one; the
      notifications come only after the name was given up or the object unregistered. */
  predicate Possible(l: Life, e: Event) {
    match e
    case Start => !l.busName && !l.nameNotice && !l.acquired && !l.stopped
    case BusAcquired(_) => l.busName && !l.acquired && !l.stopped
    case Requests(_) => l.connection && !l.stopped
    case Reply => l.inFlight > 0
    case NameNotice => l.nameNotice && !l.busName
    case ObjectNotice => l.objNotice && !l.dbusObj
    case Stop(n) => n >= 1 && !l.stopped
  }

  function Issue(l: Life, n: nat): Life {
    if l.connection then l.(pending := l.pending + n, inFlight := l.inFlight + n)
    else l.(pending := l.pending + n, lost := l.lost + n)
  }

  function After(l: Life, e: Event): Life {
    match e
    case Start => l.(pending := l.pending + 1, busName := true, nameNotice := true)
    case BusAcquired(registered) =>
      if registered then
        l.(acquired := true, connection := true, pending := l.pending + 1, dbusObj := true, objNotice := true)
      else
        l.(acquired := true, connection := true, pending := l.pending + 1 - 1, busName := false)
    case Requests(n) => Issue(l, n)
    case Reply => if l.inFlight > 0 then l.(pending := l.pending - 1, inFlight := l.inFlight - 1) else l
    case NameNotice => l.(pending := l.pending - 1, nameNotice := false)
    case ObjectNotice => l.(pending := l.pending - 1, objNotice := false)
    case Stop(n) => Issue(l, n).(stopped := true, connection := false, busName := false, dbusObj := false)
  }

  function Run(l: Life, events: seq<Event>): Life {
    if events == [] then l else After(Run(l, events[..|events| - 1]), events[|events| - 1])
  }

  predicate PossibleRun(l: Life, events: seq<Event>) {
    forall k :: 0 <= k < |events| ==> Possible(Run(l, events[..k]), events[k])
  }

  /** The pending count is what is outstanding, exactly. */
  predicate Accounted(l: Life) {
    && l.pending == l.inFlight + l.lost + One(l.nameNotice) + One(l.objNotice)
    && (l.busName ==> l.nameNotice)
    && (l.dbusObj ==> l.objNotice)
    && (l.objNotice || l.connection ==> l.acquired)
    && (!l.stopped ==> l.lost == 0)
  }

  lemma IssueAccounted(l: Life, n: nat)
    requires Accounted(l) && (l.connection || l.stopped || n == 0)
    ensures Accounted(Issue(l, n))
  {
  }

  lemma StepAccounted(l: Life, e: Event)
    requires Accounted(l) && Possible(l, e)
    ensures Accounted(After(l, e))
  {
    match e
    case Start =>
    case BusAcquired(_) =>
    case Requests(n) => IssueAccounted(l, n);
    case Stop(n) => IssueAccounted(l.(stopped := true), n);
    case _ => DeliveryStep(l, e);
  }

  /** In every reachable state, the registration-failure path included, nothing is counted twice or forgotten. */
  lemma {:induction false} EveryRunAccounted(l: Life, events: seq<Event>)
    requires Accounted(l) && PossibleRun(l, events)
    ensures Accounted(Run(l, events))
  {
    if events != [] {
      var n := |events| - 1;
      PrefixPossible(l, events, n);
      EveryRunAccounted(l, events[..n]);
      StepAccounted(Run(l, events[..n]), events[n]);
    }
  }

  lemma PrefixPossible(l: Life, events: seq<Event>, n: nat)
    requires n <= |events| && PossibleRun(l, events)
    ensures PossibleRun(l, events[..n])
  {
    forall k | 0 <= k < n ensures Possible(Run(l, events[..n][..k]), events[..n][k]) {
      assert events[..n][..k] == events[..k];
    }
  }

  // --------------------------------------------------- the state by the events

  predicate BusCame(events: seq<Event>) { exists r :: BusAcquired(r) in events }

  predicate StopCame(events: seq<Event>) { exists e :: e in events && e.Stop? }

  /** Requests an event makes. */
  function Asked(e: Event): nat { if e.Requests? || e.Stop? then e.n else 0 }

  /** What an event adds to the count, or takes off: one notification owed for the name, one for an object that could
      be registered, each request, and each delivery. */
  function Balance(events: seq<Event>): int {
    if events == [] then 0
    else
      Balance(events[..|events| - 1]) +
      match events[|events| - 1]
      case Start => 1
      case BusAcquired(registered) => if registered then 1 else 0
      case Requests(n) => n
      case Stop(n) => n
      case _ => -1
  }

  /** Requests made before the bus came or after a stop, which nobody answers. */
  function Unanswerable(events: seq<Event>): nat {
    if events == [] then 0
    else
      var before, e := events[..|events| - 1], events[|events| - 1];
      Unanswerable(before) + if BusCame(before) && !StopCame(before) then 0 else Asked(e)
  }

  /** Requests made in between, less the answers. */
  function Unanswered(events: seq<Event>): int {
    if events == [] then 0
    else
      var before, e := events[..|events| - 1], events[|events| - 1];
      Unanswered(before) + (if BusCame(before) && !StopCame(before) then Asked(e) else 0) - (if e.Reply? then 1 else 0)
  }

  /** What a state has to be after some events. */
  ghost predicate Shows(l: Life, events: seq<Event>) {
    && (l.acquired <==> BusCame(events)) && (l.acquired ==> Start in events)
    && (l.stopped <==> StopCame(events))
    && (l.connection <==> BusCame(events) && !StopCame(events))
    && (l.nameNotice <==> Start in events && NameNotice !in events)
    && (NameNotice in events ==> Start in events)
    && (l.objNotice <==> BusAcquired(true) in events && ObjectNotice !in events)
    && (ObjectNotice in events ==> BusAcquired(true) in events)
    && (l.busName <==> Start in events && BusAcquired(false) !in events && !StopCame(events))
    && (l.dbusObj <==> BusAcquired(true) in events && !StopCame(events))
    && l.pending == Balance(events) && l.lost == Unanswerable(events) && l.inFlight == Unanswered(events)
  }

  lemma TraceSnoc(events: seq<Event>, x: Event)
    requires events != []
    ensures
      var before, e := events[..|events| - 1], events[|events| - 1];
      && (x in events <==> x in before || x == e)
      && (BusCame(events) <==> BusCame(before) || e.BusAcquired?)
      && (StopCame(events) <==> StopCame(before) || e.Stop?)
  {
    var before, e := events[..|events| - 1], events[|events| - 1];
    assert events == before + [e];
    if e.BusAcquired? { assert BusAcquired(e.registered) in events; }
    if e.Stop? { assert e in events; }
    if r :| BusAcquired(r) in before { assert BusAcquired(r) in events; }
    if y :| y in before && y.Stop? { assert y in events; }
  }

  /** Every part of every state that can be reached, by the events that led there: the connection is there from the
      bus callback, whether or not the object could be registered, to the stop; and so on. */
  lemma {:induction false} StateByEvents(events: seq<Event>)
    requires PossibleRun(BORN, events)
    ensures Shows(Run(BORN, events), events)
  {
    if events != [] {
      var n := |events| - 1;
      PrefixPossible(BORN, events, n);
      StateByEvents(events[..n]);
      StepByEvents(Run(BORN, events[..n]), events);
    }
  }

  lemma StepByEvents(l: Life, events: seq<Event>)
    requires events != []
    requires Shows(l, events[..|events| - 1]) && Possible(l, events[|events| - 1])
    ensures Shows(After(l, events[|events| - 1]), events)
  {
    TraceSnoc(events, Start);
    TraceSnoc(events, NameNotice);
    TraceSnoc(events, ObjectNotice);
    TraceSnoc(events, BusAcquired(true));
    TraceSnoc(events, BusAcquired(false));
  }

  /** Turns of the flush loop: only notifications arrive. */
  predicate Deliveries(events: seq<Event>) {
    forall e :: e in events ==> IsDelivery(e)
  }

  lemma {:induction false} DeliveriesOnly(l: Life, events: seq<Event>)
    requires Accounted(l) && PossibleRun(l, events) && Deliveries(events)
    ensures Run(l, events).pending == l.pending - |events|
    ensures Run(l, events).lost == l.lost
    ensures Accounted(Run(l, events))
  {
    if events != [] {
      var n := |events| - 1;
      PrefixPossible(l, events, n);
      DeliveriesOnly(l, events[..n]);
      assert events[n] in events;
      DeliveryStep(Run(l, events[..n]), events[n]);
    }
  }

  /** While more is pending than was lost, after a stop, some notification is still to come. */
  lemma SomethingComes(l: Life) returns (e: Event)
    requires Accounted(l) && l.pending > l.lost && !l.busName && !l.dbusObj
    ensures IsDelivery(e) && Possible(l, e)
  {
    e := if l.inFlight > 0 then Reply else if l.nameNotice then NameNotice else ObjectNotice;
  }

  lemma DeliveryStep(l: Life, e: Event)
    requires Accounted(l) && Possible(l, e) && IsDelivery(e)
    ensures Accounted(After(l, e)) && After(l, e).pending == l.pending - 1 && After(l, e).lost == l.lost
    ensures After(l, e).busName == l.busName && After(l, e).dbusObj == l.dbusObj
  {
  }

  lemma RunSnoc(l: Life, events: seq<Event>, e: Event)
    requires PossibleRun(l, events) && Possible(Run(l, events), e)
    ensures PossibleRun(l, events + [e]) && Run(l, events + [e]) == After(Run(l, events), e)
  {
    var all := events + [e];
    assert all[..|events|] == events;
    forall k | 0 <= k < |all| ensures Possible(Run(l, all[..k]), all[k]) {
      if k < |events| {
        assert all[..k] == events[..k] && all[k] == events[k];
      } else {
        assert all[k] == e;
      }
    }
  }

  /** Every notification can be waited for, and then the count is what was lost. */
  lemma {:induction false} DrainsTo(l: Life, events: seq<Event>) returns (all: seq<Event>)
    requires PossibleRun(l, events) && Deliveries(events)
    requires Accounted(Run(l, events)) && !Run(l, events).busName && !Run(l, events).dbusObj
    ensures PossibleRun(l, all) && Deliveries(all)
    ensures Run(l, all).pending == Run(l, events).lost
    decreases Run(l, events).pending - Run(l, events).lost
  {
    var now := Run(l, events);
    if now.pending == now.lost {
      all := events;
    } else {
      var e := SomethingComes(now);
      DeliveryStep(now, e);
      RunSnoc(l, events, e);
      all := DrainsTo(l, events + [e]);
    }
  }

  ghost predicate FlushEnds(l: Life) {
    exists events :: PossibleRun(l, events) && Deliveries(events) && Run(l, events).pending == 0
  }

  /** The flush after a stop ends, at exactly zero, if and only if the bus callback ran before, which is when the
      connection was there. */
  lemma FlushEndsIffConnected(events: seq<Event>, n: nat)
    requires PossibleRun(BORN, events + [Stop(n)])
    ensures FlushEnds(Run(BORN, events + [Stop(n)])) <==> BusCame(events)
    ensures Run(BORN, events).connection <==> BusCame(events)
  {
    var all := events + [Stop(n)];
    assert all[..|events|] == events && all[|events|] == Stop(n);
    PrefixPossible(BORN, all, |events|);
    StateByEvents(events);
    EveryRunAccounted(BORN, events);
    EveryRunAccounted(BORN, all);
    var before, l := Run(BORN, events), Run(BORN, all);
    assert l == After(before, Stop(n));
    assert Possible(before, Stop(n));
    assert Run(l, []) == l;
    var drain := DrainsTo(l, []);
    if more :| PossibleRun(l, more) && Deliveries(more) && Run(l, more).pending == 0 {
      DeliveriesOnly(l, more);
    }
  }

  /** The ordinary life, whether or not the object can be registered, is possible, and its flush ends. */
  lemma OrdinaryLifeEnds(registered: bool, n: nat)
    requires n >= 1
    ensures
      var events := [Start, BusAcquired(registered), Stop(n)];
      PossibleRun(BORN, events) && FlushEnds(Run(BORN, events))
  {
    var before := [Start, BusAcquired(registered)];
    LifeBegins(registered);
    RunSnoc(BORN, before, Stop(n));
    assert before + [Stop(n)] == [Start, BusAcquired(registered), Stop(n)];
    assert before[1] in before;
    FlushEndsIffConnected(before, n);
  }

  lemma LifeBegins(registered: bool)
    ensures
      var events := [Start, BusAcquired(registered)];
      PossibleRun(BORN, events) && Run(BORN, events) == After(After(BORN, Start), BusAcquired(registered))
  {
    var events := [Start, BusAcquired(registered)];
    assert events[..0] == [] && events[..1] == [Start];
    assert [Start][..0] == [];
    assert Run(BORN, [Start]) == After(BORN, Start);
  }

  /** Losing the bus before it was ever acquired is such a case: the flush waits forever. */
  lemma StopWithoutBusHangs(n: nat)
    requires n >= 1
    ensures PossibleRun(BORN, [Start, Stop(n)]) && !FlushEnds(Run(BORN, [Start, Stop(n)]))
  {
    var s: seq<Event> := [Start];
    assert [Start, Stop(n)] == s + [Stop(n)];
    assert s[..0] == [] && (s + [Stop(n)])[..1] == s;
    assert Run(BORN, s) == After(BORN, Start);
    FlushEndsIffConnected(s, n);
  }
}
