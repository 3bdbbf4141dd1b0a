/** The login monitor: it collects the users with an active graphical session into sorted arrays, and waits for
    100 ms of quiet before it does so again. */
module SdLogin {
  import opened Options
  import opened Uids
  import opened Allocation

  // ------------------------------------------------------- what logind tells

  /** `uid` is None and `active` is negative when logind cannot say. */
  datatype Session = Session(uid: Option<Uid>, active: int)

  datatype Seat = Seat(canGraphical: int, sessions: Option<seq<Session>>)

  datatype Reading = Reading(seats: Option<seq<Seat>>, uids: Option<seq<Uid>>)

  predicate Counts(s: Session) { s.uid.Some? && s.active > 0 }

  function ActiveUids(sessions: seq<Session>): set<Uid> {
    set s | s in sessions && Counts(s) :: s.uid.value
  }

  /** The same in order, with repetitions. */
  function ActiveList(sessions: seq<Session>): seq<Uid> {
    if sessions == [] then []
    else
      var last := sessions[|sessions| - 1];
      ActiveList(sessions[..|sessions| - 1]) + (if Counts(last) then [last.uid.value] else [])
  }

  function SeatList(seat: Seat): seq<Uid> {
    if seat.canGraphical > 0 && seat.sessions.Some? then ActiveList(seat.sessions.value) else []
  }

  /** One more session is noted if it counts. */
  lemma NoteNext(s: seq<Uid>, sessions: seq<Session>, j: nat)
    requires j < |sessions|
    ensures NoteAll(s, ActiveList(sessions[..j + 1])) ==
      var before := NoteAll(s, ActiveList(sessions[..j]));
      if Counts(sessions[j]) then Note(before, sessions[j].uid.value) else before
  {
    var list := ActiveList(sessions[..j]);
    assert sessions[..j + 1][..j] == sessions[..j];
    if Counts(sessions[j]) {
      assert (list + [sessions[j].uid.value])[..|list|] == list;
    } else {
      assert list + [] == list;
    }
  }

  /** The users a seat contributes: none if it is not graphical or cannot be read. */
  function SeatUids(seat: Seat): set<Uid> {
    if seat.canGraphical > 0 && seat.sessions.Some? then ActiveUids(seat.sessions.value) else {}
  }

  function GraphicalUids(seats: seq<Seat>): set<Uid> {
    set seat, u | seat in seats && u in SeatUids(seat) :: u
  }

  ghost predicate UidsInWindow(base: int, r: Reading) {
    && (r.seats.Some? ==> forall u :: u in GraphicalUids(r.seats.value) ==> base <= u < base + TWO31)
    && (r.uids.Some? ==> InWindow(base, r.uids.value))
  }

  /** The arrays hold what a reading says: nothing at all when one of its two enumerations failed. */
  ghost predicate Collected(r: Reading, held: Snapshot) {
    if r.seats.None? || r.uids.None? then held == Snapshot([], [])
    else
      && Increasing(held.graphical)
      && Elements(held.graphical) == GraphicalUids(r.seats.value)
      && NonDecreasing(held.all)
      && multiset(held.all) == multiset(r.uids.value)
  }

  // ------------------------------------------------------ reads that fail

  ghost predicate SessionRead(s: Session, read: Session) {
    (read.uid == s.uid || read.uid.None?) && (read.active == s.active || read.active < 0)
  }

  ghost predicate SeatRead(s: Seat, read: Seat) {
    && (read.canGraphical == s.canGraphical || read.canGraphical < 0)
    && (read.sessions.Some? ==>
          && s.sessions.Some? && |read.sessions.value| == |s.sessions.value|
          && forall i :: 0 <= i < |s.sessions.value| ==> SessionRead(s.sessions.value[i], read.sessions.value[i]))
  }

  /** What reading logind can give: what is there, except where a read fails. */
  ghost predicate ReadOf(logind: Reading, read: Reading) {
    && (read.seats.Some? ==>
          && logind.seats.Some? && |read.seats.value| == |logind.seats.value|
          && forall i :: 0 <= i < |logind.seats.value| ==> SeatRead(logind.seats.value[i], read.seats.value[i]))
    && (read.uids.Some? ==> read.uids == logind.uids)
  }

  lemma SeatReadLoses(s: Seat, read: Seat, u: Uid)
    requires SeatRead(s, read) && u in SeatUids(read)
    ensures u in SeatUids(s)
  {
    var x :| x in read.sessions.value && Counts(x) && x.uid.value == u;
    var i :| 0 <= i < |read.sessions.value| && read.sessions.value[i] == x;
    assert SessionRead(s.sessions.value[i], x);
    assert s.sessions.value[i] in s.sessions.value && Counts(s.sessions.value[i]);
  }

  /** A failing read loses users and never invents one. */
  lemma ReadLosesUsers(logind: Reading, read: Reading, held: Snapshot, u: Uid)
    requires ReadOf(logind, read) && Collected(read, held) && u in held.graphical
    ensures logind.seats.Some? && u in GraphicalUids(logind.seats.value)
  {
    assert u in Elements(held.graphical);
    var x :| x in read.seats.value && u in SeatUids(x);
    var i :| 0 <= i < |read.seats.value| && read.seats.value[i] == x;
    SeatReadLoses(logind.seats.value[i], x, u);
    assert logind.seats.value[i] in logind.seats.value;
  }

  // ------------------------------------------------- independence from order

  /** The same seat up to the order of its sessions. */
  ghost predicate SameSeat(s: Seat, t: Seat) {
    && s.canGraphical == t.canGraphical
    && (s.sessions.Some? <==> t.sessions.Some?)
    && (s.sessions.Some? ==> multiset(s.sessions.value) == multiset(t.sessions.value))
  }

  ghost predicate SeatsWithin(s: seq<Seat>, t: seq<Seat>) {
    forall x :: x in s ==> exists y :: y in t && SameSeat(x, y)
  }

  /** The same reading up to the order of users, seats and sessions. */
  ghost predicate SameReading(r: Reading, q: Reading) {
    && (r.seats.Some? <==> q.seats.Some?)
    && (r.seats.Some? ==>
          SeatsWithin(r.seats.value, q.seats.value) && SeatsWithin(q.seats.value, r.seats.value))
    && (r.uids.Some? <==> q.uids.Some?)
    && (r.uids.Some? ==> multiset(r.uids.value) == multiset(q.uids.value))
  }

  lemma SameSeatSameUids(s: Seat, t: Seat)
    requires SameSeat(s, t)
    ensures SeatUids(s) == SeatUids(t)
  {
    if s.canGraphical > 0 && s.sessions.Some? {
      forall x: Session ensures x in s.sessions.value <==> x in t.sessions.value {
        assert x in s.sessions.value <==> x in multiset(s.sessions.value);
        assert x in t.sessions.value <==> x in multiset(t.sessions.value);
      }
    }
  }

  lemma SeatsWithinSubset(s: seq<Seat>, t: seq<Seat>)
    requires SeatsWithin(s, t)
    ensures GraphicalUids(s) <= GraphicalUids(t)
  {
    forall u | u in GraphicalUids(s) ensures u in GraphicalUids(t) {
      var x :| x in s && u in SeatUids(x);
      var y :| y in t && SameSeat(x, y);
      SameSeatSameUids(x, y);
    }
  }

  /** What is collected does not depend on the order in which logind enumerates anything. */
  lemma CollectedIgnoresOrder(r: Reading, q: Reading, held: Snapshot, held': Snapshot)
    requires SameReading(r, q) && Collected(r, held) && Collected(q, held')
    ensures held == held'
  {
    if r.seats.Some? && r.uids.Some? {
      SeatsWithinSubset(r.seats.value, q.seats.value);
      SeatsWithinSubset(q.seats.value, r.seats.value);
      IncreasingUnique(held.graphical, held'.graphical);
      NonDecreasingUnique(held.all, held'.all);
    }
  }

  /** After a successful collection a binary search answers exactly whether a user has a readable, active session
      on a readable graphical seat. */
  lemma SearchDecidesGraphical(base: int, r: Reading, held: Snapshot, u: Uid)
    requires r.seats.Some? && r.uids.Some? && UidsInWindow(base, r) && Collected(r, held)
    requires base <= u < base + TWO31
    ensures BinarySearch(held.graphical, u) <==>
            exists seat, s :: seat in r.seats.value && seat.canGraphical > 0 && seat.sessions.Some?
                              && s in seat.sessions.value && s.active > 0 && s.uid == Some(u)
  {
    forall i | 0 <= i < |held.graphical| ensures base <= held.graphical[i] < base + TWO31 {
      assert held.graphical[i] in Elements(held.graphical);
    }
    SearchDecides(base, held.graphical, u);
    assert u in held.graphical <==> u in GraphicalUids(r.seats.value) by {
      assert u in held.graphical <==> u in Elements(held.graphical);
    }
    if u in GraphicalUids(r.seats.value) {
      var seat :| seat in r.seats.value && u in SeatUids(seat);
      var s :| s in seat.sessions.value && Counts(s) && s.uid.value == u;
      assert s.uid == Some(u);
    }
    if seat, s :| seat in r.seats.value && seat.canGraphical > 0 && seat.sessions.Some?
                  && s in seat.sessions.value && s.active > 0 && s.uid == Some(u) {
      assert Counts(s) && s.uid.value in ActiveUids(seat.sessions.value);
      assert u in SeatUids(seat);
    }
  }

  // --------------------------------------------------------------- debouncing

  /** The handle `mon_delay`, and the timeout sources of the main loop with their due times. */
  datatype Debounce = Debounce(monDelay: nat, timers: map<nat, nat>, nextSource: nat)

  const QUIET_MS: nat := 100

  /** g_clear_handle_id removes the source the handle names; g_timeout_add adds a new one. */
  function Restart(d: Debounce, now: nat): Debounce {
    var rest := if d.monDelay != 0 then d.timers - {d.monDelay} else d.timers;
    Debounce(d.nextSource, rest[d.nextSource := now + QUIET_MS], d.nextSource + 1)
  }

  /** A source fires, forgets the handle and is removed by its return value. */
  function Fired(d: Debounce, source: nat): Debounce {
    d.(monDelay := 0, timers := d.timers - {source})
  }

  /** The handle names the only outstanding timer, or there is none. */
  ghost predicate OneTimer(d: Debounce) {
    && d.nextSource > 0
    && d.monDelay < d.nextSource
    && d.timers.Keys == if d.monDelay == 0 then {} else {d.monDelay}
  }

  lemma RestartKeepsOneTimer(d: Debounce, now: nat)
    requires OneTimer(d)
    ensures OneTimer(Restart(d, now))
    ensures Restart(d, now).timers == map[d.nextSource := now + 100]
  {
  }

  lemma FiredLeavesNoTimer(d: Debounce, source: nat)
    requires OneTimer(d) && source in d.timers
    ensures OneTimer(Fired(d, source)) && Fired(d, source).timers == map[]
  {
    assert source == d.monDelay;
  }

  // ------------------------------------------------------------- the monitor

  /** A GArray of user ids. */
  class UidArray {
    var elems: seq<Uid>

    constructor (elems: seq<Uid>)
      ensures this.elems == elems
    {
      this.elems := elems;
    }
  }

  lemma DistinctAppend(s: seq<Uid>, x: Uid, u: Uid)
    requires Increasing(s) && x !in s
    ensures Occurrences(s + [x], u) <= 1
  {
    IncreasingIsDistinct(s, u);
  }

  lemma AppendDistinct(s: seq<Uid>, x: Uid)
    requires Increasing(s) && x !in s
    ensures Distinct(Sort(s + [x]))
  {
    forall u ensures Occurrences(Sort(s + [x]), u) <= 1 {
      DistinctAppend(s, x, u);
    }
  }

  /** A new id in the window: appending and sorting adds exactly that id to a strictly increasing array. */
  lemma AppendAndSort(base: int, s: seq<Uid>, x: Uid)
    requires InWindow(base, s) && Increasing(s) && base <= x < base + TWO31 && x !in s
    ensures Increasing(Sort(s + [x])) && InWindow(base, Sort(s + [x]))
    ensures Elements(Sort(s + [x])) == Elements(s) + {x}
  {
    var t := s + [x];
    SortOrders(base, t);
    SameMultisetSameElements(Sort(t), t);
    AppendDistinct(s, x);
    DistinctIncreases(Sort(t));
    assert Elements(t) == Elements(s) + {x};
  }

  lemma NoteInWindow(base: int, s: seq<Uid>, x: Uid)
    requires InWindow(base, s) && Increasing(s) && base <= x < base + TWO31
    ensures Increasing(Note(s, x)) && InWindow(base, Note(s, x)) && Elements(Note(s, x)) == Elements(s) + {x}
  {
    SearchDecides(base, s, x);
    if x !in s {
      AppendAndSort(base, s, x);
    } else {
      assert Elements(s) == Elements(s) + {x};
    }
  }

  lemma ElementsSnoc(s: seq<Uid>)
    requires s != []
    ensures Elements(s) == Elements(s[..|s| - 1]) + {s[|s| - 1]}
  {
    assert s == s[..|s| - 1] + [s[|s| - 1]];
  }

  /** Inside a window, noting ids adds exactly them and keeps the array strictly increasing. */
  lemma {:induction false} NoteAllInWindow(base: int, s: seq<Uid>, uids: seq<Uid>)
    requires InWindow(base, s) && Increasing(s) && InWindow(base, uids)
    ensures
      var t := NoteAll(s, uids);
      Increasing(t) && InWindow(base, t) && Elements(t) == Elements(s) + Elements(uids)
  {
    if uids == [] {
      assert Elements([]) == {};
    } else {
      var n := |uids| - 1;
      NoteAllInWindow(base, s, uids[..n]);
      NoteInWindow(base, NoteAll(s, uids[..n]), uids[n]);
      ElementsSnoc(uids);
    }
  }

  lemma {:induction false} ListHasActive(sessions: seq<Session>)
    ensures Elements(ActiveList(sessions)) == ActiveUids(sessions)
  {
    if sessions != [] {
      var n := |sessions| - 1;
      ListHasActive(sessions[..n]);
      assert sessions == sessions[..n] + [sessions[n]];
      var last := if Counts(sessions[n]) then [sessions[n].uid.value] else [];
      assert ActiveUids(sessions) == ActiveUids(sessions[..n]) + Elements(last);
      assert Elements(ActiveList(sessions[..n]) + last) == Elements(ActiveList(sessions[..n])) + Elements(last);
    } else {
      assert Elements([]) == {};
    }
  }

  /** What a seat adds to the array. */
  lemma SeatAdds(base: int, s: seq<Uid>, seat: Seat)
    requires InWindow(base, s) && Increasing(s) && forall u :: u in SeatUids(seat) ==> base <= u < base + TWO31
    ensures
      var t := NoteAll(s, SeatList(seat));
      Increasing(t) && InWindow(base, t) && Elements(t) == Elements(s) + SeatUids(seat)
  {
    var list := SeatList(seat);
    if seat.sessions.Some? { ListHasActive(seat.sessions.value); }
    assert Elements(list) == SeatUids(seat);
    forall i | 0 <= i < |list| ensures base <= list[i] < base + TWO31 {
      assert list[i] in Elements(list);
    }
    NoteAllInWindow(base, s, list);
  }

  lemma SortAgain(base: int, s: seq<Uid>)
    requires InWindow(base, s) && Increasing(s)
    ensures Sort(s) == s
  {
    SortOrders(base, s);
    NonDecreasingUnique(Sort(s), s);
  }

  class RSdLogin {
    const graphicalUsers: UidArray
    const allUsers: UidArray
    var debounce: Debounce

    ghost predicate Valid() reads this {
      graphicalUsers != allUsers && OneTimer(debounce)
    }

    function Held(): Snapshot reads graphicalUsers, allUsers {
      Snapshot(graphicalUsers.elems, allUsers.elems)
    }

    /** Hands out the live arrays, not copies. */
    method GetUsers() returns (all: UidArray, graphical: UidArray)
      ensures all == allUsers && graphical == graphicalUsers
    {
      all, graphical := allUsers, graphicalUsers;
    }

    method LogindChanged(now: nat)
      requires Valid()
      modifies this`debounce
      ensures Valid()
      ensures debounce == Restart(old(debounce), now)
      ensures debounce.timers == map[debounce.monDelay := now + 100]
    {
      RestartKeepsOneTimer(debounce, now);
      if debounce.monDelay != 0 {
        debounce := debounce.(timers := debounce.timers - {debounce.monDelay}, monDelay := 0);
      }
      var source := debounce.nextSource;
      debounce := debounce.(timers := debounce.timers[source := now + QUIET_MS], nextSource := source + 1);
      debounce := debounce.(monDelay := source);
    }

    /** One session: skipped if it cannot be read or is not active. */
    method CollectSession(session: Session)
      modifies graphicalUsers
      ensures graphicalUsers.elems ==
        if Counts(session) then Note(old(graphicalUsers.elems), session.uid.value) else old(graphicalUsers.elems)
    {
      if session.uid.None? { return; }
      var uid := session.uid.value;
      if session.active < 0 { return; }
      if session.active == 0 { return; }
      if !BinarySearch(graphicalUsers.elems, uid) {
        graphicalUsers.elems := graphicalUsers.elems + [uid];
        graphicalUsers.elems := Sort(graphicalUsers.elems);
      }
    }

    /** One seat of the collection: its sessions in the order given, whatever the ids. */
    method CollectSeat(seat: Seat)
      modifies graphicalUsers
      ensures graphicalUsers.elems == NoteAll(old(graphicalUsers.elems), SeatList(seat))
    {
      if seat.canGraphical < 0 { return; }
      if seat.canGraphical == 0 { return; }
      if seat.sessions.None? { return; }
      var sessions := seat.sessions.value;
      for j := 0 to |sessions|
        invariant graphicalUsers.elems == NoteAll(old(graphicalUsers.elems), ActiveList(sessions[..j]))
      {
        NoteNext(old(graphicalUsers.elems), sessions, j);
        CollectSession(sessions[j]);
      }
      assert sessions[..|sessions|] == sessions;
    }

    /** Runs when the timer fires, and once at start. */
    method LogindQuiet(reading: Reading, ghost base: int)
      requires Valid() && UidsInWindow(base, reading)
      modifies this`debounce, graphicalUsers, allUsers
      ensures Valid()
      ensures debounce == (if old(debounce.monDelay) == 0 then old(debounce)
                           else Fired(old(debounce), old(debounce.monDelay)))
      ensures Collected(reading, Held())
      ensures if reading.seats.Some? && reading.uids.Some?
              then multiset(allUsers.elems) == multiset(reading.uids.value)
              else graphicalUsers.elems == [] && allUsers.elems == []
      ensures InWindow(base, graphicalUsers.elems) && InWindow(base, allUsers.elems)
    {
      if debounce.monDelay != 0 {
        FiredLeavesNoTimer(debounce, debounce.monDelay);
        debounce := debounce.(monDelay := 0, timers := debounce.timers - {debounce.monDelay});
      }
      ghost var quiet := debounce;
      assert OneTimer(quiet);
      graphicalUsers.elems := [];
      allUsers.elems := [];
      if reading.seats.None? { return; }
      var seats := reading.seats.value;
      assert Elements([]) == {} && GraphicalUids([]) == {};
      for i := 0 to |seats|
        invariant InWindow(base, graphicalUsers.elems) && Increasing(graphicalUsers.elems)
        invariant Elements(graphicalUsers.elems) == GraphicalUids(seats[..i])
        invariant allUsers.elems == [] && debounce == quiet
      {
        assert seats[..i + 1] == seats[..i] + [seats[i]];
        assert GraphicalUids(seats[..i + 1]) == GraphicalUids(seats[..i]) + SeatUids(seats[i]);
        forall u | u in SeatUids(seats[i]) ensures base <= u < base + TWO31 {
          assert seats[i] in seats && u in GraphicalUids(seats);
        }
        SeatAdds(base, graphicalUsers.elems, seats[i]);
        CollectSeat(seats[i]);
      }
      assert seats[..|seats|] == seats;
      if reading.uids.None? {
        graphicalUsers.elems := [];
        allUsers.elems := [];
        return;
      }
      assert [] + reading.uids.value == reading.uids.value;
      SortOrders(base, reading.uids.value);
      SortAgain(base, graphicalUsers.elems);
      allUsers.elems := allUsers.elems + reading.uids.value;
      allUsers.elems := Sort(allUsers.elems);
      graphicalUsers.elems := Sort(graphicalUsers.elems);
    }

    /** The object starts with an immediate collection. */
    constructor (reading: Reading, ghost base: int)
      requires UidsInWindow(base, reading)
      ensures Valid() && fresh(graphicalUsers) && fresh(allUsers)
      ensures debounce.timers == map[]
      ensures Collected(reading, Held())
      ensures InWindow(base, graphicalUsers.elems) && InWindow(base, allUsers.elems)
    {
      graphicalUsers := new UidArray([]);
      allUsers := new UidArray([]);
      debounce := Debounce(0, map[], 1);
      new;
      LogindQuiet(reading, base);
    }
  }
}
