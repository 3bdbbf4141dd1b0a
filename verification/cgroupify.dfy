/** cgroupify itself: one process into its own group, everything out of one group by chunked reads of cgroup.procs,
    and the periodic tick over all groups. Between its system calls nobody else acts here; what happens when others
    do is the subject of CgroupKernel, whose steps these methods take. */
module Cgroupify {
  import opened Options
  import opened Sets
  import opened CgroupKernel
  import opened ProcsText

  /** What goes wrong, if anything, when a given pid is moved. */
  datatype Fault = Fine | MkdirFails | WatchFails | OpenFails | WriteFails

  /** The order in which the kernel lists a set of processes at its n-th read. */
  type Order = (nat, set<Name>) -> seq<Name>

  ghost predicate Lists(l: seq<Name>, s: set<Name>) {
    (forall i, j :: 0 <= i < j < |l| ==> l[i] != l[j]) && (forall p :: p in l <==> p in s)
  }

  function Target(subgroup: Option<Name>): Group {
    match subgroup case None => Root case Some(name) => Sub(name)
  }

  function Members(s: State, g: Group): set<Name> {
    set p | p in s.group && s.group[p] == g
  }

  /** The processes a pass over a group has to move: all but the one the group is named after. */
  function Misplaced(s: State, subgroup: Option<Name>): set<Name> {
    set p | p in s.group && s.group[p] == Target(subgroup) && s.group[p] != Sub(p)
  }

  ghost predicate Ready(s: State) {
    Inv(s) && s.control.Idle? && forall p :: p in s.group ==> IsPid(p)
  }

  /** Exactly the processes of `done` moved. */
  ghost predicate Placed(s: State, t: State, done: set<Name>) {
    && t.group.Keys == s.group.Keys
    && (forall p :: p in s.group ==> t.group[p] == if p in done then Sub(p) else s.group[p])
    && t.dirs == s.dirs + done
  }

  /** The tokens of a read that are to be moved. */
  function ToMove(tokens: seq<Name>, subgroup: Option<Name>): set<Name> {
    set p | p in tokens && subgroup != Some(p)
  }

  lemma ToMoveNext(tokens: seq<Name>, subgroup: Option<Name>, i: nat)
    requires i < |tokens| && (forall a, b :: 0 <= a < b < |tokens| ==> tokens[a] != tokens[b])
    ensures ToMove(tokens[..i + 1], subgroup)
            == ToMove(tokens[..i], subgroup) + if subgroup == Some(tokens[i]) then {} else {tokens[i]}
    ensures tokens[i] !in ToMove(tokens[..i], subgroup)
  {
    assert tokens[..i + 1] == tokens[..i] + [tokens[i]];
  }

  lemma {:induction false} DistinctCount(l: seq<Name>, subgroup: Option<Name>)
    requires forall i, j :: 0 <= i < j < |l| ==> l[i] != l[j]
    ensures |l| - 1 <= |ToMove(l, subgroup)| <= |l|
    ensures (subgroup.None? || subgroup.value !in l) ==> |ToMove(l, subgroup)| == |l|
  {
    if l == [] {
      assert ToMove(l, subgroup) == {};
    } else {
      var n := |l| - 1;
      DistinctCount(l[..n], subgroup);
      ToMoveNext(l, subgroup, n);
      assert l[..n + 1] == l;
    }
  }

  /** Of m misplaced processes in the listing, one read of 1023 bytes shows all, or at least 92. */
  lemma OneReadShows(listing: seq<Name>, s: State, subgroup: Option<Name>)
    requires ArePids(listing) && Lists(listing, Members(s, Target(subgroup)))
    ensures
      var shown := ToMove(Scanned(listing, 1023), subgroup);
      shown <= Misplaced(s, subgroup)
      && (shown == Misplaced(s, subgroup) || |shown| >= 92)
  {
    var w := WholeLines(listing, BUFFER_SIZE - 1);
    PrefixYieldsWholePids(listing, BUFFER_SIZE - 1);
    WholeLinesAtLeast(listing, 93, BUFFER_SIZE - 1);
    DistinctCount(listing[..w], subgroup);
    var shown := ToMove(listing[..w], subgroup);
    forall p | p in shown ensures p in Misplaced(s, subgroup) {
      assert p in listing;
    }
    if w == |listing| {
      assert listing[..w] == listing;
      assert shown == Misplaced(s, subgroup);
    }
  }

  lemma TokensAreMembers(listing: seq<Name>, s: State, subgroup: Option<Name>)
    requires ArePids(listing) && Lists(listing, Members(s, Target(subgroup)))
    ensures AllIn(Scanned(listing, BUFFER_SIZE - 1), s)
  {
    PrefixYieldsWholePids(listing, BUFFER_SIZE - 1);
    var tokens := Scanned(listing, BUFFER_SIZE - 1);
    forall a | 0 <= a < |tokens| ensures tokens[a] in s.group {
      assert tokens[a] == listing[a] && listing[a] in listing;
    }
  }

  /** What a pass has done when it has dealt with the first i tokens. */
  ghost predicate Dealt(s0: State, t: State, tokens: seq<Name>, i: nat, subgroup: Option<Name>, done: set<Name>) {
    && i <= |tokens|
    && Ready(t) && Placed(s0, t, done) && done !! s0.dirs
    && done == ToMove(tokens[..i], subgroup)
  }

  /** The tokens are distinct live processes. */
  ghost predicate AllIn(tokens: seq<Name>, s: State) {
    && (forall a, b :: 0 <= a < b < |tokens| ==> tokens[a] != tokens[b])
    && (forall a :: 0 <= a < |tokens| ==> tokens[a] in s.group)
  }

  /** The scan at a given rest of the text has the tokens from i on before it. */
  ghost predicate Ahead(rest: string, tokens: seq<Name>, i: nat) {
    i <= |tokens| && Tokens(rest) == tokens[i..]
  }

  lemma AheadNext(rest: string, tokens: seq<Name>, i: nat)
    requires Ahead(rest, tokens, i)
    ensures
      var n := NewlineFrom(rest, 0);
      if n == |rest| || n == 0 then i == |tokens|
      else i < |tokens| && tokens[i] == rest[..n] && Ahead(rest[n + 1..], tokens, i + 1)
  {
    var n := NewlineFrom(rest, 0);
    if n != |rest| && n != 0 {
      assert Tokens(rest) == [rest[..n]] + Tokens(rest[n + 1..]);
      assert tokens[i] == tokens[i..][0];
      assert tokens[i + 1..] == tokens[i..][1..];
    }
  }

  /** A pass between two turns. */
  ghost predicate Passing(buf: seq<char>, pid: nat, found: nat, s0: State, t: State, rest: string, tokens: seq<Name>,
                          i: nat, subgroup: Option<Name>, done: set<Name>)
  {
    && Rest(buf, pid, rest) && Ahead(rest, tokens, i)
    && Dealt(s0, t, tokens, i, subgroup, done) && found == |done|
  }

  lemma PassStarts(buf: seq<char>, s: State, rest: string, tokens: seq<Name>, subgroup: Option<Name>)
    requires Ready(s) && Rest(buf, 0, rest) && tokens == Tokens(rest)
    ensures Passing(buf, 0, 0, s, s, rest, tokens, 0, subgroup, {})
  {
    assert tokens[0..] == tokens;
    assert ToMove(tokens[..0], subgroup) == {};
  }

  /** Since s0 exactly `done` was placed, out of the misplaced, and the others still are misplaced. */
  ghost predicate Progress(s0: State, t: State, subgroup: Option<Name>, done: set<Name>) {
    && Ready(t) && Placed(s0, t, done) && done !! s0.dirs
    && done <= Misplaced(s0, subgroup)
    && Misplaced(t, subgroup) == Misplaced(s0, subgroup) - done
  }

  /** Two passes in a row place the union, and what is left is what neither placed. */
  lemma PassAfterPass(s0: State, s1: State, s2: State, subgroup: Option<Name>, done: set<Name>, more: set<Name>)
    requires Progress(s0, s1, subgroup, done) && Ready(s2)
    requires Placed(s1, s2, more) && more !! s1.dirs && more <= Misplaced(s1, subgroup)
    ensures Progress(s0, s2, subgroup, done + more)
    ensures |done + more| == |done| + |more|
  {
    assert done !! more;
    forall p ensures p in Misplaced(s2, subgroup) <==> p in Misplaced(s0, subgroup) - (done + more) {
      assert p in s2.group <==> p in s1.group;
      assert p in s1.group <==> p in s0.group;
      assert p in Misplaced(s1, subgroup) <==> p in Misplaced(s0, subgroup) - done;
    }
  }

  /** A read that shows everything left or 92 processes, all of them placed, finishes or advances by 92. */
  lemma ShownAllPlaced(s0: State, s1: State, subgroup: Option<Name>, done: set<Name>, shown: set<Name>)
    requires Progress(s0, s1, subgroup, done)
    requires shown <= Misplaced(s1, subgroup) && (shown == Misplaced(s1, subgroup) || |shown| >= 92)
    ensures |shown| == 0 <==> done == Misplaced(s0, subgroup)
    ensures done + shown == Misplaced(s0, subgroup) || |shown| >= 92
  {
    var all := Misplaced(s0, subgroup);
    SubsetCount(done, all);
    if shown == all - done {
      assert done + shown == all;
    }
  }

  class Mover {
    var k: State
    const fault: Name -> Fault

    constructor (k: State, fault: Name -> Fault)
      ensures this.k == k && this.fault == fault
    {
      this.k := k;
      this.fault := fault;
    }

    /** Takes one step of the transition system. */
    method Do(e: Step, ghost from: State, ghost before: seq<Step>) returns (ghost steps: seq<Step>)
      requires Inv(k) && Enabled(k, e)
      requires EnabledRun(from, before) && Run(from, before) == k
      modifies this`k
      ensures k == Next(old(k), e) && Inv(k)
      ensures EnabledRun(from, steps) && Run(from, steps) == k
    {
      StepInv(k, e);
      OneStep(k, e);
      RunConcat(from, before, [e]);
      k := Next(k, e);
      steps := before + [e];
    }

    /** The steps it takes are a run of the transition system. A pid whose directory exists is left alone; one that
        can be moved ends up in its own, watched group; one that is gone, or whose move fails, leaves no directory
        behind. */
    method MoveToSubgroup(pid: Name) returns (r: int, ghost steps: seq<Step>)
      requires Inv(k) && k.control.Idle?
      modifies this`k
      ensures Inv(k) && k.control.Idle?
      ensures EnabledRun(old(k), steps) && Run(old(k), steps) == k
      ensures pid in old(k.dirs) || fault(pid) == MkdirFails ==> r < 0 && k == old(k)
      ensures pid !in old(k.dirs) && fault(pid) == Fine ==> r == 0
      ensures pid !in old(k.dirs) && fault(pid) == Fine && pid in old(k.group) ==>
                k.group == old(k.group)[pid := Sub(pid)]
                && k.dirs == old(k.dirs) + {pid} && k.created == old(k.created) + {pid}
      ensures pid !in old(k.dirs) && (fault(pid) != Fine || pid !in old(k.group)) ==>
                k.group == old(k.group) && k.dirs == old(k.dirs) && k.created == old(k.created)
      ensures fault(pid) != Fine && pid in old(k.group) ==> r < 0
    {
      ghost var from := k;
      steps := [];
      assert pid !in k.dirs ==> !Populated(k.group, pid);
      var exists_ := pid in k.dirs;
      steps := Do(Mkdir(pid, fault(pid) == MkdirFails), from, steps);
      if fault(pid) == MkdirFails || exists_ {
        return -1, steps;
      }
      r, steps := Fill(pid, from, steps);
      assert fault(pid) == Fine && pid in from.group ==> pid in k.group && k.group[pid] == Sub(pid);
      steps := TryRemove(pid, from, steps);
    }

    /** Adds the watch, then writes the pid: the group is watched before anything can be in it. */
    method Fill(pid: Name, ghost from: State, ghost before: seq<Step>) returns (r: int, ghost steps: seq<Step>)
      requires Inv(k) && k.control == Made(pid) && fault(pid) != MkdirFails
      requires EnabledRun(from, before) && Run(from, before) == k
      modifies this`k
      ensures Inv(k) && k.control == Leaving(pid) && k.dirs == old(k.dirs) && k.created == old(k.created)
      ensures EnabledRun(from, steps) && Run(from, steps) == k
      ensures if fault(pid) == Fine && pid in old(k.group)
              then k.group == old(k.group)[pid := Sub(pid)] && r == 0
              else k.group == old(k.group)
      ensures fault(pid) == Fine ==> r == 0
      ensures fault(pid) != Fine && pid in old(k.group) ==> r < 0
    {
      steps := Do(AddWatch(fault(pid) == WatchFails), from, before);
      if fault(pid) == WatchFails { return -1, steps; }
      if fault(pid) == OpenFails {
        steps := Do(OpenFailed, from, steps);
        return -1, steps;
      }
      // ESRCH is expected and no error.
      r := if fault(pid) == WriteFails && pid in k.group then -1 else 0;
      steps := Do(Write(fault(pid) == WriteFails), from, steps);
    }

    /** Removes the group again if it is empty, and then its watch too. */
    method TryRemove(pid: Name, ghost from: State, ghost before: seq<Step>) returns (ghost steps: seq<Step>)
      requires Inv(k) && k.control == Leaving(pid)
      requires EnabledRun(from, before) && Run(from, before) == k
      modifies this`k
      ensures Inv(k) && k.control.Idle? && k.group == old(k.group)
      ensures EnabledRun(from, steps) && Run(from, steps) == k
      ensures if Populated(k.group, pid) then k.dirs == old(k.dirs) && k.created == old(k.created)
              else k.dirs == old(k.dirs) - {pid} && k.created == old(k.created) - {pid}
    {
      steps := Do(Unlink, from, before);
      if k.control.Closing? {
        steps := Do(Disable, from, steps);
      }
    }

    // ---------------------------------------------------------- one read

    /** read(2): the first bytes of the file; the rest of the zeroed buffer stays zero. */
    static method ReadInto(buf: array<char>, text: string)
      requires buf.Length == BUFFER_SIZE && forall i :: 0 <= i < BUFFER_SIZE ==> buf[i] == '\0'
      requires forall i :: 0 <= i < |text| ==> text[i] != '\0'
      modifies buf
      ensures Rest(buf[..], 0, Prefix(text, BUFFER_SIZE - 1))
    {
      var n := if |text| <= BUFFER_SIZE - 1 then |text| else BUFFER_SIZE - 1;
      for i := 0 to n
        invariant forall j :: 0 <= j < i ==> buf[j] == text[j]
        invariant forall j :: i <= j < BUFFER_SIZE ==> buf[j] == '\0'
      {
        buf[i] := text[i];
      }
    }

    /** One token of a read, given what was placed since s0. */
    method MoveToken(pid: Name, ghost s0: State, ghost done: set<Name>) returns (r: int)
      requires Ready(k) && Placed(s0, k, done) && done !! s0.dirs
      requires pid in s0.group && pid !in done
      modifies this`k
      ensures Ready(k)
      ensures r >= 0 ==> pid !in s0.dirs && fault(pid) == Fine && Placed(s0, k, done + {pid})
      ensures r < 0 ==> Placed(s0, k, done) && (pid in s0.dirs || fault(pid) != Fine)
    {
      ghost var steps;
      r, steps := MoveToSubgroup(pid);
    }

    /** Nothing goes wrong with any of these. */
    ghost predicate AllFine(done: set<Name>) {
      forall p :: p in done ==> fault(p) == Fine
    }

    /** Not everything shown was moved: some process shown has a directory already, or something went wrong. */
    ghost predicate Stopped(s0: State, tokens: seq<Name>, subgroup: Option<Name>, done: set<Name>) {
      && done < ToMove(tokens, subgroup)
      && exists p :: p in ToMove(tokens, subgroup) && (p in s0.dirs || fault(p) != Fine)
    }

    /** The next token of the scan; none, or an empty one, ends it. */
    method Scan(buf: array<char>, pid: nat, ghost rest: string, ghost tokens: seq<Name>, ghost i: nat)
      returns (more: bool, token: string, next: nat)
      requires Rest(buf[..], pid, rest) && Ahead(rest, tokens, i)
      modifies buf
      ensures !more ==> i == |tokens|
      ensures more ==> i < |tokens| && tokens[i] == token && |token| + 1 <= |rest|
                       && Rest(buf[..], next, rest[|token| + 1..]) && Ahead(rest[|token| + 1..], tokens, i + 1)
    {
      AheadNext(rest, tokens, i);
      more, token, next := NextToken(buf, pid, rest);
      if more && token == "" {
        more := false;
      }
    }

    /** Deals with the i-th token: the group's own process stays and is not counted. */
    method DealWith(subgroup: Option<Name>, pid: Name, ghost s0: State, ghost tokens: seq<Name>, ghost i: nat,
                    ghost done: set<Name>)
      returns (counted: bool, r: int, ghost done': set<Name>)
      requires Dealt(s0, k, tokens, i, subgroup, done) && i < |tokens| && tokens[i] == pid && AllIn(tokens, s0)
      requires AllFine(done)
      modifies this`k
      ensures AllFine(done')
      ensures r >= 0 ==> Dealt(s0, k, tokens, i + 1, subgroup, done') && |done'| == |done| + if counted then 1 else 0
      ensures r < 0 ==> counted && Dealt(s0, k, tokens, i, subgroup, done') && Stopped(s0, tokens, subgroup, done')
    {
      ToMoveNext(tokens, subgroup, i);
      if subgroup == Some(pid) {
        return false, 0, done;
      }
      r := MoveToken(pid, s0, done);
      if r < 0 {
        assert pid in tokens;
        assert pid in ToMove(tokens, subgroup) && done <= ToMove(tokens, subgroup);
        return true, r, done;
      }
      return true, r, done + {pid};
    }

    /** One turn of the scan: the next token, if any, and its process dealt with. */
    method Turn(subgroup: Option<Name>, buf: array<char>, pid: nat, found: nat,
                ghost s0: State, ghost rest: string, ghost tokens: seq<Name>, ghost i: nat, ghost done: set<Name>)
      returns (more: bool, r: int, next: nat, found': nat, ghost rest': string, ghost done': set<Name>)
      requires Passing(buf[..], pid, found, s0, k, rest, tokens, i, subgroup, done) && AllIn(tokens, s0)
      requires AllFine(done)
      modifies this`k, buf
      ensures AllFine(done')
      ensures !more ==> Dealt(s0, k, tokens, |tokens|, subgroup, done') && found' == |done'|
      ensures more && r >= 0 ==>
                i < |tokens| && Passing(buf[..], next, found', s0, k, rest', tokens, i + 1, subgroup, done')
      ensures more && r < 0 ==>
                found' > 0 && Dealt(s0, k, tokens, i, subgroup, done') && Stopped(s0, tokens, subgroup, done')
    {
      var token: string;
      more, token, next := Scan(buf, pid, rest, tokens, i);
      if !more {
        return false, 0, pid, found, rest, done;
      }
      var counted: bool;
      counted, r, done' := DealWith(subgroup, token, s0, tokens, i, done);
      found' := if counted then found + 1 else found;
      rest' := rest[|token| + 1..];
    }

    /** A zeroed buffer with the start of the file in it. */
    static method ReadProcs(listing: seq<Name>) returns (buf: array<char>)
      requires ArePids(listing)
      ensures fresh(buf) && Rest(buf[..], 0, Prefix(Text(listing), 1023))
    {
      buf := new char[BUFFER_SIZE](_ => '\0');
      TextHasNoNul(listing);
      ReadInto(buf, Text(listing));
    }

    /** Reads once and moves every process shown, stopping at the first that fails. */
    method ReadPass(subgroup: Option<Name>, listing: seq<Name>) returns (found: nat, result: int, ghost done: set<Name>)
      requires Ready(k) && ArePids(listing) && Lists(listing, Members(k, Target(subgroup)))
      modifies this`k
      ensures Ready(k) && done !! old(k.dirs) && Placed(old(k), k, done) && AllFine(done)
      ensures
        var shown := ToMove(Scanned(listing, 1023), subgroup);
        if result >= 0 then done == shown && found == |done|
        else found > 0 && Stopped(old(k), Scanned(listing, 1023), subgroup, done)
    {
      ghost var s0 := k;
      var buf := ReadProcs(listing);
      ghost var rest := Prefix(Text(listing), BUFFER_SIZE - 1);
      ghost var tokens, i := Scanned(listing, BUFFER_SIZE - 1), 0;
      TokensAreMembers(listing, k, subgroup);
      var pid := 0;
      var more := true;
      found, result, done := 0, 0, {};
      PassStarts(buf[..], k, rest, tokens, subgroup);
      while more
        invariant more ==> Passing(buf[..], pid, found, s0, k, rest, tokens, i, subgroup, done)
        invariant AllFine(done)
        invariant !more ==> Dealt(s0, k, tokens, |tokens|, subgroup, done) && found == |done| && result >= 0
        decreases more, |tokens| - i
      {
        more, result, pid, found, rest, done := Turn(subgroup, buf, pid, found, s0, rest, tokens, i, done);
        if !more {
          result := 0;
        } else if result < 0 {
          return;
        }
        i := i + 1;
      }
      assert tokens[..|tokens|] == tokens;
    }

    // ------------------------------------------------------- one group

    /** Some misplaced process has a directory already, or something goes wrong with it. */
    ghost predicate Blocked(s0: State, subgroup: Option<Name>) {
      exists p :: p in Misplaced(s0, subgroup) && (p in s0.dirs || fault(p) != Fine)
    }

    /** One round: it finds something exactly when something is left, and then places 92 more, or all. */
    method Round(subgroup: Option<Name>, listing: seq<Name>, ghost s0: State, ghost done: set<Name>)
      returns (found: nat, r: int, ghost done': set<Name>)
      requires Progress(s0, k, subgroup, done) && Lists(listing, Members(k, Target(subgroup))) && AllFine(done)
      modifies this`k
      ensures Progress(s0, k, subgroup, done') && |done'| >= |done| && AllFine(done')
      ensures r >= 0 ==> (found == 0 <==> done == Misplaced(s0, subgroup))
      ensures r >= 0 ==> done' == Misplaced(s0, subgroup) || |done'| >= |done| + 92
      ensures r < 0 ==> Blocked(s0, subgroup)
    {
      ghost var before := k;
      MembersArePids(listing, k, subgroup);
      OneReadShows(listing, k, subgroup);
      ghost var tokens := Scanned(listing, BUFFER_SIZE - 1);
      ghost var more;
      found, r, more := ReadPass(subgroup, listing);
      PassAfterPass(s0, before, k, subgroup, done, more);
      done' := done + more;
      if r < 0 {
        StoppedMeansBlocked(s0, before, tokens, subgroup, done, more);
      } else {
        ShownAllPlaced(s0, before, subgroup, done, ToMove(tokens, subgroup));
      }
    }

    lemma StoppedMeansBlocked(s0: State, s1: State, tokens: seq<Name>, subgroup: Option<Name>, done: set<Name>,
                              more: set<Name>)
      requires Progress(s0, s1, subgroup, done) && Stopped(s1, tokens, subgroup, more)
      requires ToMove(tokens, subgroup) <= Misplaced(s1, subgroup)
      ensures Blocked(s0, subgroup)
    {
      var p :| p in ToMove(tokens, subgroup) && (p in s1.dirs || fault(p) != Fine);
      assert p in Misplaced(s1, subgroup);
    }

    /** The group is gone before anything is read of it. */
    ghost predicate Gone(s0: State, subgroup: Option<Name>) { subgroup.Some? && subgroup.value !in s0.dirs }

    /** A blocked process is never among the placed. */
    lemma BlockedStays(s0: State, t: State, subgroup: Option<Name>, done: set<Name>)
      requires Progress(s0, t, subgroup, done) && AllFine(done) && Blocked(s0, subgroup)
      ensures done != Misplaced(s0, subgroup) && Misplaced(t, subgroup) != {}
    {
      var p :| p in Misplaced(s0, subgroup) && (p in s0.dirs || fault(p) != Fine);
      assert p !in done;
      assert p in Misplaced(t, subgroup);
    }

    /** Moves every process of a group (the root group for None) into its own, reading until a read shows none. It
        fails if and only if the group is gone or one of the misplaced processes has a directory already or cannot be
        moved. Otherwise every misplaced process is placed; with n of them that takes at most n / 92 + 2 reads. */
    method MovePidsToSubgroups(subgroup: Option<Name>, order: Order)
      returns (result: int, rounds: nat, ghost done: set<Name>)
      requires Ready(k) && forall n, s :: Lists(order(n, s), s)
      modifies this`k
      ensures Progress(old(k), k, subgroup, done)
      ensures result == 0 ==> done == Misplaced(old(k), subgroup) && rounds <= |done| / 92 + 2
      ensures result != 0 <==> Blocked(old(k), subgroup) || Gone(old(k), subgroup)
      ensures AllFine(done)
    {
      ghost var s0 := k;
      ghost var all := Misplaced(k, subgroup);
      rounds, done := 0, {};
      assert all - {} == all;
      while true
        invariant Progress(s0, k, subgroup, done) && AllFine(done)
        invariant if rounds == 0 then done == {} else !Gone(s0, subgroup)
        invariant done == all || |done| >= 92 * rounds
        invariant rounds == 0 || 92 * (rounds - 1) < |all|
        decreases done != all, |all| - |done|
      {
        SubsetCount(done, all);
        if subgroup.Some? && subgroup.value !in k.dirs {
          return -1, rounds, done;
        }
        var listing := order(rounds, Members(k, Target(subgroup)));
        rounds := rounds + 1;
        var found, r;
        ghost var was := done;
        found, r, done := Round(subgroup, listing, s0, done);
        SubsetCount(done, all);
        if r < 0 {
          return r, rounds, done;
        }
        if found == 0 {
          if Blocked(s0, subgroup) { BlockedStays(s0, k, subgroup, done); }
          break;
        }
        assert was != all ==> |was| < |all|;
      }
      result := 0;
    }

    // ------------------------------------------------------ the whole unit

    /** The start: everything out of the root group. Success leaves no process there, as enabling a controller for
        the child groups demands; it comes if and only if no process of the root group is blocked. */
    method EmptyRoot(order: Order) returns (ok: bool)
      requires Ready(k) && forall n, s :: Lists(order(n, s), s)
      modifies this`k
      ensures Ready(k) && k.group.Keys == old(k.group.Keys)
      ensures ok <==> forall p :: p in k.group ==> k.group[p] != Root
      ensures ok <==> !Blocked(old(k), None)
    {
      ghost var s0 := k;
      var result, rounds: nat;
      ghost var done;
      result, rounds, done := MovePidsToSubgroups(None, order);
      RootIsMisplaced(k);
      if result != 0 {
        BlockedStays(s0, k, None, done);
        return false;
      }
      return true;
    }

    lemma RootIsMisplaced(s: State)
      ensures Misplaced(s, None) == {} <==> forall p :: p in s.group ==> s.group[p] != Root
    {
      forall p | p in s.group && s.group[p] == Root ensures Misplaced(s, None) != {} {
        assert p in Misplaced(s, None);
      }
    }

    /** Nothing stands in the way of any move. */
    ghost predicate Clear(s: State) {
      NoneBlocked(s) && forall p :: p in s.group ==> fault(p) == Fine
    }

    /** One directory of the tick. */
    method WalkEntry(e: Entry, order: Order, ghost s0: State, ghost before: seq<Entry>, ghost done: set<Name>)
      returns (ghost done': set<Name>)
      requires Ready(k) && (forall n, s :: Lists(order(n, s), s)) && Walked(e) && e.name in s0.dirs
      requires TickInv(s0, k, before, done, Clear(s0))
      modifies this`k
      ensures Ready(k) && TickInv(s0, k, before + [e], done', Clear(s0))
    {
      ghost var t := k;
      var result, rounds: nat;
      ghost var more;
      result, rounds, more := MovePidsToSubgroups(Some(e.name), order);
      assert Clear(s0) ==> !Blocked(t, Some(e.name));
      TickStep(s0, t, k, before, e, done, more, Clear(s0));
      done' := done + more;
    }

    /** The periodic tick: every directory found at its start, one after the other, whatever the result. If nothing
        fails, it leaves every process in its own group if and only if no process that had to move found a directory
        of its name already there. */
    method MovePidsFromSubgroups(entries: seq<Entry>, order: Order)
      requires Ready(k) && (forall n, s :: Lists(order(n, s), s)) && Scandir(entries, k.dirs)
      modifies this`k
      ensures Ready(k) && k.group.Keys == old(k.group.Keys)
      ensures forall p :: p in old(k.group) ==> k.group[p] == old(k.group)[p] || k.group[p] == Sub(p)
      ensures Clear(old(k)) && (forall p :: p in old(k.group) ==> old(k.group)[p] != Root) ==>
                forall p :: p in k.group ==> k.group[p] == Sub(p)
      ensures (forall p :: p in k.group ==> k.group[p] == Sub(p)) ==> NoneBlocked(old(k))
    {
      ghost var s0 := k;
      ghost var done: set<Name> := {};
      for i := 0 to |entries|
        invariant Ready(k) && TickInv(s0, k, entries[..i], done, Clear(s0))
      {
        assert entries[..i + 1] == entries[..i] + [entries[i]];
        var e := entries[i];
        if !e.isDir { continue; }
        if e.name != "" && e.name[0] == '.' { continue; }
        assert e in entries;
        done := WalkEntry(e, order, s0, entries[..i], done);
      }
      assert entries[..|entries|] == entries;
      TickDone(s0, k, entries, done, Clear(s0));
    }
  }

  datatype Entry = Entry(name: Name, isDir: bool)

  /** The entries of the unit's directory: its subdirectories, which cgroupfs never names with a leading dot, and
      files, and the two dot entries. */
  ghost predicate Scandir(entries: seq<Entry>, dirs: set<Name>) {
    && (forall d :: d in dirs ==> d == "" || d[0] != '.')
    && (forall d :: d in dirs ==> Entry(d, true) in entries)
    && (forall e :: e in entries && e.isDir ==> e.name in dirs || (e.name != "" && e.name[0] == '.'))
  }

  /** No process that has to move finds a directory of its name. */
  ghost predicate NoneBlocked(s: State) {
    forall p :: p in s.group && s.group[p] != Sub(p) ==> p !in s.dirs
  }

  /** An entry the tick does not skip. */
  predicate Walked(e: Entry) {
    e.isDir && !(e.name != "" && e.name[0] == '.')
  }

  /** The group of p was walked. */
  ghost predicate GroupWalked(s0: State, entries: seq<Entry>, p: Name)
    requires p in s0.group
  {
    s0.group[p].Sub? && Walked(Entry(s0.group[p].name, true)) && Entry(s0.group[p].name, true) in entries
  }

  /** The tick so far: only misplaced processes moved, and if the way is clear, every process of the groups walked
      so far is in its own. */
  ghost predicate TickInv(s0: State, t: State, entries: seq<Entry>, done: set<Name>, clear: bool) {
    && Placed(s0, t, done) && done !! s0.dirs
    && (forall p :: p in done ==> p in s0.group && s0.group[p] != Sub(p))
    && (clear ==> forall p :: p in s0.group && GroupWalked(s0, entries, p) ==> t.group[p] == Sub(p))
  }

  lemma TickStep(s0: State, t: State, u: State, entries: seq<Entry>, e: Entry, done: set<Name>, more: set<Name>,
                 clear: bool)
    requires TickInv(s0, t, entries, done, clear) && Progress(t, u, Some(e.name), more) && Walked(e)
    requires clear ==> more == Misplaced(t, Some(e.name))
    ensures TickInv(s0, u, entries + [e], done + more, clear)
  {
    forall p | p in more ensures p in s0.group && s0.group[p] != Sub(p) && p !in done {
      assert p in Misplaced(t, Some(e.name));
    }
    if clear {
      forall p | p in s0.group && GroupWalked(s0, entries + [e], p) ensures u.group[p] == Sub(p) {
        if !GroupWalked(s0, entries, p) {
          assert s0.group[p] == Sub(e.name);
          assert t.group[p] == Sub(p) || p in Misplaced(t, Some(e.name));
        }
      }
    }
  }

  lemma TickDone(s0: State, t: State, entries: seq<Entry>, done: set<Name>, clear: bool)
    requires TickInv(s0, t, entries, done, clear) && Inv(s0) && Scandir(entries, s0.dirs)
    ensures clear && (forall p :: p in s0.group ==> s0.group[p] != Root) ==>
              forall p :: p in t.group ==> t.group[p] == Sub(p)
    ensures (forall p :: p in t.group ==> t.group[p] == Sub(p)) ==> NoneBlocked(s0)
  {
    if clear && forall p :: p in s0.group ==> s0.group[p] != Root {
      forall p | p in t.group ensures t.group[p] == Sub(p) {
        assert p in s0.group && s0.group[p] != Root;
        assert s0.group[p].name in s0.dirs;
        assert GroupWalked(s0, entries, p);
      }
    }
    if forall p :: p in t.group ==> t.group[p] == Sub(p) {
      forall p | p in s0.group && s0.group[p] != Sub(p) ensures p !in s0.dirs {
        assert p in t.group;
        assert p in done;
      }
    }
  }

  lemma MembersArePids(listing: seq<Name>, s: State, subgroup: Option<Name>)
    requires Ready(s) && Lists(listing, Members(s, Target(subgroup)))
    ensures ArePids(listing)
  {
    forall i | 0 <= i < |listing| ensures IsPid(listing[i]) {
      assert listing[i] in listing;
    }
  }
}
