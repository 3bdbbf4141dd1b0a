/** The text of cgroup.procs, and what a scan for newlines makes of the first bytes of it. */
module ProcsText {
  import opened Chars

  const BUFFER_SIZE: nat := 1024
  const MAX_DIGITS: nat := 10

  /** A pid in decimal, at most ten digits. */
  predicate IsPid(s: string) {
    1 <= |s| <= MAX_DIGITS && AllDigits(s)
  }

  predicate ArePids(pids: seq<string>) {
    forall i :: 0 <= i < |pids| ==> IsPid(pids[i])
  }

  /** One pid per line, each line ended by a newline. */
  function Text(pids: seq<string>): string {
    if pids == [] then "" else pids[0] + "\n" + Text(pids[1..])
  }

  /** The index of the first newline at or after `from`, or the length if there is none. */
  function NewlineFrom(s: string, from: nat): (k: nat)
    requires from <= |s|
    ensures from <= k <= |s|
    ensures k < |s| ==> s[k] == '\n'
    ensures forall j :: from <= j < k ==> s[j] != '\n'
    decreases |s| - from
  {
    if from == |s| || s[from] == '\n' then from else NewlineFrom(s, from + 1)
  }

  /** The tokens of a scan: the text before each newline, up to the first empty line. What follows the last newline
      is not a token. */
  function Tokens(s: string): seq<string>
    decreases |s|
  {
    var k := NewlineFrom(s, 0);
    if k == |s| || k == 0 then [] else [s[..k]] + Tokens(s[k + 1..])
  }

  /** How many whole lines fit in the first k bytes. */
  function WholeLines(pids: seq<string>, k: nat): (n: nat)
    ensures n <= |pids|
  {
    if pids == [] || k < |pids[0]| + 1 then 0 else 1 + WholeLines(pids[1..], k - |pids[0]| - 1)
  }

  function Prefix(s: string, k: nat): string { if |s| <= k then s else s[..k] }

  /** The first line of a cut text: a token if its newline is inside, otherwise nothing is. */
  lemma FirstLine(p: string, rest: string, k: nat)
    requires IsPid(p)
    ensures
      var s := Prefix(p + "\n" + rest, k);
      Tokens(s) == if k < |p| + 1 then [] else [p] + Tokens(Prefix(rest, k - |p| - 1))
  {
    var t := p + "\n" + rest;
    var s := Prefix(t, k);
    assert forall i :: 0 <= i < |p| ==> t[i] == p[i];
    assert t[|p|] == '\n';
    if k < |p| + 1 {
      assert forall i :: 0 <= i < |s| ==> s[i] == p[i] && IsDigit(p[i]);
      assert NewlineFrom(s, 0) == |s|;
    } else {
      assert s[|p|] == '\n';
      assert forall i :: 0 <= i < |p| ==> s[i] == p[i] && IsDigit(p[i]);
      assert NewlineFrom(s, 0) == |p|;
      assert s[..|p|] == p;
      assert s[|p| + 1..] == Prefix(rest, k - |p| - 1);
    }
  }

  /** What a scan sees of the first k bytes of the text. */
  function Scanned(pids: seq<string>, k: nat): seq<string> {
    Tokens(Prefix(Text(pids), k))
  }

  lemma CutText(pids: seq<string>, k: nat)
    requires ArePids(pids)
    ensures Scanned(pids, k) ==
            if pids == [] || k < |pids[0]| + 1 then []
            else [pids[0]] + Scanned(pids[1..], k - |pids[0]| - 1)
  {
    if pids != [] {
      assert IsPid(pids[0]);
      var p, rest := pids[0], Text(pids[1..]);
      assert Text(pids) == p + "\n" + rest;
      FirstLine(p, rest, k);
    }
  }

  /** A prefix of the text, wherever it is cut, yields exactly the pids whose lines it has whole: never part of a
      pid, none left out, in order. */
  lemma {:induction false} PrefixYieldsWholePids(pids: seq<string>, k: nat)
    requires ArePids(pids)
    ensures Scanned(pids, k) == pids[..WholeLines(pids, k)]
  {
    CutText(pids, k);
    if pids != [] && k >= |pids[0]| + 1 {
      var n := WholeLines(pids, k);
      assert ArePids(pids[1..]);
      PrefixYieldsWholePids(pids[1..], k - |pids[0]| - 1);
      assert pids[..n] == [pids[0]] + pids[1..][..n - 1];
    }
  }

  /** Every pid takes at most eleven bytes, so m lines fit in 11 m bytes. */
  lemma {:induction false} WholeLinesAtLeast(pids: seq<string>, m: nat, k: nat)
    requires ArePids(pids) && k >= 11 * m
    ensures WholeLines(pids, k) >= if |pids| < m then |pids| else m
  {
    if pids != [] && m > 0 {
      assert IsPid(pids[0]);
      assert ArePids(pids[1..]);
      WholeLinesAtLeast(pids[1..], m - 1, k - |pids[0]| - 1);
    }
  }

  lemma {:induction false} TextHasNoNul(pids: seq<string>)
    requires ArePids(pids)
    ensures forall i :: 0 <= i < |Text(pids)| ==> Text(pids)[i] != '\0'
  {
    if pids != [] {
      assert ArePids(pids[1..]) && IsPid(pids[0]);
      TextHasNoNul(pids[1..]);
    }
  }

  /** The whole text yields every pid. */
  lemma {:induction false} RoundTrip(pids: seq<string>)
    requires ArePids(pids)
    ensures Tokens(Text(pids)) == pids
  {
    PrefixYieldsWholePids(pids, |Text(pids)|);
    AllLinesFit(pids);
    assert pids[..|pids|] == pids;
  }

  lemma {:induction false} AllLinesFit(pids: seq<string>)
    ensures WholeLines(pids, |Text(pids)|) == |pids|
  {
    if pids != [] { AllLinesFit(pids[1..]); }
  }

  // -------------------------------------------------------- the scan in place

  /** strchr on a zero-terminated buffer: the first newline before the next NUL. */
  method StrChrNewline(buf: array<char>, from: nat) returns (found: bool, at: nat)
    requires from < buf.Length && exists z :: from <= z < buf.Length && buf[z] == '\0'
    ensures found ==> from <= at < buf.Length && buf[at] == '\n'
                      && forall j :: from <= j < at ==> buf[j] != '\n' && buf[j] != '\0'
    ensures !found ==> exists z :: from <= z < buf.Length && buf[z] == '\0'
                                   && forall j :: from <= j < z ==> buf[j] != '\n' && buf[j] != '\0'
  {
    at := from;
    while buf[at] != '\0'
      invariant from <= at < buf.Length
      invariant forall j :: from <= j < at ==> buf[j] != '\n' && buf[j] != '\0'
      decreases buf.Length - at
    {
      if buf[at] == '\n' { return true, at; }
      at := at + 1;
    }
    return false, at;
  }

  /** What the program knows of the buffer while it scans: the rest from `pid` on is still the text, followed by
      zeroes up to the end. */
  predicate Rest(buf: seq<char>, pid: nat, text: string) {
    && pid + |text| < |buf|
    && buf[pid..pid + |text|] == text
    && (forall i :: pid + |text| <= i < |buf| ==> buf[i] == '\0')
    && (forall i :: 0 <= i < |text| ==> text[i] != '\0')
  }

  /** One turn of the scan: the next token, terminated in place, and the rest behind it. */
  method NextToken(buf: array<char>, pid: nat, ghost text: string) returns (found: bool, token: string, next: nat)
    requires Rest(buf[..], pid, text)
    modifies buf
    ensures found <==> NewlineFrom(text, 0) < |text|
    ensures found ==> token == text[..NewlineFrom(text, 0)] && next == pid + |token| + 1
                      && Rest(buf[..], next, text[|token| + 1..])
  {
    ghost var k := NewlineFrom(text, 0);
    assert buf[pid + |text|] == '\0';
    assert forall i :: 0 <= i < |text| ==> buf[pid + i] == text[i] by {
      assert forall i :: 0 <= i < |text| ==> buf[..][pid..pid + |text|][i] == text[i];
    }
    var at: nat;
    found, at := StrChrNewline(buf, pid);
    token, next := "", pid;
    if found {
      assert at == pid + k;
      token := buf[pid..at];
      assert token == text[..k];
      buf[at] := '\0';
      next := at + 1;
      assert buf[..][next..next + |text[k + 1..]|] == text[k + 1..];
    }
  }
}
