/** From the path of a control group to the name of the user unit it belongs to. */
module UnitPath {
  import opened Options

  predicate HasPrefix(s: string, p: string) { p <= s }

  predicate HasSuffix(s: string, x: string) { |x| <= |s| && s[|s| - |x|..] == x }

  predicate IsUserService(t: string) { HasPrefix(t, "user@") && HasSuffix(t, ".service") }

  predicate IsSlice(t: string) { HasSuffix(t, ".slice") }

  // ---------------------------------------------------------------- tokens

  /** The index of the first slash, or the length. */
  function SlashIn(s: string): (k: nat)
    ensures k <= |s| && (k < |s| ==> s[k] == '/') && forall j :: 0 <= j < k ==> s[j] != '/'
  {
    if s == [] || s[0] == '/' then 0 else 1 + SlashIn(s[1..])
  }

  /** strtok over the whole string with "/": the maximal runs without a slash. */
  function Tokens(s: string): seq<string>
    decreases |s|
  {
    if s == [] then []
    else if s[0] == '/' then Tokens(s[1..])
    else [s[..SlashIn(s)]] + Tokens(s[SlashIn(s)..])
  }

  /** A path of components, each with a slash in front. */
  function Join(cs: seq<string>): string {
    if cs == [] then "" else Join(cs[..|cs| - 1]) + "/" + cs[|cs| - 1]
  }

  predicate IsComponent(c: string) { c != "" && '/' !in c }

  predicate AreComponents(cs: seq<string>) { forall i :: 0 <= i < |cs| ==> IsComponent(cs[i]) }

  lemma SlashAfter(c: string, rest: string)
    requires '/' !in c && (rest == "" || rest[0] == '/')
    ensures SlashIn(c + rest) == |c|
  {
    var s := c + rest;
    assert forall i :: 0 <= i < |c| ==> s[i] == c[i] && c[i] in c;
    if rest != "" { assert s[|c|] == '/'; }
  }

  lemma TokensCons(c: string, rest: string)
    requires IsComponent(c) && (rest == "" || rest[0] == '/')
    ensures Tokens("/" + c + rest) == [c] + Tokens(rest)
  {
    var s := c + rest;
    assert "/" + c + rest == "/" + s;
    assert ("/" + s)[1..] == s;
    assert c[0] in c;
    assert s[0] == c[0] && s != "";
    SlashAfter(c, rest);
    assert s[..|c|] == c && s[|c|..] == rest;
  }

  lemma {:induction false} JoinCons(c: string, cs: seq<string>)
    ensures Join([c] + cs) == "/" + c + Join(cs)
    ensures cs != [] ==> Join(cs) != "" && Join(cs)[0] == '/'
  {
    if cs == [] {
      assert [c] + cs == [c] && [c][..0] == [];
      assert Join([c]) == Join([]) + "/" + c;
    } else {
      var n := |cs| - 1;
      JoinCons(c, cs[..n]);
      assert ([c] + cs)[..n + 1] == [c] + cs[..n];
      assert Join([c] + cs) == Join([c] + cs[..n]) + "/" + cs[n];
      assert Join(cs) == Join(cs[..n]) + "/" + cs[n];
    }
  }

  /** Tokenising a path gives back its components. */
  lemma {:induction false} TokensOfJoin(cs: seq<string>)
    requires AreComponents(cs)
    ensures Tokens(Join(cs)) == cs
  {
    if cs != [] {
      var c, rest := cs[0], cs[1..];
      assert cs == [c] + rest;
      JoinCons(c, rest);
      TokensOfJoin(rest);
      TokensCons(c, Join(rest));
    }
  }

  // --------------------------------------------------------------- the name

  /** A leading underscore is systemd's escape. */
  function Unescape(t: string): string { if t != "" && t[0] == '_' then t[1..] else t }

  function UnitNameFrom(tokens: seq<string>, afterUserService: bool): Option<string> {
    if tokens == [] then None
    else if IsUserService(tokens[0]) then UnitNameFrom(tokens[1..], true)
    else if afterUserService && !IsSlice(tokens[0]) then Some(Unescape(tokens[0]))
    else UnitNameFrom(tokens[1..], afterUserService)
  }

  /** A token that names the unit if no earlier one does: behind a user service, and neither one nor a slice. */
  predicate Candidate(tokens: seq<string>, after: bool, j: int) {
    && 0 <= j < |tokens| && !IsUserService(tokens[j]) && !IsSlice(tokens[j])
    && (after || exists i :: 0 <= i < j && IsUserService(tokens[i]))
  }

  lemma CandidateShifts(tokens: seq<string>, after: bool, j: int)
    requires 0 <= j < |tokens| - 1
    ensures Candidate(tokens, after, j + 1) <==> Candidate(tokens[1..], after || IsUserService(tokens[0]), j)
  {
    var rest := tokens[1..];
    if i :| 0 <= i < j + 1 && IsUserService(tokens[i]) {
      if i > 0 { assert IsUserService(rest[i - 1]); }
    }
    if i :| 0 <= i < j && IsUserService(rest[i]) {
      assert IsUserService(tokens[i + 1]);
    }
  }

  /** The first candidate gives the name. */
  lemma {:induction false} FirstCandidateNames(tokens: seq<string>, after: bool, j: int)
    requires Candidate(tokens, after, j) && forall k :: 0 <= k < j ==> !Candidate(tokens, after, k)
    ensures UnitNameFrom(tokens, after) == Some(Unescape(tokens[j]))
  {
    if j > 0 {
      var rest, later := tokens[1..], after || IsUserService(tokens[0]);
      assert !Candidate(tokens, after, 0);
      forall k | 0 <= k < j ensures Candidate(tokens, after, k + 1) <==> Candidate(rest, later, k) {
        CandidateShifts(tokens, after, k);
      }
      FirstCandidateNames(rest, later, j - 1);
    }
  }

  /** Without a candidate there is no name. */
  lemma {:induction false} NoCandidateNoName(tokens: seq<string>, after: bool)
    requires forall k :: 0 <= k < |tokens| ==> !Candidate(tokens, after, k)
    ensures UnitNameFrom(tokens, after) == None
  {
    if tokens != [] {
      var rest, later := tokens[1..], after || IsUserService(tokens[0]);
      assert !Candidate(tokens, after, 0);
      forall k | 0 <= k < |rest| ensures !Candidate(rest, later, k) {
        CandidateShifts(tokens, after, k);
      }
      NoCandidateNoName(rest, later);
    }
  }

  /** The component systemd makes of a unit name: escaped with an underscore, or plain if that is not needed. */
  predicate NamesUnit(component: string, unit: string) {
    component == "_" + unit || (component == unit && unit != "" && unit[0] != '_')
  }

  lemma UnescapeInverts(component: string, unit: string)
    requires NamesUnit(component, unit)
    ensures Unescape(component) == unit
  {
  }

  /** A path below a user service: what is in front, the service, slices, the unit's component. */
  ghost predicate UnitPathParts(front: seq<string>, service: string, slices: seq<string>, component: string,
                                unit: string)
  {
    && AreComponents(front + [service] + slices + [component])
    && (forall i :: 0 <= i < |front| ==> !IsUserService(front[i]))
    && IsUserService(service)
    && (forall i :: 0 <= i < |slices| ==> IsSlice(slices[i]))
    && NamesUnit(component, unit)
    && !IsSlice(component) && !IsUserService(component)
  }

  lemma {:induction false} SkipFront(front: seq<string>, rest: seq<string>)
    requires forall i :: 0 <= i < |front| ==> !IsUserService(front[i])
    ensures UnitNameFrom(front + rest, false) == UnitNameFrom(rest, false)
  {
    if front == [] {
      assert front + rest == rest;
    } else {
      assert (front + rest)[1..] == front[1..] + rest;
      SkipFront(front[1..], rest);
    }
  }

  lemma {:induction false} SkipSlices(slices: seq<string>, rest: seq<string>)
    requires forall i :: 0 <= i < |slices| ==> IsSlice(slices[i])
    ensures UnitNameFrom(slices + rest, true) == UnitNameFrom(rest, true)
  {
    if slices == [] {
      assert slices + rest == rest;
    } else {
      assert (slices + rest)[1..] == slices[1..] + rest;
      SkipSlices(slices[1..], rest);
    }
  }

  /** For every such path, with any hierarchy below the unit, the name found is the unit's. */
  lemma UnitRoundTrip(front: seq<string>, service: string, slices: seq<string>, component: string, unit: string,
                      below: seq<string>)
    requires UnitPathParts(front, service, slices, component, unit) && AreComponents(below)
    ensures UnitNameFrom(Tokens(Join(front + [service] + slices + [component] + below)), false) == Some(unit)
  {
    var cs := front + [service] + slices + [component] + below;
    TokensOfJoin(cs);
    var tail := [component] + below;
    assert cs == front + ([service] + (slices + tail));
    SkipFront(front, [service] + (slices + tail));
    assert ([service] + (slices + tail))[1..] == slices + tail;
    SkipSlices(slices, tail);
    UnescapeInverts(component, unit);
  }

  /** The same with every kind of component told by its characters. */
  lemma NameBehindUserService(front: seq<string>, service: string, slices: seq<string>, component: string,
                              unit: string, below: seq<string>)
    requires AreComponents(front + [service] + slices + [component]) && AreComponents(below)
    requires forall c :: c in front ==> !("user@" <= c && |c| >= 8 && c[|c| - 8..] == ".service")
    requires "user@" <= service && |service| >= 8 && service[|service| - 8..] == ".service"
    requires forall c :: c in slices ==> |c| >= 6 && c[|c| - 6..] == ".slice"
    requires !(|component| >= 6 && component[|component| - 6..] == ".slice")
    requires !("user@" <= component && |component| >= 8 && component[|component| - 8..] == ".service")
    requires component == "_" + unit || (component == unit && !("_" <= component))
    ensures UnitNameFrom(Tokens(Join(front + [service] + slices + [component] + below)), false) == Some(unit)
  {
    var all := front + [service] + slices + [component];
    assert IsComponent(all[|all| - 1]);
    assert forall i :: 0 <= i < |front| ==> front[i] in front;
    assert forall i :: 0 <= i < |slices| ==> slices[i] in slices;
    UnitRoundTrip(front, service, slices, component, unit, below);
  }

  // ------------------------------------------------------------ the unit path

  predicate OccursAt(s: string, t: string, k: nat) { k + |t| <= |s| && s[k..k + |t|] == t }

  /** strstr. */
  function Find(s: string, t: string, from: nat): (r: Option<nat>)
    ensures r.Some? ==> r.value >= from && OccursAt(s, t, r.value)
                        && forall k :: from <= k < r.value ==> !OccursAt(s, t, k)
    ensures r.None? ==> forall k :: from <= k ==> !OccursAt(s, t, k)
    decreases |s| - from
  {
    if from + |t| > |s| then None
    else if OccursAt(s, t, from) then Some(from)
    else Find(s, t, from + 1)
  }

  /** The path cut behind the first occurrence of the unit's name; None where the name does not occur. */
  function CutPath(path: string, unit: string): Option<string> {
    match Find(path, unit, 0)
    case None => None
    case Some(k) => Some(path[..k + |unit|])
  }

  predicate AllUnderscores(unit: string) { forall i :: 0 <= i < |unit| ==> unit[i] == '_' }

  lemma {:induction false} UnderscoreAt(unit: string, i: nat)
    requires OccursAt("_" + unit, unit, 0) && i < |unit|
    ensures unit[i] == '_'
  {
    assert ("_" + unit)[0..|unit|][i] == unit[i];
    if i > 0 {
      UnderscoreAt(unit, i - 1);
      assert ("_" + unit)[i] == unit[i - 1];
    }
  }

  /** An escaped name contains the name one place too early exactly if the name is all underscores. */
  lemma EarlyOccurrence(unit: string)
    ensures OccursAt("_" + unit, unit, 0) <==> AllUnderscores(unit)
  {
    if OccursAt("_" + unit, unit, 0) {
      forall i | 0 <= i < |unit| ensures unit[i] == '_' { UnderscoreAt(unit, i); }
    }
    if AllUnderscores(unit) {
      assert ("_" + unit)[0..|unit|] == unit;
    }
  }

  lemma OccursInside(above: string, inner: string, below: string, unit: string, j: nat)
    requires j + |unit| <= |inner|
    ensures OccursAt(above + inner + below, unit, |above| + j) <==> OccursAt(inner, unit, j)
  {
    assert (above + inner + below)[|above| + j..|above| + j + |unit|] == inner[j..j + |unit|];
  }

  /** Cutting keeps exactly what is above and the component, if and only if the name occurs nowhere above and is not
      an escaped row of underscores. */
  lemma CutExactly(above: string, component: string, below: string, unit: string)
    requires NamesUnit(component, unit)
    ensures CutPath(above + component + below, unit) == Some(above + component)
      <==> (forall k :: 0 <= k < |above| ==> !OccursAt(above + component + below, unit, k))
           && !(component == "_" + unit && AllUnderscores(unit))
  {
    var path := above + component + below;
    var d := |component| - |unit|;
    assert component[d..] == unit;
    OccursInside(above, component, below, unit, d);
    OccursInside(above, component, below, unit, 0);
    EarlyOccurrence(unit);
    assert path[..|above| + |component|] == above + component;
    var k := Find(path, unit, 0).value;
    assert k <= |above| + d;
    assert |path[..k + |unit|]| == k + |unit|;
  }

  lemma {:induction false} JoinAppend(cs: seq<string>, more: seq<string>)
    ensures Join(cs + more) == Join(cs) + Join(more)
  {
    if more == [] {
      assert cs + more == cs;
    } else {
      var n := |more| - 1;
      JoinAppend(cs, more[..n]);
      assert (cs + more)[..|cs + more| - 1] == cs + more[..n];
    }
  }

  lemma PathParts(cs: seq<string>, component: string, below: seq<string>)
    ensures Join(cs + [component]) == Join(cs) + "/" + component
    ensures Join(cs + [component] + below) == Join(cs) + "/" + component + Join(below)
  {
    JoinAppend(cs + [component], below);
    assert (cs + [component])[..|cs|] == cs;
  }

  /** Cut at its unit, a path is the unit's own path and still tells the unit's name, if and only if the name does not
      occur above the unit's component and is not an escaped row of underscores. */
  lemma CutPathRoundTrip(front: seq<string>, service: string, slices: seq<string>, component: string, unit: string,
                         below: seq<string>)
    requires UnitPathParts(front, service, slices, component, unit) && AreComponents(below)
    ensures
      var cs := front + [service] + slices;
      var path := Join(cs + [component] + below);
      CutPath(path, unit) == Some(Join(cs + [component]))
      <==> (forall k :: 0 <= k <= |Join(cs)| ==> !OccursAt(path, unit, k))
           && !(component == "_" + unit && AllUnderscores(unit))
    ensures UnitNameFrom(Tokens(Join(front + [service] + slices + [component])), false) == Some(unit)
  {
    var cs := front + [service] + slices;
    PathParts(cs, component, below);
    CutExactly(Join(cs) + "/", component, Join(below), unit);
    UnitRoundTrip(front, service, slices, component, unit, []);
    assert cs + [component] + [] == cs + [component];
  }

  const MOUNT_PATH := "/sys/fs/cgroup"
  const MOUNT := ["sys", "fs", "cgroup"]

  /** The directory of a process's unit, from what systemd says of the process: its control group and its unit. */
  function UnitCgroupPath(cgroup: Option<string>, unit: Option<string>): Option<string> {
    if cgroup.None? || unit.None? then None
    else CutPath(MOUNT_PATH + cgroup.value, unit.value)
  }

  lemma MountPath()
    ensures Join(MOUNT) == MOUNT_PATH == "/sys/fs/cgroup" && AreComponents(MOUNT)
    ensures forall i :: 0 <= i < |MOUNT| ==> !IsUserService(MOUNT[i])
  {
    assert MOUNT[..2] == ["sys", "fs"] && MOUNT[..2][..1] == ["sys"] && ["sys"][..0] == [];
    assert Join(["sys"]) == "/sys";
    assert Join(["sys", "fs"]) == "/sys/fs" by { assert ["sys", "fs"][..1] == ["sys"]; }
    assert |"sys"| < |"user@"| && |"fs"| < |"user@"| && "cgroup"[0] != "user@"[0];
  }

  lemma PartsBelow(top: seq<string>, front: seq<string>, service: string, slices: seq<string>, component: string,
                   unit: string)
    requires UnitPathParts(front, service, slices, component, unit) && AreComponents(top)
    requires forall i :: 0 <= i < |top| ==> !IsUserService(top[i])
    ensures UnitPathParts(top + front, service, slices, component, unit)
  {
    var all := front + [service] + slices + [component];
    assert top + front + [service] + slices + [component] == top + all;
  }

  // ------------------------------------------------------- names that occur above

  lemma OneTokenNoName(token: string)
    ensures UnitNameFrom([token], false) == None
  {
    assert [token][1..] == [];
  }

  /** The start of one component has at most one token. */
  lemma PartOfOne(c: string, m: nat)
    requires IsComponent(c) && m <= |c|
    ensures UnitNameFrom(Tokens("/" + c[..m]), false) == None
  {
    var part := c[..m];
    if part == "" {
      assert ("/" + part)[1..] == "" && Tokens("") == [];
    } else {
      assert forall i :: 0 <= i < |part| ==> part[i] == c[i] && c[i] in c;
      TokensCons(part, "");
      assert "/" + part + "" == "/" + part;
      OneTokenNoName(part);
    }
  }

  /** No part of a path that ends with its user service tells a name. */
  lemma {:induction false} PrefixHasNoName(cs: seq<string>, n: nat)
    requires AreComponents(cs) && forall i :: 0 <= i < |cs| - 1 ==> !IsUserService(cs[i])
    requires n <= |Join(cs)|
    ensures UnitNameFrom(Tokens(Join(cs)[..n]), false) == None
  {
    if n == 0 {
      assert Join(cs)[..0] == "";
    } else {
      var c, rest := cs[0], cs[1..];
      assert cs == [c] + rest;
      JoinCons(c, rest);
      var whole := "/" + c + Join(rest);
      if n <= 1 + |c| {
        assert whole[..n] == "/" + c[..n - 1];
        PartOfOne(c, n - 1);
      } else {
        var m := n - 1 - |c|;
        var q := Join(rest)[..m];
        assert whole[..n] == "/" + c + q;
        TokensCons(c, q);
        PrefixHasNoName(rest, m);
        assert ([c] + Tokens(q))[1..] == Tokens(q);
      }
    }
  }

  /** A unit whose name occurs before its user service ends is cut there, and has no name then. */
  lemma EarlyCutHasNoName(cs: seq<string>, tail: string, unit: string, k: nat)
    requires AreComponents(cs) && forall i :: 0 <= i < |cs| - 1 ==> !IsUserService(cs[i])
    requires OccursAt(Join(cs) + tail, unit, k) && k + |unit| <= |Join(cs)|
    ensures
      var cut := CutPath(Join(cs) + tail, unit);
      cut.Some? && UnitNameFrom(Tokens(cut.value), false) == None
  {
    var at := Find(Join(cs) + tail, unit, 0).value;
    assert at <= k;
    assert (Join(cs) + tail)[..at + |unit|] == Join(cs)[..at + |unit|];
    PrefixHasNoName(cs, at + |unit|);
  }

  lemma OccursAtEnd(head: string, above: string, unit: string, tail: string)
    requires head == above + unit
    ensures OccursAt(head + tail, unit, |above|) && |above| + |unit| == |head|
  {
    assert (head + tail)[|above|..|above| + |unit|] == unit;
  }

  lemma Associate(a: string, b: string, c: string)
    ensures a + (b + c) == a + b + c
  {
  }

  lemma JoinEnds(top: seq<string>, start: string, unit: string)
    ensures Join(top + [start + unit]) == Join(top) + "/" + start + unit
  {
    assert (top + [start + unit])[..|top|] == top;
    Associate(Join(top) + "/", start, unit);
  }

  /** So is every unit whose name ends the name of its user service. */
  lemma UnitInsideService(top: seq<string>, service: string, start: string, unit: string, tail: string)
    requires AreComponents(top + [service]) && (forall i :: 0 <= i < |top| ==> !IsUserService(top[i]))
    requires service == start + unit
    ensures
      var cut := CutPath(Join(top + [service]) + tail, unit);
      cut.Some? && UnitNameFrom(Tokens(cut.value), false) == None
  {
    var cs := top + [service];
    var above := Join(top) + "/" + start;
    JoinEnds(top, start, unit);
    OccursAtEnd(Join(cs), above, unit, tail);
    EarlyCutHasNoName(cs, tail, unit, |above|);
  }

  // -------------------------------------------------- when the name comes back

  /** What stands in front of the name in a path: the start of a component, or systemd's escape and nothing else. */
  predicate Legible(path: string, k: nat, unit: string) {
    && 1 <= k <= |path| && unit != ""
    && if path[k - 1] == '/' then unit[0] != '_' && !IsUserService(unit)
       else k >= 2 && path[k - 1] == '_' && path[k - 2] == '/'
  }

  lemma EscapedSuffix(unit: string, x: string)
    requires x != "" && x[0] != '_'
    ensures HasSuffix("_" + unit, x) <==> HasSuffix(unit, x)
  {
    var t: string := "_" + unit;
    if |x| <= |unit| {
      assert t[|t| - |x|..] == unit[|unit| - |x|..];
    } else if |x| == |t| {
      assert t[|t| - |x|..] == t && t[0] == '_';
    }
  }

  lemma EscapedIsNeither(unit: string)
    requires !IsSlice(unit)
    ensures !IsSlice("_" + unit) && !IsUserService("_" + unit)
  {
    EscapedSuffix(unit, ".slice");
    assert ("_" + unit)[0] == '_' && "user@"[0] == 'u';
  }

  /** A last token that ends with the unit's name. */
  lemma TokenTells(before: string, unit: string)
    requires unit != "" && !IsSlice(unit)
    ensures UnitNameFrom([before + unit], true) == Some(unit)
      <==> (before == "" && unit[0] != '_' && !IsUserService(unit)) || before == "_"
  {
    var t: string := before + unit;
    assert [t][1..] == [];
    if before == "" {
      assert t == unit;
    } else {
      assert t[0] == before[0];
      if before == "_" {
        EscapedIsNeither(unit);
        assert t[1..] == unit;
      } else if t[0] == '_' {
        assert |t[1..]| != |unit|;
      }
    }
  }

  lemma PartToken(c: string, m: nat)
    requires IsComponent(c) && 0 < m <= |c|
    ensures Tokens("/" + c[..m]) == [c[..m]]
  {
    var part := c[..m];
    assert forall i :: 0 <= i < |part| ==> part[i] == c[i] && c[i] in c;
    TokensCons(part, "");
    assert "/" + part + "" == "/" + part;
  }

  /** A cut inside the first component. */
  lemma CutInFirst(c: string, rest: string, unit: string, j: nat)
    requires IsComponent(c) && unit != "" && !IsSlice(unit) && 1 <= j && j + |unit| <= 1 + |c|
    requires OccursAt("/" + c + rest, unit, j)
    ensures UnitNameFrom(Tokens(("/" + c + rest)[..j + |unit|]), true) == Some(unit)
      <==> Legible("/" + c + rest, j, unit)
  {
    var path, before, m := "/" + c + rest, c[..j - 1], j - 1 + |unit|;
    assert path[..j + |unit|] == "/" + c[..m];
    PartToken(c, m);
    assert c[..m] == before + unit by {
      assert path[j..j + |unit|] == c[j - 1..m];
    }
    TokenTells(before, unit);
    if j > 1 { assert path[j - 1] == c[j - 2] && c[j - 2] in c; }
    if j > 2 { assert path[j - 2] == c[j - 3] && c[j - 3] in c; }
    if j == 2 { assert before == [c[0]] && path[0] == '/'; }
  }

  lemma SlashInside(path: string, unit: string, j: nat, n: nat)
    requires OccursAt(path, unit, j) && j <= n < j + |unit| && path[n] == '/'
    ensures '/' in unit
  {
    assert path[j..j + |unit|][n - j] == '/';
  }

  /** A cut behind the first component. */
  lemma CutBehindFirst(c: string, rest: string, unit: string, j: nat)
    requires IsComponent(c) && rest != "" && rest[0] == '/' && unit != "" && '/' !in unit
    requires OccursAt("/" + c + rest, unit, j) && j >= 1 && j + |unit| > 1 + |c|
    ensures j > 1 + |c| && OccursAt(rest, unit, j - 1 - |c|)
    ensures Tokens(("/" + c + rest)[..j + |unit|]) == [c] + Tokens(rest[..j - 1 - |c| + |unit|])
    ensures Legible("/" + c + rest, j, unit) <==> Legible(rest, j - 1 - |c|, unit)
  {
    var path, n := "/" + c + rest, 1 + |c|;
    assert path[n] == '/';
    if j <= n { SlashInside(path, unit, j, n); }
    var i := j - n;
    assert rest[i..i + |unit|] == path[j..j + |unit|];
    assert path[..j + |unit|] == "/" + c + rest[..i + |unit|];
    TokensCons(c, rest[..i + |unit|]);
    assert path[j - 1] == rest[i - 1];
    if i >= 2 { assert path[j - 2] == rest[i - 2]; }
  }

  /** A cut behind the user service, at or above the unit's own component, tells the name exactly if the cut is
      legible. */
  lemma {:induction false} CutTells(slices: seq<string>, component: string, below: seq<string>, unit: string, j: nat)
    requires AreComponents(slices + [component] + below) && unit != "" && '/' !in unit && !IsSlice(unit)
    requires forall i :: 0 <= i < |slices| ==> IsSlice(slices[i])
    requires j >= 1 && OccursAt(Join(slices + [component] + below), unit, j)
    requires j + |unit| <= |Join(slices + [component])|
    ensures
      var path := Join(slices + [component] + below);
      UnitNameFrom(Tokens(path[..j + |unit|]), true) == Some(unit) <==> Legible(path, j, unit)
  {
    var all := slices + [component] + below;
    var c, rest := all[0], all[1..];
    assert all == [c] + rest;
    JoinCons(c, rest);
    if j + |unit| <= 1 + |c| {
      CutInFirst(c, Join(rest), unit, j);
    } else {
      OwnComponentIsLast(slices, component, j + |unit|);
      assert rest == slices[1..] + [component] + below;
      assert slices + [component] == [c] + (slices[1..] + [component]);
      JoinCons(c, slices[1..] + [component]);
      JoinCons(c, rest);
      CutBehindFirst(c, Join(rest), unit, j);
      CutTells(slices[1..], component, below, unit, j - 1 - |c|);
      SkipSlice(c, Tokens(Join(rest)[..j - 1 - |c| + |unit|]));
    }
  }

  lemma JoinOne(c: string)
    ensures Join([c]) == "/" + c
  {
    assert [c][..0] == [];
    assert Join([c]) == Join([]) + "/" + c;
  }

  lemma OwnComponentIsLast(slices: seq<string>, component: string, n: nat)
    requires n <= |Join(slices + [component])| && n > 1 + |(slices + [component])[0]|
    ensures slices != []
  {
    JoinOne(component);
    assert slices == [] ==> slices + [component] == [component];
  }

  lemma SkipSlice(c: string, rest: seq<string>)
    requires IsSlice(c)
    ensures UnitNameFrom([c] + rest, true) == UnitNameFrom(rest, true)
  {
    assert ([c] + rest)[1..] == rest;
  }

  lemma {:induction false} TokensBehind(cs: seq<string>, q: string)
    requires AreComponents(cs) && (q == "" || q[0] == '/')
    ensures Tokens(Join(cs) + q) == cs + Tokens(q)
  {
    if cs == [] {
      assert Join(cs) + q == q;
    } else {
      var c, rest := cs[0], cs[1..];
      assert cs == [c] + rest;
      JoinCons(c, rest);
      TokensBehind(rest, q);
      Associate("/" + c, Join(rest), q);
      JoinStart(rest, q);
      TokensCons(c, Join(rest) + q);
    }
  }

  lemma JoinStart(cs: seq<string>, q: string)
    requires q == "" || q[0] == '/'
    ensures Join(cs) + q == "" || (Join(cs) + q)[0] == '/'
  {
    if cs != [] { JoinCons("", cs); }
  }

  lemma PassOver(top: seq<string>, service: string, rest: seq<string>)
    requires IsUserService(service) && forall i :: 0 <= i < |top| ==> !IsUserService(top[i])
    ensures UnitNameFrom(top + [service] + rest, false) == UnitNameFrom(rest, true)
  {
    var behind := [service] + rest;
    assert top + [service] + rest == top + behind;
    SkipFront(top, behind);
    assert behind[1..] == rest;
  }

  /** Everything down to the user service is passed over. */
  lemma BehindService(top: seq<string>, service: string, q: string)
    requires AreComponents(top + [service]) && (q == "" || q[0] == '/') && IsUserService(service)
    requires forall i :: 0 <= i < |top| ==> !IsUserService(top[i])
    ensures UnitNameFrom(Tokens(Join(top + [service]) + q), false) == UnitNameFrom(Tokens(q), true)
  {
    TokensBehind(top + [service], q);
    PassOver(top, service, Tokens(q));
  }

  /** The name occurs in its own component at the latest. */
  lemma FoundInTime(above: string, component: string, below: string, unit: string)
    requires NamesUnit(component, unit)
    ensures
      var found := Find(above + component + below, unit, 0);
      found.Some? && found.value + |unit| <= |above| + |component|
  {
    var d := |component| - |unit|;
    assert component[d..] == unit;
    OccursInside(above, component, below, unit, d);
  }

  /** The two parts of a path, and where in them the name is found. */
  lemma WholePath(top: seq<string>, service: string, slices: seq<string>, component: string, unit: string,
                  below: seq<string>)
    requires NamesUnit(component, unit)
    ensures
      var head, tail := Join(top + [service]), Join(slices + [component] + below);
      var found := Find(head + tail, unit, 0);
      && Join(top + [service] + slices + [component] + below) == head + tail
      && found.Some? && found.value + |unit| <= |head| + |Join(slices + [component])|
  {
    var cs := top + [service];
    assert cs + slices + [component] + below == cs + (slices + [component] + below);
    JoinAppend(cs, slices + [component] + below);
    PathParts(cs + slices, component, below);
    FoundInTime(Join(cs + slices) + "/", component, Join(below), unit);
    assert cs + slices + [component] == cs + (slices + [component]);
    JoinAppend(cs, slices + [component]);
  }

  /** A position in the second of two parts. */
  lemma InTail(head: string, tail: string, unit: string, k: nat)
    requires k > |head| && OccursAt(head + tail, unit, k)
    ensures OccursAt(tail, unit, k - |head|) && (head + tail)[..k + |unit|] == head + tail[..k - |head| + |unit|]
    ensures tail[..k - |head| + |unit|] != "" && tail[..k - |head| + |unit|][0] == tail[0]
    ensures tail[0] == '/' ==> (Legible(head + tail, k, unit) <==> Legible(tail, k - |head|, unit))
  {
    var path, j := head + tail, k - |head|;
    assert tail[j..j + |unit|] == path[k..k + |unit|];
    assert path[k - 1] == tail[j - 1];
    if j >= 2 { assert path[k - 2] == tail[j - 2]; }
  }

  /** What the path tells, cut behind an occurrence of the unit's name. */
  function CutName(path: string, unit: string, k: nat): Option<string>
    requires k + |unit| <= |path|
  {
    UnitNameFrom(Tokens(path[..k + |unit|]), false)
  }

  lemma CutInTail(top: seq<string>, service: string, tail: string, unit: string, k: nat)
    requires AreComponents(top + [service]) && IsUserService(service)
    requires forall i :: 0 <= i < |top| ==> !IsUserService(top[i])
    requires tail != "" && tail[0] == '/' && k > |Join(top + [service])|
    requires OccursAt(Join(top + [service]) + tail, unit, k)
    ensures
      var head := Join(top + [service]);
      var q := tail[..k - |head| + |unit|];
      CutName(head + tail, unit, k) == UnitNameFrom(Tokens(q), true)
  {
    var head := Join(top + [service]);
    var q := tail[..k - |head| + |unit|];
    assert (head + tail)[..k + |unit|] == head + q && q[0] == '/' by { InTail(head, tail, unit, k); }
    BehindService(top, service, q);
  }

  lemma CutBehind(top: seq<string>, service: string, slices: seq<string>, component: string, unit: string,
                  below: seq<string>, k: nat)
    requires AreComponents(top + [service]) && IsUserService(service)
    requires forall i :: 0 <= i < |top| ==> !IsUserService(top[i])
    requires AreComponents(slices + [component] + below) && unit != "" && '/' !in unit && !IsSlice(unit)
    requires forall i :: 0 <= i < |slices| ==> IsSlice(slices[i])
    requires
      var head, tail := Join(top + [service]), Join(slices + [component] + below);
      && tail != "" && tail[0] == '/' && k > |head| && OccursAt(head + tail, unit, k)
      && k + |unit| <= |head| + |Join(slices + [component])|
    ensures
      var head, tail := Join(top + [service]), Join(slices + [component] + below);
      CutName(head + tail, unit, k) == Some(unit) <==> Legible(head + tail, k, unit)
  {
    var head, tail := Join(top + [service]), Join(slices + [component] + below);
    CutInTail(top, service, tail, unit, k);
    InTail(head, tail, unit, k);
    CutTells(slices, component, below, unit, k - |head|);
  }

  lemma EmptyIsFirst(path: string, unit: string)
    ensures unit == "" ==> Find(path, unit, 0) == Some(0)
  {
    if unit == "" { assert path[0..0] == ""; }
  }

  /** Cut behind the first occurrence of the unit's name, a path tells that name again if and only if the occurrence
      is behind the user service and legible there. */
  lemma NameComesBack(top: seq<string>, service: string, slices: seq<string>, component: string, unit: string,
                      below: seq<string>)
    returns (k: nat)
    requires UnitPathParts(top, service, slices, component, unit) && AreComponents(below)
    ensures
      var path, end := Join(top + [service] + slices + [component] + below), |Join(top + [service])|;
      && Find(path, unit, 0) == Some(k)
      && (CutName(path, unit, k) == Some(unit) <==> k > end && Legible(path, k, unit))
  {
    var head, tail := Join(top + [service]), Join(slices + [component] + below);
    WholePath(top, service, slices, component, unit, below);
    ComponentsOf(top, service, slices, component, unit, below);
    NameHasNoSlash(component, unit);
    EmptyIsFirst(head + tail, unit);
    k := Find(head + tail, unit, 0).value;
    if k <= |head| {
      CutAboveService(top + [service], tail, unit, k);
    } else {
      CutBehind(top, service, slices, component, unit, below, k);
    }
  }

  lemma ComponentsOf(top: seq<string>, service: string, slices: seq<string>, component: string, unit: string,
                     below: seq<string>)
    requires UnitPathParts(top, service, slices, component, unit) && AreComponents(below)
    ensures AreComponents(top + [service]) && AreComponents(slices + [component] + below) && IsComponent(component)
    ensures Join(slices + [component] + below) != "" && Join(slices + [component] + below)[0] == '/'
  {
    var all := top + [service] + slices + [component];
    assert forall i :: 0 <= i < |top| + 1 ==> (top + [service])[i] == all[i];
    assert forall i :: 0 <= i < |slices| + 1 ==> (slices + [component])[i] == all[|top| + 1 + i];
    assert component == all[|all| - 1];
    JoinCons("", slices + [component] + below);
  }

  lemma NameHasNoSlash(component: string, unit: string)
    requires NamesUnit(component, unit) && IsComponent(component) && !IsSlice(component)
    ensures '/' !in unit && !IsSlice(unit)
  {
    if component == "_" + unit {
      assert forall i :: 0 <= i < |unit| ==> unit[i] == component[i + 1];
      if |unit| >= 6 { assert component[|component| - 6..] == unit[|unit| - 6..]; }
    }
  }

  lemma EndsAbove(head: string, tail: string, unit: string, k: nat)
    requires tail != "" && tail[0] == '/' && '/' !in unit && OccursAt(head + tail, unit, k) && k <= |head|
    ensures k + |unit| <= |head|
  {
    assert (head + tail)[|head|] == '/';
    if k + |unit| > |head| { SlashInside(head + tail, unit, k, |head|); }
  }

  /** A name without a slash that starts above the end of the user service also ends there. */
  lemma CutAboveService(cs: seq<string>, tail: string, unit: string, k: nat)
    requires AreComponents(cs) && forall i :: 0 <= i < |cs| - 1 ==> !IsUserService(cs[i])
    requires tail != "" && tail[0] == '/' && '/' !in unit
    requires OccursAt(Join(cs) + tail, unit, k) && k <= |Join(cs)|
    ensures CutName(Join(cs) + tail, unit, k) == None
  {
    var n := k + |unit|;
    EndsAbove(Join(cs), tail, unit, k);
    assert (Join(cs) + tail)[..n] == Join(cs)[..n];
    PrefixHasNoName(cs, n);
  }

  lemma FromMount(top: seq<string>, front: seq<string>, service: string, slices: seq<string>, component: string,
                  below: seq<string>)
    ensures Join(top + front + [service] + slices + [component] + below)
         == Join(top) + Join(front + [service] + slices + [component] + below)
    ensures Join(top + front + [service]) == Join(top) + Join(front + [service])
  {
    var all := front + [service] + slices + [component] + below;
    assert top + front + [service] + slices + [component] + below == top + all;
    JoinAppend(top, all);
    assert top + front + [service] == top + (front + [service]);
    JoinAppend(top, front + [service]);
  }

  /** From a process to its unit's directory and from the directory to a name, whatever hierarchy the process made
      below: it is the unit's if and only if the first occurrence of the unit's name is behind the user service, and
      has nothing but systemd's escape between it and the start of a component. */
  lemma ProcessToUnitName(front: seq<string>, service: string, slices: seq<string>, component: string, unit: string,
                          below: seq<string>)
    requires UnitPathParts(front, service, slices, component, unit) && AreComponents(below)
    ensures
      var group := Join(front + [service] + slices + [component] + below);
      var path, found := UnitCgroupPath(Some(group), Some(unit)), Find(MOUNT_PATH + group, unit, 0);
      && path.Some? && found.Some?
      && (UnitNameFrom(Tokens(path.value), false) == Some(unit)
          <==> found.value > |MOUNT_PATH + Join(front + [service])|
               && Legible(MOUNT_PATH + group, found.value, unit))
  {
    MountPath();
    PartsBelow(MOUNT, front, service, slices, component, unit);
    FromMount(MOUNT, front, service, slices, component, below);
    var k := NameComesBack(MOUNT + front, service, slices, component, unit, below);
    var path: string := MOUNT_PATH + Join(front + [service] + slices + [component] + below);
    assert CutPath(path, unit) == Some(path[..k + |unit|]);
  }

  // ---------------------------------------------------- a unit that is misled

  lemma ServiceNames(start: string, unit: string)
    requires start == "user@100" && unit == "0.service"
    ensures IsUserService(start + unit) && '/' !in start + unit
    ensures !IsSlice(unit) && !IsUserService(unit) && IsComponent(unit)
  {
    assert (start + unit)[|start + unit| - 8..] == ".service";
    assert unit[3..] == "ervice" && "user@"[0] == 'u';
  }

  lemma SliceNames()
    ensures IsComponent("user.slice") && IsComponent("user-1000.slice") && IsComponent("app.slice")
    ensures !IsUserService("user.slice") && !IsUserService("user-1000.slice") && IsSlice("app.slice")
  {
    assert "user.slice"[4] == '.' && "user-1000.slice"[4] == '-' && "user@"[4] == '@';
    assert "app.slice"[3..] == ".slice";
  }

  lemma JoinSplit(top: seq<string>, front: seq<string>, rest: seq<string>)
    ensures Join(top) + Join(front + rest) == Join(top + front) + Join(rest)
  {
    JoinAppend(top, front);
    JoinAppend(front, rest);
    Associate(Join(top), Join(front), Join(rest));
  }

  lemma UnitOfTail(top: seq<string>, front: seq<string>, start: string, slices: seq<string>, unit: string)
    requires AreComponents(top) && AreComponents(front + [start + unit])
    requires forall i :: 0 <= i < |top| ==> !IsUserService(top[i])
    requires forall i :: 0 <= i < |front| ==> !IsUserService(front[i])
    ensures
      var cut := CutPath(Join(top) + Join(front + [start + unit] + slices + [unit]), unit);
      cut.Some? && UnitNameFrom(Tokens(cut.value), false) == None
  {
    var service := start + unit;
    JoinSplit(top, front + [service], slices + [unit]);
    assert front + [service] + slices + [unit] == front + [service] + (slices + [unit]);
    assert top + (front + [service]) == top + front + [service];
    UnitInsideService(top + front, service, start, unit, Join(slices + [unit]));
  }

  /** Parts of a path, given what its components are. */
  lemma PartsOf(a: string, b: string, service: string, slice: string, unit: string)
    requires IsComponent(a) && IsComponent(b) && IsComponent(service) && IsComponent(slice) && IsComponent(unit)
    requires !IsUserService(a) && !IsUserService(b) && IsUserService(service) && IsSlice(slice)
    requires !IsSlice(unit) && !IsUserService(unit) && unit[0] != '_'
    ensures UnitPathParts([a, b], service, [slice], unit, unit)
  {
    assert [a, b] + [service] + [slice] + [unit] == [a, b, service, slice, unit];
  }

  /** Such a unit: 0.service of user 1000. Its control group is as required of every unit, but its processes have a
      directory without a name. */
  lemma EarlierOccurrenceMisleads()
    ensures UnitPathParts(["user.slice", "user-1000.slice"], "user@100" + "0.service", ["app.slice"], "0.service",
                          "0.service")
    ensures
      var group := Join(["user.slice", "user-1000.slice"] + ["user@100" + "0.service"] + ["app.slice"] + ["0.service"]);
      var path := UnitCgroupPath(Some(group), Some("0.service"));
      path.Some? && UnitNameFrom(Tokens(path.value), false) == None
  {
    ServiceNames("user@100", "0.service");
    SliceNames();
    PartsOf("user.slice", "user-1000.slice", "user@100" + "0.service", "app.slice", "0.service");
    MisledBy(["user.slice", "user-1000.slice"], "user@100", ["app.slice"], "0.service");
  }

  /** In general: every unit whose name ends the name of its user service. */
  lemma MisledBy(front: seq<string>, start: string, slices: seq<string>, unit: string)
    requires UnitPathParts(front, start + unit, slices, unit, unit)
    ensures
      var path := UnitCgroupPath(Some(Join(front + [start + unit] + slices + [unit])), Some(unit));
      path.Some? && UnitNameFrom(Tokens(path.value), false) == None
  {
    MountPath();
    var all := front + [start + unit] + slices + [unit];
    assert front + [start + unit] == all[..|front| + 1];
    UnitOfTail(MOUNT, front, start, slices, unit);
  }

  // ------------------------------------------------------------- the program

  lemma TokenAt(s: string, i: nat, j: nat)
    requires i < j <= |s| && (forall k :: i <= k < j ==> s[k] != '/') && (j < |s| ==> s[j] == '/')
    ensures Tokens(s[i..]) == [s[i..j]] + Tokens(s[j..])
  {
    assert SlashIn(s[i..]) == j - i;
    assert s[i..][..j - i] == s[i..j] && s[i..][j - i..] == s[j..];
  }

  /** strtok: the next token from a position on, and the position behind it. */
  method StrTok(s: string, pos: nat) returns (token: Option<string>, next: nat)
    requires pos <= |s|
    ensures pos <= next <= |s|
    ensures Tokens(s[pos..]) == match token case None => [] case Some(t) => [t] + Tokens(s[next..])
    ensures token.Some? ==> next > pos && token.value != ""
  {
    var i := pos;
    while i < |s| && s[i] == '/'
      invariant pos <= i <= |s|
      invariant Tokens(s[i..]) == Tokens(s[pos..])
    {
      assert s[i..][1..] == s[i + 1..];
      i := i + 1;
    }
    if i == |s| {
      assert s[i..] == "";
      return None, i;
    }
    var j := i;
    while j < |s| && s[j] != '/'
      invariant i <= j <= |s|
      invariant forall k :: i <= k < j ==> s[k] != '/'
    {
      j := j + 1;
    }
    TokenAt(s, i, j);
    return Some(s[i..j]), j;
  }

  method GetUnitNameFromPath(path: string) returns (name: Option<string>)
    ensures name == UnitNameFrom(Tokens(path), false)
  {
    var afterUserService := false;
    assert path[0..] == path;
    var token, pos := StrTok(path, 0);
    ghost var rest := Tokens(path);
    while token.Some?
      invariant pos <= |path|
      invariant UnitNameFrom(Tokens(path), false) == UnitNameFrom(rest, afterUserService)
      invariant rest == match token case None => [] case Some(t) => [t] + Tokens(path[pos..])
      invariant token.Some? ==> token.value != ""
      decreases token.Some?, |path| - pos
    {
      assert rest[1..] == Tokens(path[pos..]);
      if IsUserService(token.value) {
        afterUserService := true;
        rest := rest[1..];
        token, pos := StrTok(path, pos);
        continue;
      }
      if afterUserService && !IsSlice(token.value) {
        if token.value[0] == '_' {
          return Some(token.value[1..]);
        } else {
          return Some(token.value);
        }
      }
      rest := rest[1..];
      token, pos := StrTok(path, pos);
    }
    return None;
  }
}
