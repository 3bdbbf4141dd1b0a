/** Sorted arrays of user ids, as GLib keeps them when it compares with `uid_cmp`. */
module Uids {

  const TWO31: int := 0x8000_0000
  const TWO32: int := 0x1_0000_0000

  /** `uid_t`: an unsigned 32-bit number. */
  type Uid = x: int | 0 <= x < 0x1_0000_0000

  /** The comparison: an unsigned difference that wraps, read back as a signed 32-bit integer. */
  function UidCmp(a: Uid, b: Uid): int {
    var d := if a >= b then a - b else a - b + TWO32;
    if d < TWO31 then d else d - TWO32
  }

  function Elements(s: seq<Uid>): set<Uid> {
    set u | u in s
  }

  function Occurrences(s: seq<Uid>, u: Uid): nat { multiset(s)[u] }

  ghost predicate Distinct(s: seq<Uid>) {
    forall u :: Occurrences(s, u) <= 1
  }

  /** All ids in play lie in one window of 2^31 consecutive values. */
  ghost predicate InWindow(base: int, s: seq<Uid>) {
    forall i :: 0 <= i < |s| ==> base <= s[i] < base + TWO31
  }

  /** Sorted as `g_array_sort` leaves an array: no later element compares below an earlier one. */
  ghost predicate Ordered(s: seq<Uid>) {
    forall i, j :: 0 <= i < j < |s| ==> UidCmp(s[i], s[j]) <= 0
  }

  ghost predicate Increasing(s: seq<Uid>) {
    forall i, j :: 0 <= i < j < |s| ==> s[i] < s[j]
  }

  /** The comparison agrees with the numeric order exactly when the wrap does not reach the sign bit. */
  lemma UidCmpAgrees(a: Uid, b: Uid)
    ensures UidCmp(a, b) == 0 <==> a == b
    ensures (UidCmp(a, b) < 0 <==> a < b) <==> a - b < TWO31 && b - a <= TWO31
    ensures (UidCmp(a, b) > 0 <==> a > b) <==> a - b < TWO31 && b - a <= TWO31
  {
  }

  /** Inside a window the comparison is the numeric order, hence a total order. */
  lemma UidCmpInWindow(base: int, a: Uid, b: Uid)
    requires base <= a < base + TWO31 && base <= b < base + TWO31
    ensures UidCmp(a, b) < 0 <==> a < b
    ensures UidCmp(a, b) > 0 <==> a > b
  {
    UidCmpAgrees(a, b);
  }

  /** Outside a window it is not even transitive: 0 < 2^31 - 1 < 2^32 - 2, yet 0 compares above 2^32 - 2. */
  lemma UidCmpNotTransitive()
    ensures exists a: Uid, b: Uid, c: Uid :: UidCmp(a, b) < 0 && UidCmp(b, c) < 0 && UidCmp(a, c) > 0
  {
    var a: Uid, b: Uid, c: Uid := 0, 0x7fff_ffff, 0xffff_fffe;
    assert UidCmp(a, b) < 0 && UidCmp(b, c) < 0 && UidCmp(a, c) > 0;
  }

  // ---------------------------------------------------------------- sorting

  function Insert(s: seq<Uid>, x: Uid): (r: seq<Uid>)
    ensures multiset(r) == multiset(s) + multiset{x}
  {
    if s == [] then [x]
    else if UidCmp(x, s[0]) <= 0 then
      assert [x] + s == [x] + s[..];
      [x] + s
    else
      assert s == [s[0]] + s[1..];
      [s[0]] + Insert(s[1..], x)
  }

  /** `g_array_sort (array, uid_cmp)`. */
  function Sort(s: seq<Uid>): (r: seq<Uid>)
    ensures multiset(r) == multiset(s)
  {
    if s == [] then [] else
      assert s == [s[0]] + s[1..];
      Insert(Sort(s[1..]), s[0])
  }

  lemma SameMultisetSameElements(s: seq<Uid>, t: seq<Uid>)
    requires multiset(s) == multiset(t)
    ensures Elements(s) == Elements(t)
    ensures forall u :: u in s <==> u in t
    ensures |s| == |t|
  {
    assert |multiset(s)| == |multiset(t)|;
    forall u ensures u in s <==> u in t {
      assert u in s <==> u in multiset(s);
      assert u in t <==> u in multiset(t);
    }
  }

  ghost predicate NonDecreasing(s: seq<Uid>) {
    forall i, j :: 0 <= i < j < |s| ==> s[i] <= s[j]
  }

  lemma {:induction false} InsertElements(s: seq<Uid>, x: Uid, u: Uid)
    ensures u in Insert(s, x) <==> u in s || u == x
  {
    if s != [] { InsertElements(s[1..], x, u); }
  }

  lemma PrependKeepsOrder(x: Uid, t: seq<Uid>)
    requires NonDecreasing(t) && forall j :: 0 <= j < |t| ==> x <= t[j]
    ensures NonDecreasing([x] + t)
  {
  }

  lemma {:induction false} InsertKeepsOrder(base: int, s: seq<Uid>, x: Uid)
    requires InWindow(base, s) && base <= x < base + TWO31 && NonDecreasing(s)
    ensures NonDecreasing(Insert(s, x))
  {
    if s != [] {
      UidCmpInWindow(base, x, s[0]);
      if x <= s[0] {
        PrependKeepsOrder(x, s);
      } else {
        var t := Insert(s[1..], x);
        InsertKeepsOrder(base, s[1..], x);
        forall j | 0 <= j < |t| ensures s[0] <= t[j] {
          InsertElements(s[1..], x, t[j]);
        }
        PrependKeepsOrder(s[0], t);
      }
    }
  }

  lemma {:induction false} SortOrders(base: int, s: seq<Uid>)
    requires InWindow(base, s)
    ensures NonDecreasing(Sort(s)) && InWindow(base, Sort(s))
  {
    if s != [] {
      var t := Sort(s[1..]);
      SortOrders(base, s[1..]);
      InsertKeepsOrder(base, t, s[0]);
    }
    SameMultisetSameElements(Sort(s), s);
    forall i | 0 <= i < |Sort(s)| ensures base <= Sort(s)[i] < base + TWO31 {
      assert Sort(s)[i] in Sort(s);
    }
  }

  /** A sorted array without duplicates is strictly increasing. */
  lemma DistinctIncreases(s: seq<Uid>)
    requires NonDecreasing(s) && Distinct(s)
    ensures Increasing(s)
  {
    forall i, j | 0 <= i < j < |s| ensures s[i] < s[j] {
      assert s == s[..j] + s[j..];
      assert multiset(s) == multiset(s[..j]) + multiset(s[j..]);
      assert s[..j][i] in multiset(s[..j]) && s[j..][0] in multiset(s[j..]);
      assert Occurrences(s, s[i]) <= 1;
    }
  }

  lemma IncreasingIsDistinct(s: seq<Uid>, u: Uid)
    requires Increasing(s)
    ensures Occurrences(s, u) == if u in s then 1 else 0
  {
    if u in s {
      var k :| 0 <= k < |s| && s[k] == u;
      assert s == s[..k] + [u] + s[k + 1..];
      assert u !in s[..k] && u !in s[k + 1..];
    }
  }

  lemma DropLast(s: seq<Uid>)
    requires Increasing(s) && s != []
    ensures Elements(s[..|s| - 1]) == Elements(s) - {s[|s| - 1]}
    ensures s[|s| - 1] in Elements(s)
    ensures forall u :: u in Elements(s) ==> u <= s[|s| - 1]
  {
    var n := |s| - 1;
    assert s == s[..n] + [s[n]];
  }

  /** A strictly increasing array is determined by its elements. */
  lemma {:induction false} IncreasingUnique(s: seq<Uid>, t: seq<Uid>)
    requires Increasing(s) && Increasing(t) && Elements(s) == Elements(t)
    ensures s == t
  {
    if s != [] { DropLast(s); }
    if t != [] { DropLast(t); }
    if s != [] && t != [] {
      IncreasingUnique(s[..|s| - 1], t[..|t| - 1]);
      assert s == s[..|s| - 1] + [s[|s| - 1]] && t == t[..|t| - 1] + [t[|t| - 1]];
    }
  }

  lemma LastIsGreatest(s: seq<Uid>, u: Uid)
    requires NonDecreasing(s) && u in s
    ensures u <= s[|s| - 1]
  {
    var k :| 0 <= k < |s| && s[k] == u;
  }

  lemma DropLastMultiset(s: seq<Uid>)
    requires s != []
    ensures multiset(s[..|s| - 1]) == multiset(s) - multiset{s[|s| - 1]}
    ensures s[|s| - 1] in multiset(s)
  {
    assert s == s[..|s| - 1] + [s[|s| - 1]];
  }

  lemma SameLast(s: seq<Uid>, t: seq<Uid>)
    requires NonDecreasing(s) && NonDecreasing(t) && multiset(s) == multiset(t) && s != []
    ensures t != [] && s[|s| - 1] == t[|t| - 1]
    ensures multiset(s[..|s| - 1]) == multiset(t[..|t| - 1])
  {
    DropLastMultiset(s);
    assert s[|s| - 1] in t;
    DropLastMultiset(t);
    assert t[|t| - 1] in s;
    LastIsGreatest(s, t[|t| - 1]);
    LastIsGreatest(t, s[|s| - 1]);
  }

  lemma {:induction false} NonDecreasingUnique(s: seq<Uid>, t: seq<Uid>)
    requires NonDecreasing(s) && NonDecreasing(t) && multiset(s) == multiset(t)
    ensures s == t
  {
    SameMultisetSameElements(s, t);
    if s != [] {
      SameLast(s, t);
      NonDecreasingUnique(s[..|s| - 1], t[..|t| - 1]);
      assert s == s[..|s| - 1] + [s[|s| - 1]];
      assert t == t[..|t| - 1] + [t[|t| - 1]];
    }
  }

  lemma {:induction false} IncreasingCardinality(s: seq<Uid>)
    requires Increasing(s)
    ensures |Elements(s)| == |s|
  {
    if s != [] {
      var m := |s| - 1;
      IncreasingCardinality(s[..m]);
      DropLast(s);
    } else {
      assert Elements(s) == {};
    }
  }

  // -------------------------------------------------------------- searching

  /** The bisection of `g_array_binary_search` on the inclusive range left..right. */
  function Bisect(s: seq<Uid>, x: Uid, left: nat, right: nat): bool
    requires right < |s|
    decreases right + 1 - left
  {
    if left > right then false else
      var middle := left + (right - left) / 2;
      var c := UidCmp(s[middle], x);
      if c == 0 then true
      else if c < 0 then (if middle + 1 > right then false else Bisect(s, x, middle + 1, right))
      else if middle > left then Bisect(s, x, left, middle - 1)
      else false
  }

  function BinarySearch(s: seq<Uid>, x: Uid): bool {
    s != [] && Bisect(s, x, 0, |s| - 1)
  }

  /** The search for x is led to position k: each element it meets on the way compares to the side k lies on. */
  predicate LedTo(s: seq<Uid>, x: Uid, left: nat, right: nat, k: nat)
    requires right < |s|
    decreases right + 1 - left
  {
    left <= k <= right &&
    var middle := left + (right - left) / 2;
    var c := UidCmp(s[middle], x);
    if middle == k then c == 0
    else if middle < k then c < 0 && LedTo(s, x, middle + 1, right, k)
    else c > 0 && LedTo(s, x, left, middle - 1, k)
  }

  lemma {:induction false} FoundIsLedTo(s: seq<Uid>, x: Uid, left: nat, right: nat) returns (k: nat)
    requires right < |s| && Bisect(s, x, left, right)
    ensures LedTo(s, x, left, right, k)
    decreases right + 1 - left
  {
    k := left + (right - left) / 2;
    var c := UidCmp(s[k], x);
    if c < 0 {
      k := FoundIsLedTo(s, x, k + 1, right);
    } else if c > 0 {
      k := FoundIsLedTo(s, x, left, k - 1);
    }
  }

  lemma {:induction false} LedToFinds(s: seq<Uid>, x: Uid, left: nat, right: nat, k: nat)
    requires right < |s| && LedTo(s, x, left, right, k)
    ensures k <= right && s[k] == x && Bisect(s, x, left, right)
    decreases right + 1 - left
  {
    var middle := left + (right - left) / 2;
    UidCmpAgrees(s[middle], x);
    if middle < k {
      LedToFinds(s, x, middle + 1, right, k);
    } else if k < middle {
      LedToFinds(s, x, left, middle - 1, k);
    }
  }

  /** On any array, sorted or not, a search finds an id if and only if it is led to a place where the id is. */
  lemma SearchExactly(s: seq<Uid>, x: Uid)
    requires s != []
    ensures BinarySearch(s, x) <==> exists k: nat :: k < |s| && s[k] == x && LedTo(s, x, 0, |s| - 1, k)
  {
    if BinarySearch(s, x) {
      var k := FoundIsLedTo(s, x, 0, |s| - 1);
      LedToFinds(s, x, 0, |s| - 1, k);
    }
    if k: nat :| k < |s| && s[k] == x && LedTo(s, x, 0, |s| - 1, k) {
      LedToFinds(s, x, 0, |s| - 1, k);
    }
  }

  predicate Antipodes(a: Uid, b: Uid) { a - b == TWO31 || b - a == TWO31 }

  /** Turning a comparison round turns its sign, except for ids exactly 2^31 apart, where both are negative. */
  lemma UidCmpTurned(a: Uid, b: Uid)
    ensures UidCmp(a, b) == -UidCmp(b, a) <==> !Antipodes(a, b)
  {
  }

  ghost predicate NoAntipodes(s: seq<Uid>) {
    forall i, j :: 0 <= i < j < |s| ==> !Antipodes(s[i], s[j])
  }

  /** Whatever compares below x is in front of k, and above behind it. */
  ghost predicate Sided(s: seq<Uid>, x: Uid, k: nat) {
    forall m :: 0 <= m < |s| ==> (UidCmp(s[m], x) < 0 ==> m < k) && (UidCmp(s[m], x) > 0 ==> k < m)
  }

  lemma PlacedAsCompared(s: seq<Uid>, m: nat, k: nat)
    requires Ordered(s) && NoAntipodes(s) && m < |s| && k < |s|
    ensures UidCmp(s[m], s[k]) < 0 ==> m < k
    ensures UidCmp(s[m], s[k]) > 0 ==> k < m
  {
    UidCmpTurned(s[m], s[k]);
    UidCmpAgrees(s[m], s[k]);
    if k < m { assert UidCmp(s[k], s[m]) <= 0 && !Antipodes(s[k], s[m]); }
  }

  lemma {:induction false} BisectSided(s: seq<Uid>, x: Uid, left: nat, right: nat, k: nat)
    requires left <= k <= right < |s| && Sided(s, x, k)
    ensures Bisect(s, x, left, right)
    decreases right + 1 - left
  {
    var middle := left + (right - left) / 2;
    if UidCmp(s[middle], x) < 0 {
      BisectSided(s, x, middle + 1, right, k);
    } else if UidCmp(s[middle], x) > 0 {
      BisectSided(s, x, left, middle - 1, k);
    }
  }

  /** Where the comparison orders all elements among each other, the search decides membership of any id, with or
      without a window: the elements may lie across the wrap from 2^32 - 1 to 0. */
  lemma OrderedSearchDecides(s: seq<Uid>, x: Uid)
    requires Ordered(s) && NoAntipodes(s)
    ensures BinarySearch(s, x) <==> x in s
  {
    if BinarySearch(s, x) {
      SearchExactly(s, x);
    }
    if x in s {
      var k :| 0 <= k < |s| && s[k] == x;
      forall m | 0 <= m < |s|
        ensures (UidCmp(s[m], x) < 0 ==> m < k) && (UidCmp(s[m], x) > 0 ==> k < m)
      {
        PlacedAsCompared(s, m, k);
      }
      BisectSided(s, x, 0, |s| - 1, k);
    }
  }

  /** On a sorted array inside a window, in particular. */
  lemma SearchDecides(base: int, s: seq<Uid>, x: Uid)
    requires InWindow(base, s) && NonDecreasing(s) && base <= x < base + TWO31
    ensures BinarySearch(s, x) <==> x in s
  {
    forall i, j | 0 <= i < j < |s| ensures UidCmp(s[i], s[j]) <= 0 && !Antipodes(s[i], s[j]) {
      UidCmpInWindow(base, s[i], s[j]);
    }
    OrderedSearchDecides(s, x);
  }

  // ------------------------------------------------------------- collecting

  /** One user of an active session: appended and sorted in unless a search finds the id. */
  function Note(s: seq<Uid>, uid: Uid): seq<Uid> {
    if BinarySearch(s, uid) then s else Sort(s + [uid])
  }

  function NoteAll(s: seq<Uid>, uids: seq<Uid>): seq<Uid> {
    if uids == [] then s else Note(NoteAll(s, uids[..|uids| - 1]), uids[|uids| - 1])
  }

  /** Every element compares at most its right neighbour. */
  ghost predicate Adjacent(s: seq<Uid>) {
    forall i :: 0 <= i < |s| - 1 ==> UidCmp(s[i], s[i + 1]) <= 0
  }

  lemma AdjacentTail(s: seq<Uid>)
    requires Adjacent(s) && |s| > 1
    ensures UidCmp(s[0], s[1]) <= 0 && Adjacent(s[1..])
  {
    forall i | 0 <= i < |s| - 2 ensures UidCmp(s[1..][i], s[1..][i + 1]) <= 0 {
      assert UidCmp(s[i + 1], s[i + 2]) <= 0;
    }
  }

  lemma {:induction false} AdjacentIsSorted(s: seq<Uid>)
    requires Adjacent(s)
    ensures Sort(s) == s
  {
    if |s| == 1 {
      assert Sort(s[1..]) == [];
    } else if |s| > 1 {
      AdjacentTail(s);
      AdjacentIsSorted(s[1..]);
      assert s[1..][0] == s[1];
      assert [s[0]] + s[1..] == s;
    }
  }

  lemma AdjacentSnoc(s: seq<Uid>, x: Uid)
    requires Adjacent(s) && (s != [] ==> UidCmp(s[|s| - 1], x) <= 0)
    ensures Adjacent(s + [x])
  {
  }

  /** A new id that fits behind the last element is appended there. */
  lemma NoteLast(s: seq<Uid>, x: Uid)
    requires NoteAll([], s) == s && x !in s && Adjacent(s) && (s != [] ==> UidCmp(s[|s| - 1], x) <= 0)
    ensures NoteAll([], s + [x]) == s + [x] && Adjacent(s + [x])
  {
    assert (s + [x])[..|s|] == s;
    if s != [] { SearchExactly(s, x); }
    AdjacentSnoc(s, x);
    AdjacentIsSorted(s + [x]);
  }

  lemma NoteTwo(a: Uid, b: Uid)
    requires UidCmp(a, b) < 0
    ensures NoteAll([], [a, b]) == [a, b] && Adjacent([a, b])
  {
    UidCmpAgrees(a, b);
    NoteLast([], a);
    assert [] + [a] == [a];
    NoteLast([a], b);
    assert [a] + [b] == [a, b];
  }

  lemma NoteFour(a: Uid, b: Uid, c: Uid, u: Uid)
    requires UidCmp(a, b) < 0 && UidCmp(b, c) < 0 && UidCmp(c, u) < 0 && a != c && b != c && u !in [a, b, c]
    ensures NoteAll([], [a, b, c] + [u]) == [a, b, c] + [u]
  {
    NoteTwo(a, b);
    NoteLast([a, b], c);
    assert [a, b] + [c] == [a, b, c];
    NoteLast([a, b, c], u);
  }

  lemma MissedAtEnd(c: seq<Uid>, u: Uid)
    requires |c| == 3 && u !in c && UidCmp(c[1], u) > 0 && UidCmp(c[0], u) > 0
    ensures !BinarySearch(c + [u], u) && Occurrences(Note(c + [u], u), u) == 2
  {
    var d := c + [u];
    assert d[0] == c[0] && d[1] == c[1];
    assert !Bisect(d, u, 0, 0);
    assert multiset(Note(d, u)) == multiset(d) + multiset{u};
  }

  /** Three quarters of the range of ids are too much: after sessions of these four users the array the collection
      leaves has all of them, but a search misses the last, and another session of that user adds it once more. */
  lemma SearchMissesOutsideWindow()
    ensures
      var u: Uid := 0x9000_0000;
      var s := NoteAll([], [0, 1, 0x4000_0000] + [u]);
      u in s && !BinarySearch(s, u) && Occurrences(Note(s, u), u) == 2
  {
    NoteFour(0, 1, 0x4000_0000, 0x9000_0000);
    MissedAtEnd([0, 1, 0x4000_0000], 0x9000_0000);
  }
}
