/** Counting in finite sets. */
module Sets {

  lemma SubsetCount<T>(s: set<T>, t: set<T>)
    requires s <= t
    ensures |s| + |t - s| == |t|
    ensures s != t ==> |s| < |t|
  {
    assert t == s + (t - s);
    if s != t {
      var x :| x in t - s;
    }
  }
}
