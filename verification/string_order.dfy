/**
 * Python's ordering of `str` values, by which `groupby` sorts its keys.
 */
module StringOrder {

  /** `a < b` on Python text: lexicographic by code point, a proper prefix first. */
  predicate Less(a: string, b: string) {
    if |a| == 0 then |b| > 0
    else if |b| == 0 then false
    else if a[0] != b[0] then a[0] < b[0]
    else Less(a[1..], b[1..])
  }

  predicate StrictlyIncreasing(ks: seq<string>) {
    forall i, j :: 0 <= i < j < |ks| ==> Less(ks[i], ks[j])
  }

  lemma {:induction false} LessIrreflexive(a: string)
    ensures !Less(a, a)
    decreases |a|
  {
    if |a| > 0 {
      LessIrreflexive(a[1..]);
    }
  }

  lemma {:induction false} LessTransitive(a: string, b: string, c: string)
    requires Less(a, b) && Less(b, c)
    ensures Less(a, c)
    decreases |a|
  {
    if |a| > 0 && |b| > 0 && |c| > 0 && a[0] == b[0] && b[0] == c[0] {
      LessTransitive(a[1..], b[1..], c[1..]);
    }
  }

  lemma {:induction false} LessTotal(a: string, b: string)
    requires a != b
    ensures Less(a, b) || Less(b, a)
    decreases |a|
  {
    if |a| > 0 && |b| > 0 && a[0] == b[0] {
      assert a == [a[0]] + a[1..];
      assert b == [b[0]] + b[1..];
      LessTotal(a[1..], b[1..]);
    }
  }

  /** Keys in strictly increasing order are pairwise different. */
  lemma IncreasingDistinct(ks: seq<string>)
    requires StrictlyIncreasing(ks)
    ensures forall i, j :: 0 <= i < |ks| && 0 <= j < |ks| && i != j ==> ks[i] != ks[j]
  {
    forall i, j | 0 <= i < |ks| && 0 <= j < |ks| && i != j
      ensures ks[i] != ks[j]
    {
      if i < j {
        LessIrreflexive(ks[i]);
      } else {
        LessIrreflexive(ks[j]);
      }
    }
  }

  /** A key below the first of an increasing run is below all of it. */
  lemma BelowHead(k: string, ks: seq<string>)
    requires StrictlyIncreasing(ks) && |ks| > 0 && Less(k, ks[0])
    ensures forall y :: y in ks ==> Less(k, y)
  {
    forall y | y in ks
      ensures Less(k, y)
    {
      var j :| 0 <= j < |ks| && ks[j] == y;
      if j > 0 {
        LessTransitive(k, ks[0], y);
      }
    }
  }

  /** The first key of an increasing run is below the rest, which stay increasing. */
  lemma IncreasingTail(ks: seq<string>)
    requires StrictlyIncreasing(ks) && |ks| > 0
    ensures StrictlyIncreasing(ks[1..])
    ensures forall y :: y in ks[1..] ==> Less(ks[0], y)
  {
    forall y | y in ks[1..]
      ensures Less(ks[0], y)
    {
      var j :| 0 <= j < |ks[1..]| && ks[1..][j] == y;
      assert ks[j + 1] == y;
    }
  }

  /** A key below every key of an increasing run may be put in front of it. */
  lemma IncreasingCons(k: string, ks: seq<string>)
    requires StrictlyIncreasing(ks)
    requires forall y :: y in ks ==> Less(k, y)
    ensures StrictlyIncreasing([k] + ks)
  {
    var t := [k] + ks;
    forall i, j | 0 <= i < j < |t|
      ensures Less(t[i], t[j])
    {
      if i == 0 {
        assert t[j] == ks[j - 1];
        assert t[j] in ks;
      } else {
        assert t[i] == ks[i - 1] && t[j] == ks[j - 1];
      }
    }
  }
}
