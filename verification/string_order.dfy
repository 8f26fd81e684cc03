/**
 * Python's ordering of `str` values: lexicographic by code point, a proper
 * prefix coming first. Dafny's `char` comparison is by code point too.
 */
module StringOrder {

  /** `a` sorts strictly before `b`. */
  predicate Less(a: string, b: string)
    decreases |a|
  {
    if |a| == 0 then |b| > 0
    else if |b| == 0 then false
    else if a[0] != b[0] then a[0] < b[0]
    else Less(a[1..], b[1..])
  }

  lemma {:induction false} Irreflexive(a: string)
    ensures !Less(a, a)
    decreases |a|
  {
    if |a| > 0 {
      Irreflexive(a[1..]);
    }
  }

  lemma {:induction false} Asymmetric(a: string, b: string)
    requires Less(a, b)
    ensures !Less(b, a)
    decreases |a|
  {
    if |a| > 0 && |b| > 0 && a[0] == b[0] {
      Asymmetric(a[1..], b[1..]);
    }
  }

  lemma {:induction false} Transitive(a: string, b: string, c: string)
    requires Less(a, b) && Less(b, c)
    ensures Less(a, c)
    decreases |a|
  {
    if |a| > 0 && |b| > 0 && |c| > 0 && a[0] == b[0] && b[0] == c[0] {
      Transitive(a[1..], b[1..], c[1..]);
    }
  }

  /** Any two distinct strings are ordered one way or the other. */
  lemma {:induction false} Total(a: string, b: string)
    requires a != b
    ensures Less(a, b) || Less(b, a)
    decreases |a|
  {
    if |a| > 0 && |b| > 0 && a[0] == b[0] {
      assert a == [a[0]] + a[1..] && b == [b[0]] + b[1..];
      Total(a[1..], b[1..]);
    }
  }

  /** Every pair of positions is in strictly increasing order. */
  predicate StrictlyIncreasing(s: seq<string>)
  {
    forall i, j :: 0 <= i < j < |s| ==> Less(s[i], s[j])
  }

  function Elements(s: seq<string>): set<string>
  {
    set k | 0 <= k < |s| :: s[k]
  }

  lemma NonEmptyElements(s: seq<string>)
    ensures |s| > 0 <==> Elements(s) != {}
  {
    if |s| > 0 {
      assert s[0] in Elements(s);
    }
  }

  /** A strictly increasing sequence is determined by its elements. */
  lemma {:induction false} IncreasingUnique(s: seq<string>, t: seq<string>)
    requires StrictlyIncreasing(s) && StrictlyIncreasing(t)
    requires Elements(s) == Elements(t)
    ensures s == t
    decreases |s|
  {
    NonEmptyElements(s);
    NonEmptyElements(t);
    if |s| > 0 {
      assert s[0] in Elements(t);
      assert t[0] in Elements(s);
      var i :| 0 <= i < |t| && t[i] == s[0];
      var j :| 0 <= j < |s| && s[j] == t[0];
      if i > 0 {
        assert Less(t[0], t[i]);
        if j == 0 {
          Irreflexive(t[0]);
        } else {
          assert Less(s[0], s[j]);
          Asymmetric(s[0], t[0]);
        }
        assert false;
      }
      assert t[0] == s[0];
      assert Elements(s[1..]) == Elements(s) - {s[0]} by {
        forall x | x in Elements(s[1..]) ensures x in Elements(s) - {s[0]} {
          var k :| 1 <= k + 1 < |s| && s[1..][k] == x;
          Irreflexive(s[0]);
        }
      }
      assert Elements(t[1..]) == Elements(t) - {t[0]} by {
        forall x | x in Elements(t[1..]) ensures x in Elements(t) - {t[0]} {
          var k :| 1 <= k + 1 < |t| && t[1..][k] == x;
          Irreflexive(t[0]);
        }
      }
      IncreasingUnique(s[1..], t[1..]);
      assert s == [s[0]] + s[1..] && t == [t[0]] + t[1..];
    }
  }
}
