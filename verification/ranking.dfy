/**
 * The recommendation ranker: evaluate every hero, then sort the entries by
 * final score, highest first, keeping catalog order among equal scores (a
 * stable sort, as Python's `sorted(..., reverse=True)` is).
 */
module Ranking {
  import opened Heroes
  import opened FuzzyRules
  import opened Evaluation

  /** One entry of the recommendation list. */
  datatype Recommendation = Recommendation(hero: Hero, evaluation: EvaluationResult)

  function Score(r: Recommendation): real
  {
    r.evaluation.finalScore
  }

  /** Final scores never increase along the list. */
  predicate SortedDescending(s: seq<Recommendation>)
  {
    forall i, j :: 0 <= i < j < |s| ==> Score(s[i]) >= Score(s[j])
  }

  /** The entries of `s` whose final score is `k`, in their order in `s`. */
  function WithScore(s: seq<Recommendation>, k: real): seq<Recommendation>
  {
    if |s| == 0 then []
    else WithScore(s[..|s| - 1], k) + (if Score(s[|s| - 1]) == k then [s[|s| - 1]] else [])
  }

  /**
   * The ranking contract: `r` is `s` reordered so that final scores do not
   * increase, and entries with the same score keep their relative order.
   */
  ghost predicate IsStableDescendingSort(s: seq<Recommendation>, r: seq<Recommendation>)
  {
    && multiset(r) == multiset(s)
    && SortedDescending(r)
    && forall k :: WithScore(r, k) == WithScore(s, k)
  }

  lemma {:induction false} WithScoreAppend(a: seq<Recommendation>, b: seq<Recommendation>, k: real)
    ensures WithScore(a + b, k) == WithScore(a, k) + WithScore(b, k)
    decreases |b|
  {
    if |b| == 0 {
      assert a + b == a;
    } else {
      var b' := b[..|b| - 1];
      assert (a + b)[..|a + b| - 1] == a + b';
      WithScoreAppend(a, b', k);
    }
  }

  /** No entry below score `k` contributes to the entries with score `k`. */
  lemma {:induction false} WithScoreBelow(s: seq<Recommendation>, k: real)
    requires forall j :: 0 <= j < |s| ==> Score(s[j]) < k
    ensures WithScore(s, k) == []
    decreases |s|
  {
    if |s| > 0 {
      WithScoreBelow(s[..|s| - 1], k);
    }
  }

  /**
   * Inserting `x` into a descending list right after every entry whose score
   * is at least `x`'s keeps the list descending.
   */
  lemma InsertSorted(r: seq<Recommendation>, p: int, x: Recommendation)
    requires 0 <= p <= |r|
    requires SortedDescending(r)
    requires forall j :: 0 <= j < p ==> Score(r[j]) >= Score(x)
    requires p < |r| ==> Score(r[p]) < Score(x)
    ensures SortedDescending(r[..p] + [x] + r[p..])
  {
    var r' := r[..p] + [x] + r[p..];
    forall i, j | 0 <= i < j < |r'| ensures Score(r'[i]) >= Score(r'[j]) {
      if j < p {
        assert r'[i] == r[i] && r'[j] == r[j];
      } else if j == p {
        assert r'[i] == r[i];
      } else if i < p {
        assert r'[i] == r[i] && r'[j] == r[j - 1];
      } else if i == p {
        assert r'[j] == r[j - 1];
      } else {
        assert r'[i] == r[i - 1] && r'[j] == r[j - 1];
      }
    }
  }

  /**
   * Inserting `x` after every entry whose score is at least `x`'s, before
   * every entry whose score is lower, appends `x` to the entries of its score
   * and leaves the entries of every other score alone.
   */
  lemma InsertStable(r: seq<Recommendation>, p: int, x: Recommendation, k: real)
    requires 0 <= p <= |r|
    requires forall j :: p <= j < |r| ==> Score(r[j]) < Score(x)
    ensures WithScore(r[..p] + [x] + r[p..], k) == WithScore(r + [x], k)
  {
    assert r == r[..p] + r[p..];
    WithScoreAppend(r[..p] + [x], r[p..], k);
    WithScoreAppend(r[..p], [x], k);
    WithScoreAppend(r[..p], r[p..], k);
    WithScoreAppend(r, [x], k);
    if Score(x) == k {
      forall j | 0 <= j < |r[p..]| ensures Score(r[p..][j]) < k {
        assert r[p..][j] == r[p + j];
      }
      WithScoreBelow(r[p..], k);
    } else {
      assert WithScore([x], k) == [] by {
        assert [x][..0] == [];
      }
    }
  }

  /** The tail of a descending list after an entry below `x` stays below `x`. */
  lemma TailBelow(r: seq<Recommendation>, p: int, x: Recommendation)
    requires SortedDescending(r)
    requires 0 <= p <= |r|
    requires p < |r| ==> Score(r[p]) < Score(x)
    ensures forall j :: p <= j < |r| ==> Score(r[j]) < Score(x)
  {
  }

  /** Stable insertion sort, highest final score first. */
  method StableSortDescending(s: seq<Recommendation>) returns (r: seq<Recommendation>)
    ensures IsStableDescendingSort(s, r)
  {
    r := [];
    var i := 0;
    while i < |s|
      invariant 0 <= i <= |s|
      invariant multiset(r) == multiset(s[..i])
      invariant SortedDescending(r)
      invariant forall k :: WithScore(r, k) == WithScore(s[..i], k)
    {
      var x := s[i];
      var p := 0;
      while p < |r| && Score(r[p]) >= Score(x)
        invariant 0 <= p <= |r|
        invariant forall j :: 0 <= j < p ==> Score(r[j]) >= Score(x)
      {
        p := p + 1;
      }
      InsertSorted(r, p, x);
      TailBelow(r, p, x);
      assert s[..i + 1] == s[..i] + [x];
      forall k ensures WithScore(r[..p] + [x] + r[p..], k) == WithScore(s[..i + 1], k) {
        InsertStable(r, p, x, k);
        WithScoreAppend(r, [x], k);
        WithScoreAppend(s[..i], [x], k);
      }
      assert r == r[..p] + r[p..];
      r := r[..p] + [x] + r[p..];
      i := i + 1;
    }
    assert s[..i] == s;
  }

  /** The entries with score `k` are entries of `s` with score `k`. */
  lemma {:induction false} WithScoreMembers(s: seq<Recommendation>, k: real, x: Recommendation)
    requires x in WithScore(s, k)
    ensures x in s && Score(x) == k
    decreases |s|
  {
    var s' := s[..|s| - 1];
    if x in WithScore(s', k) {
      WithScoreMembers(s', k, x);
      assert s'[..] <= s;
    }
  }

  lemma SplitLast(x: seq<Recommendation>, y: seq<Recommendation>, u: Recommendation, v: Recommendation)
    requires x + [u] == y + [v]
    ensures x == y && u == v
  {
    assert |x| == |y|;
    assert (x + [u])[|x|] == u && (y + [v])[|y|] == v;
    assert x == (x + [u])[..|x|] && y == (y + [v])[..|y|];
  }

  /** Two descending lists with the same entries per score end on the same score. */
  lemma LowestScoresAgree(a: seq<Recommendation>, b: seq<Recommendation>)
    requires SortedDescending(a) && SortedDescending(b)
    requires forall k :: WithScore(a, k) == WithScore(b, k)
    requires |a| == |b| > 0
    ensures Score(a[|a| - 1]) == Score(b[|b| - 1])
  {
    var n := |a|;
    var ma, mb := Score(a[n - 1]), Score(b[n - 1]);
    LastWithScore(a);
    assert WithScore(a, ma) == WithScore(b, ma);
    WithScoreMembers(b, ma, a[n - 1]);
    LastIsLowest(b, a[n - 1]);
    LastWithScore(b);
    assert WithScore(b, mb) == WithScore(a, mb);
    WithScoreMembers(a, mb, b[n - 1]);
    LastIsLowest(a, b[n - 1]);
  }

  lemma LastWithScore(a: seq<Recommendation>)
    requires |a| > 0
    ensures WithScore(a, Score(a[|a| - 1])) == WithScore(a[..|a| - 1], Score(a[|a| - 1])) + [a[|a| - 1]]
    ensures a[|a| - 1] in WithScore(a, Score(a[|a| - 1]))
  {
  }

  /** The last entry of a descending list has the lowest score. */
  lemma LastIsLowest(a: seq<Recommendation>, x: Recommendation)
    requires SortedDescending(a)
    requires x in a
    ensures Score(a[|a| - 1]) <= Score(x)
  {
    var i :| 0 <= i < |a| && a[i] == x;
    if i < |a| - 1 {
      assert Score(a[i]) >= Score(a[|a| - 1]);
    }
  }

  /**
   * A descending list is determined by its length and its entries per score.
   */
  lemma {:induction false} DescendingUnique(a: seq<Recommendation>, b: seq<Recommendation>)
    requires SortedDescending(a) && SortedDescending(b)
    requires forall k :: WithScore(a, k) == WithScore(b, k)
    requires |a| == |b|
    ensures a == b
    decreases |a|
  {
    if |a| > 0 {
      var n := |a|;
      var a', b' := a[..n - 1], b[..n - 1];
      LowestScoresAgree(a, b);
      var m := Score(a[n - 1]);
      // The last entries agree, and so does everything before them.
      assert WithScore(a, m) == WithScore(a', m) + [a[n - 1]];
      assert WithScore(b, m) == WithScore(b', m) + [b[n - 1]];
      SplitLast(WithScore(a', m), WithScore(b', m), a[n - 1], b[n - 1]);
      forall k ensures WithScore(a', k) == WithScore(b', k) {
        if k != m {
          assert WithScore(a, k) == WithScore(a', k);
          assert WithScore(b, k) == WithScore(b', k);
        }
      }
      DescendingUnique(a', b');
      assert a == a' + [a[n - 1]] && b == b' + [b[n - 1]];
    }
  }

  /**
   * The ranking contract determines the ranking: two stable descending sorts
   * of the same entries are the same list, so ties are never resolved
   * arbitrarily.
   */
  lemma StableSortUnique(s: seq<Recommendation>, a: seq<Recommendation>, b: seq<Recommendation>)
    requires IsStableDescendingSort(s, a) && IsStableDescendingSort(s, b)
    ensures a == b
  {
    assert |multiset(a)| == |multiset(b)|;
    DescendingUnique(a, b);
  }

  /** The entries `get_hero_recommendations` builds before sorting, in input order. */
  function Entries(sys: FuzzySystem, heroes: seq<Hero>, prefs: Preferences): (e: seq<Recommendation>)
    ensures |e| == |heroes|
    ensures forall i :: 0 <= i < |heroes| ==> e[i] == Recommendation(heroes[i], Evaluate(sys, heroes[i], prefs))
  {
    seq(|heroes|, i requires 0 <= i < |heroes| => Recommendation(heroes[i], Evaluate(sys, heroes[i], prefs)))
  }

  /** A reordering has the same length and the same elements. */
  lemma SameElements(s: seq<Recommendation>, r: seq<Recommendation>)
    requires multiset(r) == multiset(s)
    ensures |r| == |s|
    ensures forall i :: 0 <= i < |r| ==> r[i] in s
  {
    assert |multiset(r)| == |multiset(s)|;
    forall i | 0 <= i < |r| ensures r[i] in s {
      assert r[i] in multiset(r);
    }
  }

  /** Each entry pairs a hero of the input with that hero's evaluation. */
  lemma EntryOf(sys: FuzzySystem, heroes: seq<Hero>, prefs: Preferences, e: Recommendation)
    requires e in Entries(sys, heroes, prefs)
    ensures e.hero in heroes && e.evaluation == Evaluate(sys, e.hero, prefs)
  {
    var es := Entries(sys, heroes, prefs);
    var j :| 0 <= j < |es| && es[j] == e;
    assert es[j] == Recommendation(heroes[j], Evaluate(sys, heroes[j], prefs));
  }

  /**
   * `get_hero_recommendations`: every hero with its evaluation (a failed
   * evaluation stays in the list with its zeroed scores), ranked by the
   * stable descending sort.
   */
  method Recommendations(sys: FuzzySystem, heroes: seq<Hero>, prefs: Preferences) returns (r: seq<Recommendation>)
    ensures |r| == |heroes|
    ensures IsStableDescendingSort(Entries(sys, heroes, prefs), r)
    ensures forall i :: 0 <= i < |r| ==> r[i].hero in heroes && r[i].evaluation == Evaluate(sys, r[i].hero, prefs)
  {
    var entries := Entries(sys, heroes, prefs);
    r := StableSortDescending(entries);
    SameElements(entries, r);
    forall i | 0 <= i < |r|
      ensures r[i].hero in heroes && r[i].evaluation == Evaluate(sys, r[i].hero, prefs)
    {
      EntryOf(sys, heroes, prefs, r[i]);
    }
  }
}
