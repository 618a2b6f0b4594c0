/** The best-match reduction of the recognition pipeline: every active
    employee with a face photo is scored against the probe, and the running
    best is replaced only by a score strictly above both the current best and
    the 0.7 threshold. A candidate whose comparison fails is skipped. */
module Matching {
  import opened Schema

  /** Recognition threshold; a match needs a score strictly above it. */
  const Threshold: real := 0.7

  /** The outcome of the reduction: the index of the winning candidate and
      its score, or no match. */
  datatype Match = NoMatch | Matched(index: nat, score: real)

  /** The candidates `db.karyawan.findMany` returns: active employees with a
      face photo, in the order the query returns them, taken here as table
      order (the query has no `orderBy`). */
  function ActiveWithFace(ks: seq<Employee>): (cs: seq<Employee>)
    ensures |cs| <= |ks|
    ensures forall e :: e in cs <==> e in ks && e.isActive && e.fotoWajah.Some?
  {
    if ks == [] then []
    else
      var rest := ActiveWithFace(ks[1..]);
      assert forall e :: e in ks <==> e == ks[0] || e in ks[1..];
      if ks[0].isActive && ks[0].fotoWajah.Some? then [ks[0]] + rest else rest
  }

  /** A score that clears the threshold. */
  predicate Clears(s: Option<real>)
  {
    s.Some? && s.value > Threshold
  }

  /** No obtained score among the first `n` clears the threshold. */
  ghost predicate NoneClears(scores: seq<Option<real>>, n: nat)
    requires n <= |scores|
  {
    forall j :: 0 <= j < n ==> !Clears(scores[j])
  }

  /** Candidate `i` wins among the first `n`: its score clears the
      threshold, no obtained score is higher, and every earlier obtained
      score is strictly lower (ties go to the earliest index). */
  ghost predicate WinsAmong(scores: seq<Option<real>>, n: nat, i: nat)
    requires n <= |scores|
  {
    && i < n
    && Clears(scores[i])
    && (forall j :: 0 <= j < n && scores[j].Some? ==> scores[j].value <= scores[i].value)
    && (forall j :: 0 <= j < i && scores[j].Some? ==> scores[j].value < scores[i].value)
  }

  /** The independent description of the right answer for `scores`. */
  ghost predicate IsOutcome(scores: seq<Option<real>>, m: Match)
  {
    match m
    case NoMatch => NoneClears(scores, |scores|)
    case Matched(i, v) => WinsAmong(scores, |scores|, i) && scores[i] == Some(v)
  }

  /** The best match, by recursion on the candidate list: the head wins when
      it clears the threshold and is at least as good as the best of the
      rest. */
  function Best(scores: seq<Option<real>>): (m: Match)
    ensures m.Matched? ==> m.index < |scores| && scores[m.index] == Some(m.score)
    ensures m.Matched? ==> m.score > Threshold
  {
    if scores == [] then NoMatch
    else
      var rest := Best(scores[1..]);
      if Clears(scores[0]) && (rest.NoMatch? || scores[0].value >= rest.score) then
        Matched(0, scores[0].value)
      else
        match rest
        case NoMatch => NoMatch
        case Matched(i, v) => Matched(i + 1, v)
  }

  /** `Best` meets the description: the maximum obtained score above the
      threshold, earliest index on ties, or no match when nothing clears. */
  lemma {:induction false} BestIsOutcome(scores: seq<Option<real>>)
    ensures IsOutcome(scores, Best(scores))
  {
    if scores != [] {
      var tail := scores[1..];
      BestIsOutcome(tail);
      assert forall j :: 1 <= j < |scores| ==> scores[j] == tail[j - 1];
      var rest := Best(tail);
      if Clears(scores[0]) && (rest.NoMatch? || scores[0].value >= rest.score) {
        if rest.Matched? {
          forall j | 0 <= j < |scores| && scores[j].Some?
            ensures scores[j].value <= scores[0].value
          {
            if j > 0 { assert scores[j] == tail[j - 1]; }
          }
        } else {
          forall j | 0 <= j < |scores| && scores[j].Some?
            ensures scores[j].value <= scores[0].value
          {
            if j > 0 { assert !Clears(tail[j - 1]); }
          }
        }
      } else if rest.Matched? {
        var i := rest.index;
        assert WinsAmong(tail, |tail|, i);
        assert !Clears(scores[0]) || scores[0].value < rest.score;
        forall j | 0 <= j < i + 1 && scores[j].Some?
          ensures scores[j].value < scores[i + 1].value
        {
          if j > 0 { assert scores[j] == tail[j - 1]; }
        }
      }
    }
  }

  /** At most one outcome meets the description, so any procedure meeting it
      computes exactly `Best`. */
  lemma OutcomeUnique(scores: seq<Option<real>>, m1: Match, m2: Match)
    requires IsOutcome(scores, m1) && IsOutcome(scores, m2)
    ensures m1 == m2
  {
    if m1.Matched? && m2.Matched? {
      var i, k := m1.index, m2.index;
      assert scores[i].value <= scores[k].value && scores[k].value <= scores[i].value;
    }
  }

  /** The candidate loop: `recognized` is the index of the winning employee
      (the source keeps the employee object) and `highest` its score; both
      start at (none, 0). A failed comparison (`None`) is skipped. */
  method FindBest(scores: seq<Option<real>>) returns (recognized: Option<nat>, highest: real)
    ensures recognized.None? ==> highest == 0.0 && Best(scores) == NoMatch
    ensures recognized.Some? ==> Best(scores) == Matched(recognized.value, highest)
  {
    recognized, highest := None, 0.0;
    for i := 0 to |scores|
      invariant recognized.None? ==> highest == 0.0 && NoneClears(scores, i)
      invariant recognized.Some? ==>
        WinsAmong(scores, i, recognized.value) && scores[recognized.value] == Some(highest)
    {
      match scores[i]
      case None =>
        continue;
      case Some(confidence) =>
        if confidence > highest && confidence > Threshold {
          highest := confidence;
          recognized := Some(i);
        }
    }
    var found := if recognized.None? then NoMatch else Matched(recognized.value, highest);
    assert IsOutcome(scores, found);
    BestIsOutcome(scores);
    OutcomeUnique(scores, found, Best(scores));
  }

  /** A score of exactly the threshold never matches. */
  lemma ThresholdIsExclusive(scores: seq<Option<real>>)
    requires forall j :: 0 <= j < |scores| ==> scores[j].None? || scores[j].value <= Threshold
    ensures Best(scores) == NoMatch
  {
  }

  /** Failed comparisons do not disturb the result: the failed candidate
      never wins, and removing it leaves the same winner (its index shifted
      past the removed slot) with the same score. */
  lemma {:induction false} FailureIsSkipped(pre: seq<Option<real>>, post: seq<Option<real>>)
    ensures Best(pre + [None] + post).NoMatch? <==> Best(pre + post).NoMatch?
    ensures Best(pre + [None] + post).Matched? ==>
      Best(pre + post).score == Best(pre + [None] + post).score
    ensures Best(pre + [None] + post).Matched? ==>
      var i := Best(pre + [None] + post).index;
      i != |pre| && Best(pre + post) == Matched(if i < |pre| then i else i - 1, Best(pre + [None] + post).score)
  {
    var s, t := pre + [None] + post, pre + post;
    BestIsOutcome(s);
    BestIsOutcome(t);
    assert forall j :: 0 <= j < |pre| ==> s[j] == t[j];
    assert forall j :: |pre| < j < |s| ==> s[j] == t[j - 1];
    var ms, mt := Best(s), Best(t);
    if ms.Matched? {
      var i := ms.index;
      var i' := if i < |pre| then i else i - 1;
      assert t[i'] == s[i];
      var m' := Matched(i', ms.score);
      forall j | 0 <= j < |t| && t[j].Some? ensures t[j].value <= t[i'].value {
        if j >= |pre| { assert t[j] == s[j + 1]; }
      }
      forall j | 0 <= j < i' && t[j].Some? ensures t[j].value < t[i'].value {
        if j >= |pre| { assert t[j] == s[j + 1]; }
      }
      assert IsOutcome(t, m');
      OutcomeUnique(t, m', mt);
    } else {
      forall j | 0 <= j < |t| ensures !Clears(t[j]) {
        if j >= |pre| { assert t[j] == s[j + 1]; }
      }
      assert IsOutcome(t, NoMatch);
      OutcomeUnique(t, NoMatch, mt);
    }
  }
}
