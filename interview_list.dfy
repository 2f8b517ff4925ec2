/**
 * The dashboard's interview list: the three-way gender filter, the empty
 * state, and what each row shows.
 */
module InterviewList {
  import opened Interviews

  /** The selector `'all' | 'woman' | 'not-woman'`. */
  datatype FilterType = All | Woman | NotWoman

  const NoInterviewsYet := "No interviews yet."
  const NoMatches := "No interviews match this filter."
  const UnknownParticipant := "Unknown"

  /**
   * The predicate handed to `Array.filter`. The flag is compared strictly:
   * an absent flag is neither `true` nor `false`.
   */
  predicate Keeps(filter: FilterType, interview: Interview) {
    match filter
    case All => true
    case Woman => IsWomanOf(interview.extractedVariables) == Some(true)
    case NotWoman => IsWomanOf(interview.extractedVariables) == Some(false)
  }

  /** `interviews.filter(…)`: the records the selector keeps, left to right. */
  function FilterInterviews(interviews: seq<Interview>, filter: FilterType): (r: seq<Interview>)
    ensures |r| <= |interviews|
    ensures forall k :: 0 <= k < |r| ==> Keeps(filter, r[k])
  {
    if interviews == [] then []
    else
      (if Keeps(filter, interviews[0]) then [interviews[0]] else [])
      + FilterInterviews(interviews[1..], filter)
  }

  // ---------------------------------------------------------------------
  // What the filter selects

  /** A record is in the result exactly when it is in the input and the selector keeps it. */
  lemma {:induction false} FilterMembership(interviews: seq<Interview>, filter: FilterType, x: Interview)
    ensures x in FilterInterviews(interviews, filter) <==> x in interviews && Keeps(filter, x)
  {
    if interviews != [] {
      FilterMembership(interviews[1..], filter, x);
      assert interviews == [interviews[0]] + interviews[1..];
    }
  }

  lemma {:induction false} FilterAllIsIdentity(interviews: seq<Interview>)
    ensures FilterInterviews(interviews, All) == interviews
  {
    if interviews != [] {
      FilterAllIsIdentity(interviews[1..]);
    }
  }

  lemma {:induction false} FilterWomanMembership(interviews: seq<Interview>, x: Interview)
    ensures x in FilterInterviews(interviews, Woman) <==>
      x in interviews && x.extractedVariables.Some? && x.extractedVariables.value.isWoman == Some(true)
  {
    FilterMembership(interviews, Woman, x);
  }

  lemma {:induction false} FilterNotWomanMembership(interviews: seq<Interview>, x: Interview)
    ensures x in FilterInterviews(interviews, NotWoman) <==>
      x in interviews && x.extractedVariables.Some? && x.extractedVariables.value.isWoman == Some(false)
  {
    FilterMembership(interviews, NotWoman, x);
  }

  /** A record without the flag (or without variables at all) is kept only by `All`. */
  lemma {:induction false} AbsentFlagOnlyInAll(interviews: seq<Interview>, x: Interview)
    requires x in interviews
    requires IsWomanOf(x.extractedVariables) == None
    ensures x in FilterInterviews(interviews, All)
    ensures x !in FilterInterviews(interviews, Woman)
    ensures x !in FilterInterviews(interviews, NotWoman)
  {
    FilterMembership(interviews, All, x);
    FilterMembership(interviews, Woman, x);
    FilterMembership(interviews, NotWoman, x);
  }

  /**
   * `idx` picks `r` out of `interviews` in order, and picks exactly the
   * positions whose record the selector keeps.
   */
  ghost predicate IsSelection(idx: seq<int>, r: seq<Interview>, interviews: seq<Interview>, filter: FilterType) {
    && |idx| == |r|
    && (forall k :: 0 <= k < |idx| ==> 0 <= idx[k] < |interviews| && r[k] == interviews[idx[k]])
    && (forall k, l :: 0 <= k < l < |idx| ==> idx[k] < idx[l])
    && (forall i :: 0 <= i < |interviews| ==> (i in idx <==> Keeps(filter, interviews[i])))
  }

  /** The positions from `lo` on whose record the selector keeps, ascending. */
  function KeptPositions(interviews: seq<Interview>, filter: FilterType, lo: nat): seq<int>
    requires lo <= |interviews|
    decreases |interviews| - lo
  {
    if lo == |interviews| then []
    else (if Keeps(filter, interviews[lo]) then [lo] else []) + KeptPositions(interviews, filter, lo + 1)
  }

  /** The kept positions from `lo` on lie in `[lo, |interviews|)` and ascend. */
  lemma {:induction false} KeptPositionsAscend(interviews: seq<Interview>, filter: FilterType, lo: nat)
    requires lo <= |interviews|
    ensures forall k :: 0 <= k < |KeptPositions(interviews, filter, lo)| ==>
      lo <= KeptPositions(interviews, filter, lo)[k] < |interviews|
    ensures forall k, l :: 0 <= k < l < |KeptPositions(interviews, filter, lo)| ==>
      KeptPositions(interviews, filter, lo)[k] < KeptPositions(interviews, filter, lo)[l]
    decreases |interviews| - lo
  {
    if lo < |interviews| {
      var tail := KeptPositions(interviews, filter, lo + 1);
      KeptPositionsAscend(interviews, filter, lo + 1);
      if Keeps(filter, interviews[lo]) {
        var idx := [lo] + tail;
        assert KeptPositions(interviews, filter, lo) == idx;
        forall k | 0 <= k < |idx|
          ensures lo <= idx[k] < |interviews|
        {
          if k > 0 {
            assert idx[k] == tail[k - 1];
          }
        }
        forall k, l | 0 <= k < l < |idx|
          ensures idx[k] < idx[l]
        {
          assert idx[l] == tail[l - 1];
          if k > 0 {
            assert idx[k] == tail[k - 1];
          }
        }
      }
    }
  }

  /** A position from `lo` on is listed exactly when the selector keeps its record. */
  lemma {:induction false} KeptPositionsMembers(interviews: seq<Interview>, filter: FilterType, lo: nat)
    requires lo <= |interviews|
    ensures forall i :: i in KeptPositions(interviews, filter, lo) <==> lo <= i < |interviews| && Keeps(filter, interviews[i])
    decreases |interviews| - lo
  {
    if lo < |interviews| {
      KeptPositionsMembers(interviews, filter, lo + 1);
    }
  }

  /** Filtering the suffix from `lo` decides the record at `lo`, then filters the rest. */
  lemma FilterSuffixStep(interviews: seq<Interview>, filter: FilterType, lo: nat)
    requires lo < |interviews|
    ensures FilterInterviews(interviews[lo..], filter) ==
      (if Keeps(filter, interviews[lo]) then [interviews[lo]] else []) + FilterInterviews(interviews[lo + 1..], filter)
  {
  }

  /** The kept positions from `lo` on pick out, one for one, the filter result of the suffix. */
  lemma {:induction false} KeptPositionsPick(interviews: seq<Interview>, filter: FilterType, lo: nat)
    requires lo <= |interviews|
    ensures |KeptPositions(interviews, filter, lo)| == |FilterInterviews(interviews[lo..], filter)|
    ensures forall k :: 0 <= k < |KeptPositions(interviews, filter, lo)| ==>
      && 0 <= KeptPositions(interviews, filter, lo)[k] < |interviews|
      && FilterInterviews(interviews[lo..], filter)[k] == interviews[KeptPositions(interviews, filter, lo)[k]]
    decreases |interviews| - lo
  {
    KeptPositionsAscend(interviews, filter, lo);
    if lo < |interviews| {
      var x := interviews[lo];
      var tail := KeptPositions(interviews, filter, lo + 1);
      var rest := FilterInterviews(interviews[lo + 1..], filter);
      KeptPositionsPick(interviews, filter, lo + 1);
      FilterSuffixStep(interviews, filter, lo);
      var idx := KeptPositions(interviews, filter, lo);
      var r := FilterInterviews(interviews[lo..], filter);
      if Keeps(filter, x) {
        assert r == [x] + rest;
        assert idx == [lo] + tail;
        forall k | 1 <= k < |idx|
          ensures r[k] == interviews[idx[k]]
        {
          assert r[k] == rest[k - 1] && idx[k] == tail[k - 1];
        }
      } else {
        assert r == rest;
        assert idx == tail;
      }
    }
  }

  /** The filter result is an order-preserving selection of exactly the kept records. */
  lemma FilterIsSelection(interviews: seq<Interview>, filter: FilterType)
    ensures IsSelection(KeptPositions(interviews, filter, 0), FilterInterviews(interviews, filter), interviews, filter)
  {
    KeptPositionsAscend(interviews, filter, 0);
    KeptPositionsMembers(interviews, filter, 0);
    KeptPositionsPick(interviews, filter, 0);
    assert interviews[0..] == interviews;
  }

  /** Two ascending index sequences with the same members are equal. */
  lemma {:induction false} AscendingSameMembersEqual(a: seq<int>, b: seq<int>)
    requires forall k, l :: 0 <= k < l < |a| ==> a[k] < a[l]
    requires forall k, l :: 0 <= k < l < |b| ==> b[k] < b[l]
    requires forall i :: i in a <==> i in b
    ensures a == b
  {
    // a non-empty b has a member, so a is non-empty too
    assert b != [] ==> b[0] in b;
    if a != [] {
      assert a[0] in a;
      assert a[0] in b;
      assert b[0] in b;
      assert b[0] in a;
      assert a[0] == b[0] by {
        var ka :| 0 <= ka < |a| && a[ka] == b[0];
        var kb :| 0 <= kb < |b| && b[kb] == a[0];
        assert a[0] <= a[ka];
        assert b[0] <= b[kb];
      }
      forall i
        ensures i in a[1..] <==> i in b[1..]
      {
        if i in a[1..] {
          var k :| 1 <= k < |a| && a[k] == i;
          assert i in b;
          var kb :| 0 <= kb < |b| && b[kb] == i;
          assert kb != 0;
          assert b[1..][kb - 1] == i;
        }
        if i in b[1..] {
          var k :| 1 <= k < |b| && b[k] == i;
          assert i in a;
          var ka :| 0 <= ka < |a| && a[ka] == i;
          assert ka != 0;
          assert a[1..][ka - 1] == i;
        }
      }
      AscendingSameMembersEqual(a[1..], b[1..]);
      assert a == [a[0]] + a[1..];
      assert b == [b[0]] + b[1..];
    }
  }

  /**
   * The filter result is the ONLY order-preserving selection of exactly the
   * kept records: `IsSelection` is an independent definition of the filter.
   */
  lemma FilterIsUniqueSelection(interviews: seq<Interview>, filter: FilterType, idx: seq<int>, r: seq<Interview>)
    requires IsSelection(idx, r, interviews, filter)
    ensures r == FilterInterviews(interviews, filter)
  {
    var kept := KeptPositions(interviews, filter, 0);
    var f := FilterInterviews(interviews, filter);
    FilterIsSelection(interviews, filter);
    forall i
      ensures i in idx <==> i in kept
    {
      if i in idx {
        var k :| 0 <= k < |idx| && idx[k] == i;
      }
      if i in kept {
        var k :| 0 <= k < |kept| && kept[k] == i;
      }
    }
    AscendingSameMembersEqual(idx, kept);
  }

  /** The result is a subsequence of the input: some ascending choice of positions yields it. */
  lemma FilterIsSubsequence(interviews: seq<Interview>, filter: FilterType)
    ensures exists idx: seq<int> :: IsSelection(idx, FilterInterviews(interviews, filter), interviews, filter)
  {
    FilterIsSelection(interviews, filter);
  }

  lemma {:induction false} FilterIdempotent(interviews: seq<Interview>, filter: FilterType)
    ensures FilterInterviews(FilterInterviews(interviews, filter), filter) == FilterInterviews(interviews, filter)
  {
    if interviews != [] {
      var rest := FilterInterviews(interviews[1..], filter);
      FilterIdempotent(interviews[1..], filter);
      if Keeps(filter, interviews[0]) {
        var r := [interviews[0]] + rest;
        assert r[0] == interviews[0] && r[1..] == rest;
        assert FilterInterviews(r, filter) == [interviews[0]] + FilterInterviews(rest, filter);
        assert FilterInterviews(interviews, filter) == r;
      } else {
        assert FilterInterviews(interviews, filter) == rest;
      }
    }
  }

  lemma {:induction false} WomanAndNotWomanDisjoint(interviews: seq<Interview>)
    ensures forall x :: x in FilterInterviews(interviews, Woman) ==> x !in FilterInterviews(interviews, NotWoman)
  {
    forall x | x in FilterInterviews(interviews, Woman)
      ensures x !in FilterInterviews(interviews, NotWoman)
    {
      FilterMembership(interviews, Woman, x);
      FilterMembership(interviews, NotWoman, x);
    }
  }

  /** The number of records whose flag is defined, whatever its value. */
  function CountWithFlag(interviews: seq<Interview>): nat {
    if interviews == [] then 0
    else (if IsWomanOf(interviews[0].extractedVariables).Some? then 1 else 0) + CountWithFlag(interviews[1..])
  }

  /** Every record with a defined flag lands in exactly one of the two gender filters. */
  lemma {:induction false} WomanPlusNotWomanCountsFlagged(interviews: seq<Interview>)
    ensures |FilterInterviews(interviews, Woman)| + |FilterInterviews(interviews, NotWoman)| == CountWithFlag(interviews)
  {
    if interviews != [] {
      var x, rest := interviews[0], interviews[1..];
      WomanPlusNotWomanCountsFlagged(rest);
      assert FilterInterviews(interviews, Woman) ==
        (if Keeps(Woman, x) then [x] else []) + FilterInterviews(rest, Woman);
      assert FilterInterviews(interviews, NotWoman) ==
        (if Keeps(NotWoman, x) then [x] else []) + FilterInterviews(rest, NotWoman);
      assert CountWithFlag(interviews) == (if IsWomanOf(x.extractedVariables).Some? then 1 else 0) + CountWithFlag(rest);
      match IsWomanOf(x.extractedVariables)
      case None =>
        assert !Keeps(Woman, x) && !Keeps(NotWoman, x);
      case Some(b) =>
        assert Keeps(Woman, x) != Keeps(NotWoman, x);
    }
  }

  // ---------------------------------------------------------------------
  // Rendering

  /** `Math.round(x)`: the largest integer not above `x + 1/2` (ties go up). */
  function MathRound(x: real): int {
    (x + 0.5).Floor
  }

  /**
   * `Math.round(duration / 1000)` on whole milliseconds: the nearest whole
   * second, a half second rounding up.
   */
  function RoundedSeconds(duration: int): (seconds: int)
    ensures seconds * 1000 - 500 <= duration < seconds * 1000 + 500
  {
    (duration + 500) / 1000
  }

  lemma RoundedSecondsIsMathRound(duration: int)
    ensures RoundedSeconds(duration) == MathRound(duration as real / 1000.0)
  {
  }

  lemma RoundedSecondsExamples()
    ensures RoundedSeconds(0) == 0
    ensures RoundedSeconds(499) == 0
    ensures RoundedSeconds(500) == 1
    ensures RoundedSeconds(1499) == 1
    ensures RoundedSeconds(1500) == 2
    ensures RoundedSeconds(65000) == 65
  {
  }

  lemma RoundedSecondsMonotonic(d1: int, d2: int)
    requires d1 <= d2
    ensures RoundedSeconds(d1) <= RoundedSeconds(d2)
  {
  }

  /** The favourite-food block of a row and its optional reason line. */
  datatype FoodLine = FoodLine(food: string, reason: Option<string>)

  /** What one list row shows. */
  datatype Row = Row(
    participant: string,
    badge: Option<GenderBadge>,
    food: Option<FoodLine>,
    seconds: int,
    callId: string)

  /** The card body: the empty-state message, or the rows. */
  datatype ListView = EmptyState(message: string) | Rows(rows: seq<Row>)

  function RenderRow(interview: Interview): (row: Row)
    ensures row.participant != ""
    ensures Truthy(interview.participantId) ==> row.participant == interview.participantId.value
    ensures !Truthy(interview.participantId) ==> row.participant == UnknownParticipant
    ensures row.badge.Some? <==> IsWomanOf(interview.extractedVariables).Some?
    ensures row.badge.Some? ==> (row.badge.value.text == WomanLabel <==> IsWomanOf(interview.extractedVariables) == Some(true))
    ensures row.badge.Some? ==> (row.badge.value.text == NotWomanLabel <==> IsWomanOf(interview.extractedVariables) == Some(false))
    ensures row.badge.Some? ==> (row.badge.value.variant == Default <==> IsWomanOf(interview.extractedVariables) == Some(true))
    ensures row.food.Some? <==> Truthy(FavoriteFoodOf(interview.extractedVariables))
    ensures row.food.Some? ==> row.food.value.food == FavoriteFoodOf(interview.extractedVariables).value
    ensures row.food.Some? ==> (row.food.value.reason.Some? <==> Truthy(FoodReasonOf(interview.extractedVariables)))
    ensures row.food.Some? && row.food.value.reason.Some? ==>
      row.food.value.reason.value == FoodReasonOf(interview.extractedVariables).value
    ensures row.seconds * 1000 - 500 <= interview.duration < row.seconds * 1000 + 500
    ensures row.callId == interview.callId
  {
    var vars := interview.extractedVariables;
    var favoriteFood := FavoriteFoodOf(vars);
    var foodReason := FoodReasonOf(vars);
    Row(
      OrElse(interview.participantId, UnknownParticipant),
      BadgeFor(IsWomanOf(vars)),
      if Truthy(favoriteFood)
      then Some(FoodLine(favoriteFood.value, if Truthy(foodReason) then Some(foodReason.value) else None))
      else None,
      RoundedSeconds(interview.duration),
      interview.callId)
  }

  /** A reason line appears exactly when both the food and the reason are non-empty. */
  lemma RowReasonNeedsFood(interview: Interview)
    ensures (RenderRow(interview).food.Some? && RenderRow(interview).food.value.reason.Some?) <==>
      (Truthy(FavoriteFoodOf(interview.extractedVariables)) && Truthy(FoodReasonOf(interview.extractedVariables)))
  {
  }

  function RenderList(interviews: seq<Interview>, filter: FilterType): (view: ListView)
    ensures view.EmptyState? <==> FilterInterviews(interviews, filter) == []
    ensures view.EmptyState? ==> (view.message == NoInterviewsYet <==> filter == All)
    ensures view.EmptyState? ==> (view.message == NoMatches <==> filter != All)
    ensures view.Rows? ==>
      && |view.rows| == |FilterInterviews(interviews, filter)|
      && forall i :: 0 <= i < |view.rows| ==> view.rows[i] == RenderRow(FilterInterviews(interviews, filter)[i])
  {
    var shown := FilterInterviews(interviews, filter);
    if |shown| == 0 then EmptyState(if filter == All then NoInterviewsYet else NoMatches)
    else Rows(seq(|shown|, i requires 0 <= i < |shown| => RenderRow(shown[i])))
  }

  /** "No interviews yet." shows exactly when there are no records at all and the selector is `All`. */
  lemma {:induction false} NoInterviewsYetExactly(interviews: seq<Interview>, filter: FilterType)
    ensures RenderList(interviews, filter) == EmptyState(NoInterviewsYet) <==> filter == All && interviews == []
  {
    if filter == All {
      FilterAllIsIdentity(interviews);
    }
  }

  /** Under a gender selector, the no-match message shows exactly when no record is kept. */
  lemma NoMatchesExactly(interviews: seq<Interview>, filter: FilterType)
    requires filter != All
    ensures RenderList(interviews, filter) == EmptyState(NoMatches) <==>
      forall i :: 0 <= i < |interviews| ==> !Keeps(filter, interviews[i])
  {
    var shown := FilterInterviews(interviews, filter);
    if shown != [] {
      FilterMembership(interviews, filter, shown[0]);
    } else {
      forall i | 0 <= i < |interviews|
        ensures !Keeps(filter, interviews[i])
      {
        FilterMembership(interviews, filter, interviews[i]);
      }
    }
  }

  /** Under `Woman` every row shows the "Woman" badge; under `NotWoman` every row shows "Not woman". */
  lemma {:induction false} FilteredRowsShowMatchingBadge(interviews: seq<Interview>, filter: FilterType)
    requires filter != All
    ensures RenderList(interviews, filter).Rows? ==>
      forall row :: row in RenderList(interviews, filter).rows ==> row.badge == Some(GenderBadgeFor(filter == Woman))
  {
    var view := RenderList(interviews, filter);
    var shown := FilterInterviews(interviews, filter);
    if view.Rows? {
      forall row | row in view.rows
        ensures row.badge == Some(GenderBadgeFor(filter == Woman))
      {
        var i :| 0 <= i < |view.rows| && view.rows[i] == row;
        assert shown[i] in shown;
      }
    }
  }
}
