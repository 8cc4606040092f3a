/**
 Acknowledgements of saves: they are not part of the write, so those of two saves of one aggregate may arrive
 in either order. When exactly that takes a baseline back, and how a caller avoids it.
 */
module Acknowledgements {
  import opened WriteProtocol

  /** Step `i` acknowledges a save of `a`. */
  predicate Acknowledges(t: seq<State>, steps: seq<Step>, i: nat, a: nat)
    requires i < |steps| && i < |t|
  {
    steps[i].Acknowledge? && steps[i].w in t[i].writes && t[i].writes[steps[i].w].aggregate == a
  }

  /** The version that the save acknowledged by step `i` wrote. */
  function AcknowledgedVersion(t: seq<State>, steps: seq<Step>, i: nat, a: nat): nat
    requires i < |steps| && i < |t| && Acknowledges(t, steps, i, a)
  {
    t[i].writes[steps[i].w].row.version
  }

  /** The latest acknowledgement of a save of `a` before step `i`. */
  function LastAcknowledgement(t: seq<State>, steps: seq<Step>, i: nat, a: nat): (j: int)
    requires i <= |steps| && i < |t|
    ensures -1 <= j < i && (j >= 0 ==> Acknowledges(t, steps, j, a))
    ensures forall k :: j < k < i ==> !Acknowledges(t, steps, k, a)
  {
    if i == 0 then -1
    else if Acknowledges(t, steps, i - 1, a) then i - 1
    else LastAcknowledgement(t, steps, i - 1, a)
  }

  // ---- What a baseline is ----

  /** The little of the invariant that matters here. */
  ghost predicate Basic(s: State) {
    && s.history != []
    && (forall a :: a in s.aggregates ==> s.aggregates[a].baseline <= s.aggregates[a].version)
    && (forall w :: w in s.writes ==> s.writes[w].aggregate in s.aggregates)
  }

  lemma RunIsBasic(t: seq<State>, steps: seq<Step>, i: nat)
    requires Run(t, steps) && i < |t|
    ensures Basic(t[i])
  {
    RunKeepsInv(t, steps, i);
  }

  ghost predicate BaselineIsLast(t: seq<State>, steps: seq<Step>, i: nat, a: nat)
    requires i <= |steps| && i < |t|
  {
    var j := LastAcknowledgement(t, steps, i, a);
    && (j >= 0 ==> a in t[i].aggregates && t[i].aggregates[a].baseline == AcknowledgedVersion(t, steps, j, a))
    && (a in t[i].aggregates && j < 0 ==> IsFloor(t[i], a))
  }

  /** A baseline is the version acknowledged last; before the first acknowledgement no save is below it. */
  lemma {:induction false} BaselineIsAcknowledgedLast(t: seq<State>, steps: seq<Step>, i: nat, a: nat)
    requires Run(t, steps) && i < |t|
    ensures BaselineIsLast(t, steps, i, a)
  {
    if i > 0 {
      BaselineIsAcknowledgedLast(t, steps, i - 1, a);
      RunIsBasic(t, steps, i - 1);
      if !Acknowledges(t, steps, i - 1, a) {
        LastStaysLast(t, steps, i, a);
      }
    }
  }

  lemma LastStaysLast(t: seq<State>, steps: seq<Step>, i: nat, a: nat)
    requires Run(t, steps) && 0 < i < |t| && !Acknowledges(t, steps, i - 1, a)
    requires Basic(t[i - 1]) && BaselineIsLast(t, steps, i - 1, a)
    ensures BaselineIsLast(t, steps, i, a)
  {
    assert TakesStep(t[i - 1], steps[i - 1], t[i - 1 + 1]);
  }

  /** No save of `a` is of a version below its baseline. */
  ghost predicate IsFloor(s: State, a: nat)
    requires a in s.aggregates
  {
    forall w :: w in s.writes && s.writes[w].aggregate == a ==> s.aggregates[a].baseline <= s.writes[w].row.version
  }

  /** An acknowledgement lowers the baseline if and only if the one before it was of a higher version. */
  lemma LowersIffLastIsHigher(t: seq<State>, steps: seq<Step>, i: nat, a: nat)
    requires Run(t, steps) && i < |steps| && Acknowledges(t, steps, i, a)
    ensures a in t[i].aggregates && a in t[i + 1].aggregates
    ensures t[i + 1].aggregates[a].baseline < t[i].aggregates[a].baseline <==>
            var j := LastAcknowledgement(t, steps, i, a);
            j >= 0 && AcknowledgedVersion(t, steps, j, a) > AcknowledgedVersion(t, steps, i, a)
  {
    assert TakesStep(t[i], steps[i], t[i + 1]);
    BaselineIsAcknowledgedLast(t, steps, i, a);
  }

  // ---- Over a run ----

  /** The saves of `a` are acknowledged in the order of their versions. */
  ghost predicate InOrder(t: seq<State>, steps: seq<Step>, a: nat)
    requires |t| == |steps| + 1
  {
    forall j, k :: 0 <= j < k < |steps| && Acknowledges(t, steps, j, a) && Acknowledges(t, steps, k, a) ==>
      AcknowledgedVersion(t, steps, j, a) <= AcknowledgedVersion(t, steps, k, a)
  }

  ghost predicate NeverFalls(t: seq<State>, steps: seq<Step>, a: nat)
    requires |t| == |steps| + 1
  {
    forall i :: 0 <= i < |steps| && a in t[i].aggregates ==> StaysUp(t[i], t[i + 1], a)
  }

  predicate StaysUp(s: State, s': State, a: nat)
    requires a in s.aggregates
  {
    a in s'.aggregates && s.aggregates[a].baseline <= s'.aggregates[a].baseline
  }

  lemma {:induction false} BaselineRises(t: seq<State>, steps: seq<Step>, a: nat, i: nat, j: nat)
    requires Run(t, steps) && NeverFalls(t, steps, a) && i <= j < |t| && a in t[i].aggregates
    ensures StaysUp(t[i], t[j], a)
    decreases j
  {
    if i < j {
      BaselineRises(t, steps, a, i, j - 1);
      assert StaysUp(t[j - 1], t[j - 1 + 1], a);
    }
  }

  /** A baseline never goes down if and only if the saves of its aggregate are acknowledged in order. */
  lemma NeverFallsIffInOrder(t: seq<State>, steps: seq<Step>, a: nat)
    requires Run(t, steps)
    ensures NeverFalls(t, steps, a) <==> InOrder(t, steps, a)
  {
    if InOrder(t, steps, a) {
      forall i | 0 <= i < |steps| && a in t[i].aggregates ensures StaysUp(t[i], t[i + 1], a) {
        if Acknowledges(t, steps, i, a) {
          LowersIffLastIsHigher(t, steps, i, a);
        }
      }
    }
    if NeverFalls(t, steps, a) {
      forall j, k | 0 <= j < k < |steps| && Acknowledges(t, steps, j, a) && Acknowledges(t, steps, k, a)
        ensures AcknowledgedVersion(t, steps, j, a) <= AcknowledgedVersion(t, steps, k, a)
      {
        assert TakesStep(t[j], steps[j], t[j + 1]) && TakesStep(t[k], steps[k], t[k + 1]);
        BaselineRises(t, steps, a, j + 1, k + 1);
      }
    }
  }

  // ---- Callers that await their saves ----

  /** Nothing is to come of this write any more. */
  predicate IsSettled(write: Write) {
    write.phase == Rejected || write.phase == Acknowledged || (write.phase == Written && write.deletes)
  }

  /** A save or delete of `a` is only called when every earlier one has returned. */
  ghost predicate Awaits(t: seq<State>, steps: seq<Step>, a: nat)
    requires |t| == |steps| + 1
  {
    forall i :: 0 <= i < |steps| && steps[i].Issue? && steps[i].a == a ==> NoneUnderWay(t[i], a)
  }

  predicate NoneUnderWay(s: State, a: nat) {
    forall w :: w in s.writes && s.writes[w].aggregate == a ==> IsSettled(s.writes[w])
  }

  predicate IsUnderWay(s: State, w: nat, a: nat) {
    w in s.writes && s.writes[w].aggregate == a && !IsSettled(s.writes[w])
  }

  /** At most one write of `a` is under way, and it goes from the baseline upwards. */
  ghost predicate Orderly(s: State, a: nat) {
    && (forall v, w :: IsUnderWay(s, v, a) && IsUnderWay(s, w, a) ==> v == w)
    && (forall w :: IsUnderWay(s, w, a) ==>
          && a in s.aggregates && s.writes[w].expected == s.aggregates[a].baseline
          && s.aggregates[a].baseline <= s.writes[w].row.version)
  }

  lemma {:induction false} AwaitedIsOrderly(t: seq<State>, steps: seq<Step>, a: nat, i: nat)
    requires Run(t, steps) && Awaits(t, steps, a) && i < |t|
    ensures Orderly(t[i], a)
  {
    if i > 0 {
      AwaitedIsOrderly(t, steps, a, i - 1);
      RunIsBasic(t, steps, i - 1);
      OrderlyStep(t[i - 1], steps[i - 1], t[i - 1 + 1], a);
    }
  }

  lemma OrderlyStep(s: State, step: Step, s': State, a: nat)
    requires Basic(s) && Orderly(s, a) && TakesStep(s, step, s')
    requires step.Issue? && step.a == a ==> NoneUnderWay(s, a)
    ensures Orderly(s', a)
  {
    if step.Issue? && step.a == a {
      forall w | IsUnderWay(s', w, a) ensures w == step.w {
        assert w != step.w ==> !IsUnderWay(s, w, a);
      }
    } else if step.Acknowledge? && s.writes[step.w].aggregate == a {
      forall w ensures !IsUnderWay(s', w, a) {
        assert IsUnderWay(s', w, a) ==> IsUnderWay(s, w, a) && IsUnderWay(s, step.w, a);
      }
    } else {
      OrderlyStays(s, step, s', a);
    }
  }

  lemma OrderlyStays(s: State, step: Step, s': State, a: nat)
    requires Basic(s) && Orderly(s, a) && TakesStep(s, step, s')
    requires !(step.Issue? && step.a == a) && !(step.Acknowledge? && s.writes[step.w].aggregate == a)
    ensures Orderly(s', a)
  {
    forall w | IsUnderWay(s', w, a)
      ensures IsUnderWay(s, w, a) && s'.writes[w].expected == s.writes[w].expected && s'.writes[w].row == s.writes[w].row
    {
    }
  }

  /** Whoever awaits the saves of an aggregate never sees its baseline fall, whatever other clients do. */
  lemma AwaitedBaselineNeverFalls(t: seq<State>, steps: seq<Step>, a: nat)
    requires Run(t, steps) && Awaits(t, steps, a)
    ensures NeverFalls(t, steps, a) && InOrder(t, steps, a)
  {
    forall i | 0 <= i < |steps| && a in t[i].aggregates ensures StaysUp(t[i], t[i + 1], a) {
      assert TakesStep(t[i], steps[i], t[i + 1]);
      AwaitedIsOrderly(t, steps, a, i);
      if Acknowledges(t, steps, i, a) {
        assert IsUnderWay(t[i], steps[i].w, a);
      }
    }
    NeverFallsIffInOrder(t, steps, a);
  }

  // ---- Nobody else at work ----

  ghost predicate OnlyWriter(steps: seq<Step>, a: nat) {
    forall i :: 0 <= i < |steps| && steps[i].Issue? ==> steps[i].a == a
  }

  predicate IsWrittenSave(s: State, w: nat) {
    w in s.writes && s.writes[w].phase == Written && !s.writes[w].deletes
  }

  /** The row is what the one unacknowledged save wrote, or has the baseline for its version. */
  ghost predicate Alone(s: State, a: nat)
    requires s.history != []
  {
    && (forall w :: w in s.writes ==> s.writes[w].aggregate == a)
    && (a !in s.aggregates ==> |s.history| == 1)
    && (!s.deleted ==> forall w :: IsWrittenSave(s, w) ==> Current(s) == s.writes[w].row)
    && (!s.deleted && a in s.aggregates && (forall w :: !IsWrittenSave(s, w)) ==>
          s.aggregates[a].baseline == Current(s).version)
  }

  lemma AloneStep(s: State, step: Step, s': State, a: nat)
    requires Basic(s) && Orderly(s, a) && Alone(s, a) && TakesStep(s, step, s') && s'.history != []
    requires step.Issue? ==> step.a == a && NoneUnderWay(s, a)
    ensures Alone(s', a)
    ensures step.Execute? && !s.deleted ==> s'.writes[step.w].phase == Written
  {
    match step
    case Execute(w) =>
      if !s.deleted {
        AwaitedWriteHits(s, w, a);
        forall v | IsWrittenSave(s', v) ensures v == w {
          assert v != w ==> !IsWrittenSave(s, v);
        }
        assert !s.writes[w].deletes ==> IsWrittenSave(s', w) && Current(s') == s.writes[w].row;
      }
    case Acknowledge(w) =>
      assert IsWrittenSave(s, w) && IsUnderWay(s, w, a);
      forall v ensures !IsWrittenSave(s', v) {
        assert IsWrittenSave(s', v) ==> IsWrittenSave(s, v) && IsUnderWay(s, v, a);
      }
    case _ =>
      forall w ensures IsWrittenSave(s', w) <==> IsWrittenSave(s, w) {
      }
  }

  lemma AwaitedWriteHits(s: State, w: nat, a: nat)
    requires Basic(s) && Orderly(s, a) && Alone(s, a) && !s.deleted && w in s.writes && s.writes[w].phase == Issued
    ensures Hits(s, s.writes[w]) && forall v :: !IsWrittenSave(s, v)
  {
    assert IsUnderWay(s, w, a);
    forall v ensures !IsWrittenSave(s, v) {
      if IsWrittenSave(s, v) {
        assert IsUnderWay(s, v, a);
      }
    }
  }

  lemma {:induction false} SoleWriterIsAlone(t: seq<State>, steps: seq<Step>, a: nat, i: nat)
    requires Run(t, steps) && Awaits(t, steps, a) && OnlyWriter(steps, a) && i < |t|
    ensures t[i].history != [] && Alone(t[i], a)
  {
    RunIsBasic(t, steps, i);
    if i > 0 {
      SoleWriterIsAlone(t, steps, a, i - 1);
      RunIsBasic(t, steps, i - 1);
      AwaitedIsOrderly(t, steps, a, i - 1);
      AloneStep(t[i - 1], steps[i - 1], t[i - 1 + 1], a);
    }
  }

  /** An aggregate that nobody else writes, and whose saves are awaited, is never rejected until it is deleted. */
  lemma SoleWriterIsNeverRejected(t: seq<State>, steps: seq<Step>, a: nat, i: nat)
    requires Run(t, steps) && Awaits(t, steps, a) && OnlyWriter(steps, a)
    requires i < |steps| && steps[i].Execute? && !t[i].deleted
    ensures t[i + 1].writes[steps[i].w].phase == Written
  {
    SoleWriterIsAlone(t, steps, a, i);
    RunIsBasic(t, steps, i);
    AwaitedIsOrderly(t, steps, a, i);
    RunIsBasic(t, steps, i + 1);
    AloneStep(t[i], steps[i], t[i + 1], a);
  }

  // ---- Acknowledgements out of order ----

  /** A run that takes exactly these steps ends in `s`. */
  ghost predicate LeadsTo(steps: seq<Step>, s: State) {
    exists t :: Run(t, steps) && t[|t| - 1] == s
  }

  lemma Onward(steps: seq<Step>, s: State, step: Step, s': State)
    requires LeadsTo(steps, s) && s.history != [] && TakesStep(s, step, s')
    ensures LeadsTo(steps + [step], s')
  {
    var t :| Run(t, steps) && t[|t| - 1] == s;
    assert Run(t + [s'], steps + [step]);
  }

  const ONE_SAVE := [Load(0, 0), Issue(0, 0, false)]

  /** Two saves of one aggregate, the second after a mutation, are called at once. */
  const TWO_AT_ONCE := ONE_SAVE + [Mutate(0, 7)] + [Issue(1, 0, false)]
  const LATE := TWO_AT_ONCE + [Execute(0), Execute(1), Acknowledge(1), Acknowledge(0)]

  const SAVE_OF_1 := Write(0, false, 1, Row(1, []), Issued)
  const SAVE_OF_2 := Write(0, false, 1, Row(2, [7]), Issued)
  const BOTH_ROWS := [Row(1, []), Row(1, []), Row(2, [7])]

  function TwoSaves(history: seq<Row>, baseline: nat, first: Phase, second: Phase): State {
    State(history, false, map[0 := Aggregate(2, baseline, [7])],
          map[0 := SAVE_OF_1.(phase := first), 1 := SAVE_OF_2.(phase := second)])
  }

  const AFTER_ONE_SAVE := State([Row(1, [])], false, map[0 := Aggregate(1, 1, [])], map[0 := SAVE_OF_1])

  lemma OneSaveIssued()
    ensures LeadsTo(ONE_SAVE, AFTER_ONE_SAVE)
  {
    var s := State([Row(1, [])], false, map[], map[]);
    assert Run([s], []);
    Onward([], s, Load(0, 0), AFTER_ONE_SAVE.(writes := map[]));
    Onward([] + [Load(0, 0)], AFTER_ONE_SAVE.(writes := map[]), Issue(0, 0, false), AFTER_ONE_SAVE);
    assert [] + [Load(0, 0)] + [Issue(0, 0, false)] == ONE_SAVE;
  }

  lemma TwoSavesIssued()
    ensures LeadsTo(TWO_AT_ONCE, TwoSaves([Row(1, [])], 1, Issued, Issued))
  {
    OneSaveIssued();
    var s := AFTER_ONE_SAVE.(aggregates := map[0 := Aggregate(2, 1, [7])]);
    assert [] + [7] == [7];
    Onward(ONE_SAVE, AFTER_ONE_SAVE, Mutate(0, 7), s);
    Onward(ONE_SAVE + [Mutate(0, 7)], s, Issue(1, 0, false), TwoSaves([Row(1, [])], 1, Issued, Issued));
  }

  lemma TwoSavesInFlight()
    ensures LeadsTo(TWO_AT_ONCE + [Execute(0)] + [Execute(1)], TwoSaves(BOTH_ROWS, 1, Written, Written))
  {
    TwoSavesIssued();
    var s := TwoSaves([Row(1, []), Row(1, [])], 1, Written, Issued);
    Onward(TWO_AT_ONCE, TwoSaves([Row(1, [])], 1, Issued, Issued), Execute(0), s);
    Onward(TWO_AT_ONCE + [Execute(0)], s, Execute(1), TwoSaves(BOTH_ROWS, 1, Written, Written));
  }

  /**
   When the acknowledgement of an earlier save arrives last, it takes the baseline back: here to version 1
   of a row that is at version 2.
   */
  lemma LateAcknowledgementLowersBaseline()
    ensures OnlyWriter(LATE, 0)
    ensures LeadsTo(LATE, TwoSaves(BOTH_ROWS, 1, Acknowledged, Acknowledged))
  {
    TwoSavesInFlight();
    var steps := TWO_AT_ONCE + [Execute(0)] + [Execute(1)];
    var s := TwoSaves(BOTH_ROWS, 2, Written, Acknowledged);
    Onward(steps, TwoSaves(BOTH_ROWS, 1, Written, Written), Acknowledge(1), s);
    Onward(steps + [Acknowledge(1)], s, Acknowledge(0), TwoSaves(BOTH_ROWS, 1, Acknowledged, Acknowledged));
    assert steps + [Acknowledge(1)] + [Acknowledge(0)] == LATE;
  }

  /** The next save is then rejected, although nobody else has written and nothing is under way. */
  lemma NextSaveIsRejected()
    ensures OnlyWriter(LATE + [Issue(2, 0, false)] + [Execute(2)], 0)
    ensures
      var end := TwoSaves(BOTH_ROWS, 1, Acknowledged, Acknowledged);
      var rejected := Write(0, false, 1, Row(2, [7]), Rejected);
      LeadsTo(LATE + [Issue(2, 0, false)] + [Execute(2)], end.(writes := end.writes[2 := rejected]))
  {
    LateAcknowledgementLowersBaseline();
    var end := TwoSaves(BOTH_ROWS, 1, Acknowledged, Acknowledged);
    var issued := end.(writes := end.writes[2 := SAVE_OF_2]);
    Onward(LATE, end, Issue(2, 0, false), issued);
    Onward(LATE + [Issue(2, 0, false)], issued, Execute(2),
           end.(writes := end.writes[2 := SAVE_OF_2.(phase := Rejected)]));
  }

  /** Three saves of one aggregate, the last one after a mutation, are all called at once. */
  const THREE_AT_ONCE := ONE_SAVE + [Issue(1, 0, false)] + [Mutate(0, 7)] + [Issue(2, 0, false)]

  function ThreeSaves(history: seq<Row>, baseline: nat, first: Phase, second: Phase, third: Phase): State {
    State(history, false, map[0 := Aggregate(2, baseline, [7])],
          map[0 := SAVE_OF_1.(phase := first), 1 := SAVE_OF_1.(phase := second), 2 := SAVE_OF_2.(phase := third)])
  }

  const ALL_ROWS := [Row(1, []), Row(1, []), Row(1, []), Row(2, [7])]

  lemma ThreeSavesIssued()
    ensures LeadsTo(THREE_AT_ONCE, ThreeSaves([Row(1, [])], 1, Issued, Issued, Issued))
  {
    OneSaveIssued();
    var s1 := AFTER_ONE_SAVE.(writes := map[0 := SAVE_OF_1, 1 := SAVE_OF_1]);
    var s2 := s1.(aggregates := map[0 := Aggregate(2, 1, [7])]);
    assert [] + [7] == [7];
    Onward(ONE_SAVE, AFTER_ONE_SAVE, Issue(1, 0, false), s1);
    Onward(ONE_SAVE + [Issue(1, 0, false)], s1, Mutate(0, 7), s2);
    Onward(ONE_SAVE + [Issue(1, 0, false)] + [Mutate(0, 7)], s2, Issue(2, 0, false),
           ThreeSaves([Row(1, [])], 1, Issued, Issued, Issued));
  }

  lemma ThreeSavesWritten()
    ensures LeadsTo(THREE_AT_ONCE + [Execute(0)] + [Execute(1)] + [Execute(2)],
                    ThreeSaves(ALL_ROWS, 1, Written, Written, Written))
  {
    ThreeSavesIssued();
    var s1 := ThreeSaves([Row(1, []), Row(1, [])], 1, Written, Issued, Issued);
    var s2 := ThreeSaves([Row(1, []), Row(1, []), Row(1, [])], 1, Written, Written, Issued);
    Onward(THREE_AT_ONCE, ThreeSaves([Row(1, [])], 1, Issued, Issued, Issued), Execute(0), s1);
    Onward(THREE_AT_ONCE + [Execute(0)], s1, Execute(1), s2);
    Onward(THREE_AT_ONCE + [Execute(0)] + [Execute(1)], s2, Execute(2), ThreeSaves(ALL_ROWS, 1, Written, Written, Written));
  }

  /**
   That some save acknowledged before was of a higher version is not enough to lower the baseline: it may have
   been lowered already. Hence `LowersIffLastIsHigher` speaks of the last one.
   */
  lemma HigherBeforeIsNotEnough()
    ensures
      var (s, s') := (ThreeSaves(ALL_ROWS, 1, Acknowledged, Written, Acknowledged),
                      ThreeSaves(ALL_ROWS, 1, Acknowledged, Acknowledged, Acknowledged));
      && LeadsTo(THREE_AT_ONCE + [Execute(0)] + [Execute(1)] + [Execute(2)] + [Acknowledge(2)] + [Acknowledge(0)], s)
      && TakesStep(s, Acknowledge(1), s')
      && s.writes[2].phase == Acknowledged && s.writes[2].row.version > s.writes[1].row.version
      && s'.aggregates == s.aggregates
  {
    ThreeSavesWritten();
    var steps := THREE_AT_ONCE + [Execute(0)] + [Execute(1)] + [Execute(2)];
    var s1 := ThreeSaves(ALL_ROWS, 2, Written, Written, Acknowledged);
    var s2 := ThreeSaves(ALL_ROWS, 1, Acknowledged, Written, Acknowledged);
    Onward(steps, ThreeSaves(ALL_ROWS, 1, Written, Written, Written), Acknowledge(2), s1);
    Onward(steps + [Acknowledge(2)], s1, Acknowledge(0), s2);
  }
}
