/** The protocol that `IdempotencyBehavior.handle` runs over one idempotency key. */
module Idempotency {
  import opened Wrappers

  // Any number of requests are interleaved step by step with the expiry of the key's record. The four operations
  // of the store are atomic, as its contract demands.

  /** The JSON snapshot of a handler's response, as text. */
  type Json = string

  datatype Status = InProgress | Completed(response: Json)

  /** `claimId` names the request that made the claim. */
  datatype Record = Record(
    status: Status,
    requestName: string,
    claimId: nat,
    fingerprint: Option<string>,
    replayScope: Option<string>
  )

  datatype Request = Request(
    name: string,
    fingerprint: Option<string>,
    replayScope: Option<string>,
    scopeRequired: bool,
    releaseOnError: bool
  )

  datatype Reason = Contended | KeyReuse | ReplayScope

  datatype Outcome =
    | Replayed(response: Json)
    | Conflict(reason: Reason)
    | Failed                                     // the handler threw
    | Returned(snapshot: Json, owned: bool)      // `owned`: the claim was still its own
    | CompletionFailed(kept: Option<Json>)       // the handler succeeded, the record is in doubt
    | StoreFailed                                // a claim or a look at the record threw; the handler never ran

  /** A request, waiting for its next call to return. */
  datatype Phase =
    | Claiming(retried: bool)       // setIfAbsent
    | Inspecting(retried: bool)     // get, after a failed claim
    | Running                       // the handler
    | Releasing                     // deleteIfOwned
    | Completing(snapshot: Json)    // completeIfOwned
    | Done(outcome: Outcome)

  datatype Call = Call(request: Request, phase: Phase)

  datatype State = State(record: Option<Record>, calls: map<nat, Call>)

  // ---- The store's contract, for one key ----

  function SetIfAbsent(live: Option<Record>, record: Record): (Option<Record>, bool) {
    if live == None then (Some(record), true) else (live, false)
  }

  predicate OwnedBy(live: Option<Record>, claimId: nat) {
    live.Some? && live.value.claimId == claimId
  }

  function CompleteIfOwned(live: Option<Record>, claimId: nat, record: Record): (Option<Record>, bool) {
    if OwnedBy(live, claimId) && live.value.status == InProgress then (Some(record), true) else (live, false)
  }

  function DeleteIfOwned(live: Option<Record>, claimId: nat): (Option<Record>, bool) {
    if OwnedBy(live, claimId) then (None, true) else (live, false)
  }

  // ---- The behavior ----

  function ClaimOf(p: nat, request: Request): Record {
    Record(InProgress, request.name, p, request.fingerprint, request.replayScope)
  }

  function CompletedBy(p: nat, request: Request, snapshot: Json): Record {
    ClaimOf(p, request).(status := Completed(snapshot))
  }

  /** An empty fingerprint counts as none. */
  predicate DemandsFingerprint(request: Request) {
    request.fingerprint.Some? && request.fingerprint.value != ""
  }

  /** What a request makes of the record that beat its claim. */
  function ReplayOrConflict(request: Request, existing: Record): Outcome {
    if existing.requestName != request.name
       || (DemandsFingerprint(request) && existing.fingerprint != request.fingerprint)
    then Conflict(KeyReuse)
    else if existing.status == InProgress then Conflict(Contended)
    else if request.scopeRequired
            && (existing.replayScope == None || existing.replayScope != request.replayScope)
    then Conflict(ReplayScope)
    else Replayed(existing.status.response)
  }

  datatype Step =
    | Arrive(p: nat, request: Request)
    | Claim(p: nat)
    | ClaimThrows(p: nat, applied: bool)               // the store fails, with or without effect
    | Inspect(p: nat)
    | InspectThrows(p: nat)
    | HandlerThrows(p: nat)
    | HandlerReturns(p: nat, snapshot: Option<Json>)   // none: it has no JSON snapshot
    | Complete(p: nat)
    | CompleteThrows(p: nat, applied: bool)
    | Release(p: nat)
    | ReleaseThrows(p: nat, applied: bool)
    | Expire

  function SetPhase(s: State, p: nat, phase: Phase): State
    requires p in s.calls
  {
    s.(calls := s.calls[p := s.calls[p].(phase := phase)])
  }

  predicate In(s: State, p: nat, phase: Phase) {
    p in s.calls && s.calls[p].phase == phase
  }

  predicate TakesStep(s: State, step: Step, s': State) {
    match step
    case Arrive(p, request) =>
      p !in s.calls && s' == s.(calls := s.calls[p := Call(request, Claiming(false))])
    case Claim(p) =>
      p in s.calls && s.calls[p].phase.Claiming? &&
      var (record, claimed) := SetIfAbsent(s.record, ClaimOf(p, s.calls[p].request));
      s' == SetPhase(s, p, if claimed then Running else Inspecting(s.calls[p].phase.retried)).(record := record)
    case ClaimThrows(p, applied) =>
      p in s.calls && s.calls[p].phase.Claiming? &&
      var record := if applied then SetIfAbsent(s.record, ClaimOf(p, s.calls[p].request)).0 else s.record;
      s' == SetPhase(s, p, Done(StoreFailed)).(record := record)
    case Inspect(p) =>
      p in s.calls && s.calls[p].phase.Inspecting? &&
      s' == SetPhase(s, p,
        match s.record
        case Some(existing) => Done(ReplayOrConflict(s.calls[p].request, existing))
        case None => if s.calls[p].phase.retried then Done(Conflict(Contended)) else Claiming(true))
    case InspectThrows(p) =>
      p in s.calls && s.calls[p].phase.Inspecting? && s' == SetPhase(s, p, Done(StoreFailed))
    case HandlerThrows(p) =>
      In(s, p, Running) &&
      s' == SetPhase(s, p, if s.calls[p].request.releaseOnError then Releasing else Done(Failed))
    case HandlerReturns(p, snapshot) =>
      In(s, p, Running) &&
      s' == SetPhase(s, p, match snapshot
                           case Some(json) => Completing(json)
                           case None => Done(CompletionFailed(None)))
    case Complete(p) =>
      p in s.calls && s.calls[p].phase.Completing? &&
      var snapshot := s.calls[p].phase.snapshot;
      var (record, owned) := CompleteIfOwned(s.record, p, CompletedBy(p, s.calls[p].request, snapshot));
      s' == SetPhase(s, p, Done(Returned(snapshot, owned))).(record := record)
    case CompleteThrows(p, applied) =>
      p in s.calls && s.calls[p].phase.Completing? &&
      var snapshot := s.calls[p].phase.snapshot;
      var record := if applied then CompleteIfOwned(s.record, p, CompletedBy(p, s.calls[p].request, snapshot)).0
                    else s.record;
      s' == SetPhase(s, p, Done(CompletionFailed(Some(snapshot)))).(record := record)
    case Release(p) =>
      In(s, p, Releasing) && s' == SetPhase(s, p, Done(Failed)).(record := DeleteIfOwned(s.record, p).0)
    case ReleaseThrows(p, applied) =>
      In(s, p, Releasing) &&
      s' == SetPhase(s, p, Done(Failed)).(record := if applied then DeleteIfOwned(s.record, p).0 else s.record)
    case Expire => s' == s.(record := None)
  }

  predicate Run(t: seq<State>, steps: seq<Step>) {
    && |t| == |steps| + 1
    && t[0] == State(None, map[])
    && forall i :: 0 <= i < |steps| ==> TakesStep(t[i], steps[i], t[i + 1])
  }

  // ---- What has become of an execution ----

  /** The handler ran and threw. */
  predicate Threw(s: State, p: nat) {
    p in s.calls && (s.calls[p].phase == Releasing || s.calls[p].phase == Done(Failed))
  }

  /** The handler ran and returned. */
  predicate Succeeded(s: State, p: nat) {
    p in s.calls &&
    match s.calls[p].phase
    case Completing(_) => true
    case Done(Returned(_, _)) => true
    case Done(CompletionFailed(_)) => true
    case _ => false
  }

  /** The handler ran, returned, and left `snapshot`. */
  predicate Snapshotted(s: State, p: nat, snapshot: Json) {
    p in s.calls &&
    match s.calls[p].phase
    case Completing(json) => json == snapshot
    case Done(Returned(json, _)) => json == snapshot
    case Done(CompletionFailed(kept)) => kept == Some(snapshot)
    case _ => false
  }

  /** Step `i` is the claim that starts `p`'s handler. */
  predicate Starts(t: seq<State>, steps: seq<Step>, i: nat, p: nat)
    requires |t| == |steps| + 1
  {
    i < |steps| && steps[i] == Claim(p) && In(t[i + 1], p, Running)
  }

  // ---- Exclusion ----

  /** From its start on, an execution holds the record until it has thrown, unless the record expires. */
  lemma {:induction false} HoldsUntilThrown(t: seq<State>, steps: seq<Step>, i: nat, j: nat, p: nat)
    requires Run(t, steps) && Starts(t, steps, i, p) && i < j <= |steps|
    requires forall n :: i < n < j ==> !steps[n].Expire?
    ensures OwnedBy(t[j].record, p) || Threw(t[j], p)
    ensures In(t[j], p, Running) || Threw(t[j], p) || Succeeded(t[j], p)
    decreases j
  {
    if i + 1 < j {
      HoldsUntilThrown(t, steps, i, j - 1, p);
      assert TakesStep(t[j - 1], steps[j - 1], t[j - 1 + 1]);
    } else {
      assert TakesStep(t[i], steps[i], t[i + 1]);
    }
  }

  /**
   A second execution only starts after the first one has thrown, in every stretch of every run in
   which the record does not expire.
   */
  lemma OnlyAFailureLetsAnotherStart(t: seq<State>, steps: seq<Step>, i: nat, j: nat, p: nat, q: nat)
    requires Run(t, steps) && Starts(t, steps, i, p) && Starts(t, steps, j, q) && i < j
    requires forall n :: i < n < j ==> !steps[n].Expire?
    ensures p != q && Threw(t[j], p)
  {
    HoldsUntilThrown(t, steps, i, j, p);
    assert TakesStep(t[j], steps[j], t[j + 1]);
  }

  lemma {:induction false} ThrownStaysThrown(t: seq<State>, steps: seq<Step>, i: nat, j: nat, p: nat)
    requires Run(t, steps) && i <= j <= |steps| && Threw(t[i], p)
    ensures Threw(t[j], p)
    decreases j
  {
    if i < j {
      ThrownStaysThrown(t, steps, i, j - 1, p);
      assert TakesStep(t[j - 1], steps[j - 1], t[j - 1 + 1]);
    }
  }

  /** An execution has a start behind it. */
  lemma {:induction false} ExecutionStarted(t: seq<State>, steps: seq<Step>, j: nat, p: nat) returns (i: nat)
    requires Run(t, steps) && j <= |steps|
    requires In(t[j], p, Running) || Threw(t[j], p) || Succeeded(t[j], p)
    ensures i < j && Starts(t, steps, i, p)
  {
    assert j > 0;
    var (s, step, s') := (t[j - 1], steps[j - 1], t[j - 1 + 1]);
    assert TakesStep(s, step, s');
    if In(s, p, Running) || Threw(s, p) || Succeeded(s, p) {
      i := ExecutionStarted(t, steps, j - 1, p);
    } else {
      i := j - 1;
    }
  }

  /**
   At most once: in a run in which the record never expires, two executions are never both running or
   successful; whichever started first has thrown.
   */
  lemma AtMostOneSuccess(t: seq<State>, steps: seq<Step>, j: nat, p: nat, q: nat)
    requires Run(t, steps) && j <= |steps| && forall n :: 0 <= n < |steps| ==> !steps[n].Expire?
    requires In(t[j], p, Running) || Succeeded(t[j], p)
    requires In(t[j], q, Running) || Succeeded(t[j], q)
    ensures p == q
  {
    var i := ExecutionStarted(t, steps, j, p);
    var k := ExecutionStarted(t, steps, j, q);
    if i < k {
      OnlyAFailureLetsAnotherStart(t, steps, i, k, p, q);
      ThrownStaysThrown(t, steps, k, j, p);
    } else if k < i {
      OnlyAFailureLetsAnotherStart(t, steps, k, i, q, p);
      ThrownStaysThrown(t, steps, i, j, q);
    }
  }

  // ---- What a failure leaves behind ----

  /** A handler's failure is followed by a release if the request asks for one, and by nothing if not. */
  lemma {:induction false} ThrownAsAsked(t: seq<State>, steps: seq<Step>, i: nat, j: nat, p: nat)
    requires Run(t, steps) && Starts(t, steps, i, p) && i < j <= |steps|
    requires forall n :: i < n < j ==> !steps[n].Expire?
    ensures p in t[j].calls
    ensures In(t[j], p, Releasing) ==> t[j].calls[p].request.releaseOnError
    ensures OwnedBy(t[j].record, p) || (In(t[j], p, Done(Failed)) && t[j].calls[p].request.releaseOnError)
    decreases j
  {
    if i + 1 < j {
      ThrownAsAsked(t, steps, i, j - 1, p);
      assert TakesStep(t[j - 1], steps[j - 1], t[j - 1 + 1]);
    } else {
      assert TakesStep(t[i], steps[i], t[i + 1]);
    }
  }

  /** A failed request that asks for it has released its claim, unless the store failed to. */
  lemma {:induction false} FailureReleases(t: seq<State>, steps: seq<Step>, j: nat, p: nat)
    requires Run(t, steps) && j <= |steps| && In(t[j], p, Done(Failed)) && t[j].calls[p].request.releaseOnError
    requires forall n :: 0 <= n < j && steps[n].ReleaseThrows? ==> steps[n].p != p
    ensures !OwnedBy(t[j].record, p)
  {
    assert j > 0;
    assert TakesStep(t[j - 1], steps[j - 1], t[j - 1 + 1]);
    if In(t[j - 1], p, Done(Failed)) {
      FailureReleases(t, steps, j - 1, p);
    }
  }

  /** And a claim that finds no record starts its handler. */
  lemma FreeKeyIsClaimed(t: seq<State>, steps: seq<Step>, j: nat, q: nat)
    requires Run(t, steps) && j < |steps| && steps[j] == Claim(q)
    ensures Starts(t, steps, j, q) <==> t[j].record == None
    ensures t[j].record == None ==> OwnedBy(t[j + 1].record, q) && t[j + 1].record.value.status == InProgress
    ensures t[j].record != None ==> t[j + 1].record == t[j].record
  {
    assert TakesStep(t[j], steps[j], t[j + 1]);
  }

  /** A failed request that does not ask for a release keeps the key until its claim expires, and nobody starts. */
  lemma FailureKeepsTheKey(t: seq<State>, steps: seq<Step>, i: nat, j: nat, p: nat)
    requires Run(t, steps) && Starts(t, steps, i, p) && i < j <= |steps|
    requires forall n :: i < n < j ==> !steps[n].Expire?
    requires In(t[j], p, Done(Failed)) && !t[j].calls[p].request.releaseOnError
    ensures OwnedBy(t[j].record, p)
    ensures forall n, q :: i < n < j ==> !Starts(t, steps, n, q)
  {
    ThrownAsAsked(t, steps, i, j, p);
    forall n, q | i < n < j ensures !Starts(t, steps, n, q) {
      ThrownAsAsked(t, steps, i, n, p);
      RequestsStay(t, steps, n, j, p);
      if Starts(t, steps, n, q) {
        FreeKeyIsClaimed(t, steps, n, q);
      }
    }
  }

  lemma {:induction false} RequestsStay(t: seq<State>, steps: seq<Step>, i: nat, j: nat, p: nat)
    requires Run(t, steps) && i <= j <= |steps| && p in t[i].calls
    ensures p in t[j].calls && t[j].calls[p].request == t[i].calls[p].request
    decreases j
  {
    if i < j {
      RequestsStay(t, steps, i, j - 1, p);
      assert TakesStep(t[j - 1], steps[j - 1], t[j - 1 + 1]);
    }
  }

  // ---- How a request is answered without running ----

  /** How often `p` has tried to claim the key before step `i`. */
  function Claims(steps: seq<Step>, i: nat, p: nat): nat
    requires i <= |steps|
  {
    if i == 0 then 0 else Claims(steps, i - 1, p) + if steps[i - 1] == Claim(p) then 1 else 0
  }

  lemma {:induction false} ClaimsAreCounted(t: seq<State>, steps: seq<Step>, i: nat, p: nat)
    requires Run(t, steps) && i <= |steps|
    ensures Claims(steps, i, p) <= 2
    ensures p !in t[i].calls ==> Claims(steps, i, p) == 0
    ensures p in t[i].calls ==>
      match t[i].calls[p].phase
      case Claiming(retried) => Claims(steps, i, p) == if retried then 1 else 0
      case Inspecting(retried) => Claims(steps, i, p) == if retried then 2 else 1
      case _ => true
  {
    if i > 0 {
      ClaimsAreCounted(t, steps, i - 1, p);
      assert TakesStep(t[i - 1], steps[i - 1], t[i - 1 + 1]);
    }
  }

  /** The record was made by a request of the same name, and of the same fingerprint where that is demanded. */
  predicate IsSameRequest(request: Request, existing: Record) {
    && existing.requestName == request.name
    && (request.fingerprint.Some? && request.fingerprint.value != "" ==> existing.fingerprint == request.fingerprint)
  }

  /** The record is within the replay scope where one is demanded. */
  predicate IsInScope(request: Request, existing: Record) {
    request.scopeRequired ==> request.replayScope.Some? && existing.replayScope == request.replayScope
  }

  /**
   A request whose claim fails looks at the record. Another request's key is a reuse; a record in progress is a
   contention; a completed one is replayed within its scope, and a conflict outside. If the record has gone, the
   request claims once more, and gives up the second time.
   */
  lemma FailedClaimIsAnswered(t: seq<State>, steps: seq<Step>, i: nat, p: nat)
    requires Run(t, steps) && i < |steps| && steps[i] == Inspect(p)
    ensures p in t[i].calls && p in t[i + 1].calls && t[i + 1].record == t[i].record
    ensures var (request, phase) := (t[i].calls[p].request, t[i + 1].calls[p].phase);
            match t[i].record
            case None => if Claims(steps, i, p) == 1 then phase == Claiming(true) else phase == Done(Conflict(Contended))
            case Some(existing) =>
              if !IsSameRequest(request, existing) then phase == Done(Conflict(KeyReuse))
              else match existing.status
                case InProgress => phase == Done(Conflict(Contended))
                case Completed(response) =>
                  if IsInScope(request, existing) then phase == Done(Replayed(response))
                  else phase == Done(Conflict(ReplayScope))
  {
    assert TakesStep(t[i], steps[i], t[i + 1]);
    ClaimsAreCounted(t, steps, i, p);
  }

  // ---- What a request is told ----

  ghost predicate HasReturned(steps: seq<Step>, i: nat, p: nat, snapshot: Option<Json>)
    requires i <= |steps|
  {
    exists n :: 0 <= n < i && steps[n] == HandlerReturns(p, snapshot)
  }

  ghost predicate HasThrown(steps: seq<Step>, i: nat, p: nat)
    requires i <= |steps|
  {
    exists n :: 0 <= n < i && steps[n] == HandlerThrows(p)
  }

  predicate StoreFails(step: Step, p: nat) {
    (step.ClaimThrows? || step.InspectThrows?) && step.p == p
  }

  /** At step `n` the completion of `p` finds its claim, still in progress, and puts the response in; or changes nothing. */
  predicate Completes(t: seq<State>, steps: seq<Step>, n: nat, p: nat, snapshot: Json, owned: bool)
    requires |t| == |steps| + 1
  {
    && n < |steps| && steps[n] == Complete(p)
    && var (before, after) := (t[n].record, t[n + 1].record);
       && owned == (before.Some? && before.value.claimId == p && before.value.status == InProgress)
       && (owned ==> after.Some? && after.value.claimId == p && after.value.status == Completed(snapshot))
       && (!owned ==> after == before)
  }

  /** What has happened to `p`, going by where it is. */
  ghost predicate IsTold(t: seq<State>, steps: seq<Step>, i: nat, p: nat)
    requires |t| == |steps| + 1 && i <= |steps| && p in t[i].calls
  {
    match t[i].calls[p].phase
    case Releasing => HasThrown(steps, i, p)
    case Completing(snapshot) => HasReturned(steps, i, p, Some(snapshot))
    case Done(Failed) => HasThrown(steps, i, p)
    case Done(Returned(snapshot, owned)) =>
      HasReturned(steps, i, p, Some(snapshot)) && exists n :: 0 <= n < i && Completes(t, steps, n, p, snapshot, owned)
    case Done(CompletionFailed(kept)) =>
      && HasReturned(steps, i, p, kept)
      && (kept.Some? ==> exists n :: 0 <= n < i && steps[n].CompleteThrows? && steps[n].p == p)
    case Done(StoreFailed) => exists n :: 0 <= n < i && StoreFails(steps[n], p)
    case Done(_) => exists n :: 0 <= n < i && steps[n] == Inspect(p)
    case _ => true
  }

  /**
   What a request is told is what has happened: that its handler threw, or returned this snapshot; that its completion
   found the claim or not, or failed; that the store failed before the handler could run; or what the record was.
   */
  lemma {:induction false} OutcomesAreTrue(t: seq<State>, steps: seq<Step>, i: nat, p: nat)
    requires Run(t, steps) && i <= |steps| && p in t[i].calls
    ensures IsTold(t, steps, i, p)
  {
    if i > 0 {
      var (s, step, s') := (t[i - 1], steps[i - 1], t[i - 1 + 1]);
      assert TakesStep(s, step, s');
      if p in s.calls {
        OutcomesAreTrue(t, steps, i - 1, p);
        if s'.calls[p].phase == s.calls[p].phase {
          ToldLater(t, steps, i, p);
        } else {
          ToldNow(t, steps, i, p);
        }
      }
    }
  }

  lemma ToldLater(t: seq<State>, steps: seq<Step>, i: nat, p: nat)
    requires |t| == |steps| + 1 && 0 < i <= |steps| && p in t[i - 1].calls && p in t[i].calls
    requires t[i].calls[p].phase == t[i - 1].calls[p].phase && IsTold(t, steps, i - 1, p)
    ensures IsTold(t, steps, i, p)
  {
  }

  lemma ToldNow(t: seq<State>, steps: seq<Step>, i: nat, p: nat)
    requires |t| == |steps| + 1 && 0 < i <= |steps| && p in t[i - 1].calls && p in t[i].calls
    requires TakesStep(t[i - 1], steps[i - 1], t[i]) && t[i].calls[p].phase != t[i - 1].calls[p].phase
    requires IsTold(t, steps, i - 1, p)
    ensures IsTold(t, steps, i, p)
  {
    var step := steps[i - 1];
    if step == Complete(p) {
      assert Completes(t, steps, i - 1, p, t[i - 1].calls[p].phase.snapshot, t[i].calls[p].phase.outcome.owned);
    }
    assert !step.Arrive? && !step.Expire? && step.p == p;
  }

  // ---- Replays ----

  /** A replay hands `p` what the execution `q` returned, within everything `p` demands. */
  predicate ReplayableTo(s: State, q: nat, p: nat, response: Json) {
    p in s.calls && Snapshotted(s, q, response) &&
    var (mine, theirs) := (s.calls[p].request, s.calls[q].request);
    && mine.name == theirs.name
    && (DemandsFingerprint(mine) ==> theirs.fingerprint == mine.fingerprint)
    && (mine.scopeRequired ==> mine.replayScope.Some? && theirs.replayScope == mine.replayScope)
  }

  ghost predicate ReplaySafe(s: State, p: nat) {
    p in s.calls && s.calls[p].phase.Done? && s.calls[p].phase.outcome.Replayed? ==>
      exists q :: ReplayableTo(s, q, p, s.calls[p].phase.outcome.response)
  }

  predicate RecordSafe(s: State) {
    s.record.Some? ==>
      var (record, owner) := (s.record.value, s.record.value.claimId);
      && owner in s.calls
      && record == ClaimOf(owner, s.calls[owner].request).(status := record.status)
      && (record.status.Completed? ==> Snapshotted(s, owner, record.status.response))
  }

  lemma StepKeepsSnapshots(s: State, step: Step, s': State, q: nat, response: Json)
    requires TakesStep(s, step, s') && Snapshotted(s, q, response)
    ensures Snapshotted(s', q, response) && s'.calls[q].request == s.calls[q].request
  {
  }

  lemma StepKeepsRecordSafe(s: State, step: Step, s': State)
    requires TakesStep(s, step, s') && RecordSafe(s)
    ensures RecordSafe(s')
  {
  }

  lemma StepKeepsReplaySafe(s: State, step: Step, s': State, p: nat)
    requires TakesStep(s, step, s') && RecordSafe(s) && ReplaySafe(s, p)
    ensures ReplaySafe(s', p)
  {
    if p in s'.calls && s'.calls[p].phase.Done? && s'.calls[p].phase.outcome.Replayed? {
      var response := s'.calls[p].phase.outcome.response;
      if step == Inspect(p) {
        assert ReplayableTo(s', s.record.value.claimId, p, response);
      } else {
        var q :| ReplayableTo(s, q, p, response);
        StepKeepsSnapshots(s, step, s', q, response);
        assert ReplayableTo(s', q, p, response);
      }
    }
  }

  /**
   Every replayed response is the snapshot of an execution that succeeded, for the same request name,
   and for the same fingerprint and replay scope where the request demands them; records may expire and
   be claimed anew at any point.
   */
  lemma {:induction false} ReplaysAreGenuine(t: seq<State>, steps: seq<Step>, j: nat)
    requires Run(t, steps) && j <= |steps|
    ensures RecordSafe(t[j]) && forall p :: ReplaySafe(t[j], p)
  {
    if j > 0 {
      ReplaysAreGenuine(t, steps, j - 1);
      var (s, step, s') := (t[j - 1], steps[j - 1], t[j - 1 + 1]);
      StepKeepsRecordSafe(s, step, s');
      forall p ensures ReplaySafe(s', p) {
        StepKeepsReplaySafe(s, step, s', p);
      }
    }
  }

  /** A request leaves every record alone that another one owns, even after losing its claim to it. */
  lemma OthersRecordsAreLeftAlone(s: State, step: Step, s': State)
    requires TakesStep(s, step, s') && step != Expire
    requires s.record.Some? && s.record.value.claimId != step.p
    ensures s'.record == s.record
    ensures step.Complete? ==> s'.calls[step.p].phase == Done(Returned(s.calls[step.p].phase.snapshot, false))
  {
  }

  /**
   A successful execution that still owns its claim leaves a record that later duplicates are served
   from: the same request, demanding the same fingerprint and scope, replays its snapshot.
   */
  lemma OwnedCompletionIsReplayed(s: State, p: nat, s': State, again: Request)
    requires TakesStep(s, Complete(p), s') && RecordSafe(s)
    requires s'.calls[p].phase.outcome.owned
    requires again.name == s.calls[p].request.name && again.fingerprint == s.calls[p].request.fingerprint
    ensures s'.record.Some?
    ensures ReplayOrConflict(again, s'.record.value)
      == if again.scopeRequired
            && (again.replayScope == None || again.replayScope != s.calls[p].request.replayScope)
         then Conflict(ReplayScope) else Replayed(s.calls[p].phase.snapshot)
  {
  }

  // ---- A claim without an execution ----

  predicate IsOrphan(s: State, p: nat) {
    p in s.calls && s.calls[p].phase == Done(StoreFailed) && s.record == Some(ClaimOf(p, s.calls[p].request))
  }

  /** A claim that was made although the call threw keeps every handler from starting until it expires. */
  lemma {:induction false} OrphanBlocksUntilExpiry(t: seq<State>, steps: seq<Step>, i: nat, j: nat, p: nat)
    requires Run(t, steps) && i < j <= |steps|
    requires steps[i] == ClaimThrows(p, true) && t[i].record == None
    requires forall n :: i < n < j ==> !steps[n].Expire?
    ensures IsOrphan(t[j], p) && forall n, q :: i <= n < j ==> !Starts(t, steps, n, q)
    decreases j
  {
    assert TakesStep(t[j - 1], steps[j - 1], t[j - 1 + 1]);
    if i + 1 < j {
      OrphanBlocksUntilExpiry(t, steps, i, j - 1, p);
    }
  }

  // ---- The claim is only exclusive while it lives ----

  /** A run that takes exactly these steps ends in `s`. */
  ghost predicate LeadsTo(steps: seq<Step>, s: State) {
    exists t :: Run(t, steps) && t[|t| - 1] == s
  }

  lemma Onward(steps: seq<Step>, s: State, step: Step, s': State)
    requires LeadsTo(steps, s) && TakesStep(s, step, s')
    ensures LeadsTo(steps + [step], s')
  {
    var t :| Run(t, steps) && t[|t| - 1] == s;
    assert Run(t + [s'], steps + [step]);
  }

  function Reclaim(request: Request): seq<Step> {
    [] + [Arrive(0, request)] + [Claim(0)] + [Expire] + [Arrive(1, request)] + [Claim(1)]
  }

  /** Request 0's claim expires while its handler runs, */
  lemma ClaimExpires(request: Request)
    ensures LeadsTo([] + [Arrive(0, request)] + [Claim(0)] + [Expire], State(None, map[0 := Call(request, Running)]))
  {
    var s0 := State(None, map[]);
    var s1 := State(None, map[0 := Call(request, Claiming(false))]);
    var s2 := State(Some(ClaimOf(0, request)), map[0 := Call(request, Running)]);
    assert Run([s0], []);
    Onward([], s0, Arrive(0, request), s1);
    Onward([] + [Arrive(0, request)], s1, Claim(0), s2);
    Onward([] + [Arrive(0, request)] + [Claim(0)], s2, Expire, s2.(record := None));
  }

  /** and request 1 claims the key. */
  lemma ExpiryLetsAnotherClaim(request: Request)
    ensures LeadsTo(Reclaim(request),
                    State(Some(ClaimOf(1, request)), map[0 := Call(request, Running), 1 := Call(request, Running)]))
  {
    ClaimExpires(request);
    var steps := [] + [Arrive(0, request)] + [Claim(0)] + [Expire];
    var s1 := State(None, map[0 := Call(request, Running)]);
    var s2 := s1.(calls := map[0 := Call(request, Running), 1 := Call(request, Claiming(false))]);
    var s3 := State(Some(ClaimOf(1, request)), map[0 := Call(request, Running), 1 := Call(request, Running)]);
    Onward(steps, s1, Arrive(1, request), s2);
    Onward(steps + [Arrive(1, request)], s2, Claim(1), s3);
  }

  /** The first one then returns and is told that its claim is lost. */
  lemma ExpiredOwnerIsTold(request: Request, a: Json)
    ensures LeadsTo(Reclaim(request) + [HandlerReturns(0, Some(a))] + [Complete(0)],
                    State(Some(ClaimOf(1, request)),
                          map[0 := Call(request, Done(Returned(a, false))), 1 := Call(request, Running)]))
  {
    ExpiryLetsAnotherClaim(request);
    var s1 := State(Some(ClaimOf(1, request)), map[0 := Call(request, Running), 1 := Call(request, Running)]);
    var s2 := SetPhase(s1, 0, Completing(a));
    Onward(Reclaim(request), s1, HandlerReturns(0, Some(a)), s2);
    Onward(Reclaim(request) + [HandlerReturns(0, Some(a))], s2, Complete(0), SetPhase(s2, 0, Done(Returned(a, false))));
  }

  /** With expiry two executions may both succeed. */
  lemma ExpiryAllowsASecondSuccess(request: Request, a: Json, b: Json)
    ensures LeadsTo(Reclaim(request) + [HandlerReturns(0, Some(a))] + [Complete(0)]
                      + [HandlerReturns(1, Some(b))] + [Complete(1)],
                    State(Some(CompletedBy(1, request, b)),
                          map[0 := Call(request, Done(Returned(a, false))), 1 := Call(request, Done(Returned(b, true)))]))
  {
    ExpiredOwnerIsTold(request, a);
    var steps := Reclaim(request) + [HandlerReturns(0, Some(a))] + [Complete(0)];
    var calls := map[0 := Call(request, Done(Returned(a, false))), 1 := Call(request, Running)];
    var s1 := State(Some(ClaimOf(1, request)), calls);
    var s2 := SetPhase(s1, 1, Completing(b));
    var s3 := SetPhase(s2, 1, Done(Returned(b, true))).(record := Some(CompletedBy(1, request, b)));
    Onward(steps, s1, HandlerReturns(1, Some(b)), s2);
    Onward(steps + [HandlerReturns(1, Some(b))], s2, Complete(1), s3);
  }
}
