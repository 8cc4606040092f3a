/** The protocol of the `FromCache` and `Cache` decorators over one cache key and one database row. */
module CacheProtocol {
  import opened Wrappers
  import opened Registers

  // Any number of finds and saves are in flight, interleaved step by step with expiry and eviction.
  // Each decorator is a small program counter; a step is one awaited call.

  datatype Snapshot = Snapshot(version: nat, content: int)

  /** The default `isNewer` on two versioned snapshots. */
  predicate IsNewer(cached: Snapshot, incoming: Snapshot) {
    cached.version > incoming.version
  }

  /**
   A snapshot with the place in the row's history it was taken from. The code never looks at `at`;
   the theorems are stated with it.
   */
  datatype Stamped = Stamped(snapshot: Snapshot, at: nat)

  /** What a find returns: the row, or its absence, as of one place in the history. */
  datatype Answer = Answer(row: Option<Snapshot>, at: nat)

  /** A find, waiting for its next call to return. */
  datatype Find =
    | Reading(observed: nat, attempt: nat)                 // the authoritative read
    | Filling(observed: nat, read: Stamped, attempt: nat)  // the fenced fill
    | Rechecking(read: Stamped, attempt: nat)              // the state, after a lost fill
    | Confirming(absentAt: nat)                            // the state, after reading no row
    | Found(answer: Answer)

  /** A save or a delete, waiting for its next call to return. */
  datatype Save =
    | Persisting(observed: Option<Register<Stamped>>)                // the database write
    | Evicting(commit: nat)                                          // the eviction of the key
    | WritingThrough(seen: Register<Stamped>, saved: Stamped)        // the fenced write-through
    | Finished

  /** `since` holds the commits that were settled when the find began. */
  datatype FindState = FindState(pc: Find, since: set<nat>)

  datatype State = State(
    history: seq<Option<Snapshot>>,  // every content the row has had; the last one is current
    reg: Register<Stamped>,
    finds: map<nat, FindState>,
    saves: map<nat, Save>,
    settled: set<nat>,               // commits whose eviction or write-through has gone through
    lost: set<nat>                   // commits whose write-through was skipped or lost its fence
  )

  /**
   What a key is used for. `versioned`: the key names one aggregate, so the row's version never goes
   down and a deleted row stays deleted. `writeThrough`: some save uses it as its `setKey`.
   */
  datatype Usage = Usage(versioned: bool, writeThrough: bool)

  const MAX_FILL_RETRIES: nat := 2

  function Row(s: State): Option<Snapshot>
    requires |s.history| > 0
  {
    s.history[|s.history| - 1]
  }

  /** The authoritative read. */
  function Current(s: State): Answer
    requires |s.history| > 0
  {
    Answer(Row(s), |s.history| - 1)
  }

  function Hit(stamped: Stamped): Answer {
    Answer(Some(stamped.snapshot), stamped.at)
  }

  /** What the database lets a save put in place of the current row. */
  predicate CommitAllowed(usage: Usage, s: State, row: Option<Snapshot>)
    requires |s.history| > 0
  {
    usage.versioned && row.Some? ==>
      match Row(s)
      case Some(current) => current.version <= row.value.version
      case None => forall i :: 0 <= i < |s.history| ==> s.history[i] == None
  }

  datatype Step =
    | BeginFind(f: nat)
    | ReadRow(f: nat, cacheable: bool)
    | TryFill(f: nat)
    | Recheck(f: nat)
    | Confirm(f: nat)
    | BeginSave(w: nat, setKey: bool)
    | FailSave(w: nat)
    | Commit(w: nat, row: Option<Snapshot>)
    | Evict(w: nat)
    | WriteThrough(w: nat)
    | Lapse            // the cached value expires
    | Drop             // the adapter evicts or clears the key
    | Pass             // something happens that does not show in the key

  function SetFind(s: State, f: nat, pc: Find): State
    requires f in s.finds
  {
    s.(finds := s.finds[f := s.finds[f].(pc := pc)])
  }

  function SetSave(s: State, w: nat, save: Save): State {
    s.(saves := s.saves[w := save])
  }

  predicate FindStep(s: State, step: Step, s': State)
    requires |s.history| > 0
  {
    match step
    case BeginFind(f) =>
      f !in s.finds &&
      s' == s.(finds := s.finds[f := FindState(
        match s.reg.live
        case Some(hit) => Found(Hit(hit))
        case None => Reading(s.reg.token, 0),
        s.settled)])
    case ReadRow(f, cacheable) =>
      f in s.finds && s.finds[f].pc.Reading? &&
      var pc := s.finds[f].pc;
      s' == SetFind(s, f,
        match Row(s)
        case None => Confirming(|s.history| - 1)
        case Some(row) =>
          if cacheable then Filling(pc.observed, Stamped(row, |s.history| - 1), pc.attempt)
          else Found(Current(s)))
    case TryFill(f) =>
      f in s.finds && s.finds[f].pc.Filling? &&
      var pc := s.finds[f].pc;
      Act(s.reg, Fill(pc.observed, pc.read), s'.reg) &&
      s' == SetFind(s, f,
        if pc.observed == s.reg.token then Found(Hit(pc.read))
        else Rechecking(pc.read, pc.attempt)).(reg := s'.reg)
    case Recheck(f) =>
      f in s.finds && s.finds[f].pc.Rechecking? &&
      var pc := s.finds[f].pc;
      s' == SetFind(s, f,
        if s.reg.live.Some? && IsNewer(s.reg.live.value.snapshot, pc.read.snapshot) then
          Found(Hit(s.reg.live.value))
        else if pc.attempt == MAX_FILL_RETRIES then Found(Hit(pc.read))
        else Reading(s.reg.token, pc.attempt + 1))
    case Confirm(f) =>
      f in s.finds && s.finds[f].pc.Confirming? &&
      s' == SetFind(s, f, Found(
        match s.reg.live
        case Some(hit) => Hit(hit)
        case None => Answer(None, s.finds[f].pc.absentAt)))
    case _ => false
  }

  predicate SaveStep(usage: Usage, s: State, step: Step, s': State)
    requires |s.history| > 0
  {
    match step
    case BeginSave(w, setKey) =>
      w !in s.saves && (setKey ==> usage.writeThrough) &&
      s' == SetSave(s, w, Persisting(if setKey then Some(s.reg) else None))
    case FailSave(w) =>
      w in s.saves && s.saves[w].Persisting? && s' == SetSave(s, w, Finished)
    case Commit(w, row) =>
      w in s.saves && s.saves[w].Persisting? && CommitAllowed(usage, s, row) &&
      var commit := |s.history|;
      s' == SetSave(s, w,
        if row == None || s.saves[w].observed == None then Evicting(commit)
        else if SkipsWriteThrough(s.saves[w].observed.value, row.value) then Finished
        else WritingThrough(s.saves[w].observed.value, Stamped(row.value, commit))
      ).(history := s.history + [row],
         lost := if row.Some? && s.saves[w].observed.Some?
                    && SkipsWriteThrough(s.saves[w].observed.value, row.value)
                 then s.lost + {commit} else s.lost)
    case Evict(w) =>
      w in s.saves && s.saves[w].Evicting? &&
      Act(s.reg, Forget, s'.reg) &&
      s' == SetSave(s, w, Finished).(reg := s'.reg, settled := s.settled + {s.saves[w].commit})
    case WriteThrough(w) =>
      w in s.saves && s.saves[w].WritingThrough? &&
      var (seen, saved) := (s.saves[w].seen, s.saves[w].saved);
      Act(s.reg, Fill(seen.token, saved), s'.reg) &&
      s' == (if seen.token == s.reg.token then
               SetSave(s, w, Finished).(reg := s'.reg, settled := s.settled + {saved.at})
             else
               SetSave(s, w, Finished).(reg := s'.reg, lost := s.lost + {saved.at}))
    case _ => false
  }

  /** The value seen before persistence is already newer than the one persisted. */
  predicate SkipsWriteThrough(seen: Register<Stamped>, saved: Snapshot) {
    seen.live.Some? && IsNewer(seen.live.value.snapshot, saved)
  }

  predicate CacheStep(s: State, step: Step, s': State) {
    match step
    case Lapse => s' == s.(reg := Expired(s.reg))
    case Drop => Act(s.reg, Forget, s'.reg) && s' == s.(reg := s'.reg)
    case Pass => s' == s
    case _ => false
  }

  predicate TakesStep(usage: Usage, s: State, step: Step, s': State)
    requires |s.history| > 0
  {
    FindStep(s, step, s') || SaveStep(usage, s, step, s') || CacheStep(s, step, s')
  }

  /** Nothing in flight, nothing cached, any row in the database. */
  predicate Init(s: State) {
    && |s.history| == 1
    && s.reg.live == None
    && s.finds == map[]
    && s.saves == map[]
    && s.settled == s.lost == {}
  }

  ghost predicate Run(usage: Usage, t: seq<State>, steps: seq<Step>) {
    && |t| == |steps| + 1
    && Init(t[0])
    && forall i :: 0 <= i < |steps| ==> |t[i].history| > 0 && TakesStep(usage, t[i], steps[i], t[i + 1])
  }

  // ---- The invariant ----

  predicate Faithful(s: State, a: Answer) {
    a.at < |s.history| && s.history[a.at] == a.row
  }

  /** At or after every commit in `commits`. */
  predicate After(at: nat, commits: set<nat>) {
    forall c :: c in commits ==> c <= at
  }

  /** A fill that would still go through carries nothing older than the key holds or has settled. */
  predicate FillSafe(s: State, observed: nat, value: Stamped) {
    && observed <= s.reg.token
    && Faithful(s, Hit(value))
    && (observed == s.reg.token ==>
      After(value.at, s.settled) && (s.reg.live.Some? ==> s.reg.live.value.at <= value.at))
  }

  predicate FindSafe(s: State, find: FindState) {
    && find.since <= s.settled
    && match find.pc
       case Reading(observed, attempt) => observed <= s.reg.token && attempt <= MAX_FILL_RETRIES
       case Filling(observed, read, attempt) =>
         FillSafe(s, observed, read) && After(read.at, find.since) && attempt <= MAX_FILL_RETRIES
       case Rechecking(read, attempt) =>
         Faithful(s, Hit(read)) && After(read.at, find.since) && attempt <= MAX_FILL_RETRIES
       case Confirming(at) => Faithful(s, Answer(None, at)) && After(at, find.since)
       case Found(answer) => Faithful(s, answer) && After(answer.at, find.since)
  }

  predicate SeenSafe(s: State, seen: Register<Stamped>) {
    seen.token <= s.reg.token && (seen.live.Some? ==> Faithful(s, Hit(seen.live.value)))
  }

  predicate SaveSafe(usage: Usage, s: State, save: Save) {
    match save
    case Persisting(observed) => observed.Some? ==> usage.writeThrough && SeenSafe(s, observed.value)
    case Evicting(commit) => commit < |s.history|
    case WritingThrough(seen, saved) =>
      usage.writeThrough && SeenSafe(s, seen) && FillSafe(s, seen.token, saved)
    case Finished => true
  }

  ghost predicate Inv(usage: Usage, s: State) {
    && |s.history| > 0
    && (forall c :: c in s.settled ==> c < |s.history|)
    && (s.reg.live.Some? ==>
      Faithful(s, Hit(s.reg.live.value)) && After(s.reg.live.value.at, s.settled))
    && (forall f :: f in s.finds ==> FindSafe(s, s.finds[f]))
    && (forall w :: w in s.saves ==> SaveSafe(usage, s, s.saves[w]))
    && (!usage.writeThrough ==> s.lost == {})
  }

  /** Some save stands between committing `c` and maintaining the key. */
  ghost predicate Pending(s: State, c: nat) {
    exists w :: w in s.saves && Maintains(s.saves[w], c)
  }

  predicate Maintains(save: Save, c: nat) {
    save == Evicting(c) || (save.WritingThrough? && save.saved.at == c)
  }

  /** Every commit is settled, lost, or about to be one of the two. */
  ghost predicate Tracked(s: State) {
    forall c :: 1 <= c < |s.history| ==> c in s.settled || c in s.lost || Pending(s, c)
  }

  lemma FindKeepsInv(usage: Usage, s: State, step: Step, s': State)
    requires Inv(usage, s) && FindStep(s, step, s')
    ensures Inv(usage, s')
  {
    FindMoves(s, step, s');
    NextFindIsSafe(usage, s, step, s');
    LiveStaysSafe(usage, s, step, s');
    forall f | f in s'.finds && f != step.f ensures FindSafe(s', s'.finds[f]) {
      FindStaysSafe(s, s', s.finds[f]);
    }
    forall w | w in s'.saves ensures SaveSafe(usage, s', s'.saves[w]) {
      SaveStaysSafe(usage, s, s', s.saves[w]);
    }
  }

  /** A find touches nothing but its own state and, filling, the register. */
  lemma FindMoves(s: State, step: Step, s': State)
    requires |s.history| > 0 && FindStep(s, step, s')
    ensures Moves(s, s') && s'.saves == s.saves && s'.settled == s.settled && s'.lost == s.lost && step.f in s'.finds
    ensures forall f :: f in s'.finds && f != step.f ==> f in s.finds && s'.finds[f] == s.finds[f]
  {
  }

  lemma NextFindIsSafe(usage: Usage, s: State, step: Step, s': State)
    requires Inv(usage, s) && FindStep(s, step, s')
    ensures step.f in s'.finds && FindSafe(s', s'.finds[step.f])
  {
    if !step.BeginFind? {
      assert FindSafe(s, s.finds[step.f]);
    }
  }

  /** What a fill puts into the cache is a row the history holds, at or after all that is settled. */
  lemma LiveStaysSafe(usage: Usage, s: State, step: Step, s': State)
    requires Inv(usage, s) && FindStep(s, step, s')
    ensures s'.reg.live.Some? ==> Faithful(s', Hit(s'.reg.live.value)) && After(s'.reg.live.value.at, s'.settled)
  {
    if step.TryFill? {
      assert FindSafe(s, s.finds[step.f]);
    }
  }

  /** The history is as it was, and the register too unless it got a new token. */
  predicate Moves(s: State, s': State) {
    && s'.history == s.history
    && (if s.reg.token < s'.reg.token then s.settled <= s'.settled
        else s'.reg == s.reg && s'.settled == s.settled)
  }

  lemma FindStaysSafe(s: State, s': State, find: FindState)
    requires FindSafe(s, find) && Moves(s, s')
    ensures FindSafe(s', find)
  {
  }

  lemma SaveStaysSafe(usage: Usage, s: State, s': State, save: Save)
    requires SaveSafe(usage, s, save) && Moves(s, s')
    ensures SaveSafe(usage, s', save)
  {
  }

  /** A commit only adds a row to the history. */
  lemma CommitKeepsInv(usage: Usage, s: State, step: Step, s': State)
    requires Inv(usage, s) && step.Commit? && SaveStep(usage, s, step, s')
    ensures Inv(usage, s')
  {
    assert forall a :: Faithful(s, a) ==> Faithful(s', a);
    forall f | f in s'.finds ensures FindSafe(s', s'.finds[f]) {
      assert FindSafe(s, s.finds[f]);
    }
    forall w | w in s'.saves ensures SaveSafe(usage, s', s'.saves[w]) {
      assert w in s.saves && SaveSafe(usage, s, s.saves[w]);
    }
  }

  /** Evicting and writing through leave the history alone and retire every older token. */
  lemma MaintenanceKeepsInv(usage: Usage, s: State, step: Step, s': State)
    requires Inv(usage, s) && (step.Evict? || step.WriteThrough?) && SaveStep(usage, s, step, s')
    ensures Inv(usage, s')
  {
    assert SaveSafe(usage, s, s.saves[step.w]);
    forall f | f in s'.finds ensures FindSafe(s', s'.finds[f]) {
      FindStaysSafe(s, s', s.finds[f]);
    }
    forall w | w in s'.saves ensures SaveSafe(usage, s', s'.saves[w]) {
      if w != step.w {
        SaveStaysSafe(usage, s, s', s.saves[w]);
      }
    }
  }

  lemma SaveKeepsInv(usage: Usage, s: State, step: Step, s': State)
    requires Inv(usage, s) && SaveStep(usage, s, step, s')
    ensures Inv(usage, s')
  {
    if step.Commit? {
      CommitKeepsInv(usage, s, step, s');
    } else if step.Evict? || step.WriteThrough? {
      MaintenanceKeepsInv(usage, s, step, s');
    } else {
      assert s'.reg == s.reg && s'.history == s.history && s'.finds == s.finds && s'.settled == s.settled;
      forall f | f in s'.finds ensures FindSafe(s', s'.finds[f]) {
        assert FindSafe(s, s.finds[f]);
      }
      forall w | w in s'.saves ensures SaveSafe(usage, s', s'.saves[w]) {
        assert w in s.saves ==> SaveSafe(usage, s, s.saves[w]);
      }
    }
  }

  lemma PendingStays(s: State, w: nat, save: Save, s': State, c: nat)
    requires s'.saves == s.saves[w := save] && Pending(s, c)
    ensures Pending(s', c) || (w in s.saves && Maintains(s.saves[w], c))
  {
    var v :| v in s.saves && Maintains(s.saves[v], c);
    if v != w {
      assert v in s'.saves && Maintains(s'.saves[v], c);
    }
  }

  lemma StepKeepsTracked(usage: Usage, s: State, step: Step, s': State)
    requires Inv(usage, s) && Tracked(s) && TakesStep(usage, s, step, s')
    ensures Tracked(s')
  {
    forall c | 1 <= c < |s'.history|
      ensures c in s'.settled || c in s'.lost || Pending(s', c)
    {
      if SaveStep(usage, s, step, s') {
        if step.Commit? && c == |s.history| {
          assert s'.saves[step.w].Finished? || Maintains(s'.saves[step.w], c);
        } else if c !in s.settled && c !in s.lost {
          PendingStays(s, step.w, s'.saves[step.w], s', c);
        }
      } else if c !in s.settled && c !in s.lost {
        assert s'.saves == s.saves && s'.history == s.history;
        var w :| w in s.saves && Maintains(s.saves[w], c);
        assert Maintains(s'.saves[w], c);
      }
    }
  }

  /** What every reachable state satisfies. */
  lemma {:induction false} RunKeepsInv(usage: Usage, t: seq<State>, steps: seq<Step>, i: nat)
    requires Run(usage, t, steps) && i < |t|
    ensures Inv(usage, t[i]) && Tracked(t[i])
  {
    if i > 0 {
      RunKeepsInv(usage, t, steps, i - 1);
      var (s, step, s') := (t[i - 1], steps[i - 1], t[i - 1 + 1]);
      StepKeepsTracked(usage, s, step, s');
      if FindStep(s, step, s') {
        FindKeepsInv(usage, s, step, s');
      } else if SaveStep(usage, s, step, s') {
        SaveKeepsInv(usage, s, step, s');
      }
    }
  }

  // ---- What holds over runs ----

  /** History, settled and lost commits, and what a find began with, are never taken back. */
  lemma {:induction false} RunsGrow(usage: Usage, t: seq<State>, steps: seq<Step>, i: nat, j: nat)
    requires Run(usage, t, steps) && i <= j < |t|
    ensures IsGrown(t[i], t[j])
    decreases j
  {
    if i < j {
      RunsGrow(usage, t, steps, i, j - 1);
      StepsGrow(usage, t[j - 1], steps[j - 1], t[j - 1 + 1]);
    }
  }

  ghost predicate IsGrown(s: State, s': State) {
    && s.history <= s'.history
    && s.settled <= s'.settled
    && s.finds.Keys <= s'.finds.Keys
    && (forall f :: f in s.finds ==> f in s'.finds && s'.finds[f].since == s.finds[f].since)
    && (forall f :: f in s'.finds && f !in s.finds ==> s.settled <= s'.finds[f].since)
  }

  lemma StepsGrow(usage: Usage, s: State, step: Step, s': State)
    requires |s.history| > 0 && TakesStep(usage, s, step, s')
    ensures IsGrown(s, s')
  {
    if FindStep(s, step, s') {
      FindMoves(s, step, s');
    }
  }

  /**
   Read after settle: a find that begins after a commit was evicted, or written through, returns that
   commit's row or a later one, in every interleaving.
   */
  lemma ReadAfterSettled(usage: Usage, t: seq<State>, steps: seq<Step>, i: nat, j: nat, c: nat, f: nat)
    requires Run(usage, t, steps) && i <= j < |t|
    requires c in t[i].settled && f !in t[i].finds
    requires f in t[j].finds && t[j].finds[f].pc.Found?
    ensures
      var answer := t[j].finds[f].pc.answer;
      c <= answer.at < |t[j].history| && answer.row == t[j].history[answer.at]
  {
    RunKeepsInv(usage, t, steps, j);
    RunsGrow(usage, t, steps, i, j);
    assert FindSafe(t[j], t[j].finds[f]);
    assert c in t[j].finds[f].since;
  }

  /** No save stands between its commit and its cache maintenance. */
  ghost predicate IsQuiet(s: State) {
    forall c :: 1 <= c < |s.history| ==> !Pending(s, c)
  }

  /** The cached value is the current row, or the last commit was lost, which takes a save that writes through. */
  predicate IsCurrentUnlessLost(usage: Usage, s: State)
    requires s.reg.live.Some?
  {
    && |s.history| > 0
    && (Row(s) == Some(s.reg.live.value.snapshot) || (usage.writeThrough && |s.history| - 1 in s.lost))
  }

  /**
   Coherence: with no save between its commit and its cache maintenance, a cached value that is not
   the current row can only be there because the last commit's write-through was lost. So a key that
   no save writes through is always coherent then, whatever its rows do.
   */
  lemma HitIsCurrent(usage: Usage, t: seq<State>, steps: seq<Step>, i: nat)
    requires Run(usage, t, steps) && i < |t|
    requires t[i].reg.live.Some?
    requires IsQuiet(t[i])
    ensures IsCurrentUnlessLost(usage, t[i])
  {
    RunKeepsInv(usage, t, steps, i);
    var last := |t[i].history| - 1;
    if last > 0 && last !in t[i].lost {
      assert last in t[i].settled;
    }
  }

  lemma {:induction false} HistoryRules(usage: Usage, t: seq<State>, steps: seq<Step>, i: nat)
    requires usage.versioned && Run(usage, t, steps) && i < |t|
    ensures VersionsAscend(t[i].history) && DeletionsLast(t[i].history)
  {
    if i > 0 {
      HistoryRules(usage, t, steps, i - 1);
      StepKeepsRules(usage, t[i - 1], steps[i - 1], t[i - 1 + 1]);
    }
  }

  lemma StepKeepsRules(usage: Usage, s: State, step: Step, s': State)
    requires usage.versioned && |s.history| > 0 && TakesStep(usage, s, step, s')
    requires VersionsAscend(s.history) && DeletionsLast(s.history)
    ensures VersionsAscend(s'.history) && DeletionsLast(s'.history)
  {
  }

  /** Versions never go down along the history. */
  predicate VersionsAscend(history: seq<Option<Snapshot>>) {
    forall i, j :: 0 <= i <= j < |history| && history[i].Some? && history[j].Some? ==>
      history[i].value.version <= history[j].value.version
  }

  /** Nothing follows a deletion. */
  predicate DeletionsLast(history: seq<Option<Snapshot>>) {
    forall i, j, k :: 0 <= i < j < k < |history| && history[i].Some? && history[j] == None ==>
      history[k] == None
  }

  lemma {:induction false} HitPlacesAscend(usage: Usage, t: seq<State>, steps: seq<Step>, i: nat, j: nat)
    requires Run(usage, t, steps) && i <= j < |t|
    requires forall n :: i <= n <= j ==> t[n].reg.live.Some?
    ensures t[i].reg.live.value.at <= t[j].reg.live.value.at
    decreases j
  {
    if i < j {
      HitPlacesAscend(usage, t, steps, i, j - 1);
      NextHitIsLater(usage, t, steps, j);
    }
  }

  lemma NextHitIsLater(usage: Usage, t: seq<State>, steps: seq<Step>, j: nat)
    requires Run(usage, t, steps) && 0 < j < |t| && t[j - 1].reg.live.Some? && t[j].reg.live.Some?
    ensures t[j - 1].reg.live.value.at <= t[j].reg.live.value.at
  {
    RunKeepsInv(usage, t, steps, j - 1);
  }

  /**
   While a key stays a hit, what it holds never moves back in the history; for a versioned key its
   version never goes down. It is always a row the database has held, so never ahead of it.
   */
  lemma HitsNeverGoBack(usage: Usage, t: seq<State>, steps: seq<Step>, i: nat, j: nat)
    requires Run(usage, t, steps) && i <= j < |t|
    requires forall n :: i <= n <= j ==> t[n].reg.live.Some?
    ensures
      var (before, after) := (t[i].reg.live.value, t[j].reg.live.value);
      && before.at <= after.at < |t[j].history|
      && t[j].history[after.at] == Some(after.snapshot)
      && (usage.versioned ==> before.snapshot.version <= after.snapshot.version)
  {
    HitPlacesAscend(usage, t, steps, i, j);
    RunKeepsInv(usage, t, steps, j);
    if usage.versioned {
      VersionsFollowPlaces(usage, t, steps, i, j);
    }
  }

  /** In a versioned cache a hit that comes from no earlier commit has no lower version. */
  lemma VersionsFollowPlaces(usage: Usage, t: seq<State>, steps: seq<Step>, i: nat, j: nat)
    requires usage.versioned && Run(usage, t, steps) && i <= j < |t|
    requires t[i].reg.live.Some? && t[j].reg.live.Some? && t[i].reg.live.value.at <= t[j].reg.live.value.at
    ensures t[i].reg.live.value.snapshot.version <= t[j].reg.live.value.snapshot.version
  {
    RunKeepsInv(usage, t, steps, i);
    RunKeepsInv(usage, t, steps, j);
    RunsGrow(usage, t, steps, i, j);
    HistoryRules(usage, t, steps, j);
  }

  /**
   No resurrection: once a deletion is committed and its eviction is over, the key is never a hit
   again, and every find that begins later returns no row.
   */
  lemma NoResurrection(usage: Usage, t: seq<State>, steps: seq<Step>, i: nat, j: nat, d: nat)
    requires usage.versioned && Run(usage, t, steps) && i <= j < |t|
    requires 0 < d < |t[i].history| && t[i].history[d - 1].Some? && t[i].history[d] == None
    requires d in t[i].settled
    ensures t[j].reg.live == None
    ensures forall f :: f in t[j].finds && f !in t[i].finds && t[j].finds[f].pc.Found? ==>
      t[j].finds[f].pc.answer.row == None
  {
    RunKeepsInv(usage, t, steps, j);
    RunsGrow(usage, t, steps, i, j);
    HistoryRules(usage, t, steps, j);
    assert t[j].history[d - 1].Some? && t[j].history[d] == None;
    forall f | f in t[j].finds && f !in t[i].finds && t[j].finds[f].pc.Found?
      ensures t[j].finds[f].pc.answer.row == None
    {
      ReadAfterSettled(usage, t, steps, i, j, d, f);
    }
  }

  /** The comparison made before a write-through never fires for a versioned key. */
  lemma VersionedWriteThroughNeverSkips(usage: Usage, t: seq<State>, steps: seq<Step>, i: nat)
    requires usage.versioned && Run(usage, t, steps) && i < |steps|
    requires steps[i].Commit? && SaveStep(usage, t[i], steps[i], t[i + 1]) && steps[i].row.Some?
    ensures t[i + 1].lost == t[i].lost
  {
    RunKeepsInv(usage, t, steps, i);
    HistoryRules(usage, t, steps, i);
    var save := t[i].saves[steps[i].w];
    assert SaveSafe(usage, t[i], save);
    if save.observed.Some? && save.observed.value.live.Some? {
      var seen := save.observed.value.live.value;
      var history' := t[i].history + [steps[i].row];
      assert history'[seen.at] == Some(seen.snapshot) && history'[|t[i].history|] == steps[i].row;
    }
  }

  // ---- A find ends ----

  /** The authoritative reads a find may still make. */
  function ReadsLeft(pc: Find): int {
    match pc
    case Reading(_, attempt) => MAX_FILL_RETRIES + 1 - attempt
    case Filling(_, _, attempt) => MAX_FILL_RETRIES - attempt
    case Rechecking(_, attempt) => MAX_FILL_RETRIES - attempt
    case Confirming(_) => 0
    case Found(_) => 0
  }

  /** How often `steps` lets find `f` read the database. */
  function Reads(steps: seq<Step>, f: nat): nat {
    if steps == [] then 0 else Reads(steps[..|steps| - 1], f) + ReadsIn(steps[|steps| - 1], f)
  }

  function ReadsIn(step: Step, f: nat): nat {
    if step.ReadRow? && step.f == f then 1 else 0
  }

  lemma StepSpendsRead(usage: Usage, s: State, step: Step, s': State, f: nat)
    requires Inv(usage, s) && TakesStep(usage, s, step, s')
    ensures f in s.finds ==> f in s'.finds && ReadsIn(step, f) + ReadsLeft(s'.finds[f].pc) <= ReadsLeft(s.finds[f].pc)
    ensures f !in s.finds ==> ReadsIn(step, f) == 0
    ensures f !in s.finds && f in s'.finds ==> ReadsLeft(s'.finds[f].pc) <= MAX_FILL_RETRIES + 1
  {
    if f in s.finds {
      assert FindSafe(s, s.finds[f]);
    }
  }

  lemma ReadsOneMore(steps: seq<Step>, i: nat, f: nat)
    requires 0 < i <= |steps|
    ensures Reads(steps[..i], f) == Reads(steps[..i - 1], f) + ReadsIn(steps[i - 1], f)
  {
    assert steps[..i][..i - 1] == steps[..i - 1];
  }

  lemma RunSpendsRead(usage: Usage, t: seq<State>, steps: seq<Step>, i: nat, f: nat)
    requires Run(usage, t, steps) && 0 < i < |t|
    ensures f in t[i - 1].finds ==>
              f in t[i].finds && ReadsIn(steps[i - 1], f) + ReadsLeft(t[i].finds[f].pc) <= ReadsLeft(t[i - 1].finds[f].pc)
    ensures f !in t[i - 1].finds ==> ReadsIn(steps[i - 1], f) == 0
    ensures f !in t[i - 1].finds && f in t[i].finds ==> ReadsLeft(t[i].finds[f].pc) <= MAX_FILL_RETRIES + 1
    ensures f in t[i].finds ==> ReadsLeft(t[i].finds[f].pc) >= 0
  {
    RunKeepsInv(usage, t, steps, i - 1);
    RunKeepsInv(usage, t, steps, i);
    StepSpendsRead(usage, t[i - 1], steps[i - 1], t[i - 1 + 1], f);
    if f in t[i].finds {
      assert FindSafe(t[i], t[i].finds[f]);
    }
  }

  /** However contended the key is, no find reads the database more than three times. */
  lemma {:induction false} FindsReadAtMostThrice(usage: Usage, t: seq<State>, steps: seq<Step>, i: nat, f: nat)
    requires Run(usage, t, steps) && i < |t|
    ensures Reads(steps[..i], f) <= MAX_FILL_RETRIES + 1
    ensures f !in t[i].finds ==> Reads(steps[..i], f) == 0
    ensures f in t[i].finds ==> Reads(steps[..i], f) + ReadsLeft(t[i].finds[f].pc) <= MAX_FILL_RETRIES + 1
  {
    if i > 0 {
      FindsReadAtMostThrice(usage, t, steps, i - 1, f);
      RunSpendsRead(usage, t, steps, i, f);
      ReadsOneMore(steps, i, f);
    }
  }

  // ---- What a find answers ----

  predicate IsRead(step: Step, f: nat) {
    step.ReadRow? && step.f == f
  }

  /** Find `f` looks at the state of the key and goes on with its token. */
  predicate IsLook(step: Step, f: nat) {
    step == BeginFind(f) || step == Recheck(f)
  }

  /** The last read of `f` before step `i`; -1 if there is none. */
  function LastRead(steps: seq<Step>, i: nat, f: nat): (k: int)
    requires i <= |steps|
    ensures -1 <= k < i && (k >= 0 ==> IsRead(steps[k], f))
    ensures forall n :: k < n < i ==> !IsRead(steps[n], f)
  {
    if i == 0 then -1 else if IsRead(steps[i - 1], f) then i - 1 else LastRead(steps, i - 1, f)
  }

  function LastLook(steps: seq<Step>, i: nat, f: nat): (k: int)
    requires i <= |steps|
    ensures -1 <= k < i && (k >= 0 ==> IsLook(steps[k], f))
    ensures forall n :: k < n < i ==> !IsLook(steps[n], f)
  {
    if i == 0 then -1 else if IsLook(steps[i - 1], f) then i - 1 else LastLook(steps, i - 1, f)
  }

  /** The row as step `k` reads it. */
  predicate HasRead(t: seq<State>, steps: seq<Step>, k: int, f: nat, answer: Answer) {
    && 0 <= k < |steps| && k < |t| && IsRead(steps[k], f)
    && |t[k].history| > 0 && answer.at == |t[k].history| - 1 && answer.row == t[k].history[answer.at]
  }

  /** `answer` is what step `n` finds live in the cache. */
  predicate IsLive(t: seq<State>, n: int, answer: Answer) {
    0 <= n < |t| && t[n].reg.live.Some? && answer == Answer(Some(t[n].reg.live.value.snapshot), t[n].reg.live.value.at)
  }

  /** At step `n` the fill of `f` goes through with `answer`, which may be evicted by its own call. */
  predicate Fills(t: seq<State>, steps: seq<Step>, n: int, f: nat, answer: Answer) {
    && 0 <= n < |steps| && n + 1 < |t| && steps[n] == TryFill(f)
    && t[n].reg.token < t[n + 1].reg.token && (t[n + 1].reg.live == None || IsLive(t, n + 1, answer))
  }

  /** At step `n`, after a lost fill, `f` finds a row live that is of a higher version than `row`. */
  predicate FindsNewer(t: seq<State>, steps: seq<Step>, n: int, f: nat, row: Snapshot, answer: Answer) {
    && 0 <= n < |steps| && steps[n] == Recheck(f)
    && IsLive(t, n, answer) && answer.row.value.version > row.version
  }

  /** After reading no row, `f` answers with what step `n` finds live, and otherwise with no row. */
  predicate Confirms(t: seq<State>, steps: seq<Step>, n: int, f: nat, absent: Answer, answer: Answer) {
    && 0 <= n < |steps| && n < |t| && steps[n] == Confirm(f)
    && (if t[n].reg.live.Some? then IsLive(t, n, answer) else answer == absent)
  }

  /** Why `f`, which has last read the database at step `k`, answers with `answer` at state `i`. */
  ghost predicate Justified(t: seq<State>, steps: seq<Step>, i: nat, f: nat, k: int, answer: Answer)
    requires i <= |steps| && i < |t| && k < i
  {
    if k < 0 then exists n :: 0 <= n < i && steps[n] == BeginFind(f) && IsLive(t, n, answer)
    else if IsRead(steps[k], f) && |t[k].history| > 0 && Row(t[k]) == None then
      exists n, absent :: k < n < i && HasRead(t, steps, k, f, absent) && Confirms(t, steps, n, f, absent, answer)
    else
      || (HasRead(t, steps, k, f, answer) && !steps[k].cacheable)
      || (HasRead(t, steps, k, f, answer) && exists n :: k < n < i && Fills(t, steps, n, f, answer))
      || (HasRead(t, steps, k, f, answer) && Reads(steps[..i], f) == 3)
      || (|t[k].history| > 0 && Row(t[k]).Some? &&
          exists n :: k < n < i && FindsNewer(t, steps, n, f, Row(t[k]).value, answer))
  }

  /** How far `f` is, told by its steps alone. */
  ghost predicate Story(t: seq<State>, steps: seq<Step>, i: nat, f: nat)
    requires i <= |steps| && i < |t| && f in t[i].finds
  {
    var (k, l, n) := (LastRead(steps, i, f), LastLook(steps, i, f), Reads(steps[..i], f));
    match t[i].finds[f].pc
    case Reading(observed, attempt) => l >= 0 && k <= l && observed == t[l].reg.token && n == attempt <= 2
    case Filling(observed, read, attempt) =>
      && 0 <= l < k && observed == t[l].reg.token && n == attempt + 1 <= 3
      && steps[k].cacheable && HasRead(t, steps, k, f, Hit(read))
    case Rechecking(read, attempt) => k >= 0 && n == attempt + 1 <= 3 && HasRead(t, steps, k, f, Hit(read))
    case Confirming(at) => k >= 0 && HasRead(t, steps, k, f, Answer(None, at))
    case Found(answer) => Justified(t, steps, i, f, k, answer)
  }

  predicate IsStepOf(step: Step, f: nat) {
    IsRead(step, f) || IsLook(step, f) || step == TryFill(f) || step == Confirm(f)
  }

  /** State `i` is where step `i - 1` leads. */
  predicate LedBy(usage: Usage, t: seq<State>, steps: seq<Step>, i: nat) {
    0 < i <= |steps| && i < |t| && |t[i - 1].history| > 0 && TakesStep(usage, t[i - 1], steps[i - 1], t[i])
  }

  lemma RunLeads(usage: Usage, t: seq<State>, steps: seq<Step>, i: nat)
    requires Run(usage, t, steps) && 0 < i < |t|
    ensures LedBy(usage, t, steps, i)
  {
    assert TakesStep(usage, t[i - 1], steps[i - 1], t[i - 1 + 1]);
  }

  lemma OthersLeaveStory(usage: Usage, t: seq<State>, steps: seq<Step>, i: nat, f: nat)
    requires LedBy(usage, t, steps, i) && !IsStepOf(steps[i - 1], f)
    requires f in t[i - 1].finds ==> Story(t, steps, i - 1, f)
    ensures f in t[i].finds ==> Story(t, steps, i, f)
  {
    ReadsOneMore(steps, i, f);
    if f in t[i].finds {
      assert f in t[i - 1].finds && t[i].finds[f] == t[i - 1].finds[f];
      assert LastRead(steps, i, f) == LastRead(steps, i - 1, f) && LastLook(steps, i, f) == LastLook(steps, i - 1, f);
      assert Reads(steps[..i], f) == Reads(steps[..i - 1], f);
      if t[i].finds[f].pc.Found? {
        JustifiedLater(t, steps, i, f, LastRead(steps, i, f), t[i].finds[f].pc.answer);
      }
    }
  }

  lemma JustifiedLater(t: seq<State>, steps: seq<Step>, i: nat, f: nat, k: int, answer: Answer)
    requires 0 < i <= |steps| && i < |t| && k < i - 1 && Justified(t, steps, i - 1, f, k, answer)
    requires Reads(steps[..i], f) == Reads(steps[..i - 1], f)
    ensures Justified(t, steps, i, f, k, answer)
  {
  }

  lemma LookOpensStory(usage: Usage, t: seq<State>, steps: seq<Step>, i: nat, f: nat)
    requires LedBy(usage, t, steps, i) && steps[i - 1] == BeginFind(f)
    requires f !in t[i - 1].finds ==> Reads(steps[..i - 1], f) == 0
    ensures f in t[i].finds && Story(t, steps, i, f)
  {
    OneMoreStep(steps, i, f);
    NoReadsNoLast(steps, i, f);
    assert t[i].finds[f].pc.Found? ==> IsLive(t, i - 1, t[i].finds[f].pc.answer);
  }

  lemma {:induction false} NoReadsNoLast(steps: seq<Step>, i: nat, f: nat)
    requires i <= |steps|
    ensures Reads(steps[..i], f) == 0 <==> LastRead(steps, i, f) == -1
  {
    if i > 0 {
      ReadsOneMore(steps, i, f);
      NoReadsNoLast(steps, i - 1, f);
    }
  }

  lemma OneMoreStep(steps: seq<Step>, i: nat, f: nat)
    requires 0 < i <= |steps|
    ensures LastRead(steps, i, f) == if IsRead(steps[i - 1], f) then i - 1 else LastRead(steps, i - 1, f)
    ensures LastLook(steps, i, f) == if IsLook(steps[i - 1], f) then i - 1 else LastLook(steps, i - 1, f)
    ensures Reads(steps[..i], f) == Reads(steps[..i - 1], f) + if IsRead(steps[i - 1], f) then 1 else 0
  {
    ReadsOneMore(steps, i, f);
  }

  lemma ReadGoesOn(usage: Usage, t: seq<State>, steps: seq<Step>, i: nat, f: nat)
    requires LedBy(usage, t, steps, i) && IsRead(steps[i - 1], f)
    requires f in t[i - 1].finds ==> Story(t, steps, i - 1, f)
    ensures f in t[i].finds && Story(t, steps, i, f)
  {
    ReadMoves(t[i - 1], steps[i - 1], t[i]);
    OneMoreStep(steps, i, f);
    assert HasRead(t, steps, i - 1, f, Current(t[i - 1]));
  }

  lemma ReadMoves(s: State, step: Step, s': State)
    requires |s.history| > 0 && step.ReadRow? && FindStep(s, step, s')
    ensures step.f in s.finds && step.f in s'.finds && s.finds[step.f].pc.Reading?
    ensures var (pc, pc') := (s.finds[step.f].pc, s'.finds[step.f].pc);
            match Row(s)
            case None => pc' == Confirming(|s.history| - 1)
            case Some(row) =>
              if step.cacheable then pc' == Filling(pc.observed, Stamped(row, |s.history| - 1), pc.attempt)
              else pc' == Found(Current(s))
  {
  }

  lemma FillMoves(s: State, f: nat, s': State)
    requires |s.history| > 0 && FindStep(s, TryFill(f), s')
    ensures f in s.finds && f in s'.finds && s.finds[f].pc.Filling?
    ensures var (pc, pc') := (s.finds[f].pc, s'.finds[f].pc);
            if pc.observed == s.reg.token
            then
              && pc' == Found(Hit(pc.read)) && s.reg.token < s'.reg.token
              && (s'.reg.live == None || s'.reg.live == Some(pc.read))
            else pc' == Rechecking(pc.read, pc.attempt)
  {
  }

  lemma FillGoesOn(usage: Usage, t: seq<State>, steps: seq<Step>, i: nat, f: nat)
    requires LedBy(usage, t, steps, i) && steps[i - 1] == TryFill(f)
    requires f in t[i - 1].finds ==> Story(t, steps, i - 1, f)
    ensures f in t[i].finds && Story(t, steps, i, f)
  {
    FillMoves(t[i - 1], f, t[i]);
    OneMoreStep(steps, i, f);
    var (k, read) := (LastRead(steps, i - 1, f), t[i - 1].finds[f].pc.read);
    assert HasRead(t, steps, k, f, Hit(read));
    if t[i].finds[f].pc.Found? {
      JustifiedByFill(t, steps, i, f, k, i - 1, Hit(read));
    }
  }

  lemma JustifiedByFill(t: seq<State>, steps: seq<Step>, i: nat, f: nat, k: int, n: int, answer: Answer)
    requires i <= |steps| && i < |t| && k < n < i && HasRead(t, steps, k, f, answer) && answer.row.Some?
    requires Fills(t, steps, n, f, answer)
    ensures Justified(t, steps, i, f, k, answer)
  {
  }

  lemma RecheckGoesOn(usage: Usage, t: seq<State>, steps: seq<Step>, i: nat, f: nat)
    requires LedBy(usage, t, steps, i) && steps[i - 1] == Recheck(f)
    requires f in t[i - 1].finds ==> Story(t, steps, i - 1, f)
    ensures f in t[i].finds && Story(t, steps, i, f)
  {
    var (s, s') := (t[i - 1], t[i]);
    assert s.finds[f].pc.Rechecking?;
    OneMoreStep(steps, i, f);
    var (k, read) := (LastRead(steps, i - 1, f), s.finds[f].pc.read);
    assert HasRead(t, steps, k, f, Hit(read));
    if s'.finds[f].pc.Found? {
      RecheckJustifies(t, steps, i, f, k, read, s'.finds[f].pc.answer);
    }
  }

  lemma RecheckJustifies(t: seq<State>, steps: seq<Step>, i: nat, f: nat, k: int, read: Stamped, answer: Answer)
    requires 0 < i <= |steps| && i < |t| && k < i - 1 && steps[i - 1] == Recheck(f)
    requires HasRead(t, steps, k, f, Hit(read))
    requires FindsNewer(t, steps, i - 1, f, read.snapshot, answer) || (answer == Hit(read) && Reads(steps[..i], f) == 3)
    ensures Justified(t, steps, i, f, k, answer)
  {
    assert Row(t[k]) == Some(read.snapshot);
  }

  lemma ConfirmEndsStory(usage: Usage, t: seq<State>, steps: seq<Step>, i: nat, f: nat)
    requires LedBy(usage, t, steps, i) && steps[i - 1] == Confirm(f)
    requires f in t[i - 1].finds ==> Story(t, steps, i - 1, f)
    ensures f in t[i].finds && Story(t, steps, i, f)
  {
    var (s, s') := (t[i - 1], t[i]);
    assert s.finds[f].pc.Confirming?;
    OneMoreStep(steps, i, f);
    var (k, absent) := (LastRead(steps, i - 1, f), Answer(None, s.finds[f].pc.absentAt));
    assert HasRead(t, steps, k, f, absent);
    ConfirmJustifies(t, steps, i, f, k, absent, s'.finds[f].pc.answer);
  }

  lemma ConfirmJustifies(t: seq<State>, steps: seq<Step>, i: nat, f: nat, k: int, absent: Answer, answer: Answer)
    requires 0 < i <= |steps| && i < |t| && k < i - 1 && HasRead(t, steps, k, f, absent) && absent.row == None
    requires Confirms(t, steps, i - 1, f, absent, answer)
    ensures Justified(t, steps, i, f, k, answer)
  {
  }

  lemma {:induction false} StoryHolds(usage: Usage, t: seq<State>, steps: seq<Step>, i: nat, f: nat)
    requires Run(usage, t, steps) && i < |t|
    ensures f !in t[i].finds ==> Reads(steps[..i], f) == 0
    ensures f in t[i].finds ==> Story(t, steps, i, f)
  {
    if i > 0 {
      StoryHolds(usage, t, steps, i - 1, f);
      FindsReadAtMostThrice(usage, t, steps, i, f);
      var step := steps[i - 1];
      RunLeads(usage, t, steps, i);
      if step == BeginFind(f) {
        LookOpensStory(usage, t, steps, i, f);
      } else if IsRead(step, f) {
        ReadGoesOn(usage, t, steps, i, f);
      } else if step == TryFill(f) {
        FillGoesOn(usage, t, steps, i, f);
      } else if step == Recheck(f) {
        RecheckGoesOn(usage, t, steps, i, f);
      } else if step == Confirm(f) {
        ConfirmEndsStory(usage, t, steps, i, f);
      } else {
        OthersLeaveStory(usage, t, steps, i, f);
      }
    }
  }

  /**
   A find answers with what was live when it began, or with the row it has last read, if its fill went through,
   the row was not to be cached, or it was the third read; with a row of a higher version that it found live after
   a lost fill; or, having read no row, with what is live then and otherwise with no row.
   */
  lemma FindsAnswerForAReason(usage: Usage, t: seq<State>, steps: seq<Step>, i: nat, f: nat)
    requires Run(usage, t, steps) && i < |t| && f in t[i].finds && t[i].finds[f].pc.Found?
    ensures Justified(t, steps, i, f, LastRead(steps, i, f), t[i].finds[f].pc.answer)
  {
    StoryHolds(usage, t, steps, i, f);
  }

  /** No find answers with an older version than it has last read itself. */
  lemma AnswersAreNoOlderThanRead(usage: Usage, t: seq<State>, steps: seq<Step>, i: nat, f: nat, k: nat)
    requires Run(usage, t, steps) && i < |t| && f in t[i].finds && t[i].finds[f].pc.Found?
    requires k < i && IsRead(steps[k], f) && forall n :: k < n < i ==> !IsRead(steps[n], f)
    ensures |t[k].history| > 0
    ensures var read := t[k].history[|t[k].history| - 1];
            var answer := t[i].finds[f].pc.answer.row;
            read.Some? ==> answer.Some? && answer.value.version >= read.value.version
  {
    assert k == LastRead(steps, i, f);
    FindsAnswerForAReason(usage, t, steps, i, f);
  }

  /** What a find does when its fill is lost: a newer hit or the third read is the answer, or it looks again. */
  lemma LostFillIsDecided(usage: Usage, t: seq<State>, steps: seq<Step>, i: nat, f: nat, read: Answer)
    requires Run(usage, t, steps) && i < |steps| && steps[i] == Recheck(f)
    requires HasRead(t, steps, LastRead(steps, i, f), f, read)
    ensures f in t[i + 1].finds && read.row.Some?
    ensures var newer := t[i].reg.live.Some? && t[i].reg.live.value.snapshot.version > read.row.value.version;
            && (t[i + 1].finds[f].pc.Found? <==> newer || Reads(steps[..i], f) == 3)
            && (newer ==> IsLive(t, i, t[i + 1].finds[f].pc.answer))
  {
    assert TakesStep(usage, t[i], steps[i], t[i + 1]);
    StoryHolds(usage, t, steps, i, f);
    assert Hit(t[i].finds[f].pc.read) == read;
  }

  /** A fill goes through if and only if nothing has touched the key since the find last looked at it. */
  lemma FillsAreFenced(usage: Usage, t: seq<State>, steps: seq<Step>, i: nat, f: nat)
    requires Run(usage, t, steps) && i < |steps| && steps[i] == TryFill(f)
    ensures f in t[i + 1].finds
    ensures var l := LastLook(steps, i, f);
            l >= 0 && (t[i + 1].finds[f].pc.Found? <==> t[l].reg.token == t[i].reg.token)
  {
    assert TakesStep(usage, t[i], steps[i], t[i + 1]);
    StoryHolds(usage, t, steps, i, f);
  }

  /** A find that begins on a hit answers with it at once; any other has yet to read. */
  lemma HitsAreServedAtOnce(usage: Usage, t: seq<State>, steps: seq<Step>, i: nat, f: nat)
    requires Run(usage, t, steps) && i < |steps| && steps[i] == BeginFind(f)
    ensures f in t[i + 1].finds
    ensures if t[i].reg.live.Some?
            then t[i + 1].finds[f].pc.Found? && IsLive(t, i, t[i + 1].finds[f].pc.answer)
            else !t[i + 1].finds[f].pc.Found?
  {
    assert TakesStep(usage, t[i], steps[i], t[i + 1]);
  }

  // ---- What a save does to the key ----

  predicate IsBegin(step: Step, w: nat) {
    step.BeginSave? && step.w == w
  }

  predicate IsCommit(step: Step, w: nat) {
    step.Commit? && step.w == w
  }

  /** Where save `w` began, before step `i`; -1 if it has not. */
  function BeginOf(steps: seq<Step>, i: nat, w: nat): (k: int)
    requires i <= |steps|
    ensures -1 <= k < i && (k >= 0 ==> IsBegin(steps[k], w))
    ensures forall n :: k < n < i ==> !IsBegin(steps[n], w)
  {
    if i == 0 then -1 else if IsBegin(steps[i - 1], w) then i - 1 else BeginOf(steps, i - 1, w)
  }

  function CommitOf(steps: seq<Step>, i: nat, w: nat): (k: int)
    requires i <= |steps|
    ensures -1 <= k < i && (k >= 0 ==> IsCommit(steps[k], w))
    ensures forall n :: k < n < i ==> !IsCommit(steps[n], w)
  {
    if i == 0 then -1 else if IsCommit(steps[i - 1], w) then i - 1 else CommitOf(steps, i - 1, w)
  }

  /** At step `n` save `w` evicts the key, and its commit, at `place`, is settled. */
  predicate Evicts(t: seq<State>, steps: seq<Step>, n: nat, w: nat, place: nat) {
    && n < |steps| && n + 1 < |t| && steps[n] == Evict(w)
    && t[n].reg.token < t[n + 1].reg.token && t[n + 1].reg.live == None && place in t[n + 1].settled
  }

  /** At step `n` save `w` writes its row through if the key still has the token, and loses otherwise. */
  predicate WritesThrough(t: seq<State>, steps: seq<Step>, n: nat, w: nat, token: nat, saved: Stamped) {
    && n < |steps| && n + 1 < |t| && steps[n] == WriteThrough(w)
    && if t[n].reg.token == token
       then t[n].reg.token < t[n + 1].reg.token && (t[n + 1].reg.live == None || t[n + 1].reg.live == Some(saved))
            && saved.at in t[n + 1].settled
       else t[n + 1].reg == t[n].reg && saved.at in t[n + 1].lost
  }

  /** The save that began at step `b` and committed at step `k` is to write its row through. */
  predicate IsForKey(steps: seq<Step>, b: nat, k: nat)
    requires b < |steps| && k < |steps| && steps[b].BeginSave? && steps[k].Commit?
  {
    steps[b].setKey && steps[k].row.Some?
  }

  /** What it saw in the key when it began is of a higher version than what it commits. */
  predicate HasSeenNewer(t: seq<State>, b: nat, saved: Snapshot)
    requires b < |t|
  {
    t[b].reg.live.Some? && t[b].reg.live.value.snapshot.version > saved.version
  }

  ghost predicate Maintained(t: seq<State>, steps: seq<Step>, i: nat, w: nat, b: nat, k: nat)
    requires i <= |steps| && i < |t| && b < i && k < i && steps[b].BeginSave? && steps[k].Commit?
  {
    var place := |t[k].history|;
    if !IsForKey(steps, b, k) then exists n :: k < n < i && Evicts(t, steps, n, w, place)
    else
      var row := steps[k].row.value;
      if HasSeenNewer(t, b, row) then place in t[k + 1].lost && t[k + 1].reg == t[k].reg
      else exists n :: k < n < i && WritesThrough(t, steps, n, w, t[b].reg.token, Stamped(row, place))
  }

  /** How far save `w` is, told by its steps alone. */
  ghost predicate SaveStory(t: seq<State>, steps: seq<Step>, i: nat, w: nat)
    requires i <= |steps| && i < |t| && w in t[i].saves
  {
    var (b, k) := (BeginOf(steps, i, w), CommitOf(steps, i, w));
    && b >= 0
    && (t[i].saves[w] != Finished ==> (k < 0 <==> t[i].saves[w].Persisting?))
    && match t[i].saves[w]
       case Persisting(observed) => observed == if steps[b].setKey then Some(t[b].reg) else None
       case Evicting(commit) => commit == |t[k].history| && !IsForKey(steps, b, k)
       case WritingThrough(seen, saved) =>
         && IsForKey(steps, b, k) && !HasSeenNewer(t, b, steps[k].row.value)
         && seen == t[b].reg && saved == Stamped(steps[k].row.value, |t[k].history|)
       case Finished => k >= 0 ==> Maintained(t, steps, i, w, b, k)
  }

  lemma OneMoreSaveStep(steps: seq<Step>, i: nat, w: nat)
    requires 0 < i <= |steps|
    ensures BeginOf(steps, i, w) == if IsBegin(steps[i - 1], w) then i - 1 else BeginOf(steps, i - 1, w)
    ensures CommitOf(steps, i, w) == if IsCommit(steps[i - 1], w) then i - 1 else CommitOf(steps, i - 1, w)
  {
  }

  lemma OthersLeaveSaveStory(usage: Usage, t: seq<State>, steps: seq<Step>, i: nat, w: nat)
    requires LedBy(usage, t, steps, i) && !(IsSaveStep(steps[i - 1]) && steps[i - 1].w == w)
    requires w in t[i - 1].saves ==> SaveStory(t, steps, i - 1, w)
    ensures w in t[i].saves ==> SaveStory(t, steps, i, w)
  {
    OneMoreSaveStep(steps, i, w);
    if w in t[i].saves {
      assert w in t[i - 1].saves && t[i].saves[w] == t[i - 1].saves[w];
      if t[i].saves[w].Finished? && CommitOf(steps, i, w) >= 0 {
        MaintainedLater(t, steps, i, w, BeginOf(steps, i, w), CommitOf(steps, i, w));
      }
    }
  }

  predicate IsSaveStep(step: Step) {
    step.BeginSave? || step.FailSave? || step.Commit? || step.Evict? || step.WriteThrough?
  }

  lemma MaintainedLater(t: seq<State>, steps: seq<Step>, i: nat, w: nat, b: nat, k: nat)
    requires 0 < i <= |steps| && i < |t| && b < i - 1 && k < i - 1 && steps[b].BeginSave? && steps[k].Commit?
    requires Maintained(t, steps, i - 1, w, b, k)
    ensures Maintained(t, steps, i, w, b, k)
  {
  }

  lemma CommitGoesOn(usage: Usage, t: seq<State>, steps: seq<Step>, i: nat, w: nat)
    requires LedBy(usage, t, steps, i) && IsCommit(steps[i - 1], w)
    requires w in t[i - 1].saves ==> SaveStory(t, steps, i - 1, w)
    ensures w in t[i].saves && SaveStory(t, steps, i, w)
  {
    OneMoreSaveStep(steps, i, w);
    assert t[i - 1].saves[w].Persisting?;
  }

  lemma BeginOrFailure(usage: Usage, t: seq<State>, steps: seq<Step>, i: nat, w: nat)
    requires LedBy(usage, t, steps, i) && (IsBegin(steps[i - 1], w) || steps[i - 1] == FailSave(w))
    requires w !in t[i - 1].saves ==> CommitOf(steps, i - 1, w) < 0
    requires w in t[i - 1].saves ==> SaveStory(t, steps, i - 1, w)
    ensures w in t[i].saves && SaveStory(t, steps, i, w)
  {
    OneMoreSaveStep(steps, i, w);
  }

  lemma MaintenanceEndsStory(usage: Usage, t: seq<State>, steps: seq<Step>, i: nat, w: nat)
    requires LedBy(usage, t, steps, i) && (steps[i - 1] == Evict(w) || steps[i - 1] == WriteThrough(w))
    requires w in t[i - 1].saves ==> SaveStory(t, steps, i - 1, w)
    ensures w in t[i].saves && SaveStory(t, steps, i, w)
  {
    OneMoreSaveStep(steps, i, w);
    var (b, k) := (BeginOf(steps, i - 1, w), CommitOf(steps, i - 1, w));
    if steps[i - 1] == Evict(w) {
      assert Evicts(t, steps, i - 1, w, |t[k].history|);
    } else {
      assert WritesThrough(t, steps, i - 1, w, t[b].reg.token, Stamped(steps[k].row.value, |t[k].history|));
    }
  }

  /** A run, told by its steps one by one. */
  ghost predicate AllLed(usage: Usage, t: seq<State>, steps: seq<Step>) {
    |t| == |steps| + 1 && Init(t[0]) && forall i :: 0 < i < |t| ==> LedBy(usage, t, steps, i)
  }

  lemma RunIsLed(usage: Usage, t: seq<State>, steps: seq<Step>)
    requires Run(usage, t, steps)
    ensures AllLed(usage, t, steps)
  {
    forall i | 0 < i < |t| ensures LedBy(usage, t, steps, i) {
      RunLeads(usage, t, steps, i);
    }
  }

  lemma {:induction false} SaveStoryHolds(usage: Usage, t: seq<State>, steps: seq<Step>, i: nat, w: nat)
    requires AllLed(usage, t, steps) && i < |t|
    ensures w !in t[i].saves ==> CommitOf(steps, i, w) < 0
    ensures w in t[i].saves ==> SaveStory(t, steps, i, w)
  {
    if i > 0 {
      SaveStoryHolds(usage, t, steps, i - 1, w);
      assert LedBy(usage, t, steps, i);
      SaveStoryGoesOn(usage, t, steps, i, w);
    }
  }

  lemma SaveStoryGoesOn(usage: Usage, t: seq<State>, steps: seq<Step>, i: nat, w: nat)
    requires LedBy(usage, t, steps, i)
    requires w !in t[i - 1].saves ==> CommitOf(steps, i - 1, w) < 0
    requires w in t[i - 1].saves ==> SaveStory(t, steps, i - 1, w)
    ensures w !in t[i].saves ==> CommitOf(steps, i, w) < 0
    ensures w in t[i].saves ==> SaveStory(t, steps, i, w)
  {
    var step := steps[i - 1];
    OneMoreSaveStep(steps, i, w);
    if IsCommit(step, w) {
      CommitGoesOn(usage, t, steps, i, w);
    } else if step == Evict(w) || step == WriteThrough(w) {
      MaintenanceEndsStory(usage, t, steps, i, w);
    } else if IsSaveStep(step) && step.w == w {
      BeginOrFailure(usage, t, steps, i, w);
    } else {
      OthersLeaveSaveStory(usage, t, steps, i, w);
    }
  }

  /**
   A save that has committed and is done has evicted the key, unless it is to write its row through; then it has
   done nothing if it saw a newer value at its beginning, and otherwise written through if the key still had the
   token that it saw then, and lost if not.
   */
  lemma SavesMaintainTheKey(usage: Usage, t: seq<State>, steps: seq<Step>, i: nat, w: nat, k: nat)
    requires Run(usage, t, steps) && i < |t| && w in t[i].saves && t[i].saves[w].Finished?
    requires k < i && IsCommit(steps[k], w)
    ensures var b := BeginOf(steps, i, w); 0 <= b && CommitOf(steps, i, w) == k && Maintained(t, steps, i, w, b, k)
  {
    RunIsLed(usage, t, steps);
    SaveStoryHolds(usage, t, steps, i, w);
    OnlyOneCommit(usage, t, steps, i, w, k);
  }

  /** A save commits at most once. */
  lemma {:induction false} OnlyOneCommit(usage: Usage, t: seq<State>, steps: seq<Step>, i: nat, w: nat, k: nat)
    requires AllLed(usage, t, steps) && i < |t| && k < i && IsCommit(steps[k], w)
    ensures CommitOf(steps, i, w) == k && w in t[i].saves && !t[i].saves[w].Persisting?
    decreases i
  {
    OneMoreSaveStep(steps, i, w);
    if k < i - 1 {
      OnlyOneCommit(usage, t, steps, i - 1, w, k);
    }
    assert LedBy(usage, t, steps, i);
    CommitStays(usage, t[i - 1], steps[i - 1], t[i], w);
  }

  lemma CommitStays(usage: Usage, s: State, step: Step, s': State, w: nat)
    requires |s.history| > 0 && TakesStep(usage, s, step, s')
    ensures IsCommit(step, w) ==> w in s.saves && s.saves[w].Persisting? && w in s'.saves && !s'.saves[w].Persisting?
    ensures w in s.saves && !s.saves[w].Persisting? ==> w in s'.saves && !s'.saves[w].Persisting?
  {
  }

  // ---- What write-through does not give ----

  /** A run that takes exactly these steps ends in `s`. */
  ghost predicate LeadsTo(usage: Usage, steps: seq<Step>, s: State) {
    exists t :: Run(usage, t, steps) && t[|t| - 1] == s
  }

  lemma Onward(usage: Usage, steps: seq<Step>, s: State, step: Step, s': State)
    requires LeadsTo(usage, steps, s) && |s.history| > 0 && TakesStep(usage, s, step, s')
    ensures LeadsTo(usage, steps + [step], s')
  {
    var t :| Run(usage, t, steps) && t[|t| - 1] == s;
    assert Run(usage, t + [s'], steps + [step]);
  }

  const V1 := Snapshot(1, 10)
  const V2 := Snapshot(2, 20)
  const OVERTAKEN := [] + [BeginSave(0, true)] + [BeginFind(0)] + [ReadRow(0, true)] + [Commit(0, Some(V2))]
  const LOST := OVERTAKEN + [TryFill(0)] + [WriteThrough(0)] + [BeginFind(1)]

  /** A save and a find both observe the empty key, and the find reads the row before the save commits. */
  const RACE := State(
    [Some(V1), Some(V2)], Register(0, None),
    map[0 := FindState(Filling(0, Stamped(V1, 0), 0), {})],
    map[0 := WritingThrough(Register(0, None), Stamped(V2, 1))], {}, {})

  /** The find filled first, the save lost its write-through, and a new find has been answered. */
  const STALE := State(
    [Some(V1), Some(V2)], Register(1, Some(Stamped(V1, 0))),
    map[0 := FindState(Found(Answer(Some(V1), 0)), {}), 1 := FindState(Found(Answer(Some(V1), 0)), {})],
    map[0 := Finished], {}, {1})

  const OBSERVED := State(
    [Some(V1)], Register(0, None), map[0 := FindState(Reading(0, 0), {})], map[0 := Persisting(Some(Register(0, None)))],
    {}, {})

  lemma BothObserve(usage: Usage)
    requires usage.writeThrough
    ensures LeadsTo(usage, [] + [BeginSave(0, true)] + [BeginFind(0)], OBSERVED)
  {
    var s0 := State([Some(V1)], Register(0, None), map[], map[], {}, {});
    var s1 := OBSERVED.(finds := map[]);
    assert Run(usage, [s0], []);
    Onward(usage, [], s0, BeginSave(0, true), s1);
    Onward(usage, [] + [BeginSave(0, true)], s1, BeginFind(0), OBSERVED);
  }

  lemma SaveOvertakesFind(usage: Usage)
    requires usage.writeThrough
    ensures LeadsTo(usage, OVERTAKEN, RACE)
  {
    BothObserve(usage);
    var steps := [] + [BeginSave(0, true)] + [BeginFind(0)];
    var s := OBSERVED.(finds := RACE.finds);
    Onward(usage, steps, OBSERVED, ReadRow(0, true), s);
    Onward(usage, steps + [ReadRow(0, true)], s, Commit(0, Some(V2)), RACE);
  }

  /**
   A lost write-through leaves the fill that beat it in place: nothing is in flight any more, nothing has
   expired, the row is at version 2, and a new find is still served version 1.
   */
  lemma LostWriteThroughStaysStale(usage: Usage)
    requires usage.writeThrough
    ensures LeadsTo(usage, LOST, STALE)
  {
    SaveOvertakesFind(usage);
    var s1 := RACE.(finds := map[0 := STALE.finds[0]], reg := STALE.reg);
    var s2 := STALE.(finds := s1.finds);
    Onward(usage, OVERTAKEN, RACE, TryFill(0), s1);
    Onward(usage, OVERTAKEN + [TryFill(0)], s1, WriteThrough(0), s2);
    Onward(usage, OVERTAKEN + [TryFill(0)] + [WriteThrough(0)], s2, BeginFind(1), STALE);
  }

  // ---- Exactly which keys are coherent ----

  predicate IsCoherent(s: State) {
    |s.history| > 0 && (s.reg.live.Some? ==> Row(s) == Some(s.reg.live.value.snapshot))
  }

  ghost predicate QuietIsCoherent(usage: Usage, t: seq<State>, steps: seq<Step>) {
    Run(usage, t, steps) ==> forall i :: 0 <= i < |t| && IsQuiet(t[i]) ==> IsCoherent(t[i])
  }

  /** A key is always coherent once its saves are done if and only if no save writes it through. */
  lemma CoherentIffNoWriteThrough(usage: Usage)
    ensures (forall t, steps :: QuietIsCoherent(usage, t, steps)) <==> !usage.writeThrough
  {
    if usage.writeThrough {
      LostWriteThroughStaysStale(usage);
      var t :| Run(usage, t, LOST) && t[|t| - 1] == STALE;
      assert IsQuiet(t[|t| - 1]) && !IsCoherent(t[|t| - 1]);
      assert !QuietIsCoherent(usage, t, LOST);
    } else {
      forall t: seq<State>, steps: seq<Step> ensures QuietIsCoherent(usage, t, steps) {
        if Run(usage, t, steps) {
          forall i | 0 <= i < |t| && IsQuiet(t[i]) ensures IsCoherent(t[i]) {
            RunKeepsInv(usage, t, steps, i);
            if t[i].reg.live.Some? {
              HitIsCurrent(usage, t, steps, i);
            }
          }
        }
      }
    }
  }
}
