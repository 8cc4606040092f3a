/**
 The compare-and-set loops of `MikroOrmCache` statement by statement: any number of invalidations, writes and
 fills of one key whose row is there, interleaved with each other and with the passing of time.
 */
module MikroOrmStatements {
  import opened Wrappers
  import opened Registers
  import D = MikroOrmCaches

  datatype Operation<!V> =
    | Invalidate
    | Set(value: V, expiresAt: Option<int>, newer: Option<(V, V) -> bool>)
    | TryFill(observed: nat, value: V, expiresAt: Option<int>)

  datatype Outcome = Committed | Skipped | Lost | Exhausted

  /** Where an operation is: about to read, or about to send its conditional update. */
  datatype Progress<+V> =
    | Reading(attempt: nat)
    | Updating(attempt: nat, seen: D.Row<V>)
    | Filling
    | Done(outcome: Outcome)

  /** `since` is the revision when the operation began. */
  datatype Process<!V> = Process(operation: Operation<V>, progress: Progress<V>, since: nat)

  datatype State<!V> = State(row: D.Row<V>, now: int, processes: map<nat, Process<V>>)

  datatype Action<!V> =
    | Begin(p: nat, operation: Operation<V>)
    | Read(p: nat)
    | Update(p: nat)
    | Tick(later: int)

  function Move<V>(s: State<V>, p: nat, progress: Progress<V>): State<V>
    requires p in s.processes
  {
    s.(processes := s.processes[p := s.processes[p].(progress := progress)])
  }

  /** The guard of `set`: a live value is there and it is newer. */
  predicate IsOutranked<V>(operation: Operation<V>, row: D.Row<V>, now: int) {
    operation.Set? && operation.newer.Some? && row.value.Some? && !D.HasLapsed(row, now) &&
    operation.newer.value(row.value.value, operation.value)
  }

  /** What a hit leaves in the row. */
  function Replacement<V>(operation: Operation<V>, revision: nat): D.Row<V> {
    match operation
    case Invalidate => D.Row(None, None, revision + 1)
    case Set(value, expiresAt, _) => D.Row(Some(value), expiresAt, revision + 1)
    case TryFill(_, value, expiresAt) => D.Row(Some(value), expiresAt, revision + 1)
  }

  /** The update of a process would hit the row. */
  predicate Hits<V>(s: State<V>, p: nat) {
    p in s.processes &&
    match s.processes[p].progress
    case Updating(_, seen) => s.row.revision == seen.revision
    case Filling => s.processes[p].operation.TryFill? && s.row.revision == s.processes[p].operation.observed
    case _ => false
  }

  ghost predicate TakesStep<V>(s: State<V>, action: Action<V>, s': State<V>) {
    match action
    case Begin(p, operation) =>
      // a fill that observed a revision sends its update at once
      p !in s.processes &&
      var start := if operation.TryFill? && operation.observed != 0 then Filling else Reading(0);
      s' == s.(processes := s.processes[p := Process(operation, start, s.row.revision)])
    case Read(p) =>
      p in s.processes && s.processes[p].progress.Reading? &&
      var (operation, attempt) := (s.processes[p].operation, s.processes[p].progress.attempt);
      var next :=
        if operation.TryFill? then (if s.row.revision == 0 then Filling else Done(Lost))
        else if IsOutranked(operation, s.row, s.now) then Done(Skipped)
        else Updating(attempt, s.row);
      s' == Move(s, p, next)
    case Update(p) =>
      p in s.processes && (s.processes[p].progress.Updating? || s.processes[p].progress.Filling?) &&
      var (operation, progress) := (s.processes[p].operation, s.processes[p].progress);
      var next :=
        if Hits(s, p) then Done(Committed)
        else if progress.Filling? then Done(Lost)
        else if progress.attempt + 1 == D.MAX_CAS_ATTEMPTS then Done(Exhausted)
        else Reading(progress.attempt + 1);
      s' == Move(s, p, next).(row := if Hits(s, p) then Replacement(operation, s.row.revision) else s.row)
    case Tick(later) =>
      s.now <= later && s' == s.(now := later)
  }

  ghost predicate Trace<V>(t: seq<State<V>>, actions: seq<Action<V>>) {
    && |t| == |actions| + 1
    && t[0].processes == map[]
    && forall i :: 0 <= i < |actions| ==> TakesStep(t[i], actions[i], t[i + 1])
  }

  // ---- Refinement of the register ----

  function Shown<V>(s: State<V>): Register<V> {
    Register(s.row.revision, if s.row.value.Some? && !D.HasLapsed(s.row, s.now) then s.row.value else None)
  }

  lemma ShownIsView<V>(table: D.Table<V>, key: D.Key, s: State<V>)
    requires key in table && table[key] == s.row
    ensures Shown(s) == D.View(table, key, s.now)
  {
  }

  function OpOf<V>(s: State<V>, action: Action<V>): Op<V> {
    if !(action.Update? && Hits(s, action.p)) then Idle
    else match s.processes[action.p].operation
      case Invalidate => Forget
      case Set(value, _, _) => Write(value)
      case TryFill(observed, value, _) => Fill(observed, value)
  }

  /** What is known of a process: how far it got costs as many commits of others. */
  ghost predicate IsSafe<V>(s: State<V>, process: Process<V>) {
    && process.since <= s.row.revision
    && match process.progress
       case Reading(attempt) =>
         && attempt < D.MAX_CAS_ATTEMPTS && process.since + attempt <= s.row.revision
         && (process.operation.TryFill? ==> process.operation.observed == 0)
       case Updating(attempt, seen) =>
         && !process.operation.TryFill? && attempt < D.MAX_CAS_ATTEMPTS
         && process.since + attempt <= seen.revision <= s.row.revision
         && (seen.revision == s.row.revision ==> seen == s.row)
         && !IsOutranked(process.operation, seen, s.now)
       case Filling => process.operation.TryFill?
       case Done(outcome) => outcome == Exhausted ==> process.since + D.MAX_CAS_ATTEMPTS <= s.row.revision
  }

  ghost predicate Inv<V>(s: State<V>) {
    forall p :: p in s.processes ==> IsSafe(s, s.processes[p])
  }

  lemma OthersStaySafe<V>(s: State<V>, action: Action<V>, s': State<V>, process: Process<V>)
    requires IsSafe(s, process) && TakesStep(s, action, s')
    ensures IsSafe(s', process)
  {
  }

  lemma StepKeepsInv<V>(s: State<V>, action: Action<V>, s': State<V>)
    requires Inv(s) && TakesStep(s, action, s')
    ensures Inv(s')
  {
    forall p | p in s'.processes ensures IsSafe(s', s'.processes[p]) {
      if p in s.processes {
        OthersStaySafe(s, action, s', s.processes[p]);
      }
    }
  }

  lemma {:induction false} TraceKeepsInv<V>(t: seq<State<V>>, actions: seq<Action<V>>, i: nat)
    requires Trace(t, actions) && i < |t|
    ensures Inv(t[i])
  {
    if i > 0 {
      TraceKeepsInv(t, actions, i - 1);
      StepKeepsInv(t[i - 1], actions[i - 1], t[i - 1 + 1]);
    }
  }

  /** Every statement is a step of the register: the update that hits is the operation, all else is idle. */
  lemma StatementActs<V>(s: State<V>, action: Action<V>, s': State<V>)
    requires Inv(s) && TakesStep(s, action, s')
    ensures Step(Shown(s), OpOf(s, action), Shown(s'))
  {
    if action.Update? && Hits(s, action.p) {
      assert IsSafe(s, s.processes[action.p]);
    }
  }

  function Times<V>(t: seq<State<V>>): seq<int> {
    seq(|t|, i requires 0 <= i < |t| => t[i].now)
  }

  /** The row is that of `key`; the other rows of the table may change in any way. */
  ghost predicate AreRowsOf<V>(tables: seq<D.Table<V>>, key: D.Key, t: seq<State<V>>) {
    |tables| == |t| && forall i :: 0 <= i < |t| ==> key in tables[i] && tables[i][key] == t[i].row
  }

  function Ops<V>(t: seq<State<V>>, actions: seq<Action<V>>): seq<Op<V>>
    requires |t| == |actions| + 1
  {
    seq(|actions|, i requires 0 <= i < |actions| => OpOf(t[i], actions[i]))
  }

  /** Any interleaving of the loops' statements takes the key through a run of its register. */
  lemma StatementsRefineRegister<V>(tables: seq<D.Table<V>>, key: D.Key, t: seq<State<V>>, actions: seq<Action<V>>)
    requires Trace(t, actions) && AreRowsOf(tables, key, t)
    ensures Run(D.Views(tables, Times(t), key), Ops(t, actions))
  {
    var views := D.Views(tables, Times(t), key);
    forall i | 0 <= i < |actions| ensures Step(views[i], OpOf(t[i], actions[i]), views[i + 1]) {
      TraceKeepsInv(t, actions, i);
      StatementActs(t[i], actions[i], t[i + 1]);
      ShownIsView(tables[i], key, t[i]);
      ShownIsView(tables[i + 1], key, t[i + 1]);
    }
  }

  /** The operation is a guarded write, and the row has a live value that its guard calls newer. */
  predicate HoldsNewer<V>(operation: Operation<V>, row: D.Row<V>, now: int) {
    && operation.Set? && operation.newer.Some? && row.value.Some?
    && (row.expiresAt.Some? ==> row.expiresAt.value >= now)
    && operation.newer.value(row.value.value, operation.value)
  }

  /** The next revision has what the operation brings: nothing, or its value with its expiry. */
  ghost predicate IsWritten<V>(operation: Operation<V>, row: D.Row<V>, row': D.Row<V>) {
    && row'.revision == row.revision + 1
    && match operation
       case Invalidate => row'.value == None && row'.expiresAt == None
       case Set(value, expiresAt, _) => row'.value == Some(value) && row'.expiresAt == expiresAt
       case TryFill(_, value, expiresAt) => row'.value == Some(value) && row'.expiresAt == expiresAt
  }

  /** A fill commits exactly when the revision it observed is current at its update; a write never over a newer value. */
  lemma CommitsAreJustified<V>(t: seq<State<V>>, actions: seq<Action<V>>, i: nat)
    requires Trace(t, actions) && i < |actions| && actions[i].Update?
    ensures actions[i].p in t[i].processes && actions[i].p in t[i + 1].processes
    ensures var (operation, outcome) := (t[i].processes[actions[i].p].operation, t[i + 1].processes[actions[i].p].progress);
            && (operation.TryFill? ==>
                  outcome == (if operation.observed == t[i].row.revision then Done(Committed) else Done(Lost)))
            && (outcome == Done(Committed) ==>
                  !HoldsNewer(operation, t[i].row, t[i].now) && IsWritten(operation, t[i].row, t[i + 1].row))
            && (outcome != Done(Committed) ==> t[i + 1].row == t[i].row)
            && (!operation.TryFill? ==> outcome == Done(Committed) || outcome == Done(Exhausted) || outcome.Reading?)
  {
    TraceKeepsInv(t, actions, i);
    assert TakesStep(t[i], actions[i], t[i + 1]);
    assert IsSafe(t[i], t[i].processes[actions[i].p]);
  }

  /** An operation gives up without an update exactly when it is a write that is outranked, or a fill that is late. */
  lemma SkipsAreJustified<V>(t: seq<State<V>>, actions: seq<Action<V>>, i: nat)
    requires Trace(t, actions) && i < |actions| && actions[i].Read?
    ensures actions[i].p in t[i].processes && actions[i].p in t[i + 1].processes && t[i + 1].row == t[i].row
    ensures var (operation, outcome) := (t[i].processes[actions[i].p].operation, t[i + 1].processes[actions[i].p].progress);
            && (outcome == Done(Skipped) <==> HoldsNewer(operation, t[i].row, t[i].now))
            && (outcome == Done(Lost) <==> operation.TryFill? && t[i].row.revision != operation.observed)
            && (outcome.Done? ==> outcome == Done(Skipped) || outcome == Done(Lost))
  {
    TraceKeepsInv(t, actions, i);
    assert TakesStep(t[i], actions[i], t[i + 1]);
    assert IsSafe(t[i], t[i].processes[actions[i].p]);
  }

  // ---- When a loop runs out ----

  /** How many updates of processes other than `p` hit the row in `actions[i..j]`. */
  function ForeignCommits<V>(t: seq<State<V>>, actions: seq<Action<V>>, p: nat, i: nat, j: nat): nat
    requires |t| == |actions| + 1 && i <= j <= |actions|
    decreases j
  {
    if i == j then 0
    else ForeignCommits(t, actions, p, i, j - 1) +
         if actions[j - 1].Update? && actions[j - 1].p != p && Hits(t[j - 1], actions[j - 1].p) then 1 else 0
  }

  /** As long as `p` has not committed, every new revision is a commit of somebody else. */
  lemma {:induction false} RevisionsAreForeign<V>(t: seq<State<V>>, actions: seq<Action<V>>, p: nat, i: nat, j: nat)
    requires Trace(t, actions) && i < j <= |actions| && actions[i].Begin? && actions[i].p == p
    ensures p in t[j].processes && t[j].processes[p].since == t[i].row.revision
    ensures t[j].processes[p].progress == Done(Committed) ||
            t[j].row.revision == t[i].row.revision + ForeignCommits(t, actions, p, i, j)
    decreases j
  {
    assert TakesStep(t[j - 1], actions[j - 1], t[j - 1 + 1]);
    if i + 1 < j {
      RevisionsAreForeign(t, actions, p, i, j - 1);
    } else {
      assert ForeignCommits(t, actions, p, i, i) == 0;
    }
  }

  /** A loop gives up only after as many commits of others as it has attempts. */
  lemma ExhaustionTakesForeignCommits<V>(t: seq<State<V>>, actions: seq<Action<V>>, p: nat, i: nat, j: nat)
    requires Trace(t, actions) && i < j <= |actions| && actions[i].Begin? && actions[i].p == p
    requires p in t[j].processes && t[j].processes[p].progress == Done(Exhausted)
    ensures ForeignCommits(t, actions, p, i, j) >= 16
  {
    TraceKeepsInv(t, actions, j);
    RevisionsAreForeign(t, actions, p, i, j);
    assert IsSafe(t[j], t[j].processes[p]);
  }
}
