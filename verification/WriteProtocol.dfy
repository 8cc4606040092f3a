/** Clients that load, mutate and save one row concurrently. */
module WriteProtocol {
  import opened Wrappers

  // Any number of aggregates, and any number of saves and deletes of them in flight, are interleaved step by step.
  // The statement of a save is one step, its acknowledgement another.

  /** One domain mutation. The content of a row is the list of mutations that made it. */
  type Mutation = int

  datatype Row = Row(version: nat, content: seq<Mutation>)

  /** What an aggregate carries: its version, its persisted baseline, and its content. */
  datatype Aggregate = Aggregate(version: nat, baseline: nat, content: seq<Mutation>)

  /** A save or delete: what it captured when it was called, and how far it has got. */
  datatype Phase = Issued | Written | Rejected | Acknowledged

  datatype Write = Write(aggregate: nat, deletes: bool, expected: nat, row: Row, phase: Phase)

  datatype State = State(
    history: seq<Row>,       // every content the row has had; the last one is current
    deleted: bool,
    aggregates: map<nat, Aggregate>,
    writes: map<nat, Write>
  )

  datatype Step =
    | Load(a: nat, i: nat)   // from the row, or from a cached snapshot of any age
    | Mutate(a: nat, mutation: Mutation)
    | Issue(w: nat, a: nat, deletes: bool)
    | Execute(w: nat)        // the version-conditioned statement
    | Acknowledge(w: nat)    // of a save that was written

  /** A loaded version is the baseline too. */
  function Hydrated(row: Row): Aggregate {
    Aggregate(row.version, row.version, row.content)
  }

  function Current(s: State): Row
    requires s.history != []
  {
    s.history[|s.history| - 1]
  }

  /** The statement's condition: the row is there and has the captured baseline. */
  predicate Hits(s: State, write: Write)
    requires s.history != []
  {
    !s.deleted && Current(s).version == write.expected
  }

  predicate TakesStep(s: State, step: Step, s': State)
    requires s.history != []
  {
    match step
    case Load(a, i) =>
      a !in s.aggregates && i < |s.history| &&
      s' == s.(aggregates := s.aggregates[a := Hydrated(s.history[i])])
    case Mutate(a, mutation) =>
      a in s.aggregates &&
      var aggregate := s.aggregates[a];
      s' == s.(aggregates := s.aggregates[a :=
        aggregate.(version := aggregate.version + 1, content := aggregate.content + [mutation])])
    case Issue(w, a, deletes) =>
      w !in s.writes && a in s.aggregates &&
      var aggregate := s.aggregates[a];
      s' == s.(writes := s.writes[w :=
        Write(a, deletes, aggregate.baseline, Row(aggregate.version, aggregate.content), Issued)])
    case Execute(w) =>
      w in s.writes && s.writes[w].phase == Issued &&
      var write := s.writes[w];
      if !Hits(s, write) then s' == s.(writes := s.writes[w := write.(phase := Rejected)])
      else if write.deletes then s' == s.(deleted := true, writes := s.writes[w := write.(phase := Written)])
      else s' == s.(history := s.history + [write.row], writes := s.writes[w := write.(phase := Written)])
    case Acknowledge(w) =>
      w in s.writes && s.writes[w].phase == Written && !s.writes[w].deletes && s.writes[w].aggregate in s.aggregates &&
      var (a, version) := (s.writes[w].aggregate, s.writes[w].row.version);
      var aggregate := s.aggregates[a];
      s' == s.(
        aggregates := s.aggregates[a := aggregate.(
          baseline := version, version := if aggregate.version < version then version else aggregate.version)],
        writes := s.writes[w := s.writes[w].(phase := Acknowledged)])
  }

  /** A row with any content and version, and nobody at work. */
  predicate Init(s: State) {
    |s.history| == 1 && !s.deleted && s.aggregates == map[] && s.writes == map[]
  }

  ghost predicate Run(t: seq<State>, steps: seq<Step>) {
    && |t| == |steps| + 1
    && Init(t[0])
    && forall i :: 0 <= i < |steps| ==> t[i].history != [] && TakesStep(t[i], steps[i], t[i + 1])
  }

  // ---- The invariant ----

  /** Contents only grow along the history, by as much as the version does. */
  ghost predicate Chain(history: seq<Row>) {
    forall i, j :: 0 <= i <= j < |history| ==>
      && history[i].content <= history[j].content
      && history[j].version - history[i].version == |history[j].content| - |history[i].content|
  }

  /** `row` continues what the row was at version `baseline`. */
  ghost predicate Continues(history: seq<Row>, baseline: nat, row: Row) {
    exists i :: 0 <= i < |history| && ContinuesFrom(history[i], baseline, row)
  }

  predicate ContinuesFrom(base: Row, baseline: nat, row: Row) {
    && base.version == baseline
    && base.content <= row.content
    && row.version - baseline == |row.content| - |base.content|
  }

  function AsRow(aggregate: Aggregate): Row {
    Row(aggregate.version, aggregate.content)
  }

  ghost predicate WriteSafe(s: State, write: Write) {
    && Continues(s.history, write.expected, write.row)
    && write.aggregate in s.aggregates
    && write.row.content <= s.aggregates[write.aggregate].content
    && write.row.version <= s.aggregates[write.aggregate].version
    && s.aggregates[write.aggregate].version - write.row.version
       == |s.aggregates[write.aggregate].content| - |write.row.content|
    && (write.phase == Written && !write.deletes ==> write.row in s.history)
  }

  ghost predicate Inv(s: State) {
    && s.history != []
    && Chain(s.history)
    && (forall a :: a in s.aggregates ==> Continues(s.history, s.aggregates[a].baseline, AsRow(s.aggregates[a])))
    && (forall w :: w in s.writes ==> WriteSafe(s, s.writes[w]))
  }

  /** Rows of one version have one content, so a write that hits continues the current row. */
  lemma HitContinuesCurrent(history: seq<Row>, baseline: nat, row: Row)
    requires Chain(history) && history != [] && Continues(history, baseline, row)
    requires history[|history| - 1].version == baseline
    ensures ContinuesFrom(history[|history| - 1], baseline, row)
  {
    var i :| 0 <= i < |history| && ContinuesFrom(history[i], baseline, row);
    var last := history[|history| - 1];
    assert history[i].content <= last.content && |history[i].content| == |last.content|;
    assert last.content == last.content[..|history[i].content|] == history[i].content;
  }

  lemma ContinuesLonger(history: seq<Row>, more: Row, baseline: nat, row: Row)
    requires Continues(history, baseline, row)
    ensures Continues(history + [more], baseline, row)
  {
    var i :| 0 <= i < |history| && ContinuesFrom(history[i], baseline, row);
    assert (history + [more])[i] == history[i];
  }

  lemma MutateKeepsInv(s: State, step: Step, s': State)
    requires Inv(s) && step.Mutate? && TakesStep(s, step, s')
    ensures Inv(s')
  {
    var (before, after) := (s.aggregates[step.a], s'.aggregates[step.a]);
    var i :| 0 <= i < |s.history| && ContinuesFrom(s.history[i], before.baseline, AsRow(before));
    assert ContinuesFrom(s'.history[i], after.baseline, AsRow(after));
    forall w | w in s'.writes ensures WriteSafe(s', s'.writes[w]) {
      assert WriteSafe(s, s.writes[w]);
    }
  }

  lemma LoadOrIssueKeepsInv(s: State, step: Step, s': State)
    requires Inv(s) && (step.Load? || step.Issue?) && TakesStep(s, step, s')
    ensures Inv(s')
  {
    if step.Load? {
      assert ContinuesFrom(s.history[step.i], s.history[step.i].version, s.history[step.i]);
    }
    forall w | w in s'.writes ensures WriteSafe(s', s'.writes[w]) {
      assert w in s.writes ==> WriteSafe(s, s.writes[w]);
    }
  }

  lemma CommitKeepsWriteSafe(s: State, s': State, write: Write, more: Row)
    requires WriteSafe(s, write) && s'.history == s.history + [more] && s'.aggregates == s.aggregates
    ensures WriteSafe(s', write)
  {
    ContinuesLonger(s.history, more, write.expected, write.row);
    if write.row in s.history {
      var i :| 0 <= i < |s.history| && s.history[i] == write.row;
      assert s'.history[i] == write.row;
    }
  }

  lemma CommitKeepsInv(s: State, w: nat, s': State)
    requires Inv(s) && TakesStep(s, Execute(w), s') && Hits(s, s.writes[w]) && !s.writes[w].deletes
    ensures Inv(s')
  {
    var row := s.writes[w].row;
    CommitKeepsChain(s, s.writes[w]);
    CommitKeepsAggregates(s, s', row);
    forall v | v in s'.writes ensures WriteSafe(s', s'.writes[v]) {
      CommittedWriteIsSafe(s, w, s', v);
    }
  }

  lemma CommitKeepsChain(s: State, write: Write)
    requires s.history != [] && Chain(s.history) && WriteSafe(s, write) && Current(s).version == write.expected
    ensures Chain(s.history + [write.row])
  {
    HitContinuesCurrent(s.history, write.expected, write.row);
    ChainGrows(s.history, write.row);
  }

  lemma CommitKeepsAggregates(s: State, s': State, row: Row)
    requires forall a :: a in s.aggregates ==> Continues(s.history, s.aggregates[a].baseline, AsRow(s.aggregates[a]))
    requires s'.history == s.history + [row] && s'.aggregates == s.aggregates
    ensures forall a :: a in s'.aggregates ==> Continues(s'.history, s'.aggregates[a].baseline, AsRow(s'.aggregates[a]))
  {
    forall a | a in s'.aggregates
      ensures Continues(s'.history, s'.aggregates[a].baseline, AsRow(s'.aggregates[a]))
    {
      ContinuesLonger(s.history, row, s.aggregates[a].baseline, AsRow(s.aggregates[a]));
    }
  }

  lemma CommittedWriteIsSafe(s: State, w: nat, s': State, v: nat)
    requires s.history != [] && w in s.writes && v in s.writes && WriteSafe(s, s.writes[v])
    requires s'.history == s.history + [s.writes[w].row] && s'.aggregates == s.aggregates
    requires v in s'.writes && s'.writes[v] == (if v == w then s.writes[w].(phase := Written) else s.writes[v])
    ensures WriteSafe(s', s'.writes[v])
  {
    var row := s.writes[w].row;
    CommitKeepsWriteSafe(s, s', s.writes[v], row);
    assert s'.history[|s.history|] == row;
  }

  lemma ExecuteKeepsInv(s: State, step: Step, s': State)
    requires Inv(s) && step.Execute? && TakesStep(s, step, s')
    ensures Inv(s')
  {
    var write := s.writes[step.w];
    if Hits(s, write) && !write.deletes {
      CommitKeepsInv(s, step.w, s');
    } else {
      QuietExecuteKeepsInv(s, step.w, s');
    }
  }

  /** A delete, or a statement that hits no row, leaves the history alone. */
  lemma QuietExecuteKeepsInv(s: State, w: nat, s': State)
    requires Inv(s) && TakesStep(s, Execute(w), s') && !(Hits(s, s.writes[w]) && !s.writes[w].deletes)
    ensures Inv(s')
  {
    assert s'.history == s.history && s'.aggregates == s.aggregates;
    forall v | v in s'.writes ensures WriteSafe(s', s'.writes[v]) {
      PhaseKeepsWriteSafe(s, s', s.writes[v], s'.writes[v].phase);
    }
  }

  lemma PhaseKeepsWriteSafe(s: State, s': State, write: Write, phase: Phase)
    requires WriteSafe(s, write) && s'.history == s.history && s'.aggregates == s.aggregates
    requires phase == write.phase || phase != Written || write.deletes
    ensures WriteSafe(s', write.(phase := phase))
  {
  }

  lemma ChainGrows(history: seq<Row>, row: Row)
    requires Chain(history) && history != []
    requires ContinuesFrom(history[|history| - 1], history[|history| - 1].version, row)
    ensures Chain(history + [row])
  {
    var last := |history| - 1;
    forall i | 0 <= i <= last
      ensures history[i].content <= row.content
      ensures row.version - history[i].version == |row.content| - |history[i].content|
    {
      assert history[i].content <= history[last].content;
    }
  }

  lemma AcknowledgeKeepsInv(s: State, step: Step, s': State)
    requires Inv(s) && step.Acknowledge? && TakesStep(s, step, s')
    ensures Inv(s')
  {
    var a := s.writes[step.w].aggregate;
    AcknowledgedContinues(s, step, s');
    forall b | b in s'.aggregates && b != a
      ensures Continues(s'.history, s'.aggregates[b].baseline, AsRow(s'.aggregates[b]))
    {
      assert s'.aggregates[b] == s.aggregates[b];
    }
    forall w | w in s'.writes ensures WriteSafe(s', s'.writes[w]) {
      AcknowledgeKeepsWriteSafe(s, step, s', w);
    }
  }

  lemma AcknowledgeKeepsWriteSafe(s: State, step: Step, s': State, w: nat)
    requires Inv(s) && step.Acknowledge? && TakesStep(s, step, s') && w in s'.writes
    ensures WriteSafe(s', s'.writes[w])
  {
    var a := s.writes[step.w].aggregate;
    assert WriteSafe(s, s.writes[w]) && WriteSafe(s, s.writes[step.w]);
    assert s'.aggregates[a].version == s.aggregates[a].version;
    SameVersionKeepsWriteSafe(s, s', s.writes[w], s'.writes[w].phase);
  }

  /** Of the aggregates, a write's safety depends on version and content only. */
  lemma SameVersionKeepsWriteSafe(s: State, s': State, write: Write, phase: Phase)
    requires WriteSafe(s, write) && s'.history == s.history && (phase == write.phase || phase != Written)
    requires var a := write.aggregate;
             a in s'.aggregates && s'.aggregates[a].version == s.aggregates[a].version
             && s'.aggregates[a].content == s.aggregates[a].content
    ensures WriteSafe(s', write.(phase := phase))
  {
  }

  /** The new baseline is a version that the row has had, and what the aggregate holds goes on from it. */
  lemma AcknowledgedContinues(s: State, step: Step, s': State)
    requires Inv(s) && step.Acknowledge? && TakesStep(s, step, s')
    ensures var a := s.writes[step.w].aggregate;
            Continues(s'.history, s'.aggregates[a].baseline, AsRow(s'.aggregates[a]))
  {
    var write := s.writes[step.w];
    var after := s'.aggregates[write.aggregate];
    assert WriteSafe(s, write);
    var i :| 0 <= i < |s.history| && s.history[i] == write.row;
    assert ContinuesFrom(s'.history[i], after.baseline, AsRow(after));
  }

  /** What every reachable state satisfies. */
  lemma {:induction false} RunKeepsInv(t: seq<State>, steps: seq<Step>, i: nat)
    requires Run(t, steps) && i < |t|
    ensures Inv(t[i])
  {
    if i > 0 {
      RunKeepsInv(t, steps, i - 1);
      var (s, step, s') := (t[i - 1], steps[i - 1], t[i - 1 + 1]);
      assert TakesStep(s, step, s');
      match step
      case Mutate(_, _) => MutateKeepsInv(s, step, s');
      case Execute(_) => ExecuteKeepsInv(s, step, s');
      case Acknowledge(_) => AcknowledgeKeepsInv(s, step, s');
      case _ => LoadOrIssueKeepsInv(s, step, s');
    }
  }

  // ---- What holds over runs ----

  lemma {:induction false} RunsGrow(t: seq<State>, steps: seq<Step>, i: nat, j: nat)
    requires Run(t, steps) && i <= j < |t|
    ensures t[i].history <= t[j].history
    ensures t[i].deleted ==> t[j].deleted && t[j].history == t[i].history
    decreases j
  {
    if i < j {
      RunsGrow(t, steps, i, j - 1);
      assert TakesStep(t[j - 1], steps[j - 1], t[j - 1 + 1]);
    }
  }

  /**
   No lost update: in every interleaving, every mutation that a committed save put into the row is still
   there, in its place, in the row of every later state; and the version counts the mutations.
   */
  lemma NoLostUpdate(t: seq<State>, steps: seq<Step>, i: nat, j: nat)
    requires Run(t, steps) && i <= j < |t|
    ensures t[i].history != [] && t[j].history != []
    ensures Current(t[i]).content <= Current(t[j]).content
    ensures Current(t[j]).version - Current(t[i]).version
         == |Current(t[j]).content| - |Current(t[i]).content|
  {
    RunKeepsInv(t, steps, i);
    RunKeepsInv(t, steps, j);
    RunsGrow(t, steps, i, j);
    var last := |t[i].history| - 1;
    assert t[j].history[last] == t[i].history[last];
  }

  /**
   A save that commits, or a delete, replaces exactly the row its aggregate last loaded or wrote: the row
   has the captured baseline for its version, and the captured content continues its content. A mutated
   save raises the version by the number of its mutations; an unmutated one leaves the row as it is.
   */
  lemma CommitReplacesWhatWasSeen(t: seq<State>, steps: seq<Step>, i: nat)
    requires Run(t, steps) && i < |steps| && steps[i].Execute?
    requires t[i + 1].writes[steps[i].w].phase == Written
    ensures
      var write := t[i].writes[steps[i].w];
      && t[i].history != [] && !t[i].deleted
      && ContinuesFrom(Current(t[i]), write.expected, write.row)
      && (!write.deletes ==> t[i + 1].history == t[i].history + [write.row])
      && (write.deletes ==> t[i + 1].deleted)
      && (write.row.version == Current(t[i]).version <==> write.row == Current(t[i]))
  {
    RunKeepsInv(t, steps, i);
    var write := t[i].writes[steps[i].w];
    assert TakesStep(t[i], steps[i], t[i + 1]) && WriteSafe(t[i], write);
    HitContinuesCurrent(t[i].history, write.expected, write.row);
    if |write.row.content| == |Current(t[i]).content| {
      assert write.row.content == write.row.content[..|Current(t[i]).content|] == Current(t[i]).content;
    }
  }

  /**
   A rejected write changes neither the row nor any baseline, and the reason is one of two: the row is
   gone, or its version has diverged from the baseline.
   */
  lemma RejectionLeavesEverything(t: seq<State>, steps: seq<Step>, i: nat)
    requires Run(t, steps) && i < |steps| && steps[i].Execute?
    requires t[i + 1].writes[steps[i].w].phase == Rejected
    ensures t[i].history != []
    ensures t[i + 1].history == t[i].history && t[i + 1].deleted == t[i].deleted
    ensures t[i + 1].aggregates == t[i].aggregates
    ensures t[i].deleted || Current(t[i]).version != t[i].writes[steps[i].w].expected
  {
    assert TakesStep(t[i], steps[i], t[i + 1]);
  }

  /** A baseline is always a version the row has had, and the aggregate continues that row. */
  lemma BaselinesAreRows(t: seq<State>, steps: seq<Step>, i: nat, a: nat)
    requires Run(t, steps) && i < |t| && a in t[i].aggregates
    ensures Continues(t[i].history, t[i].aggregates[a].baseline, AsRow(t[i].aggregates[a]))
  {
    RunKeepsInv(t, steps, i);
  }

  /** After a delete no write goes through any more. */
  lemma NothingFollowsADelete(t: seq<State>, steps: seq<Step>, i: nat, j: nat)
    requires Run(t, steps) && i <= j < |steps| && t[i].deleted && steps[j].Execute?
    ensures t[j + 1].writes[steps[j].w].phase == Rejected && t[j + 1].history == t[i].history
  {
    RunsGrow(t, steps, i, j);
    assert TakesStep(t[j], steps[j], t[j + 1]);
  }

  /** Of two saves of mutated aggregates that start from the same row, only one can commit. */
  lemma OnlyOneOfTwoRivals(t: seq<State>, steps: seq<Step>, i: nat, j: nat)
    requires Run(t, steps) && i < j < |steps| && steps[i].Execute? && steps[j].Execute?
    requires steps[i].w in t[i].writes && steps[j].w in t[j].writes
    requires t[i + 1].writes[steps[i].w].phase == Written && !t[i].writes[steps[i].w].deletes
    requires t[i].writes[steps[i].w].row.version != t[i].writes[steps[i].w].expected
    requires t[j].writes[steps[j].w].expected == t[i].writes[steps[i].w].expected
    ensures t[j + 1].writes[steps[j].w].phase == Rejected
  {
    CommitReplacesWhatWasSeen(t, steps, i);
    NoLostUpdate(t, steps, i + 1, j);
    assert TakesStep(t[j], steps[j], t[j + 1]);
  }
}
