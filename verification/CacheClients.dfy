/** The decorators over the adapters: every run of both together is a run of `CacheProtocol`. */
module CacheClients {
  import opened Wrappers
  import opened Registers
  import opened CacheProtocol
  import M = MemoryCaches
  import D = MikroOrmCaches

  // The finds and saves of `CacheProtocol` call a `MemoryCache` or a `MikroOrmCache`, while time passes and
  // anybody calls the cache about other keys. What is proved of the protocol over the key's register holds here.

  type Key = string
  type Call = M.Call<Stamped>

  /** The two adapters. */
  datatype Cache = InMemory(mem: M.Mem<Stamped>, maxEntries: int) | InTable(table: D.Table<Stamped>)

  ghost predicate IsSound(c: Cache) {
    c.InMemory? ==> M.Consistent(c.mem) && |c.mem.order| <= M.Capacity(c.maxEntries)
  }

  /** What `readState` shows of a key. */
  function Shows(c: Cache, key: Key, now: int): Register<Stamped> {
    match c
    case InMemory(mem, _) => M.View(mem, key, now)
    case InTable(table) => D.View(table, key, now)
  }

  /** What a call leaves behind. `MikroOrmCache` has no `clear`. */
  function Called(c: Cache, call: Call, now: int): Cache {
    match c
    case InMemory(mem, maxEntries) => InMemory(M.Apply(mem, maxEntries, call, now), maxEntries)
    case InTable(table) => if call.ClearCall? then c else InTable(D.Apply(table, InTableCall(call, now), now))
  }

  function InTableCall(call: Call, now: int): D.Call<Stamped>
    requires !call.ClearCall?
  {
    match call
    case ReadCall(key) => D.ReadCall(key)
    case GetCall(key) => D.ReadCall(key)
    case InvalidateCall(key) => D.InvalidateCall(key)
    case FillCall(key, observed, value, ttl) => D.FillCall(key, observed, value, M.ExpiryOf(ttl, now))
    case SetCall(key, value, ttl, newer) => D.SetCall(key, value, M.ExpiryOf(ttl, now), newer)
  }

  // ---- What a call does to one key ----

  lemma CallKeepsSound(c: Cache, call: Call, now: int)
    requires IsSound(c)
    ensures IsSound(Called(c, call, now))
  {
    if c.InMemory? {
      M.CallKeepsConsistent(c.mem, c.maxEntries, call, now);
    }
  }

  /** An invalidation forgets the key; a fill goes through exactly if its token is the current one. */
  lemma OwnCallActs(c: Cache, call: Call, key: Key, now: int)
    requires IsSound(c) && (call == M.InvalidateCall(key) || (call.FillCall? && call.key == key))
    ensures var op := if call.FillCall? then Fill(call.observed, call.value) else Forget;
            Act(Shows(c, key, now), op, Shows(Called(c, call, now), key, now))
  {
    match c
    case InMemory(mem, maxEntries) => M.CallActs(mem, maxEntries, call, key, now);
    case InTable(table) => D.CallActs(table, InTableCall(call, now), key, now);
  }

  /** Calls that do not write `key`: any on other keys, and reads, invalidations and clearings. */
  predicate IsForeign(call: Call, key: Key) {
    match call
    case FillCall(k, _, _, _) => k != key
    case SetCall(k, _, _, _) => k != key
    case _ => true
  }

  /** They leave the key as it is or make it forgotten, by invalidation, eviction or clearing. */
  lemma ForeignCallActs(c: Cache, call: Call, key: Key, now: int)
    requires IsSound(c) && IsForeign(call, key)
    ensures var (r, r') := (Shows(c, key, now), Shows(Called(c, call, now), key, now));
            r' == r || Act(r, Forget, r')
  {
    match c
    case InMemory(mem, maxEntries) => M.CallActs(mem, maxEntries, call, key, now);
    case InTable(table) =>
      if !call.ClearCall? {
        D.CallActs(table, InTableCall(call, now), key, now);
      }
  }

  /** What a fill leaves is shown for its lifetime, and no longer, as long as the entry is there. */
  lemma FillsAreShown(c: Cache, key: Key, value: Stamped, ttl: int, now: int, later: int)
    requires IsSound(c) && now <= later
    ensures var c' := Called(c, M.FillCall(key, Shows(c, key, now).token, value, ttl), now);
            (c'.InMemory? ==> key in c'.mem.store) ==>
              Shows(c', key, later).live == if ttl > 0 && later - now > ttl then None else Some(value)
  {
    match c
    case InMemory(mem, maxEntries) =>
      if key in M.Written(mem, maxEntries, key, value, ttl, now).store {
        M.WrittenIsServed(mem, maxEntries, key, value, Some(ttl), 0, now);
      }
    case InTable(table) =>
  }

  // ---- The joint system ----

  datatype Joint = Joint(
    cache: Cache, now: int,
    history: seq<Option<Snapshot>>, finds: map<nat, FindState>, saves: map<nat, Save>, settled: set<nat>, lost: set<nat>
  )

  /** What the protocol sees: the key's register in place of the cache. */
  function Seen(j: Joint, key: Key): State {
    State(j.history, Shows(j.cache, key, j.now), j.finds, j.saves, j.settled, j.lost)
  }

  function With(s: State, cache: Cache, now: int): Joint {
    Joint(cache, now, s.history, s.finds, s.saves, s.settled, s.lost)
  }

  datatype JointStep =
    | Tick(later: int)
    | Foreign(call: Call)
    | Client(step: Step, ttl: int)   // a find or save makes its next call; `ttl` is the lifetime of what it writes

  /** The steps of finds and saves, with their calls on the cache; the rest make none or only `readState`. */
  predicate ClientStep(usage: Usage, key: Key, j: Joint, step: Step, ttl: int, j': Joint)
    requires |j.history| > 0
  {
    var (s, token) := (Seen(j, key), Shows(j.cache, key, j.now).token);
    match step
    case TryFill(f) =>
      f in j.finds && j.finds[f].pc.Filling? &&
      var pc := j.finds[f].pc;
      var next := if pc.observed == token then Found(Hit(pc.read)) else Rechecking(pc.read, pc.attempt);
      j' == With(SetFind(s, f, next), Called(j.cache, M.FillCall(key, pc.observed, pc.read, ttl), j.now), j.now)
    case Evict(w) =>
      w in j.saves && j.saves[w].Evicting? &&
      j' == With(SetSave(s, w, Finished).(settled := s.settled + {j.saves[w].commit}),
                 Called(j.cache, M.InvalidateCall(key), j.now), j.now)
    case WriteThrough(w) =>
      w in j.saves && j.saves[w].WritingThrough? &&
      var (seen, saved) := (j.saves[w].seen, j.saves[w].saved);
      var after := if seen.token == token then SetSave(s, w, Finished).(settled := s.settled + {saved.at})
                   else SetSave(s, w, Finished).(lost := s.lost + {saved.at});
      j' == With(after, Called(j.cache, M.FillCall(key, seen.token, saved, ttl), j.now), j.now)
    case Lapse => false
    case Drop => false
    case Pass => false
    case _ => j'.cache == j.cache && j'.now == j.now && TakesStep(usage, s, step, Seen(j', key))
  }

  predicate JointTakes(usage: Usage, key: Key, j: Joint, step: JointStep, j': Joint) {
    match step
    case Tick(later) => j.now <= later && j' == j.(now := later)
    case Foreign(call) => IsForeign(call, key) && j' == j.(cache := Called(j.cache, call, j.now))
    case Client(client, ttl) => |j.history| > 0 && ClientStep(usage, key, j, client, ttl, j')
  }

  /** Any cache that does not hold the key, at any time. */
  ghost predicate JointRun(usage: Usage, key: Key, t: seq<Joint>, steps: seq<JointStep>) {
    && |t| == |steps| + 1
    && IsSound(t[0].cache) && Init(Seen(t[0], key))
    && forall i :: 0 <= i < |steps| ==> JointTakes(usage, key, t[i], steps[i], t[i + 1])
  }

  // ---- Every joint run is a run of the protocol ----

  function ProtocolStep(key: Key, j: Joint, step: JointStep, j': Joint): Step {
    match step
    case Client(client, _) => client
    case Tick(_) => if Seen(j', key) == Seen(j, key) then Pass else Lapse
    case Foreign(_) => if Seen(j', key) == Seen(j, key) then Pass else Drop
  }

  lemma ClientStepIsStep(usage: Usage, key: Key, j: Joint, step: Step, ttl: int, j': Joint)
    requires IsSound(j.cache) && |j.history| > 0 && ClientStep(usage, key, j, step, ttl, j')
    ensures IsSound(j'.cache) && TakesStep(usage, Seen(j, key), step, Seen(j', key))
  {
    match step
    case TryFill(f) =>
      var call := M.FillCall(key, j.finds[f].pc.observed, j.finds[f].pc.read, ttl);
      OwnCallActs(j.cache, call, key, j.now);
      CallKeepsSound(j.cache, call, j.now);
      assert FindStep(Seen(j, key), step, Seen(j', key));
    case Evict(w) =>
      OwnCallActs(j.cache, M.InvalidateCall(key), key, j.now);
      CallKeepsSound(j.cache, M.InvalidateCall(key), j.now);
      assert SaveStep(usage, Seen(j, key), step, Seen(j', key));
    case WriteThrough(w) =>
      var call := M.FillCall(key, j.saves[w].seen.token, j.saves[w].saved, ttl);
      OwnCallActs(j.cache, call, key, j.now);
      CallKeepsSound(j.cache, call, j.now);
      assert SaveStep(usage, Seen(j, key), step, Seen(j', key));
    case _ =>
  }

  lemma JointStepIsStep(usage: Usage, key: Key, j: Joint, step: JointStep, j': Joint)
    requires IsSound(j.cache) && |j.history| > 0 && JointTakes(usage, key, j, step, j')
    ensures IsSound(j'.cache) && |j'.history| > 0
    ensures TakesStep(usage, Seen(j, key), ProtocolStep(key, j, step, j'), Seen(j', key))
  {
    match step
    case Tick(_) =>
    case Foreign(call) =>
      ForeignCallActs(j.cache, call, key, j.now);
      CallKeepsSound(j.cache, call, j.now);
    case Client(client, ttl) => ClientStepIsStep(usage, key, j, client, ttl, j');
  }

  function ProtocolStates(key: Key, t: seq<Joint>): seq<State> {
    seq(|t|, i requires 0 <= i < |t| => Seen(t[i], key))
  }

  function ProtocolSteps(key: Key, t: seq<Joint>, steps: seq<JointStep>): seq<Step>
    requires |t| == |steps| + 1
  {
    seq(|steps|, i requires 0 <= i < |steps| => ProtocolStep(key, t[i], steps[i], t[i + 1]))
  }

  lemma {:induction false} JointRunIsSound(usage: Usage, key: Key, t: seq<Joint>, steps: seq<JointStep>, i: nat)
    requires JointRun(usage, key, t, steps) && i < |t|
    ensures IsSound(t[i].cache) && |t[i].history| > 0
  {
    if i > 0 {
      JointRunIsSound(usage, key, t, steps, i - 1);
      JointStepIsStep(usage, key, t[i - 1], steps[i - 1], t[i - 1 + 1]);
    }
  }

  /** Whatever holds over every run of the protocol holds of finds and saves over either adapter. */
  lemma JointRunIsRun(usage: Usage, key: Key, t: seq<Joint>, steps: seq<JointStep>)
    requires JointRun(usage, key, t, steps)
    ensures CacheProtocol.Run(usage, ProtocolStates(key, t), ProtocolSteps(key, t, steps))
  {
    forall i | 0 <= i < |steps|
      ensures |t[i].history| > 0
      ensures TakesStep(usage, Seen(t[i], key), ProtocolStep(key, t[i], steps[i], t[i + 1]), Seen(t[i + 1], key))
    {
      JointRunIsSound(usage, key, t, steps, i);
      JointStepIsStep(usage, key, t[i], steps[i], t[i + 1]);
    }
  }

  // ---- The guarantees, over the adapters ----

  /** A find that begins after a commit's eviction or write-through returns that commit's row or a later one. */
  lemma AdapterReadAfterSettled(usage: Usage, key: Key, t: seq<Joint>, steps: seq<JointStep>, i: nat, j: nat, c: nat, f: nat)
    requires JointRun(usage, key, t, steps) && i <= j < |t|
    requires c in t[i].settled && f !in t[i].finds
    requires f in t[j].finds && t[j].finds[f].pc.Found?
    ensures var answer := t[j].finds[f].pc.answer;
            c <= answer.at < |t[j].history| && answer.row == t[j].history[answer.at]
  {
    JointRunIsRun(usage, key, t, steps);
    ReadAfterSettled(usage, ProtocolStates(key, t), ProtocolSteps(key, t, steps), i, j, c, f);
  }

  /** What the adapter serves is the current row whenever no save stands between its commit and its maintenance. */
  lemma AdapterHitIsCurrent(usage: Usage, key: Key, t: seq<Joint>, steps: seq<JointStep>, i: nat)
    requires JointRun(usage, key, t, steps) && i < |t| && IsQuiet(Seen(t[i], key))
    requires Shows(t[i].cache, key, t[i].now).live.Some?
    ensures IsCurrentUnlessLost(usage, Seen(t[i], key))
  {
    JointRunIsRun(usage, key, t, steps);
    var states := ProtocolStates(key, t);
    assert states[i] == Seen(t[i], key);
    HitIsCurrent(usage, states, ProtocolSteps(key, t, steps), i);
  }

  /** As long as the adapter serves the key, what it serves never goes back. */
  lemma AdapterNeverGoesBack(usage: Usage, key: Key, t: seq<Joint>, steps: seq<JointStep>, i: nat, j: nat)
    requires JointRun(usage, key, t, steps) && i <= j < |t|
    requires forall n :: i <= n <= j ==> Shows(t[n].cache, key, t[n].now).live.Some?
    ensures var (before, after) := (Shows(t[i].cache, key, t[i].now).live.value, Shows(t[j].cache, key, t[j].now).live.value);
            && before.at <= after.at < |t[j].history|
            && t[j].history[after.at] == Some(after.snapshot)
            && (usage.versioned ==> before.snapshot.version <= after.snapshot.version)
  {
    JointRunIsRun(usage, key, t, steps);
    var states := ProtocolStates(key, t);
    assert forall n :: i <= n <= j ==> states[n].reg == Shows(t[n].cache, key, t[n].now);
    HitsNeverGoBack(usage, states, ProtocolSteps(key, t, steps), i, j);
  }

  /** After a deletion and its eviction the adapter never serves the key again, and no later find finds a row. */
  lemma AdapterNeverResurrects(usage: Usage, key: Key, t: seq<Joint>, steps: seq<JointStep>, i: nat, j: nat, d: nat)
    requires usage.versioned && JointRun(usage, key, t, steps) && i <= j < |t|
    requires 0 < d < |t[i].history| && t[i].history[d - 1].Some? && t[i].history[d] == None
    requires d in t[i].settled
    ensures Shows(t[j].cache, key, t[j].now).live == None
    ensures forall f :: f in t[j].finds && f !in t[i].finds && t[j].finds[f].pc.Found? ==>
              t[j].finds[f].pc.answer.row == None
  {
    JointRunIsRun(usage, key, t, steps);
    NoResurrection(usage, ProtocolStates(key, t), ProtocolSteps(key, t, steps), i, j, d);
  }
}
