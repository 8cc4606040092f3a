/**
 The per-key revision register behind `IVersionedCache`: what one key of a cache shows to its
 clients, and the only ways in which that may change. Both adapters are proved to refine it, and the
 decorators are proved against it.
 */
module Registers {
  import opened Wrappers

  /** The token a reader is handed, and the value it would be served, if any. */
  datatype Register<+V> = Register(token: nat, live: Option<V>)

  /** What one adapter operation does to one key. */
  datatype Op<+V> =
    | Idle                           // a read, or an operation on other keys
    | Forget                         // invalidation, eviction, or clearing of the whole cache
    | Write(value: V)                // an unconditional write
    | Fill(observed: nat, value: V)  // a write fenced by an observed token

  /** True when the operation changes the key, and so must retire every token handed out before. */
  predicate Touches<V>(r: Register<V>, op: Op<V>) {
    match op
    case Idle => false
    case Forget => true
    case Write(_) => true
    case Fill(observed, _) => observed == r.token
  }

  /** One atomic operation. A committed write may already be gone again, evicted by its own call. */
  predicate Act<V(==)>(r: Register<V>, op: Op<V>, r': Register<V>) {
    if !Touches(r, op) then
      r' == r
    else
      && r.token < r'.token
      && (r'.live == None || (!op.Forget? && r'.live == Some(op.value)))
  }

  /** The value's lifetime running out; the token stays. */
  function Expired<V>(r: Register<V>): Register<V> {
    r.(live := None)
  }

  /** Some time passes, in which the value may expire, and then the operation runs. */
  predicate Step<V(==)>(r: Register<V>, op: Op<V>, r': Register<V>) {
    Act(r, op, r') || Act(Expired(r), op, r')
  }

  /** A run of one key: `ops[i]` leads from `rs[i]` to `rs[i + 1]`. */
  predicate Run<V(==)>(rs: seq<Register<V>>, ops: seq<Op<V>>) {
    && |rs| == |ops| + 1
    && forall i :: 0 <= i < |ops| ==> Step(rs[i], ops[i], rs[i + 1])
  }

  /** No operation of `ops[i..j]` touches the key. */
  predicate Untouched<V>(rs: seq<Register<V>>, ops: seq<Op<V>>, i: nat, j: nat)
    requires |rs| == |ops| + 1 && i <= j <= |ops|
  {
    forall n :: i <= n < j ==> !Touches(rs[n], ops[n])
  }

  /**
   Tokens never repeat across a change: over any stretch of any run the token does not go down, it
   is the same at both ends exactly when nothing touched the key in between, and then the value is
   still the one seen first, unless it expired.
   */
  lemma {:induction false} NoAba<V>(rs: seq<Register<V>>, ops: seq<Op<V>>, i: nat, j: nat)
    requires Run(rs, ops) && i <= j <= |ops|
    ensures rs[i].token <= rs[j].token
    ensures rs[i].token == rs[j].token <==> Untouched(rs, ops, i, j)
    ensures rs[i].token == rs[j].token ==> rs[j].live == rs[i].live || rs[j].live == None
    decreases j
  {
    if i < j {
      NoAba(rs, ops, i, j - 1);
      assert Step(rs[j - 1], ops[j - 1], rs[j - 1 + 1]);
    }
  }

  /** A fill goes through exactly when nothing has touched the key since the token was observed. */
  lemma FillCommitsIffUntouched<V>(rs: seq<Register<V>>, ops: seq<Op<V>>, i: nat, j: nat)
    requires Run(rs, ops) && i <= j < |ops|
    requires ops[j].Fill? && ops[j].observed == rs[i].token
    ensures Touches(rs[j], ops[j]) <==> Untouched(rs, ops, i, j)
    ensures Untouched(rs, ops, i, j) ==> rs[j].token < rs[j + 1].token
    ensures !Untouched(rs, ops, i, j) ==> rs[j + 1] == rs[j] || rs[j + 1] == Expired(rs[j])
  {
    NoAba(rs, ops, i, j);
    assert Step(rs[j], ops[j], rs[j + 1]);
  }
}
