/**
 `deepCloneAndFreeze` on a heap of records, arrays, maps, sets, dates and regular expressions, cyclic and
 shared as they may be.
 */
module CloneGraph {
  import opened Wrappers
  import opened Finite

  type Ref = nat
  type Name = string

  /** `Prim` stands for everything that is not an object, functions included; it is copied as it is. */
  datatype Value = Prim(text: string) | Obj(ref: Ref)

  datatype Proto = ObjectProto | NullProto | OtherProto

  datatype Shape =
    | Record(proto: Proto, names: seq<Name>)   // own properties in order; the slots hold their values
    | Array
    | Map                                      // the slots are its keys and values in turn
    | Set
    | Date(time: int)
    | RegExp(source: string, flags: string)

  datatype Node = Node(shape: Shape, slots: seq<Value>)

  datatype Cell = Cell(node: Node, frozen: bool)

  type Heap = map<Ref, Cell>

  /** Dates and regular expressions are copied without being remembered in `seen`. */
  predicate IsLeaf(node: Node) {
    node.shape.Date? || node.shape.RegExp?
  }

  predicate InHeap(heap: Heap, v: Value) {
    v.Obj? ==> v.ref in heap
  }

  predicate IsLeafValue(heap: Heap, v: Value) {
    v.Obj? && v.ref in heap && IsLeaf(heap[v.ref].node)
  }

  /** No dangling references, as many names as slots, and nothing inside a leaf. */
  ghost predicate Closed(heap: Heap) {
    forall r :: r in heap ==>
      && (forall i :: 0 <= i < |heap[r].node.slots| ==> InHeap(heap, heap[r].node.slots[i]))
      && (heap[r].node.shape.Record? ==> |heap[r].node.shape.names| == |heap[r].node.slots|)
      && (IsLeaf(heap[r].node) ==> heap[r].node.slots == [])
  }

  /** The shape of a copy of which `n` slots are filled: a class instance becomes a plain object. */
  function CopyShape(shape: Shape, n: nat): Shape {
    if !shape.Record? then shape
    else Record(if shape.proto == OtherProto then ObjectProto else shape.proto,
                if n <= |shape.names| then shape.names[..n] else shape.names)
  }

  // ---- The state of a running clone, as a value ----

  /**
   `seen` maps originals to their copies. Three ghosts: `origin` maps every copy back, leaves included, `owner`
   says which slot of which original the copy of a leaf was made for, and `open` holds the originals whose
   copies are still being filled.
   */
  datatype Mem = Mem(heap: Heap, next: Ref, seen: map<Ref, Ref>, origin: map<Ref, Ref>,
                     owner: map<Ref, (Ref, nat)>, open: set<Ref>)

  /** `c` is what `v` is copied to. */
  predicate Matches(o: Heap, m: Mem, v: Value, c: Value) {
    match v
    case Prim(_) => c == v
    case Obj(r) =>
      && r in o && c.Obj? && c.ref in m.origin && m.origin[c.ref] == r
      && (!IsLeaf(o[r].node) ==> r in m.seen && m.seen[r] == c.ref)
  }

  predicate IsOwnedBy(m: Mem, c: Value, r: Ref, i: nat) {
    c.Obj? && c.ref in m.owner && m.owner[c.ref] == (r, i)
  }

  /** The slots of `r` copied so far. A leaf has a copy for every slot that holds it. */
  ghost predicate SlotsCopied(o: Heap, m: Mem, r: Ref, slots: seq<Value>, copies: seq<Value>) {
    && |copies| <= |slots|
    && (forall i :: 0 <= i < |copies| ==> SlotCopied(o, m, r, i, slots[i], copies[i]))
  }

  predicate SlotCopied(o: Heap, m: Mem, r: Ref, i: nat, v: Value, c: Value) {
    Matches(o, m, v, c) && (IsLeafValue(o, v) ==> IsOwnedBy(m, c, r, i))
  }

  ghost predicate CopyOf(o: Heap, m: Mem, r: Ref)
    requires r in o && r in m.seen && m.seen[r] in m.heap
  {
    var (node, copy) := (o[r].node, m.heap[m.seen[r]]);
    && SlotsCopied(o, m, r, node.slots, copy.node.slots)
    && copy.node.shape == CopyShape(node.shape, |copy.node.slots|)
    && copy.frozen == (r !in m.open)
    && (r !in m.open ==> |copy.node.slots| == |node.slots|)
  }

  ghost predicate Inv(o: Heap, m: Mem) {
    && (forall q :: q in m.heap ==> q < m.next)
    && (forall r :: r in o ==> r in m.heap && m.heap[r] == o[r])
    && (forall q :: q in m.heap && q !in o ==> q in m.origin)
    && (forall q :: q in m.origin ==> OriginOk(o, m, q))
    && (forall q :: q in m.owner ==> q in m.heap)
    && m.open <= m.seen.Keys
    && (forall r :: r in m.seen ==> SeenOk(o, m, r) && CopyOf(o, m, r))
  }

  ghost predicate OriginOk(o: Heap, m: Mem, q: Ref)
    requires q in m.origin
  {
    && q in m.heap && q !in o && m.origin[q] in o
    && (if IsLeaf(o[m.origin[q]].node) then m.heap[q] == Cell(o[m.origin[q]].node, true)
        else m.origin[q] in m.seen && m.seen[m.origin[q]] == q)
  }

  ghost predicate SeenOk(o: Heap, m: Mem, r: Ref)
    requires r in m.seen
  {
    && r in o && !IsLeaf(o[r].node)
    && m.seen[r] in m.heap && m.seen[r] !in o
    && m.seen[r] in m.origin && m.origin[m.seen[r]] == r
  }

  /** Nothing that was there has changed. */
  ghost predicate Extends(m: Mem, m': Mem) {
    && (forall q :: q in m.heap ==> q in m'.heap && m'.heap[q] == m.heap[q])
    && (forall r :: r in m.seen ==> r in m'.seen && m'.seen[r] == m.seen[r])
    && (forall q :: q in m.origin ==> q in m'.origin && m'.origin[q] == m.origin[q])
    && (forall q :: q in m.owner ==> q in m'.owner && m'.owner[q] == m.owner[q])
    && m.next <= m'.next && m'.open == m.open
  }

  // ---- The writes ----

  function Opened(m: Mem, r: Ref, shape: Shape): Mem {
    Mem(m.heap[m.next := Cell(Node(CopyShape(shape, 0), []), false)], m.next + 1,
        m.seen[r := m.next], m.origin[m.next := r], m.owner, m.open + {r})
  }

  function LeafCopied(m: Mem, r: Ref, node: Node): Mem {
    m.(heap := m.heap[m.next := Cell(node, true)], next := m.next + 1, origin := m.origin[m.next := r])
  }

  function Filled(m: Mem, r: Ref, shape: Shape, c: Value, leaf: bool): Mem
    requires r in m.seen && m.seen[r] in m.heap && (leaf ==> c.Obj?)
  {
    var before := m.heap[m.seen[r]].node.slots;
    m.(heap := m.heap[m.seen[r] := Cell(Node(CopyShape(shape, |before| + 1), before + [c]), false)],
       owner := if leaf then m.owner[c.ref := (r, |before|)] else m.owner)
  }

  function Frozen(m: Mem, r: Ref): Mem
    requires r in m.seen && m.seen[r] in m.heap
  {
    m.(heap := m.heap[m.seen[r] := m.heap[m.seen[r]].(frozen := true)], open := m.open - {r})
  }

  lemma SlotsStayCopied(o: Heap, m: Mem, m': Mem, r: Ref, slots: seq<Value>, copies: seq<Value>)
    requires SlotsCopied(o, m, r, slots, copies)
    requires forall q :: q in m.origin ==> q in m'.origin && m'.origin[q] == m.origin[q]
    requires forall q :: q in m.owner ==> q in m'.owner && m'.owner[q] == m.owner[q]
    requires forall s :: s in m.seen ==> s in m'.seen && m'.seen[s] == m.seen[s]
    ensures SlotsCopied(o, m', r, slots, copies)
  {
    forall i | 0 <= i < |copies| ensures SlotCopied(o, m', r, i, slots[i], copies[i]) {
      assert SlotCopied(o, m, r, i, slots[i], copies[i]);
    }
  }

  lemma OpeningKeepsInv(o: Heap, m: Mem, r: Ref)
    requires Inv(o, m) && r in o && r !in m.seen && !IsLeaf(o[r].node)
    ensures Inv(o, Opened(m, r, o[r].node.shape))
  {
    var m' := Opened(m, r, o[r].node.shape);
    forall q | q in m'.origin ensures OriginOk(o, m', q) {
      assert q != m.next ==> OriginOk(o, m, q);
    }
    forall s | s in m'.seen ensures SeenOk(o, m', s) && CopyOf(o, m', s) {
      if s != r {
        assert SeenOk(o, m, s) && CopyOf(o, m, s);
        SlotsStayCopied(o, m, m', s, o[s].node.slots, m.heap[m.seen[s]].node.slots);
      }
    }
  }

  lemma LeafKeepsInv(o: Heap, m: Mem, r: Ref)
    requires Inv(o, m) && r in o && IsLeaf(o[r].node)
    ensures Inv(o, LeafCopied(m, r, o[r].node)) && Extends(m, LeafCopied(m, r, o[r].node))
    ensures Matches(o, LeafCopied(m, r, o[r].node), Obj(r), Obj(m.next))
  {
    var m' := LeafCopied(m, r, o[r].node);
    forall q | q in m'.origin ensures OriginOk(o, m', q) {
      assert q != m.next ==> OriginOk(o, m, q);
    }
    forall s | s in m'.seen ensures SeenOk(o, m', s) && CopyOf(o, m', s) {
      assert SeenOk(o, m, s) && CopyOf(o, m, s);
      SlotsStayCopied(o, m, m', s, o[s].node.slots, m.heap[m.seen[s]].node.slots);
    }
  }

  lemma FillingKeepsInv(o: Heap, m: Mem, r: Ref, c: Value, leaf: bool)
    requires Inv(o, m) && r in m.open && r in o && r in m.seen && m.seen[r] in m.heap
    requires |m.heap[m.seen[r]].node.slots| < |o[r].node.slots|
    requires var v := o[r].node.slots[|m.heap[m.seen[r]].node.slots|];
             Matches(o, m, v, c) && leaf == IsLeafValue(o, v)
    requires leaf ==> c.Obj? && c.ref in m.heap && c.ref !in m.owner
    ensures Inv(o, Filled(m, r, o[r].node.shape, c, leaf))
  {
    var m' := Filled(m, r, o[r].node.shape, c, leaf);
    assert SeenOk(o, m, r) && CopyOf(o, m, r);
    forall q | q in m'.origin ensures OriginOk(o, m', q) {
      assert OriginOk(o, m, q);
    }
    forall s | s in m'.seen ensures SeenOk(o, m', s) && CopyOf(o, m', s) {
      FillingKeepsCopy(o, m, r, c, leaf, s);
    }
  }

  lemma FillingKeepsCopy(o: Heap, m: Mem, r: Ref, c: Value, leaf: bool, s: Ref)
    requires Inv(o, m) && r in m.open && r in o && r in m.seen && m.seen[r] in m.heap && s in m.seen
    requires |m.heap[m.seen[r]].node.slots| < |o[r].node.slots|
    requires var v := o[r].node.slots[|m.heap[m.seen[r]].node.slots|];
             Matches(o, m, v, c) && leaf == IsLeafValue(o, v)
    requires leaf ==> c.Obj? && c.ref in m.heap && c.ref !in m.owner
    ensures SeenOk(o, Filled(m, r, o[r].node.shape, c, leaf), s)
    ensures CopyOf(o, Filled(m, r, o[r].node.shape, c, leaf), s)
  {
    var m' := Filled(m, r, o[r].node.shape, c, leaf);
    assert SeenOk(o, m, r) && CopyOf(o, m, r) && SeenOk(o, m, s) && CopyOf(o, m, s);
    SlotsStayCopied(o, m, m', s, o[s].node.slots, m.heap[m.seen[s]].node.slots);
    if s == r {
      var (slots, copies) := (o[r].node.slots, m.heap[m.seen[r]].node.slots);
      forall i | 0 <= i < |copies| + 1 ensures SlotCopied(o, m', r, i, slots[i], (copies + [c])[i]) {
        assert i < |copies| ==> SlotCopied(o, m', r, i, slots[i], copies[i]);
      }
    }
  }

  lemma FreezingKeepsInv(o: Heap, m: Mem, r: Ref)
    requires Inv(o, m) && r in m.open && r in o && r in m.seen && m.seen[r] in m.heap
    requires |m.heap[m.seen[r]].node.slots| == |o[r].node.slots|
    ensures Inv(o, Frozen(m, r))
  {
    var m' := Frozen(m, r);
    assert SeenOk(o, m, r);
    forall q | q in m'.origin ensures OriginOk(o, m', q) {
      assert OriginOk(o, m, q);
    }
    forall s | s in m'.seen ensures SeenOk(o, m', s) && CopyOf(o, m', s) {
      assert SeenOk(o, m, s) && CopyOf(o, m, s);
      SlotsStayCopied(o, m, m', s, o[s].node.slots, m.heap[m.seen[s]].node.slots);
    }
  }

  // ---- Reachability ----

  ghost predicate Path(o: Heap, p: seq<Ref>) {
    && (forall i :: 0 <= i < |p| ==> p[i] in o)
    && (forall i :: 0 <= i < |p| - 1 ==> Obj(p[i + 1]) in o[p[i]].node.slots)
  }

  ghost predicate Leads(o: Heap, v: Value, p: seq<Ref>, r: Ref) {
    p != [] && Path(o, p) && v == Obj(p[0]) && p[|p| - 1] == r
  }

  ghost predicate Reaches(o: Heap, v: Value, r: Ref) {
    exists p :: Leads(o, v, p, r)
  }

  lemma ReachesThrough(o: Heap, r: Ref, v: Value, x: Ref)
    requires r in o && v in o[r].node.slots && Reaches(o, v, x)
    ensures Reaches(o, Obj(r), x)
  {
    var p :| Leads(o, v, p, x);
    assert Leads(o, Obj(r), [r] + p, x);
  }

  lemma ReachesItself(o: Heap, r: Ref)
    requires r in o
    ensures Reaches(o, Obj(r), r)
  {
    assert Leads(o, Obj(r), [r], r);
  }

  // ---- The clone ----

  class Cloner {
    var heap: Heap
    var next: Ref
    var seen: map<Ref, Ref>
    ghost var origin: map<Ref, Ref>
    ghost var owner: map<Ref, (Ref, nat)>
    ghost var open: set<Ref>

    constructor (heap: Heap, next: Ref)
      requires forall q :: q in heap ==> q < next
      ensures State() == Mem(heap, next, map[], map[], map[], {})
      ensures Inv(heap, State())
    {
      this.heap, this.next, seen := heap, next, map[];
      origin, owner, open := map[], map[], {};
    }

    ghost function State(): Mem
      reads this
    {
      Mem(heap, next, seen, origin, owner, open)
    }

    /** Clones one value. `o` is the heap as it was when the outermost call began. */
    method Clone(ghost o: Heap, v: Value) returns (c: Value)
      requires Closed(o) && Inv(o, State()) && InHeap(o, v)
      modifies this
      ensures Inv(o, State()) && Extends(old(State()), State())
      ensures Matches(o, State(), v, c)
      ensures IsLeafValue(o, v) ==> old(next) <= c.ref && owner == old(owner)
      ensures forall r :: r in seen && r !in old(seen) ==> Reaches(o, v, r)
      decreases |o.Keys - seen.Keys|, 1
    {
      if v.Prim? {
        return v;
      }
      var r := v.ref;
      if r in seen {
        assert SeenOk(o, State(), r);
        return Obj(seen[r]);
      }
      var node := heap[r].node;
      if node.shape.Date? || node.shape.RegExp? {
        LeafKeepsInv(o, State(), r);
        c := Obj(next);
        AllocateLeaf(r, node);
        return;
      }
      CopyingBegins(o, State(), r);
      Open(r, node.shape);
      SmallerRest(o.Keys, old(seen).Keys, seen.Keys, r);
      CopySlots(o, r, old(State()));
      assert SeenOk(o, State(), r);
      return Obj(seen[r]);
    }

    method AllocateLeaf(r: Ref, node: Node)
      modifies this
      ensures State() == LeafCopied(old(State()), r, node)
    {
      heap := heap[next := Cell(node, true)];
      origin := origin[next := r];
      next := next + 1;
    }

    /** A new, empty copy, entered in `seen` before anything inside is cloned. */
    method Open(r: Ref, shape: Shape)
      modifies this
      ensures State() == Opened(old(State()), r, shape)
    {
      heap := heap[next := Cell(Node(CopyShape(shape, 0), []), false)];
      seen := seen[r := next];
      origin := origin[next := r];
      open := open + {r};
      next := next + 1;
    }

    /** Adds a slot to a copy that is not frozen. */
    method Fill(r: Ref, shape: Shape, c: Value, ghost leaf: bool)
      requires r in seen && seen[r] in heap && !heap[seen[r]].frozen && (leaf ==> c.Obj?)
      modifies this
      ensures State() == Filled(old(State()), r, shape, c, leaf)
    {
      var before := heap[seen[r]].node.slots;
      heap := heap[seen[r] := Cell(Node(CopyShape(shape, |before| + 1), before + [c]), false)];
      if leaf {
        owner := owner[c.ref := (r, |before|)];
      }
    }

    method Freeze(r: Ref)
      requires r in seen && seen[r] in heap
      modifies this
      ensures State() == Frozen(old(State()), r)
    {
      heap := heap[seen[r] := heap[seen[r]].(frozen := true)];
      open := open - {r};
    }

    /** Clones what is inside `r` into its copy, slot by slot, and freezes the copy. */
    method CopySlots(ghost o: Heap, r: Ref, ghost start: Mem)
      requires Closed(o) && Copying(o, start, State(), r, 0)
      modifies this
      ensures Inv(o, State()) && Extends(start, State()) && r in seen
      ensures forall x :: x in seen && x !in start.seen ==> Reaches(o, Obj(r), x)
      decreases |o.Keys - seen.Keys|, 3
    {
      var node := heap[r].node;
      var i := 0;
      while i < |node.slots|
        invariant 0 <= i <= |node.slots| && node == o[r].node
        invariant Copying(o, start, State(), r, i)
        invariant seen.Keys >= old(seen).Keys
      {
        FewerLeft(o.Keys, old(seen).Keys, seen.Keys);
        FillNext(o, r, start, i);
        i := i + 1;
      }
      CopyingEnds(o, start, State(), r);
      Freeze(r);
    }

    method FillNext(ghost o: Heap, r: Ref, ghost start: Mem, i: nat)
      requires Closed(o) && Copying(o, start, State(), r, i) && i < |o[r].node.slots|
      modifies this
      ensures Copying(o, start, State(), r, i + 1)
      ensures old(seen).Keys <= seen.Keys
      decreases |o.Keys - seen.Keys|, 2
    {
      ghost var before := State();
      var v := heap[r].node.slots[i];
      var c := Clone(o, v);
      CopyingContinues(o, start, before, State(), r, i, c);
      Fill(r, heap[r].node.shape, c, IsLeafValue(o, v));
    }
  }

  /** The copy of `r`, opened in state `start`, has its first `i` slots. */
  ghost predicate Copying(o: Heap, start: Mem, m: Mem, r: Ref, i: nat) {
    && Inv(o, m) && r in o && r !in start.seen && r !in start.open
    && r in m.seen && r in m.open && m.seen[r] == start.next && start.next in m.heap
    && |m.heap[start.next].node.slots| == i
    && start.next !in start.heap
    && Extends(start.(open := start.open + {r}), m)
    && (forall x :: x in m.seen && x !in start.seen ==> Reaches(o, Obj(r), x))
  }

  lemma CopyingBegins(o: Heap, start: Mem, r: Ref)
    requires Inv(o, start) && r in o && r !in start.seen && !IsLeaf(o[r].node)
    ensures Copying(o, start, Opened(start, r, o[r].node.shape), r, 0)
  {
    OpeningKeepsInv(o, start, r);
    ReachesItself(o, r);
    OpeningExtends(o, start, r);
  }

  lemma OpeningExtends(o: Heap, m: Mem, r: Ref)
    requires Inv(o, m) && r in o && r !in m.seen
    ensures Extends(m.(open := m.open + {r}), Opened(m, r, o[r].node.shape))
    ensures m.next !in m.heap && r !in m.open
  {
    CopiesAreOld(o, m);
  }

  lemma CopiesAreOld(o: Heap, m: Mem)
    requires Inv(o, m)
    ensures forall q :: q in m.origin ==> q < m.next
  {
    forall q | q in m.origin ensures q < m.next {
      assert OriginOk(o, m, q);
    }
  }

  lemma CopyingContinues(o: Heap, start: Mem, m: Mem, m': Mem, r: Ref, i: nat, c: Value)
    requires Copying(o, start, m, r, i) && i < |o[r].node.slots|
    requires Inv(o, m') && Extends(m, m') && Matches(o, m', o[r].node.slots[i], c)
    requires IsLeafValue(o, o[r].node.slots[i]) ==> m.next <= c.ref && m'.owner == m.owner
    requires forall x :: x in m'.seen && x !in m.seen ==> Reaches(o, o[r].node.slots[i], x)
    ensures r in m'.seen && m'.seen[r] in m'.heap && !m'.heap[m'.seen[r]].frozen
    ensures m'.heap[r] == o[r]
    ensures Copying(o, start, Filled(m', r, o[r].node.shape, c, IsLeafValue(o, o[r].node.slots[i])), r, i + 1)
  {
    assert SeenOk(o, m', r) && CopyOf(o, m', r);
    var leaf := IsLeafValue(o, o[r].node.slots[i]);
    if leaf {
      assert OriginOk(o, m', c.ref);
    }
    FillingKeepsInv(o, m', r, c, leaf);
    FillingExtends(o, start, m, m', r, c, leaf);
    forall x | x in m'.seen && x !in start.seen ensures Reaches(o, Obj(r), x) {
      if x !in m.seen {
        ReachesThrough(o, r, o[r].node.slots[i], x);
      }
    }
  }

  /** Filling only writes the copy that was opened after `start`, and gives a new leaf its owner. */
  lemma FillingExtends(o: Heap, start: Mem, m: Mem, m': Mem, r: Ref, c: Value, leaf: bool)
    requires r in m.seen && r in m'.seen && m'.seen[r] == m.seen[r] == start.next && start.next in m'.heap
    requires start.next !in start.heap && r in o && (leaf ==> c.Obj? && c.ref !in m'.owner)
    requires Extends(start.(open := start.open + {r}), m) && Extends(m, m')
    ensures Extends(start.(open := start.open + {r}), Filled(m', r, o[r].node.shape, c, leaf))
  {
  }

  lemma CopyingEnds(o: Heap, start: Mem, m: Mem, r: Ref)
    requires r in o && Copying(o, start, m, r, |o[r].node.slots|)
    ensures Inv(o, Frozen(m, r)) && Extends(start, Frozen(m, r))
  {
    FreezingKeepsInv(o, m, r);
    FreezingExtends(start, m, r);
  }

  lemma FreezingExtends(start: Mem, m: Mem, r: Ref)
    requires r in m.seen && m.seen[r] in m.heap && m.seen[r] !in start.heap && r !in start.open
    requires Extends(start.(open := start.open + {r}), m)
    ensures Extends(start, Frozen(m, r))
  {
  }

  // ---- What a finished clone is ----

  /** `c` is the copy of `v`: a primitive is itself, a leaf is an equal new leaf, another object is mapped. */
  predicate IsCopy(h: Heap, h': Heap, seen: map<Ref, Ref>, v: Value, c: Value) {
    match v
    case Prim(_) => c == v
    case Obj(r) =>
      && r in h && c.Obj? && c.ref in h' && c.ref !in h
      && (if IsLeaf(h[r].node) then h'[c.ref].node == h[r].node && c.ref !in seen.Values
          else r in seen && seen[r] == c.ref)
  }

  ghost predicate NodeCopied(h: Heap, h': Heap, seen: map<Ref, Ref>, node: Node, copy: Node) {
    && copy.shape == CopyShape(node.shape, |node.slots|)
    && |copy.slots| == |node.slots|
    && (forall i :: 0 <= i < |node.slots| ==> IsCopy(h, h', seen, node.slots[i], copy.slots[i]))
  }

  function SlotOf(h: Heap, r: Ref, i: nat): Option<Value> {
    if r in h && i < |h[r].node.slots| then Some(h[r].node.slots[i]) else None
  }

  predicate HoldsLeaf(h: Heap, r: Ref, i: nat) {
    SlotOf(h, r, i).Some? && IsLeafValue(h, SlotOf(h, r, i).value)
  }

  /** The copy of a leaf is in one slot only: that of the slot it was made for. */
  ghost predicate LeavesAreSplit(h: Heap, h': Heap, seen: map<Ref, Ref>) {
    forall r, i, s, j :: r in seen && s in seen && HoldsLeaf(h, r, i) && SlotOf(h', seen[r], i) == SlotOf(h', seen[s], j) ==>
      r == s && i == j
  }

  /**
   `h'` adds to `h` a frozen copy of what `v` reaches. `seen` maps the reachable objects, leaves aside, one
   to one to their copies, node by node, and every slot that holds a leaf gets a leaf of its own.
   */
  ghost predicate IsClone(h: Heap, h': Heap, seen: map<Ref, Ref>, v: Value, c: Value) {
    && (forall r :: r in h ==> r in h' && h'[r] == h[r])
    && (forall q :: q in h' && q !in h ==> h'[q].frozen)
    && IsCopy(h, h', seen, v, c)
    && (forall r :: r in seen <==> r in h && Reaches(h, v, r) && !IsLeaf(h[r].node))
    && (forall r, s :: r in seen && s in seen && seen[r] == seen[s] ==> r == s)
    && (forall r :: r in seen ==>
          seen[r] in h' && seen[r] !in h && NodeCopied(h, h', seen, h[r].node, h'[seen[r]].node))
    && LeavesAreSplit(h, h', seen)
  }

  lemma MatchesIsCopy(o: Heap, m: Mem, v: Value, c: Value)
    requires Inv(o, m) && Matches(o, m, v, c)
    ensures IsCopy(o, m.heap, m.seen, v, c)
  {
    if v.Obj? {
      assert OriginOk(o, m, c.ref);
      if IsLeaf(o[v.ref].node) {
        forall r | r in m.seen ensures m.seen[r] != c.ref {
          assert SeenOk(o, m, r);
        }
      }
    }
  }

  lemma {:induction false} ReachableIsSeen(o: Heap, m: Mem, v: Value, c: Value, p: seq<Ref>, r: Ref)
    requires Closed(o) && Inv(o, m) && m.open == {} && Matches(o, m, v, c)
    requires Leads(o, v, p, r) && !IsLeaf(o[r].node)
    ensures r in m.seen
    decreases |p|
  {
    if |p| > 1 {
      assert Obj(p[0 + 1]) in o[p[0]].node.slots;
      var i :| 0 <= i < |o[p[0]].node.slots| && o[p[0]].node.slots[i] == Obj(p[1]);
      assert SeenOk(o, m, p[0]) && CopyOf(o, m, p[0]);
      var copies := m.heap[m.seen[p[0]]].node.slots;
      assert SlotCopied(o, m, p[0], i, Obj(p[1]), copies[i]);
      assert Leads(o, Obj(p[1]), p[1..], r);
      ReachableIsSeen(o, m, Obj(p[1]), copies[i], p[1..], r);
    }
  }

  lemma SeenNodeIsCopied(o: Heap, m: Mem, r: Ref)
    requires Inv(o, m) && m.open == {} && r in m.seen
    ensures m.seen[r] in m.heap && m.seen[r] !in o && r in o && !IsLeaf(o[r].node)
    ensures NodeCopied(o, m.heap, m.seen, o[r].node, m.heap[m.seen[r]].node)
  {
    assert SeenOk(o, m, r) && CopyOf(o, m, r);
    var (slots, copies) := (o[r].node.slots, m.heap[m.seen[r]].node.slots);
    forall i | 0 <= i < |slots| ensures IsCopy(o, m.heap, m.seen, slots[i], copies[i]) {
      assert SlotCopied(o, m, r, i, slots[i], copies[i]);
      MatchesIsCopy(o, m, slots[i], copies[i]);
    }
  }

  lemma FinishedIsFrozen(o: Heap, m: Mem, q: Ref)
    requires Inv(o, m) && m.open == {} && q in m.heap && q !in o
    ensures m.heap[q].frozen
  {
    assert OriginOk(o, m, q);
    var r := m.origin[q];
    if r in m.seen {
      assert CopyOf(o, m, r);
    }
  }

  lemma LeafIsOwned(o: Heap, m: Mem, r: Ref, i: nat)
    requires Inv(o, m) && m.open == {} && r in m.seen && HoldsLeaf(o, r, i)
    ensures SlotOf(m.heap, m.seen[r], i).Some? && IsOwnedBy(m, SlotOf(m.heap, m.seen[r], i).value, r, i)
  {
    assert SeenOk(o, m, r) && CopyOf(o, m, r);
    assert SlotCopied(o, m, r, i, o[r].node.slots[i], m.heap[m.seen[r]].node.slots[i]);
  }

  lemma LeavesBecomeSplit(o: Heap, m: Mem, r: Ref, i: nat, s: Ref, j: nat)
    requires Inv(o, m) && m.open == {} && r in m.seen && s in m.seen
    requires HoldsLeaf(o, r, i) && SlotOf(m.heap, m.seen[r], i) == SlotOf(m.heap, m.seen[s], j)
    ensures r == s && i == j
  {
    LeafIsOwned(o, m, r, i);
    assert SeenOk(o, m, s) && CopyOf(o, m, s);
    var (v, c) := (o[s].node.slots[j], m.heap[m.seen[s]].node.slots[j]);
    assert SlotCopied(o, m, s, j, v, c);
    assert SeenOk(o, m, r) && CopyOf(o, m, r);
    assert SlotCopied(o, m, r, i, o[r].node.slots[i], c);
  }

  lemma FinishedIsClone(o: Heap, m: Mem, v: Value, c: Value)
    requires Closed(o) && Inv(o, m) && m.open == {} && Matches(o, m, v, c)
    requires forall r :: r in m.seen ==> Reaches(o, v, r)
    ensures IsClone(o, m.heap, m.seen, v, c)
  {
    forall q | q in m.heap && q !in o ensures m.heap[q].frozen {
      FinishedIsFrozen(o, m, q);
    }
    MatchesIsCopy(o, m, v, c);
    forall r | r in o && Reaches(o, v, r) && !IsLeaf(o[r].node) ensures r in m.seen {
      var p :| Leads(o, v, p, r);
      ReachableIsSeen(o, m, v, c, p, r);
    }
    forall r | r in m.seen
      ensures m.seen[r] in m.heap && m.seen[r] !in o && r in o && !IsLeaf(o[r].node)
      ensures NodeCopied(o, m.heap, m.seen, o[r].node, m.heap[m.seen[r]].node)
    {
      SeenNodeIsCopied(o, m, r);
    }
    forall r, s | r in m.seen && s in m.seen && m.seen[r] == m.seen[s] ensures r == s {
      assert SeenOk(o, m, r) && SeenOk(o, m, s);
    }
    forall r, i, s, j | r in m.seen && s in m.seen && HoldsLeaf(o, r, i) &&
                        SlotOf(m.heap, m.seen[r], i) == SlotOf(m.heap, m.seen[s], j)
      ensures r == s && i == j
    {
      LeavesBecomeSplit(o, m, r, i, s, j);
    }
  }

  /** `next` is any reference above those in use. */
  method DeepCloneAndFreeze(h: Heap, next: Ref, v: Value)
    returns (h': Heap, c: Value, seen: map<Ref, Ref>)
    requires Closed(h) && InHeap(h, v) && (forall q :: q in h ==> q < next)
    ensures IsClone(h, h', seen, v, c)
  {
    var cloner := new Cloner(h, next);
    c := cloner.Clone(h, v);
    h', seen := cloner.heap, cloner.seen;
    FinishedIsClone(h, cloner.State(), v, c);
  }

  // ---- What a clone's user can rely on ----

  /** Follows a path of slot numbers. */
  function Follow(h: Heap, v: Value, path: seq<nat>): Option<Value>
    decreases |path|
  {
    if path == [] then Some(v)
    else if v.Obj? && v.ref in h && path[0] < |h[v.ref].node.slots|
      then Follow(h, h[v.ref].node.slots[path[0]], path[1..])
    else None
  }

  /** The copy has the same paths, and a path ends in the copy of what it ends in in the original. */
  lemma {:induction false} PathsAgree(h: Heap, h': Heap, seen: map<Ref, Ref>, root: Value, copy: Value,
                                      v: Value, c: Value, path: seq<nat>)
    requires Closed(h) && IsClone(h, h', seen, root, copy) && IsCopy(h, h', seen, v, c)
    ensures Follow(h, v, path).Some? == Follow(h', c, path).Some?
    ensures Follow(h, v, path).Some? ==>
              IsCopy(h, h', seen, Follow(h, v, path).value, Follow(h', c, path).value)
    decreases |path|
  {
    if path != [] && v.Obj? && path[0] < |h[v.ref].node.slots| {
      assert NodeCopied(h, h', seen, h[v.ref].node, h'[c.ref].node);
      PathsAgree(h, h', seen, root, copy, h[v.ref].node.slots[path[0]], h'[c.ref].node.slots[path[0]], path[1..]);
    }
  }

  /**
   An object and its copy are of one kind. A record's copy has the same names at the same slots, and it is a plain
   object unless the record has no prototype.
   */
  lemma ShapesAgree(h: Heap, h': Heap, seen: map<Ref, Ref>, root: Value, copy: Value, r: Ref)
    requires Closed(h) && IsClone(h, h', seen, root, copy) && r in seen
    ensures var (shape, shape') := (h[r].node.shape, h'[seen[r]].node.shape);
            match shape
            case Record(proto, names) =>
              && shape'.Record? && shape'.names == names && |h'[seen[r]].node.slots| == |names|
              && (proto == NullProto ==> shape'.proto == NullProto)
              && (proto != NullProto ==> shape'.proto == ObjectProto)
            case Array => shape'.Array?
            case Map => shape'.Map?
            case Set => shape'.Set?
            case _ => false
  {
    assert NodeCopied(h, h', seen, h[r].node, h'[seen[r]].node);
  }

  /** A property by its name, or an element, key or value by its place. */
  datatype Part = Property(name: Name) | Item(i: nat)

  ghost predicate HasPart(h: Heap, v: Value, part: Part, w: Value) {
    && v.Obj? && v.ref in h
    && var node := h[v.ref].node;
       match part
       case Property(name) => node.shape.Record? && exists i: nat :: IsProperty(node, i, name, w)
       case Item(i) => !node.shape.Record? && i < |node.slots| && node.slots[i] == w
  }

  predicate IsProperty(node: Node, i: nat, name: Name, w: Value)
    requires node.shape.Record?
  {
    i < |node.shape.names| && i < |node.slots| && node.shape.names[i] == name && node.slots[i] == w
  }

  /** `w` is where the parts lead, one after the other. */
  ghost predicate PartsLead(h: Heap, v: Value, parts: seq<Part>, w: Value)
    decreases |parts|
  {
    if parts == [] then w == v else exists x :: HasPart(h, v, parts[0], x) && PartsLead(h, x, parts[1..], w)
  }

  /** Whatever parts lead to in the original, they lead to its copy in the copy. */
  lemma {:induction false} PartsAreCopied(h: Heap, h': Heap, seen: map<Ref, Ref>, root: Value, copy: Value,
                                          v: Value, c: Value, parts: seq<Part>, w: Value)
    returns (d: Value)
    requires Closed(h) && IsClone(h, h', seen, root, copy) && IsCopy(h, h', seen, v, c) && PartsLead(h, v, parts, w)
    ensures IsCopy(h, h', seen, w, d) && PartsLead(h', c, parts, d)
    decreases |parts|
  {
    if parts == [] {
      return c;
    }
    var x :| HasPart(h, v, parts[0], x) && PartsLead(h, x, parts[1..], w);
    var y := PartIsCopied(h, h', seen, root, copy, v, c, parts[0], x);
    d := PartsAreCopied(h, h', seen, root, copy, x, y, parts[1..], w);
  }

  lemma PartIsCopied(h: Heap, h': Heap, seen: map<Ref, Ref>, root: Value, copy: Value, v: Value, c: Value, part: Part,
                     x: Value)
    returns (y: Value)
    requires Closed(h) && IsClone(h, h', seen, root, copy) && IsCopy(h, h', seen, v, c) && HasPart(h, v, part, x)
    ensures IsCopy(h, h', seen, x, y) && HasPart(h', c, part, y)
  {
    var node := h[v.ref].node;
    assert v.ref in seen && NodeCopied(h, h', seen, node, h'[c.ref].node);
    ShapesAgree(h, h', seen, root, copy, v.ref);
    match part
    case Item(i) => y := h'[c.ref].node.slots[i];
    case Property(name) =>
      var i: nat :| IsProperty(node, i, name, x);
      y := h'[c.ref].node.slots[i];
      assert IsProperty(h'[c.ref].node, i, name, y);
  }

  /** And the copy has nothing else in it. */
  lemma {:induction false} PartsAreOriginals(h: Heap, h': Heap, seen: map<Ref, Ref>, root: Value, copy: Value,
                                             v: Value, c: Value, parts: seq<Part>, d: Value)
    returns (w: Value)
    requires Closed(h) && IsClone(h, h', seen, root, copy) && IsCopy(h, h', seen, v, c) && PartsLead(h', c, parts, d)
    ensures IsCopy(h, h', seen, w, d) && PartsLead(h, v, parts, w)
    decreases |parts|
  {
    if parts == [] {
      return v;
    }
    var y :| HasPart(h', c, parts[0], y) && PartsLead(h', y, parts[1..], d);
    var x := PartIsOriginal(h, h', seen, root, copy, v, c, parts[0], y);
    w := PartsAreOriginals(h, h', seen, root, copy, x, y, parts[1..], d);
  }

  lemma PartIsOriginal(h: Heap, h': Heap, seen: map<Ref, Ref>, root: Value, copy: Value, v: Value, c: Value, part: Part,
                       y: Value)
    returns (x: Value)
    requires Closed(h) && IsClone(h, h', seen, root, copy) && IsCopy(h, h', seen, v, c) && HasPart(h', c, part, y)
    ensures IsCopy(h, h', seen, x, y) && HasPart(h, v, part, x)
  {
    assert !IsLeaf(h[v.ref].node);
    var node := h[v.ref].node;
    assert NodeCopied(h, h', seen, node, h'[c.ref].node);
    ShapesAgree(h, h', seen, root, copy, v.ref);
    match part
    case Item(i) => x := node.slots[i];
    case Property(name) =>
      var i: nat :| IsProperty(h'[c.ref].node, i, name, y);
      x := node.slots[i];
      assert IsProperty(node, i, name, x);
  }

  lemma CopiesAreInjective(h: Heap, h': Heap, seen: map<Ref, Ref>, root: Value, copy: Value,
                           v: Value, c: Value, w: Value, d: Value)
    requires IsClone(h, h', seen, root, copy) && IsCopy(h, h', seen, v, c) && IsCopy(h, h', seen, w, d)
    requires !IsLeafValue(h, v) && !IsLeafValue(h, w)
    ensures c == d <==> v == w
  {
  }

  lemma {:induction false} FollowFront(h: Heap, v: Value, path: seq<nat>)
    requires path != [] && Follow(h, v, path).Some?
    ensures var front := Follow(h, v, path[..|path| - 1]);
            && front.Some? && front.value.Obj?
            && SlotOf(h, front.value.ref, path[|path| - 1]) == Follow(h, v, path)
    decreases |path|
  {
    if |path| == 1 {
      assert path[1..] == [];
    } else {
      var rest := path[1..];
      FollowFront(h, h[v.ref].node.slots[path[0]], rest);
      assert path[..|path| - 1][1..] == rest[..|rest| - 1];
    }
  }

  /** The object and the slot through which a path comes to its end; the empty path comes through none. */
  function LastSlot(h: Heap, v: Value, path: seq<nat>): Option<(Ref, nat)> {
    if path == [] then None
    else match Follow(h, v, path[..|path| - 1])
      case Some(Obj(r)) => Some((r, path[|path| - 1]))
      case _ => None
  }

  /** A path that is not empty comes to its end, in original and copy, through one slot of an object and its copy. */
  lemma LastSlotIsSeen(h: Heap, h': Heap, seen: map<Ref, Ref>, root: Value, copy: Value, p: seq<nat>)
    requires Closed(h) && IsClone(h, h', seen, root, copy) && p != [] && Follow(h, root, p).Some?
    ensures var last := LastSlot(h, root, p);
            && last.Some? && last.value.0 in seen && SlotOf(h, last.value.0, last.value.1) == Follow(h, root, p)
            && SlotOf(h', seen[last.value.0], last.value.1) == Follow(h', copy, p)
  {
    var (front, n) := (p[..|p| - 1], p[|p| - 1]);
    FollowFront(h, root, p);
    PathsAgree(h, h', seen, root, copy, root, copy, front);
    PathsAgree(h, h', seen, root, copy, root, copy, p);
    FollowFront(h', copy, p);
  }

  lemma LeafRootHasOnePath(h: Heap, v: Value, p: seq<nat>)
    requires Closed(h) && IsLeafValue(h, v) && Follow(h, v, p).Some?
    ensures p == []
  {
  }

  lemma LeafPathsMeet(h: Heap, h': Heap, seen: map<Ref, Ref>, root: Value, copy: Value, p: seq<nat>, q: seq<nat>)
    requires Closed(h) && IsClone(h, h', seen, root, copy)
    requires Follow(h, root, p).Some? && Follow(h, root, q).Some? && IsLeafValue(h, Follow(h, root, p).value)
    ensures Follow(h', copy, p) == Follow(h', copy, q) <==> LastSlot(h, root, p) == LastSlot(h, root, q)
  {
    if p == [] || q == [] {
      if IsLeafValue(h, root) {
        LeafRootHasOnePath(h, root, p);
        LeafRootHasOnePath(h, root, q);
      } else {
        PathsAgree(h, h', seen, root, copy, root, copy, p);
        LastSlotIsSeen(h, h', seen, root, copy, p);
      }
    } else {
      LastSlotIsSeen(h, h', seen, root, copy, p);
      LastSlotIsSeen(h, h', seen, root, copy, q);
      var (x, y) := (LastSlot(h, root, p).value, LastSlot(h, root, q).value);
      assert HoldsLeaf(h, x.0, x.1);
      assert SlotOf(h', seen[x.0], x.1) == Follow(h', copy, p) && SlotOf(h', seen[y.0], y.1) == Follow(h', copy, q);
    }
  }

  /**
   Two paths meet in the copy exactly when they meet in the original and, if what they meet in is a leaf, they
   come to it through the same slot of the same object: cycles and sharing survive, but every slot has its
   own date or regular expression.
   */
  lemma AliasingIsKept(h: Heap, h': Heap, seen: map<Ref, Ref>, root: Value, copy: Value, p: seq<nat>, q: seq<nat>)
    requires Closed(h) && IsClone(h, h', seen, root, copy)
    requires Follow(h, root, p).Some? && Follow(h, root, q).Some?
    ensures Follow(h', copy, p).Some? && Follow(h', copy, q).Some?
    ensures Follow(h', copy, p) == Follow(h', copy, q) <==>
            && Follow(h, root, p) == Follow(h, root, q)
            && (IsLeafValue(h, Follow(h, root, p).value) ==> LastSlot(h, root, p) == LastSlot(h, root, q))
  {
    PathsAgree(h, h', seen, root, copy, root, copy, p);
    PathsAgree(h, h', seen, root, copy, root, copy, q);
    var (v, c) := (Follow(h, root, p).value, Follow(h', copy, p).value);
    var (w, d) := (Follow(h, root, q).value, Follow(h', copy, q).value);
    if IsLeafValue(h, v) {
      LeafPathsMeet(h, h', seen, root, copy, p, q);
      SameSlotSameEnd(h, root, p, q);
    } else if IsLeafValue(h, w) {
      LeafPathsMeet(h, h', seen, root, copy, q, p);
      SameSlotSameEnd(h, root, q, p);
    } else {
      CopiesAreInjective(h, h', seen, root, copy, v, c, w, d);
    }
  }

  lemma SameSlotSameEnd(h: Heap, v: Value, p: seq<nat>, q: seq<nat>)
    requires Follow(h, v, p).Some? && Follow(h, v, q).Some?
    ensures LastSlot(h, v, p) == LastSlot(h, v, q) ==> Follow(h, v, p) == Follow(h, v, q)
  {
    if p != [] {
      FollowFront(h, v, p);
    }
    if q != [] {
      FollowFront(h, v, q);
    }
  }

  /** Nothing that can be reached in the copy was there before, and all of it is frozen. */
  lemma CopyIsDetached(h: Heap, h': Heap, seen: map<Ref, Ref>, root: Value, copy: Value, path: seq<nat>)
    requires Closed(h) && IsClone(h, h', seen, root, copy)
    requires Follow(h', copy, path).Some? && Follow(h', copy, path).value.Obj?
    ensures var r := Follow(h', copy, path).value.ref; r in h' && r !in h && h'[r].frozen
  {
    PathsAgree(h, h', seen, root, copy, root, copy, path);
  }

  /** The keys of a map, or the elements of a set. */
  predicate IsKeyPlace(shape: Shape, i: nat) {
    shape.Set? || (shape.Map? && i % 2 == 0)
  }

  ghost predicate DistinctKeys(node: Node) {
    forall i, j :: 0 <= i < j < |node.slots| && IsKeyPlace(node.shape, i) && IsKeyPlace(node.shape, j) ==>
      node.slots[i] != node.slots[j]
  }

  /** No two keys collide in a copied map or set, so adding them one by one loses none. */
  lemma KeysStayDistinct(h: Heap, h': Heap, seen: map<Ref, Ref>, root: Value, copy: Value, r: Ref)
    requires IsClone(h, h', seen, root, copy) && r in seen && DistinctKeys(h[r].node)
    ensures DistinctKeys(h'[seen[r]].node)
  {
    var (node, c) := (h[r].node, h'[seen[r]].node);
    assert NodeCopied(h, h', seen, node, c);
    forall i, j | 0 <= i < j < |c.slots| && IsKeyPlace(c.shape, i) && IsKeyPlace(c.shape, j)
      ensures c.slots[i] != c.slots[j]
    {
      assert node.slots[i] != node.slots[j];
      assert SlotOf(h', seen[r], i) == Some(c.slots[i]) && SlotOf(h', seen[r], j) == Some(c.slots[j]);
      if IsLeafValue(h, node.slots[i]) {
        assert HoldsLeaf(h, r, i);
      } else if IsLeafValue(h, node.slots[j]) {
        assert HoldsLeaf(h, r, j);
      } else {
        CopiesAreInjective(h, h', seen, root, copy, node.slots[i], c.slots[i], node.slots[j], c.slots[j]);
      }
    }
  }

  /** Two slots of the copy hold the same date or regular expression only if they are one slot of one object. */
  lemma SharedLeafIsSplit(h: Heap, h': Heap, seen: map<Ref, Ref>, root: Value, copy: Value, r: Ref, i: nat, s: Ref, j: nat)
    requires IsClone(h, h', seen, root, copy) && r in seen && s in seen
    requires HoldsLeaf(h, r, i) && SlotOf(h, s, j).Some?
    ensures SlotOf(h', seen[r], i).Some? && SlotOf(h', seen[s], j).Some?
    ensures SlotOf(h', seen[r], i) == SlotOf(h', seen[s], j) <==> r == s && i == j
  {
    assert NodeCopied(h, h', seen, h[r].node, h'[seen[r]].node);
    assert NodeCopied(h, h', seen, h[s].node, h'[seen[s]].node);
  }
}
