/**
 `safeSanitize` in its JSON mode: `buildMatchers` and the walk over an object graph, cyclic and shared as it
 may be, that leaves a tree without the excluded and redacted properties; and what errors pass by it.
 */
module Sanitize {
  import opened Wrappers
  import opened Finite

  // ---- The graph and the tree ----

  type Ref = nat

  datatype Value =
    | Undefined
    | Null
    | Str(text: string)
    | Num(text: string)
    | Bool(on: bool)
    | BigInt(text: string)
    | Symbol
    | Function(text: string)
    | Obj(ref: Ref)

  datatype Prop<T> = Prop(key: string, value: T)

  datatype Kind =
    | Date(iso: Option<string>)                             // none for an invalid date
    | RegExp
    | Error(name: Value, message: Value, stack: Value, own: seq<Prop<Value>>)   // `own`: whatever else it holds
    | Binary(isBuffer: bool)
    | Map(entries: seq<(Value, Value)>)
    | Set(items: seq<Value>)
    | Array(items: seq<Value>)
    | Object(own: seq<Prop<Value>>, inherited: seq<Prop<Value>>)   // `inherited`: found, but not enumerated

  /** `text` is what the object turns into when it is made a string. */
  datatype Node = Node(kind: Kind, text: string)

  type Heap = map<Ref, Node>

  datatype Out =
    | Missing
    | Nil
    | Text(text: string)
    | Number(text: string)
    | Flag(on: bool)
    | List(items: seq<Out>)
    | Record(fields: seq<Prop<Out>>)
    | Raw(value: Value)   // passed through as it is: an object, a function, a symbol or a big integer

  predicate InHeap(h: Heap, v: Value) {
    v.Obj? ==> v.ref in h
  }

  predicate ItemsOk(h: Heap, items: seq<Value>) {
    forall i :: 0 <= i < |items| ==> InHeap(h, items[i])
  }

  predicate PropsOk(h: Heap, props: seq<Prop<Value>>) {
    && (forall i :: 0 <= i < |props| ==> InHeap(h, props[i].value))
    && Distinct(props)
  }

  predicate Distinct<T>(props: seq<Prop<T>>) {
    forall i, j :: 0 <= i < j < |props| ==> props[i].key != props[j].key
  }

  predicate KindOk(h: Heap, kind: Kind) {
    match kind
    case Map(entries) => forall i :: 0 <= i < |entries| ==> InHeap(h, entries[i].0) && InHeap(h, entries[i].1)
    case Set(items) => ItemsOk(h, items)
    case Array(items) => ItemsOk(h, items)
    case Object(own, inherited) => PropsOk(h, own) && PropsOk(h, inherited)
    case Error(name, message, stack, own) => ItemsOk(h, [name, message, stack]) && PropsOk(h, own)
    case _ => true
  }

  ghost predicate Closed(h: Heap) {
    forall r :: r in h ==> KindOk(h, h[r].kind)
  }

  // ---- Properties by name ----

  function Lookup<T>(props: seq<Prop<T>>, key: string): (r: Option<T>)
    ensures r.None? <==> forall i :: 0 <= i < |props| ==> props[i].key != key
    ensures r.Some? ==> exists i :: 0 <= i < |props| && props[i].key == key && props[i].value == r.value
  {
    if props == [] then None
    else if props[|props| - 1].key == key then
      assert props[|props| - 1].value == props[|props| - 1].value;
      Some(props[|props| - 1].value)
    else Lookup(props[..|props| - 1], key)
  }

  function PlaceOf<T>(props: seq<Prop<T>>, key: string): (i: nat)
    ensures i <= |props|
    ensures i < |props| ==> props[i].key == key
    ensures i == |props| ==> forall j :: 0 <= j < |props| ==> props[j].key != key
  {
    if props == [] then 0
    else if props[0].key == key then 0
    else PlaceOf(props[1..], key) + 1
  }

  /** Defines a property: in its old place if the name is there, at the end otherwise. */
  function Put<T>(props: seq<Prop<T>>, key: string, value: T): (r: seq<Prop<T>>)
    requires Distinct(props)
    ensures Distinct(r) && Lookup(r, key) == Some(value)
    ensures forall i :: 0 <= i < |r| ==> r[i] == Prop(key, value) || (i < |props| && r[i] == props[i])
    ensures Lookup(props, key).None? ==> r == props + [Prop(key, value)]
  {
    var i := PlaceOf(props, key);
    var r := if i < |props| then props[i := Prop(key, value)] else props + [Prop(key, value)];
    assert r[i].key == key;
    r
  }

  function TextOf(h: Heap, v: Value): string
    requires InHeap(h, v)
  {
    match v
    case Undefined => "undefined"
    case Null => "null"
    case Str(s) => s
    case Num(s) => s
    case Bool(on) => if on then "true" else "false"
    case BigInt(s) => s
    case Symbol => "Symbol()"
    case Function(s) => s
    case Obj(r) => h[r].text
  }

  /** `Object.fromEntries`: keys become strings, and the last entry of a key wins. Symbols are skipped later. */
  function FromEntries(h: Heap, entries: seq<(Value, Value)>): (r: seq<Prop<Value>>)
    requires KindOk(h, Map(entries))
    ensures PropsOk(h, r)
  {
    if entries == [] then []
    else
      var (key, value) := entries[|entries| - 1];
      var before := FromEntries(h, entries[..|entries| - 1]);
      if key.Symbol? then before else Put(before, TextOf(h, key), value)
  }

  lemma LookupFinds<T>(props: seq<Prop<T>>, j: nat)
    requires Distinct(props) && j < |props|
    ensures Lookup(props, props[j].key) == Some(props[j].value)
  {
  }

  lemma PutElsewhere<T>(props: seq<Prop<T>>, key: string, value: T, other: string)
    requires Distinct(props) && other != key
    ensures Lookup(Put(props, key, value), other) == Lookup(props, other)
  {
    var r := Put(props, key, value);
    if i :| 0 <= i < |props| && props[i].key == other {
      LookupFinds(props, i);
      LookupFinds(r, i);
    }
  }

  /** The name an entry gets; a symbol gets none. */
  function NameOf(h: Heap, key: Value): Option<string> {
    if key.Symbol? || !InHeap(h, key) then None else Some(TextOf(h, key))
  }

  /** The property of this name once a map has become an object. */
  function PropertyOf(h: Heap, entries: seq<(Value, Value)>, name: string): Option<Value>
    requires KindOk(h, Map(entries))
  {
    Lookup(FromEntries(h, entries), name)
  }

  lemma FinalEntryWins(h: Heap, entries: seq<(Value, Value)>)
    requires KindOk(h, Map(entries)) && entries != [] && NameOf(h, entries[|entries| - 1].0).Some?
    ensures PropertyOf(h, entries, NameOf(h, entries[|entries| - 1].0).value) == Some(entries[|entries| - 1].1)
  {
  }

  /** Entry `j` is `value` under `name`, and none behind it has this name. */
  ghost predicate IsLastOfName(h: Heap, entries: seq<(Value, Value)>, j: nat, name: string, value: Value) {
    && j < |entries| && NameOf(h, entries[j].0) == Some(name) && entries[j].1 == value
    && forall k :: j < k < |entries| ==> NameOf(h, entries[k].0) != Some(name)
  }

  lemma LastOfFront(h: Heap, entries: seq<(Value, Value)>, j: nat, name: string, value: Value)
    requires KindOk(h, Map(entries)) && IsLastOfName(h, entries, j, name, value) && j < |entries| - 1
    ensures KindOk(h, Map(entries[..|entries| - 1]))
    ensures IsLastOfName(h, entries[..|entries| - 1], j, name, value)
    ensures NameOf(h, entries[|entries| - 1].0) != Some(name)
  {
  }

  lemma OtherEntriesStay(h: Heap, entries: seq<(Value, Value)>, name: string)
    requires KindOk(h, Map(entries)) && entries != []
    requires NameOf(h, entries[|entries| - 1].0) != Some(name)
    ensures PropertyOf(h, entries, name) == PropertyOf(h, entries[..|entries| - 1], name)
  {
    var (last, front) := (entries[|entries| - 1], entries[..|entries| - 1]);
    if !last.0.Symbol? {
      PutElsewhere(FromEntries(h, front), TextOf(h, last.0), last.1, name);
    }
  }

  /** Of the entries whose keys have the same text, the last one is the property. */
  lemma {:induction false} LastEntryWins(h: Heap, entries: seq<(Value, Value)>, j: nat, name: string, value: Value)
    requires KindOk(h, Map(entries)) && IsLastOfName(h, entries, j, name, value)
    ensures PropertyOf(h, entries, name) == Some(value)
    decreases |entries|
  {
    if j == |entries| - 1 {
      FinalEntryWins(h, entries);
    } else {
      LastOfFront(h, entries, j, name, value);
      LastEntryWins(h, entries[..|entries| - 1], j, name, value);
      OtherEntriesStay(h, entries, name);
    }
  }

  /** Every property is one of the entries. */
  lemma {:induction false} PropertiesAreEntries(h: Heap, entries: seq<(Value, Value)>, i: nat) returns (j: nat)
    requires KindOk(h, Map(entries)) && i < |FromEntries(h, entries)|
    ensures j < |entries| && !entries[j].0.Symbol?
    ensures FromEntries(h, entries)[i] == Prop(TextOf(h, entries[j].0), entries[j].1)
    decreases |entries|
  {
    var n := |entries| - 1;
    var before := FromEntries(h, entries[..n]);
    if i < |before| && FromEntries(h, entries)[i] == before[i] {
      j := PropertiesAreEntries(h, entries[..n], i);
    } else {
      j := n;
    }
  }

  // ---- The rules ----

  const REDACTED := "[REDACTED]"

  datatype Options =
    | NoOptions
    | KeySet(excludeKeys: seq<string>)
    | Options(excludeKeys: seq<string>, redactKeys: seq<string>, replacement: Option<string>)

  datatype Matchers = Matchers(flatExclude: set<string>, pathExclude: set<string>, flatRedact: set<string>,
                               pathRedact: set<string>, replacement: string)

  function LowerCase(c: char): char {
    if 'A' <= c <= 'Z' then (c as int + 32) as char else c
  }

  function Normalized(key: string): string {
    if key == "" then ""
    else
      var rest := Normalized(key[1..]);
      if key[0] == '_' || key[0] == '-' then rest else [LowerCase(key[0])] + rest
  }

  predicate IsRedacted(key: string, path: string, m: Matchers) {
    Normalized(key) in m.flatRedact || Normalized(path) in m.pathRedact
  }

  predicate IsExcluded(key: string, path: string, m: Matchers) {
    key in m.flatExclude || path in m.pathExclude
  }

  /** A rule with a dot is compared with the path, any other with the name alone. */
  predicate ExcludeRuleHits(rule: string, key: string, path: string) {
    if '.' in rule then rule == path else rule == key
  }

  predicate RedactRuleHits(rule: string, key: string, path: string) {
    if '.' in rule then Alike(rule, path) else Alike(rule, key)
  }

  /** The same letter in upper and in lower case, or the same character. */
  predicate SameLetter(c: char, d: char) {
    || c == d
    || ('A' <= c <= 'Z' && 'a' <= d <= 'z' && d - 'a' == c - 'A')
    || ('A' <= d <= 'Z' && 'a' <= c <= 'z' && c - 'a' == d - 'A')
  }

  /** Two names are alike if they differ in nothing but the case of letters, and in `_` and `-` left in or out. */
  predicate Alike(a: string, b: string)
    decreases |a| + |b|
  {
    || (a == "" && b == "")
    || (a != "" && (a[0] == '_' || a[0] == '-') && Alike(a[1..], b))
    || (b != "" && (b[0] == '_' || b[0] == '-') && Alike(a, b[1..]))
    || (a != "" && b != "" && SameLetter(a[0], b[0]) && Alike(a[1..], b[1..]))
  }

  predicate IsDropped(a: string) {
    a != "" && (a[0] == '_' || a[0] == '-')
  }

  /** The normal form is one for exactly the names that are alike. */
  lemma {:induction false} NormalizedIffAlike(a: string, b: string)
    ensures Normalized(a) == Normalized(b) <==> Alike(a, b)
    decreases |a| + |b|
  {
    if IsDropped(a) {
      NormalizedIffAlike(a[1..], b);
      HeadsAlike(a, b);
    } else if IsDropped(b) {
      NormalizedIffAlike(a, b[1..]);
      if Alike(a, b) {
        AlikeIsNormalized(a, b);
      }
    } else if a != "" && b != "" {
      NormalizedIffAlike(a[1..], b[1..]);
      var (x, y) := (Normalized(a), Normalized(b));
      assert x[1..] == Normalized(a[1..]) && y[1..] == Normalized(b[1..]);
      assert x == y <==> x[0] == y[0] && x[1..] == y[1..];
      SameLetterIffLower(a[0], b[0]);
    }
  }

  lemma SameLetterIffLower(c: char, d: char)
    ensures LowerCase(c) == LowerCase(d) <==> SameLetter(c, d)
  {
  }

  /** A head that is dropped on the left may as well be dropped first. */
  lemma HeadsAlike(a: string, b: string)
    requires IsDropped(a) && (Normalized(a[1..]) == Normalized(b) <==> Alike(a[1..], b))
    ensures Normalized(a) == Normalized(b) <==> Alike(a, b)
  {
    if Alike(a, b) {
      AlikeIsNormalized(a, b);
    }
  }

  lemma {:induction false} AlikeIsNormalized(a: string, b: string)
    requires Alike(a, b)
    ensures Normalized(a) == Normalized(b)
    decreases |a| + |b|
  {
    if a == "" && b == "" {
    } else if IsDropped(a) && Alike(a[1..], b) {
      AlikeIsNormalized(a[1..], b);
    } else if IsDropped(b) && Alike(a, b[1..]) {
      AlikeIsNormalized(a, b[1..]);
    } else {
      SameLetterIffLower(a[0], b[0]);
      AlikeIsNormalized(a[1..], b[1..]);
    }
  }

  lemma {:induction false} AlikeItself(a: string)
    ensures Alike(a, a)
  {
    if a != "" {
      AlikeItself(a[1..]);
    }
  }

  function ExcludeRules(options: Options): seq<string> {
    if options.NoOptions? then [] else options.excludeKeys
  }

  function RedactRules(options: Options): seq<string> {
    if options.Options? then options.redactKeys else []
  }

  /** An empty replacement counts as none. */
  function Replacement(options: Options): string {
    if options.Options? && options.replacement.Some? && options.replacement.value != ""
    then options.replacement.value else REDACTED
  }

  ghost predicate Compiles(options: Options, m: Matchers) {
    && m.replacement == Replacement(options)
    && (forall key, path :: IsExcluded(key, path, m) <==>
          exists rule :: rule in ExcludeRules(options) && ExcludeRuleHits(rule, key, path))
    && (forall key, path :: IsRedacted(key, path, m) <==>
          exists rule :: rule in RedactRules(options) && RedactRuleHits(rule, key, path))
  }

  lemma {:induction false} DotsStay(key: string)
    ensures '.' in Normalized(key) <==> '.' in key
  {
    if key != "" {
      DotsStay(key[1..]);
      assert key == [key[0]] + key[1..];
      assert LowerCase(key[0]) == '.' <==> key[0] == '.';
    }
  }

  method SortExcludes(rules: seq<string>) returns (flatExclude: set<string>, pathExclude: set<string>)
    ensures forall k :: k in flatExclude <==> k in rules && '.' !in k
    ensures forall k :: k in pathExclude <==> k in rules && '.' in k
  {
    flatExclude, pathExclude := {}, {};
    for i := 0 to |rules|
      invariant forall k :: k in flatExclude <==> k in rules[..i] && '.' !in k
      invariant forall k :: k in pathExclude <==> k in rules[..i] && '.' in k
    {
      assert rules[..i + 1] == rules[..i] + [rules[i]];
      if '.' in rules[i] {
        pathExclude := pathExclude + {rules[i]};
      } else {
        flatExclude := flatExclude + {rules[i]};
      }
    }
    assert rules[..|rules|] == rules;
  }

  /** Whether some rule has this normal form. */
  ghost predicate IsNormalOf(normalized: string, rules: seq<string>) {
    exists j :: 0 <= j < |rules| && Normalized(rules[j]) == normalized
  }

  lemma OneMoreNormal(rules: seq<string>, i: nat)
    requires i < |rules|
    ensures forall k :: IsNormalOf(k, rules[..i + 1]) <==> IsNormalOf(k, rules[..i]) || k == Normalized(rules[i])
  {
    var (before, after) := (rules[..i], rules[..i + 1]);
    assert after[i] == rules[i];
    forall k | IsNormalOf(k, before) ensures IsNormalOf(k, after) {
      var j :| 0 <= j < |before| && Normalized(before[j]) == k;
      assert after[j] == before[j];
    }
    forall k | IsNormalOf(k, after) && k != Normalized(rules[i]) ensures IsNormalOf(k, before) {
      var j :| 0 <= j < |after| && Normalized(after[j]) == k;
      assert before[j] == after[j];
    }
  }

  method SortRedacts(rules: seq<string>) returns (flatRedact: set<string>, pathRedact: set<string>)
    ensures forall k :: k in flatRedact <==> IsNormalOf(k, rules) && '.' !in k
    ensures forall k :: k in pathRedact <==> IsNormalOf(k, rules) && '.' in k
  {
    flatRedact, pathRedact := {}, {};
    for i := 0 to |rules|
      invariant forall k :: k in flatRedact <==> IsNormalOf(k, rules[..i]) && '.' !in k
      invariant forall k :: k in pathRedact <==> IsNormalOf(k, rules[..i]) && '.' in k
    {
      OneMoreNormal(rules, i);
      var normalized := Normalized(rules[i]);
      if '.' in normalized {
        pathRedact := pathRedact + {normalized};
      } else {
        flatRedact := flatRedact + {normalized};
      }
    }
    assert rules[..|rules|] == rules;
  }

  /** The two loops of `buildMatchers`, and its defaults. */
  method BuildMatchers(options: Options) returns (m: Matchers)
    ensures Compiles(options, m)
  {
    var flatExclude, pathExclude := SortExcludes(ExcludeRules(options));
    var flatRedact, pathRedact := SortRedacts(RedactRules(options));
    m := Matchers(flatExclude, pathExclude, flatRedact, pathRedact, Replacement(options));
    ExcludesAreCompiled(ExcludeRules(options), m);
    RedactsAreCompiled(RedactRules(options), m);
  }

  lemma ExcludesAreCompiled(rules: seq<string>, m: Matchers)
    requires forall k :: k in m.flatExclude <==> k in rules && '.' !in k
    requires forall k :: k in m.pathExclude <==> k in rules && '.' in k
    ensures forall key, path :: IsExcluded(key, path, m) <==>
              exists rule :: rule in rules && ExcludeRuleHits(rule, key, path)
  {
    forall key, path
      ensures IsExcluded(key, path, m) <==> exists rule :: rule in rules && ExcludeRuleHits(rule, key, path)
    {
      if key in m.flatExclude {
        assert key in rules && ExcludeRuleHits(key, key, path);
      }
      if path in m.pathExclude {
        assert path in rules && ExcludeRuleHits(path, key, path);
      }
    }
  }

  lemma RedactsAreCompiled(rules: seq<string>, m: Matchers)
    requires forall k :: k in m.flatRedact <==> IsNormalOf(k, rules) && '.' !in k
    requires forall k :: k in m.pathRedact <==> IsNormalOf(k, rules) && '.' in k
    ensures forall key, path :: IsRedacted(key, path, m) <==>
              exists rule :: rule in rules && RedactRuleHits(rule, key, path)
  {
    forall key, path
      ensures IsRedacted(key, path, m) <==> exists rule :: rule in rules && RedactRuleHits(rule, key, path)
    {
      if Normalized(key) in m.flatRedact {
        var j :| 0 <= j < |rules| && Normalized(rules[j]) == Normalized(key);
        DotsStay(rules[j]);
        NormalizedIffAlike(rules[j], key);
        assert RedactRuleHits(rules[j], key, path);
      }
      if Normalized(path) in m.pathRedact {
        var j :| 0 <= j < |rules| && Normalized(rules[j]) == Normalized(path);
        DotsStay(rules[j]);
        NormalizedIffAlike(rules[j], path);
        assert RedactRuleHits(rules[j], key, path);
      }
      if rule :| rule in rules && RedactRuleHits(rule, key, path) {
        DotsStay(rule);
        NormalizedIffAlike(rule, if '.' in rule then path else key);
      }
    }
  }

  // ---- What the walk returns ----

  function Join(path: string, key: string): string {
    if path == "" then key else path + "." + key
  }

  /** What reading a property gives: an own one shadows an inherited one. */
  function Property(own: seq<Prop<Value>>, inherited: seq<Prop<Value>>, key: string): Option<Value> {
    if Lookup(own, key).Some? then Lookup(own, key) else Lookup(inherited, key)
  }

  predicate IsStream(own: seq<Prop<Value>>, inherited: seq<Prop<Value>>) {
    var (pipe, on) := (Property(own, inherited, "pipe"), Property(own, inherited, "on"));
    pipe.Some? && pipe.value.Function? && on.Some? && on.value.Function?
  }

  predicate IsBuffer(h: Heap, v: Value) {
    v.Obj? && v.ref in h && h[v.ref].kind.Binary? && h[v.ref].kind.isBuffer
  }

  predicate IsFile(h: Heap, own: seq<Prop<Value>>, inherited: seq<Prop<Value>>) {
    var buffer := Property(own, inherited, "buffer");
    Property(own, inherited, "originalname").Some? && buffer.Some? && IsBuffer(h, buffer.value)
  }

  predicate IsPlain(h: Heap, own: seq<Prop<Value>>, inherited: seq<Prop<Value>>) {
    !IsStream(own, inherited) && !IsFile(h, own, inherited)
  }

  function SanitizedPrimitive(v: Value): Out
    requires !v.Obj?
  {
    match v
    case Undefined => Missing
    case Null => Nil
    case Str(s) => Text(s)
    case Num(s) => Number(s)
    case Bool(on) => Flag(on)
    case BigInt(_) => Text("[bigint]")
    case Symbol => Text("[symbol]")
    case Function(_) => Text("[Function]")
  }

  /** What is left as it is. */
  function PassedThrough(v: Value): Out {
    match v
    case Undefined => Missing
    case Null => Nil
    case Str(s) => Text(s)
    case Num(s) => Number(s)
    case Bool(on) => Flag(on)
    case _ => Raw(v)
  }

  /** The properties of an error that are shown. */
  function Shown(kind: Kind): (r: seq<Prop<Value>>)
    requires kind.Error?
    ensures |r| == 3
  {
    [Prop("name", kind.name), Prop("message", kind.message), Prop("stack", kind.stack)]
  }

  /** Neither the walk nor a rule touches them. */
  function SanitizedError(kind: Kind): Out
    requires kind.Error?
  {
    Record([Prop("name", PassedThrough(kind.name)), Prop("message", PassedThrough(kind.message)),
            Prop("stack", PassedThrough(kind.stack))])
  }

  /** `up` holds the objects the walk is inside of. */
  ghost function Sanitized(h: Heap, v: Value, path: string, m: Matchers, up: set<Ref>): Out
    requires Closed(h) && InHeap(h, v)
    decreases |h.Keys - up|, 0, 0
  {
    if !v.Obj? then SanitizedPrimitive(v)
    else if v.ref in up then Text("[Circular]")
    else
      SmallerRest(h.Keys, up, up + {v.ref}, v.ref);
      SanitizedNode(h, h[v.ref], path, m, up + {v.ref})
  }

  ghost function SanitizedNode(h: Heap, node: Node, path: string, m: Matchers, up: set<Ref>): Out
    requires Closed(h) && KindOk(h, node.kind)
    decreases |h.Keys - up|, 3, 0
  {
    match node.kind
    case Date(iso) => Text(if iso.Some? then iso.value else "[Invalid Date]")
    case RegExp => Text(node.text)
    case Error(_, _, _, _) => SanitizedError(node.kind)
    case Binary(_) => Text("[Binary Data]")
    case Map(entries) => SanitizedObject(h, FromEntries(h, entries), [], path, m, up)
    case Set(items) => List(SanitizedItems(h, items, path, m, up))
    case Array(items) => List(SanitizedItems(h, items, path, m, up))
    case Object(own, inherited) => SanitizedObject(h, own, inherited, path, m, up)
  }

  ghost function SanitizedObject(h: Heap, own: seq<Prop<Value>>, inherited: seq<Prop<Value>>, path: string,
                                 m: Matchers, up: set<Ref>): Out
    requires Closed(h) && PropsOk(h, own) && PropsOk(h, inherited)
    decreases |h.Keys - up|, 2, 0
  {
    if IsStream(own, inherited) then Text("[Stream]")
    else if IsFile(h, own, inherited) then
      Text("[File: " + TextOf(h, OriginalName(h, own, inherited)) + "]")
    else Record(SanitizedProps(h, own, path, m, up))
  }

  function OriginalName(h: Heap, own: seq<Prop<Value>>, inherited: seq<Prop<Value>>): (v: Value)
    requires PropsOk(h, own) && PropsOk(h, inherited) && Property(own, inherited, "originalname").Some?
    ensures InHeap(h, v)
  {
    Property(own, inherited, "originalname").value
  }

  ghost function SanitizedItems(h: Heap, items: seq<Value>, path: string, m: Matchers, up: set<Ref>): (r: seq<Out>)
    requires Closed(h) && ItemsOk(h, items)
    ensures |r| == |items|
    ensures forall i :: 0 <= i < |items| ==> r[i] == Sanitized(h, items[i], path, m, up)
    decreases |h.Keys - up|, 1, |items|
  {
    if items == [] then []
    else
      var n := |items| - 1;
      SanitizedItems(h, items[..n], path, m, up) + [Sanitized(h, items[n], path, m, up)]
  }

  ghost function SanitizedProp(h: Heap, prop: Prop<Value>, path: string, m: Matchers, up: set<Ref>): Out
    requires Closed(h) && InHeap(h, prop.value)
    decreases |h.Keys - up|, 0, 1
  {
    if IsRedacted(prop.key, Join(path, prop.key), m) then Text(m.replacement)
    else Sanitized(h, prop.value, Join(path, prop.key), m, up)
  }

  ghost function SanitizedProps(h: Heap, props: seq<Prop<Value>>, path: string, m: Matchers, up: set<Ref>):
    (r: seq<Prop<Out>>)
    requires Closed(h) && PropsOk(h, props)
    ensures Distinct(r)
    ensures forall i :: 0 <= i < |r| ==> exists j :: 0 <= j < |props| && props[j].key == r[i].key
    decreases |h.Keys - up|, 1, |props|
  {
    if props == [] then []
    else
      var n := |props| - 1;
      var before := SanitizedProps(h, props[..n], path, m, up);
      if IsExcluded(props[n].key, Join(path, props[n].key), m) then before
      else before + [Prop(props[n].key, SanitizedProp(h, props[n], path, m, up))]
  }

  lemma PrefixOk(h: Heap, props: seq<Prop<Value>>, i: nat)
    requires PropsOk(h, props) && i <= |props|
    ensures PropsOk(h, props[..i])
  {
  }

  lemma NextIsNew(h: Heap, props: seq<Prop<Value>>, i: nat, path: string, m: Matchers, up: set<Ref>)
    requires Closed(h) && PropsOk(h, props) && i < |props| && PropsOk(h, props[..i])
    ensures Lookup(SanitizedProps(h, props[..i], path, m, up), props[i].key).None?
  {
  }

  lemma PropsOneMore(h: Heap, props: seq<Prop<Value>>, i: nat, path: string, m: Matchers, up: set<Ref>)
    requires Closed(h) && i < |props| && PropsOk(h, props[..i]) && PropsOk(h, props[..i + 1])
    ensures SanitizedProps(h, props[..i + 1], path, m, up) ==
            if IsExcluded(props[i].key, Join(path, props[i].key), m) then SanitizedProps(h, props[..i], path, m, up)
            else SanitizedProps(h, props[..i], path, m, up) +
                 [Prop(props[i].key, SanitizedProp(h, props[i], path, m, up))]
  {
    assert props[..i + 1][..i] == props[..i];
  }

  lemma ItemsAre(h: Heap, items: seq<Value>, path: string, m: Matchers, up: set<Ref>, list: seq<Out>)
    requires Closed(h) && ItemsOk(h, items) && |list| == |items|
    requires forall j :: 0 <= j < |items| ==> list[j] == Sanitized(h, items[j], path, m, up)
    ensures list == SanitizedItems(h, items, path, m, up)
  {
  }

  // ---- The walk ----

  class Sanitizer {
    const heap: Heap
    const matchers: Matchers
    var ancestors: set<Ref>

    constructor (heap: Heap, matchers: Matchers)
      ensures this.heap == heap && this.matchers == matchers && ancestors == {}
    {
      this.heap, this.matchers, ancestors := heap, matchers, {};
    }

    method SanitizeValue(v: Value, path: string) returns (out: Out)
      requires Closed(heap) && InHeap(heap, v)
      modifies this
      ensures ancestors == old(ancestors)
      ensures out == Sanitized(heap, v, path, matchers, ancestors)
      decreases |heap.Keys - ancestors|, 0, 0
    {
      if !v.Obj? {
        return SanitizedPrimitive(v);
      }
      if v.ref in ancestors {
        return Text("[Circular]");
      }
      SmallerRest(heap.Keys, ancestors, ancestors + {v.ref}, v.ref);
      ancestors := ancestors + {v.ref};
      out := SanitizeNode(heap[v.ref], path);
      ancestors := ancestors - {v.ref};
      assert ancestors == old(ancestors);
    }

    method SanitizeNode(node: Node, path: string) returns (out: Out)
      requires Closed(heap) && KindOk(heap, node.kind)
      modifies this
      ensures ancestors == old(ancestors)
      ensures out == SanitizedNode(heap, node, path, matchers, ancestors)
      decreases |heap.Keys - ancestors|, 3, 0
    {
      match node.kind {
        case Date(iso) =>
          out := Text(if iso.Some? then iso.value else "[Invalid Date]");
        case RegExp =>
          out := Text(node.text);
        case Error(_, _, _, _) =>
          out := SanitizedError(node.kind);
        case Binary(_) =>
          out := Text("[Binary Data]");
        case Map(entries) =>
          out := SanitizeObject(FromEntries(heap, entries), [], path);
        case Set(items) =>
          var list := SanitizeItems(items, path);
          out := List(list);
        case Array(items) =>
          var list := SanitizeItems(items, path);
          out := List(list);
        case Object(own, inherited) =>
          out := SanitizeObject(own, inherited, path);
      }
    }

    method SanitizeObject(own: seq<Prop<Value>>, inherited: seq<Prop<Value>>, path: string) returns (out: Out)
      requires Closed(heap) && PropsOk(heap, own) && PropsOk(heap, inherited)
      modifies this
      ensures ancestors == old(ancestors)
      ensures out == SanitizedObject(heap, own, inherited, path, matchers, ancestors)
      decreases |heap.Keys - ancestors|, 2, 0
    {
      if IsStream(own, inherited) {
        return Text("[Stream]");
      }
      if IsFile(heap, own, inherited) {
        return Text("[File: " + TextOf(heap, OriginalName(heap, own, inherited)) + "]");
      }
      var fields := CopyProperties(own, path);
      out := Record(fields);
    }

    method SanitizeItems(items: seq<Value>, path: string) returns (list: seq<Out>)
      requires Closed(heap) && ItemsOk(heap, items)
      modifies this
      ensures ancestors == old(ancestors)
      ensures list == SanitizedItems(heap, items, path, matchers, ancestors)
      decreases |heap.Keys - ancestors|, 1, 0
    {
      list := [];
      for i := 0 to |items|
        invariant ancestors == old(ancestors)
        invariant |list| == i
        invariant forall j :: 0 <= j < i ==> list[j] == Sanitized(heap, items[j], path, matchers, ancestors)
      {
        var item := SanitizeValue(items[i], path);
        list := list + [item];
      }
      ItemsAre(heap, items, path, matchers, ancestors, list);
    }

    method CopyProperties(source: seq<Prop<Value>>, path: string) returns (target: seq<Prop<Out>>)
      requires Closed(heap) && PropsOk(heap, source)
      modifies this
      ensures ancestors == old(ancestors)
      ensures target == SanitizedProps(heap, source, path, matchers, ancestors)
      decreases |heap.Keys - ancestors|, 1, 0
    {
      target := [];
      for i := 0 to |source|
        invariant ancestors == old(ancestors)
        invariant target == SanitizedProps(heap, source[..i], path, matchers, ancestors)
      {
        var (key, v) := (source[i].key, source[i].value);
        var currentPath := Join(path, key);
        PrefixOk(heap, source, i);
        PrefixOk(heap, source, i + 1);
        PropsOneMore(heap, source, i, path, matchers, ancestors);
        NextIsNew(heap, source, i, path, matchers, ancestors);
        if IsExcluded(key, currentPath, matchers) {
          continue;
        }
        var value := Text(matchers.replacement);
        if !IsRedacted(key, currentPath, matchers) {
          value := SanitizeValue(v, currentPath);
        }
        target := Put(target, key, value);
      }
      assert source[..|source|] == source;
    }
  }

  method SafeSanitize(h: Heap, v: Value, options: Options) returns (out: Out)
    requires Closed(h) && InHeap(h, v)
    ensures exists m :: Compiles(options, m) && out == Sanitized(h, v, "", m, {})
  {
    var matchers := BuildMatchers(options);
    var sanitizer := new Sanitizer(h, matchers);
    out := sanitizer.SanitizeValue(v, "");
  }

  // ---- What a rule guarantees ----

  /** Property `key`, found at `path`, is not excluded, and if a rule masks it then it holds the replacement. */
  predicate PropObeys(m: Matchers, key: string, path: string, value: Out) {
    !IsExcluded(key, path, m) && (IsRedacted(key, path, m) ==> value == Text(m.replacement))
  }

  datatype Step = Key(key: string) | Index(i: nat)

  datatype Visit = Visit(value: Value, path: string, up: set<Ref>)

  /** The properties the walk goes through, for an object that is not a stream or a file and for a map. */
  function Fields(h: Heap, node: Node): (r: Option<seq<Prop<Value>>>)
    requires KindOk(h, node.kind)
    ensures r.Some? ==> PropsOk(h, r.value)
  {
    match node.kind
    case Map(entries) =>
      var props := FromEntries(h, entries);
      if IsPlain(h, props, []) then Some(props) else None
    case Object(own, inherited) => if IsPlain(h, own, inherited) then Some(own) else None
    case _ => None
  }

  function Child(h: Heap, node: Node, step: Step): (r: Option<Value>)
    requires KindOk(h, node.kind)
    ensures r.Some? ==> InHeap(h, r.value)
  {
    match step
    case Key(k) =>
      var props := Fields(h, node);
      if props.Some? then Lookup(props.value, k) else None
    case Index(i) =>
      if (node.kind.Set? || node.kind.Array?) && i < |node.kind.items| then Some(node.kind.items[i]) else None
  }

  function StepPath(path: string, step: Step): string {
    if step.Key? then Join(path, step.key) else path
  }

  predicate StepIsOpen(path: string, m: Matchers, step: Step) {
    step.Key? ==> !IsExcluded(step.key, Join(path, step.key), m) && !IsRedacted(step.key, Join(path, step.key), m)
  }

  /** Follows a trail of property names and indices that no rule and no cycle cuts off. */
  ghost function Walk(h: Heap, v: Value, path: string, m: Matchers, up: set<Ref>, trail: seq<Step>): (r: Option<Visit>)
    requires Closed(h) && InHeap(h, v)
    ensures r.Some? ==> InHeap(h, r.value.value)
    decreases |trail|
  {
    if trail == [] then Some(Visit(v, path, up))
    else if v.Obj? && v.ref !in up && StepIsOpen(path, m, trail[0]) && Child(h, h[v.ref], trail[0]).Some? then
      Walk(h, Child(h, h[v.ref], trail[0]).value, StepPath(path, trail[0]), m, up + {v.ref}, trail[1..])
    else None
  }

  function Follow(out: Out, trail: seq<Step>): Option<Out>
    decreases |trail|
  {
    if trail == [] then Some(out)
    else
      match trail[0]
      case Key(k) =>
        if out.Record? && Lookup(out.fields, k).Some? then Follow(Lookup(out.fields, k).value, trail[1..]) else None
      case Index(i) =>
        if out.List? && i < |out.items| then Follow(out.items[i], trail[1..]) else None
  }

  /** Every property of the result is the fate of one of the properties given. */
  lemma {:induction false} PropOrigin(h: Heap, props: seq<Prop<Value>>, path: string, m: Matchers, up: set<Ref>, i: nat)
    returns (j: nat)
    requires Closed(h) && PropsOk(h, props) && i < |SanitizedProps(h, props, path, m, up)|
    ensures j < |props| && !IsExcluded(props[j].key, Join(path, props[j].key), m)
    ensures SanitizedProps(h, props, path, m, up)[i] == Prop(props[j].key, SanitizedProp(h, props[j], path, m, up))
    decreases |props|
  {
    var n := |props| - 1;
    if i < |SanitizedProps(h, props[..n], path, m, up)| {
      j := PropOrigin(h, props[..n], path, m, up, i);
    } else {
      j := n;
    }
  }

  lemma FrontStays(h: Heap, props: seq<Prop<Value>>, path: string, m: Matchers, up: set<Ref>, i: nat)
    requires Closed(h) && PropsOk(h, props) && props != [] && PropsOk(h, props[..|props| - 1])
    requires i < |SanitizedProps(h, props[..|props| - 1], path, m, up)|
    ensures i < |SanitizedProps(h, props, path, m, up)|
    ensures SanitizedProps(h, props, path, m, up)[i] == SanitizedProps(h, props[..|props| - 1], path, m, up)[i]
  {
  }

  lemma LastPlace(h: Heap, props: seq<Prop<Value>>, path: string, m: Matchers, up: set<Ref>) returns (i: nat)
    requires Closed(h) && PropsOk(h, props) && props != [] && PropsOk(h, props[..|props| - 1])
    requires var last := props[|props| - 1]; !IsExcluded(last.key, Join(path, last.key), m)
    ensures i < |SanitizedProps(h, props, path, m, up)|
    ensures SanitizedProps(h, props, path, m, up)[i]
         == Prop(props[|props| - 1].key, SanitizedProp(h, props[|props| - 1], path, m, up))
  {
    i := |SanitizedProps(h, props[..|props| - 1], path, m, up)|;
  }

  /** A property that is not excluded is in the result. */
  lemma {:induction false} PropPlace(h: Heap, props: seq<Prop<Value>>, path: string, m: Matchers, up: set<Ref>, j: nat)
    returns (i: nat)
    requires Closed(h) && PropsOk(h, props) && j < |props| && !IsExcluded(props[j].key, Join(path, props[j].key), m)
    ensures i < |SanitizedProps(h, props, path, m, up)|
    ensures SanitizedProps(h, props, path, m, up)[i] == Prop(props[j].key, SanitizedProp(h, props[j], path, m, up))
    decreases |props|
  {
    var n := |props| - 1;
    PrefixOk(h, props, n);
    if j < n {
      var front := props[..n];
      assert front[j] == props[j];
      i := PropPlace(h, front, path, m, up, j);
      FrontStays(h, props, path, m, up, i);
      assert SanitizedProps(h, props, path, m, up)[i] == SanitizedProps(h, front, path, m, up)[i];
    } else {
      i := LastPlace(h, props, path, m, up);
    }
  }

  /** What becomes of one property. */
  lemma PropFate(h: Heap, props: seq<Prop<Value>>, path: string, m: Matchers, up: set<Ref>, j: nat)
    requires Closed(h) && PropsOk(h, props) && j < |props|
    ensures Lookup(SanitizedProps(h, props, path, m, up), props[j].key)
         == (if IsExcluded(props[j].key, Join(path, props[j].key), m) then None
             else Some(SanitizedProp(h, props[j], path, m, up)))
  {
    var out := SanitizedProps(h, props, path, m, up);
    if IsExcluded(props[j].key, Join(path, props[j].key), m) {
      forall i | 0 <= i < |out| ensures out[i].key != props[j].key {
        var k := PropOrigin(h, props, path, m, up, i);
      }
    } else {
      var i := PropPlace(h, props, path, m, up, j);
      LookupFinds(out, i);
    }
  }

  lemma RecordOfFields(h: Heap, v: Value, path: string, m: Matchers, up: set<Ref>)
    requires Closed(h) && InHeap(h, v) && v.Obj? && v.ref !in up && Fields(h, h[v.ref]).Some?
    ensures Sanitized(h, v, path, m, up)
         == Record(SanitizedProps(h, Fields(h, h[v.ref]).value, path, m, up + {v.ref}))
  {
    var (node, up') := (h[v.ref], up + {v.ref});
    assert Sanitized(h, v, path, m, up) == SanitizedNode(h, node, path, m, up');
    match node.kind
    case Map(entries) =>
      assert SanitizedNode(h, node, path, m, up')
          == SanitizedObject(h, FromEntries(h, entries), [], path, m, up');
    case Object(own, inherited) =>
      assert SanitizedNode(h, node, path, m, up') == SanitizedObject(h, own, inherited, path, m, up');
  }

  lemma ListOfItems(h: Heap, v: Value, path: string, m: Matchers, up: set<Ref>)
    requires Closed(h) && InHeap(h, v) && v.Obj? && v.ref !in up
    requires h[v.ref].kind.Set? || h[v.ref].kind.Array?
    ensures Sanitized(h, v, path, m, up) == List(SanitizedItems(h, h[v.ref].kind.items, path, m, up + {v.ref}))
  {
    assert Sanitized(h, v, path, m, up) == SanitizedNode(h, h[v.ref], path, m, up + {v.ref});
  }

  lemma TextOtherwise(h: Heap, v: Value, path: string, m: Matchers, up: set<Ref>)
    requires Closed(h) && InHeap(h, v) && v.Obj? && v.ref !in up && Fields(h, h[v.ref]).None?
    requires !h[v.ref].kind.Set? && !h[v.ref].kind.Array? && !h[v.ref].kind.Error?
    ensures Sanitized(h, v, path, m, up).Text?
  {
    var (node, up') := (h[v.ref], up + {v.ref});
    assert Sanitized(h, v, path, m, up) == SanitizedNode(h, node, path, m, up');
    match node.kind
    case Map(entries) =>
      assert SanitizedNode(h, node, path, m, up')
          == SanitizedObject(h, FromEntries(h, entries), [], path, m, up');
    case Object(own, inherited) =>
      assert SanitizedNode(h, node, path, m, up') == SanitizedObject(h, own, inherited, path, m, up');
    case _ =>
  }

  lemma ErrorIsShown(h: Heap, v: Value, path: string, m: Matchers, up: set<Ref>)
    requires Closed(h) && InHeap(h, v) && v.Obj? && v.ref !in up && h[v.ref].kind.Error?
    ensures Sanitized(h, v, path, m, up) == SanitizedError(h[v.ref].kind)
  {
    assert Sanitized(h, v, path, m, up) == SanitizedNode(h, h[v.ref], path, m, up + {v.ref});
  }

  /** One open step of the walk is one step down the result. */
  lemma StepDown(h: Heap, v: Value, path: string, m: Matchers, up: set<Ref>, step: Step)
    requires Closed(h) && InHeap(h, v) && v.Obj? && v.ref !in up
    requires StepIsOpen(path, m, step) && Child(h, h[v.ref], step).Some?
    ensures Follow(Sanitized(h, v, path, m, up), [step])
         == Some(Sanitized(h, Child(h, h[v.ref], step).value, StepPath(path, step), m, up + {v.ref}))
  {
    if step.Key? {
      RecordOfFields(h, v, path, m, up);
      FollowKey(SanitizedProps(h, Fields(h, h[v.ref]).value, path, m, up + {v.ref}), step.key);
      KeyStepDown(h, Fields(h, h[v.ref]).value, path, m, up + {v.ref}, step.key);
    } else {
      IndexStepDown(h, v, path, m, up, step);
    }
  }

  lemma FollowKey(fields: seq<Prop<Out>>, key: string)
    ensures Follow(Record(fields), [Key(key)]) == Lookup(fields, key)
  {
  }

  lemma IndexStepDown(h: Heap, v: Value, path: string, m: Matchers, up: set<Ref>, step: Step)
    requires Closed(h) && InHeap(h, v) && v.Obj? && v.ref !in up && step.Index? && Child(h, h[v.ref], step).Some?
    ensures Follow(Sanitized(h, v, path, m, up), [step])
         == Some(Sanitized(h, Child(h, h[v.ref], step).value, path, m, up + {v.ref}))
  {
    ListOfItems(h, v, path, m, up);
  }

  lemma KeyStepDown(h: Heap, props: seq<Prop<Value>>, path: string, m: Matchers, up: set<Ref>, key: string)
    requires Closed(h) && PropsOk(h, props) && Lookup(props, key).Some?
    requires !IsExcluded(key, Join(path, key), m) && !IsRedacted(key, Join(path, key), m)
    ensures InHeap(h, Lookup(props, key).value)
    ensures Lookup(SanitizedProps(h, props, path, m, up), key)
         == Some(Sanitized(h, Lookup(props, key).value, Join(path, key), m, up))
  {
    var j :| 0 <= j < |props| && props[j].key == key && props[j].value == Lookup(props, key).value;
    PropFate(h, props, path, m, up, j);
  }

  lemma FollowStep(out: Out, trail: seq<Step>)
    requires trail != []
    ensures Follow(out, trail) == (if Follow(out, [trail[0]]).Some?
                                   then Follow(Follow(out, [trail[0]]).value, trail[1..]) else None)
  {
  }

  /** What no rule and no cycle cuts off is in the result, at the same place. */
  lemma {:induction false} TheRestSurvives(h: Heap, v: Value, path: string, m: Matchers, up: set<Ref>, trail: seq<Step>)
    requires Closed(h) && InHeap(h, v) && Walk(h, v, path, m, up, trail).Some?
    ensures var end := Walk(h, v, path, m, up, trail).value;
            Follow(Sanitized(h, v, path, m, up), trail) == Some(Sanitized(h, end.value, end.path, m, end.up))
    decreases |trail|
  {
    if trail != [] {
      StepDown(h, v, path, m, up, trail[0]);
      FollowStep(Sanitized(h, v, path, m, up), trail);
      TheRestSurvives(h, Child(h, h[v.ref], trail[0]).value, StepPath(path, trail[0]), m, up + {v.ref}, trail[1..]);
    }
  }

  /** The objects the walk is inside of are those it came through. */
  lemma {:induction false} UpIsTheTrail(h: Heap, v: Value, path: string, m: Matchers, up: set<Ref>, trail: seq<Step>, r: Ref)
    requires Closed(h) && InHeap(h, v) && Walk(h, v, path, m, up, trail).Some?
    ensures r in Walk(h, v, path, m, up, trail).value.up <==> r in up || CameThrough(h, v, path, m, up, trail, r)
    decreases |trail|
  {
    if trail != [] {
      var (child, rest) := (Child(h, h[v.ref], trail[0]).value, trail[1..]);
      var (path', up') := (StepPath(path, trail[0]), up + {v.ref});
      UpIsTheTrail(h, child, path', m, up', rest, r);
      assert VisitsAt(h, v, path, m, up, trail, 0, v.ref) by {
        assert trail[..0] == [];
      }
      forall k | 0 < k < |trail|
        ensures VisitsAt(h, v, path, m, up, trail, k, r) <==> VisitsAt(h, child, path', m, up', rest, k - 1, r)
      {
        assert trail[..k][1..] == rest[..k - 1];
      }
      if k :| 0 <= k < |rest| && VisitsAt(h, child, path', m, up', rest, k, r) {
        assert VisitsAt(h, v, path, m, up, trail, k + 1, r);
      }
      if k :| 0 <= k < |trail| && VisitsAt(h, v, path, m, up, trail, k, r) {
        assert k == 0 ==> r == v.ref;
        assert k > 0 ==> VisitsAt(h, child, path', m, up', rest, k - 1, r);
      }
    }
  }

  ghost predicate VisitsAt(h: Heap, v: Value, path: string, m: Matchers, up: set<Ref>, trail: seq<Step>, k: nat, r: Ref)
    requires Closed(h) && InHeap(h, v) && k <= |trail|
  {
    var visit := Walk(h, v, path, m, up, trail[..k]);
    visit.Some? && visit.value.value == Obj(r)
  }

  ghost predicate CameThrough(h: Heap, v: Value, path: string, m: Matchers, up: set<Ref>, trail: seq<Step>, r: Ref)
    requires Closed(h) && InHeap(h, v)
  {
    exists k :: 0 <= k < |trail| && VisitsAt(h, v, path, m, up, trail, k, r)
  }

  /**
   At the end of a trail that no rule cuts off: JSON primitives come out as they are, and an object that the
   trail came through before is a circular reference.
   */
  lemma LeavesSurvive(h: Heap, v: Value, m: Matchers, trail: seq<Step>)
    requires Closed(h) && InHeap(h, v) && Walk(h, v, "", m, {}, trail).Some?
    ensures var out := Follow(Sanitized(h, v, "", m, {}), trail);
            var end := Walk(h, v, "", m, {}, trail).value.value;
            && (end == Null ==> out == Some(Nil))
            && (end.Str? ==> out == Some(Text(end.text)))
            && (end.Num? ==> out == Some(Number(end.text)))
            && (end.Bool? ==> out == Some(Flag(end.on)))
            && (end.Obj? && CameThrough(h, v, "", m, {}, trail, end.ref) ==> out == Some(Text("[Circular]")))
  {
    TheRestSurvives(h, v, "", m, {}, trail);
    var end := Walk(h, v, "", m, {}, trail).value;
    if end.value.Obj? {
      UpIsTheTrail(h, v, "", m, {}, trail, end.value.ref);
    }
  }

  lemma {:induction false} FollowFurther(out: Out, trail: seq<Step>, step: Step)
    requires Follow(out, trail).Some?
    ensures Follow(out, trail + [step]) == Follow(Follow(out, trail).value, [step])
    decreases |trail|
  {
    if trail == [] {
      assert trail + [step] == [step];
    } else {
      FollowStep(out, trail);
      FollowStep(out, trail + [step]);
      assert (trail + [step])[1..] == trail[1..] + [step];
      FollowFurther(Follow(out, [trail[0]]).value, trail[1..], step);
    }
  }

  /**
   A property the walk comes to is dropped if a rule excludes it, holds the replacement if a rule masks it, and
   is sanitized otherwise.
   */
  lemma EveryPropertyIsDecided(h: Heap, v: Value, path: string, m: Matchers, up: set<Ref>, trail: seq<Step>, j: nat)
    requires Closed(h) && InHeap(h, v)
    requires var end := Walk(h, v, path, m, up, trail);
             && end.Some? && end.value.value.Obj? && end.value.value.ref !in end.value.up
             && var props := Fields(h, h[end.value.value.ref]);
             && props.Some? && j < |props.value|
    ensures var end := Walk(h, v, path, m, up, trail).value;
            var prop := Fields(h, h[end.value.ref]).value[j];
            var here := Join(end.path, prop.key);
            Follow(Sanitized(h, v, path, m, up), trail + [Key(prop.key)]) ==
            if IsExcluded(prop.key, here, m) then None
            else if IsRedacted(prop.key, here, m) then Some(Text(m.replacement))
            else Some(Sanitized(h, prop.value, here, m, end.up + {end.value.ref}))
  {
    var end := Walk(h, v, path, m, up, trail).value;
    var props := Fields(h, h[end.value.ref]).value;
    TheRestSurvives(h, v, path, m, up, trail);
    FollowFurther(Sanitized(h, v, path, m, up), trail, Key(props[j].key));
    RecordOfFields(h, end.value, end.path, m, end.up);
    PropFate(h, props, end.path, m, end.up + {end.value.ref}, j);
  }

  // ---- All that the result holds ----

  /** Something that an object holds: a property, which has a name, or an item, which has none. */
  datatype Edge<T> = Edge(name: Option<string>, value: T)

  function PropEdges<T>(props: seq<Prop<T>>): seq<Edge<T>> {
    seq(|props|, i requires 0 <= i < |props| => Edge(Some(props[i].key), props[i].value))
  }

  function ItemEdges<T>(items: seq<T>): seq<Edge<T>> {
    seq(|items|, i requires 0 <= i < |items| => Edge(None, items[i]))
  }

  /** A map holds its keys too, and both values when two keys have the same text. */
  function EntryEdges(h: Heap, entries: seq<(Value, Value)>): seq<Edge<Value>> {
    seq(2 * |entries|, i requires 0 <= i < 2 * |entries| =>
      if i < |entries| then Edge(None, entries[i].0)
      else Edge(NameOf(h, entries[i - |entries|].0), entries[i - |entries|].1))
  }

  /** All that an object of the graph holds. */
  function Holds(h: Heap, v: Value): seq<Edge<Value>> {
    if !v.Obj? || v.ref !in h then []
    else
      match h[v.ref].kind
      case Object(own, _) => PropEdges(own)
      case Error(_, _, _, own) => PropEdges(Shown(h[v.ref].kind)) + PropEdges(own)
      case Map(entries) => EntryEdges(h, entries)
      case Set(items) => ItemEdges(items)
      case Array(items) => ItemEdges(items)
      case _ => []
  }

  /** The same of the result. What was passed through holds what it held. */
  function OutHolds(h: Heap, out: Out): seq<Edge<Out>> {
    match out
    case List(items) => ItemEdges(items)
    case Record(fields) => PropEdges(fields)
    case Raw(v) =>
      var edges := Holds(h, v);
      seq(|edges|, i requires 0 <= i < |edges| => Edge(edges[i].name, PassedThrough(edges[i].value)))
    case _ => []
  }

  function Below(path: string, name: Option<string>): string {
    if name.Some? then Join(path, name.value) else path
  }

  /** Where a way leads in the graph; the numbers say which of the things held it takes. */
  function Leads(h: Heap, v: Value, way: seq<nat>): Option<Value>
    decreases |way|
  {
    if way == [] then Some(v)
    else if way[0] < |Holds(h, v)| then Leads(h, Holds(h, v)[way[0]].value, way[1..])
    else None
  }

  function PathAt(h: Heap, v: Value, path: string, way: seq<nat>): string
    decreases |way|
  {
    if way == [] || way[0] >= |Holds(h, v)| then path
    else
      var edge := Holds(h, v)[way[0]];
      PathAt(h, edge.value, Below(path, edge.name), way[1..])
  }

  /** The same in the result. */
  function OutLeads(h: Heap, out: Out, way: seq<nat>): Option<Out>
    decreases |way|
  {
    if way == [] then Some(out)
    else if way[0] < |OutHolds(h, out)| then OutLeads(h, OutHolds(h, out)[way[0]].value, way[1..])
    else None
  }

  function OutPathAt(h: Heap, out: Out, path: string, way: seq<nat>): string
    decreases |way|
  {
    if way == [] || way[0] >= |OutHolds(h, out)| then path
    else
      var edge := OutHolds(h, out)[way[0]];
      OutPathAt(h, edge.value, Below(path, edge.name), way[1..])
  }

  lemma {:induction false} OutLeadsOn(h: Heap, out: Out, path: string, way: seq<nat>, on: seq<nat>)
    requires OutLeads(h, out, way).Some?
    ensures OutLeads(h, out, way + on) == OutLeads(h, OutLeads(h, out, way).value, on)
    ensures OutPathAt(h, out, path, way + on)
         == OutPathAt(h, OutLeads(h, out, way).value, OutPathAt(h, out, path, way), on)
    decreases |way|
  {
    if way == [] {
      assert way + on == on;
    } else {
      var edge := OutHolds(h, out)[way[0]];
      assert (way + on)[1..] == way[1..] + on;
      OutLeadsOn(h, edge.value, Below(path, edge.name), way[1..], on);
    }
  }

  lemma {:induction false} LeadsOn(h: Heap, v: Value, way: seq<nat>, on: seq<nat>)
    requires Leads(h, v, way).Some?
    ensures Leads(h, v, way + on) == Leads(h, Leads(h, v, way).value, on)
    decreases |way|
  {
    if way == [] {
      assert way + on == on;
    } else {
      var next := Holds(h, v)[way[0]].value;
      assert (way + on)[0] == way[0] && (way + on)[1..] == way[1..] + on;
      assert Leads(h, v, way) == Leads(h, next, way[1..]) && Leads(h, v, way + on) == Leads(h, next, way[1..] + on);
      LeadsOn(h, next, way[1..], on);
    }
  }

  lemma PassedHolds(h: Heap, v: Value, i: nat)
    ensures |OutHolds(h, PassedThrough(v))| == |Holds(h, v)|
    ensures i < |Holds(h, v)| ==>
              OutHolds(h, PassedThrough(v))[i] == Edge(Holds(h, v)[i].name, PassedThrough(Holds(h, v)[i].value))
  {
  }

  /** What is passed through leads where it led, under the same names. */
  lemma {:induction false} PassedLeads(h: Heap, v: Value, path: string, way: seq<nat>)
    ensures OutPathAt(h, PassedThrough(v), path, way) == PathAt(h, v, path, way)
    ensures OutLeads(h, PassedThrough(v), way)
         == (if Leads(h, v, way).Some? then Some(PassedThrough(Leads(h, v, way).value)) else None)
    decreases |way|
  {
    if way != [] && way[0] < |Holds(h, v)| {
      var edge := Holds(h, v)[way[0]];
      PassedHolds(h, v, way[0]);
      PassedLeads(h, edge.value, Below(path, edge.name), way[1..]);
    }
  }

  // ---- Where it comes from ----

  /** How a place of the result came about: sanitized, masked, or passed through in a field of an error. */
  datatype Origin =
    | Walked(trail: seq<Step>)
    | Masked(trail: seq<Step>)
    | Passed(trail: seq<Step>, field: nat, way: seq<nat>)

  /** The trail comes to an object that the walk is not inside of yet. */
  ghost predicate Enters(h: Heap, end: Option<Visit>) {
    end.Some? && end.value.value.Obj? && end.value.value.ref in h && end.value.value.ref !in end.value.up
  }

  ghost predicate EntersError(h: Heap, end: Option<Visit>) {
    Enters(h, end) && h[end.value.value.ref].kind.Error?
  }

  ghost predicate IsOrigin(h: Heap, v: Value, path: string, m: Matchers, up: set<Ref>, way: seq<nat>, origin: Origin)
    requires Closed(h) && InHeap(h, v)
  {
    var out := Sanitized(h, v, path, m, up);
    var (to, at) := (OutLeads(h, out, way), OutPathAt(h, out, path, way));
    var end := Walk(h, v, path, m, up, origin.trail);
    match origin
    case Walked(trail) =>
      && |way| == |trail| && end.Some? && at == end.value.path
      && to == Some(Sanitized(h, end.value.value, at, m, end.value.up))
    case Masked(trail) => |way| == |trail| + 1 && Enters(h, end) && to == Some(Text(m.replacement))
    case Passed(trail, field, rest) =>
      && |way| == |trail| + 1 + |rest| && EntersError(h, end) && field < 3
      && var shown := Shown(h[end.value.value.ref].kind)[field];
      && at == PathAt(h, shown.value, Join(end.value.path, shown.key), rest)
      && Leads(h, shown.value, rest).Some? && to == Some(PassedThrough(Leads(h, shown.value, rest).value))
  }

  function Prepended(step: Step, origin: Origin): Origin {
    origin.(trail := [step] + origin.trail)
  }

  /** Every place of the result is one of these. */
  lemma {:induction false} EveryPlaceHasOrigin(h: Heap, v: Value, path: string, m: Matchers, up: set<Ref>, way: seq<nat>)
    returns (origin: Origin)
    requires Closed(h) && InHeap(h, v) && OutLeads(h, Sanitized(h, v, path, m, up), way).Some?
    ensures IsOrigin(h, v, path, m, up, way, origin)
    decreases |way|
  {
    if way == [] {
      return Walked([]);
    }
    assert v.Obj? && v.ref !in up;
    var up' := up + {v.ref};
    if Fields(h, h[v.ref]).Some? {
      origin := FieldHasOrigin(h, v, path, m, up, way);
    } else if h[v.ref].kind.Set? || h[v.ref].kind.Array? {
      ListOfItems(h, v, path, m, up);
      var below := EveryPlaceHasOrigin(h, h[v.ref].kind.items[way[0]], path, m, up', way[1..]);
      origin := Prepended(Index(way[0]), below);
      OriginIsBelow(h, v, path, m, up, Index(way[0]), way, below);
    } else if h[v.ref].kind.Error? {
      var shown := Shown(h[v.ref].kind)[way[0]];
      PassedLeads(h, shown.value, Join(path, shown.key), way[1..]);
      origin := Passed([], way[0], way[1..]);
    } else {
      TextOtherwise(h, v, path, m, up);
    }
  }

  lemma {:induction false} FieldHasOrigin(h: Heap, v: Value, path: string, m: Matchers, up: set<Ref>, way: seq<nat>)
    returns (origin: Origin)
    requires Closed(h) && InHeap(h, v) && v.Obj? && v.ref !in up && Fields(h, h[v.ref]).Some?
    requires way != [] && OutLeads(h, Sanitized(h, v, path, m, up), way).Some?
    ensures IsOrigin(h, v, path, m, up, way, origin)
    decreases |way|, 0
  {
    var (props, up') := (Fields(h, h[v.ref]).value, up + {v.ref});
    RecordOfFields(h, v, path, m, up);
    var j := PropOrigin(h, props, path, m, up', way[0]);
    var (key, value) := (props[j].key, props[j].value);
    if IsRedacted(key, Join(path, key), m) {
      return Masked([]);
    }
    LookupFinds(props, j);
    var below := EveryPlaceHasOrigin(h, value, Join(path, key), m, up', way[1..]);
    origin := Prepended(Key(key), below);
    OriginIsBelow(h, v, path, m, up, Key(key), way, below);
  }

  lemma OriginIsBelow(h: Heap, v: Value, path: string, m: Matchers, up: set<Ref>, step: Step, way: seq<nat>, below: Origin)
    requires Closed(h) && InHeap(h, v) && v.Obj? && v.ref !in up && way != []
    requires StepIsOpen(path, m, step) && Child(h, h[v.ref], step).Some?
    requires var out := Sanitized(h, v, path, m, up);
             && way[0] < |OutHolds(h, out)|
             && var edge := OutHolds(h, out)[way[0]];
             && Below(path, edge.name) == StepPath(path, step)
             && edge.value == Sanitized(h, Child(h, h[v.ref], step).value, StepPath(path, step), m, up + {v.ref})
    requires IsOrigin(h, Child(h, h[v.ref], step).value, StepPath(path, step), m, up + {v.ref}, way[1..], below)
    ensures IsOrigin(h, v, path, m, up, way, Prepended(step, below))
  {
    assert ([step] + below.trail)[1..] == below.trail;
    assert Walk(h, v, path, m, up, [step] + below.trail)
        == Walk(h, Child(h, h[v.ref], step).value, StepPath(path, step), m, up + {v.ref}, below.trail);
  }

  /** And what the walk comes to has a place in the result. */
  lemma {:induction false} WalkHasPlace(h: Heap, v: Value, path: string, m: Matchers, up: set<Ref>, trail: seq<Step>)
    returns (way: seq<nat>)
    requires Closed(h) && InHeap(h, v) && Walk(h, v, path, m, up, trail).Some?
    ensures IsOrigin(h, v, path, m, up, way, Walked(trail))
    decreases |trail|
  {
    if trail == [] {
      return [];
    }
    var i := StepHasPlace(h, v, path, m, up, trail[0]);
    var child := Child(h, h[v.ref], trail[0]).value;
    var rest := WalkHasPlace(h, child, StepPath(path, trail[0]), m, up + {v.ref}, trail[1..]);
    way := [i] + rest;
    assert way[1..] == rest && [trail[0]] + trail[1..] == trail;
    OriginIsBelow(h, v, path, m, up, trail[0], way, Walked(trail[1..]));
  }

  lemma StepHasPlace(h: Heap, v: Value, path: string, m: Matchers, up: set<Ref>, step: Step) returns (i: nat)
    requires Closed(h) && InHeap(h, v) && v.Obj? && v.ref !in up
    requires StepIsOpen(path, m, step) && Child(h, h[v.ref], step).Some?
    ensures var out := Sanitized(h, v, path, m, up);
            && i < |OutHolds(h, out)|
            && Below(path, OutHolds(h, out)[i].name) == StepPath(path, step)
            && OutHolds(h, out)[i].value
            == Sanitized(h, Child(h, h[v.ref], step).value, StepPath(path, step), m, up + {v.ref})
  {
    match step
    case Index(k) =>
      ListOfItems(h, v, path, m, up);
      i := k;
    case Key(key) =>
      var props := Fields(h, h[v.ref]).value;
      RecordOfFields(h, v, path, m, up);
      var j :| 0 <= j < |props| && props[j].key == key && props[j].value == Lookup(props, key).value;
      i := PropPlace(h, props, path, m, up + {v.ref}, j);
  }

  // ---- Errors on the way ----

  /** The walk comes to an error that is `bad` at its path. */
  ghost predicate ComesToError(h: Heap, v: Value, m: Matchers, bad: (string, Kind) -> bool)
    requires Closed(h) && InHeap(h, v)
  {
    exists trail :: IsBadError(h, Walk(h, v, "", m, {}, trail), bad)
  }

  ghost predicate IsBadError(h: Heap, end: Option<Visit>, bad: (string, Kind) -> bool) {
    EntersError(h, end) && bad(end.value.path, h[end.value.value.ref].kind)
  }

  /** What field `k` of an error leads to is in the result. */
  lemma FieldHasPlace(h: Heap, v: Value, m: Matchers, trail: seq<Step>, field: nat, rest: seq<nat>) returns (way: seq<nat>)
    requires Closed(h) && InHeap(h, v) && EntersError(h, Walk(h, v, "", m, {}, trail)) && field < 3
    requires Leads(h, Shown(h[Walk(h, v, "", m, {}, trail).value.value.ref].kind)[field].value, rest).Some?
    ensures IsOrigin(h, v, "", m, {}, way, Passed(trail, field, rest))
  {
    var end := Walk(h, v, "", m, {}, trail).value;
    var shown := Shown(h[end.value.ref].kind)[field];
    var start := WalkHasPlace(h, v, "", m, {}, trail);
    way := start + ([field] + rest);
    OutLeadsOn(h, Sanitized(h, v, "", m, {}), "", start, [field] + rest);
    assert ([field] + rest)[1..] == rest;
    ErrorIsShown(h, end.value, end.path, m, end.up);
    PassedLeads(h, shown.value, Join(end.path, shown.key), rest);
  }

  // ---- Exactly when the rules hold everywhere ----

  ghost predicate EdgeObeys(m: Matchers, path: string, edge: Edge<Out>) {
    edge.name.Some? ==> PropObeys(m, edge.name.value, Join(path, edge.name.value), edge.value)
  }

  /** Every property at any depth obeys the rules. */
  ghost predicate Obeys(h: Heap, out: Out, path: string, m: Matchers) {
    forall way, i | OutLeads(h, out, way).Some? && 0 <= i < |OutHolds(h, OutLeads(h, out, way).value)| ::
      EdgeObeys(m, OutPathAt(h, out, path, way), OutHolds(h, OutLeads(h, out, way).value)[i])
  }

  /** A rule takes a property out, or masks it although it is something else than the replacement. */
  predicate IsHit(m: Matchers, path: string, edge: Edge<Value>) {
    edge.name.Some? &&
    var (key, here) := (edge.name.value, Join(path, edge.name.value));
    IsExcluded(key, here, m) || (IsRedacted(key, here, m) && edge.value != Str(m.replacement))
  }

  /** A rule hits a property somewhere in the graph of `v`. */
  ghost predicate HoldsHit(h: Heap, v: Value, path: string, m: Matchers) {
    exists way, i :: HitsAt(h, v, path, m, way, i)
  }

  ghost predicate HitsAt(h: Heap, v: Value, path: string, m: Matchers, way: seq<nat>, i: nat) {
    && Leads(h, v, way).Some?
    && i < |Holds(h, Leads(h, v, way).value)|
    && IsHit(m, PathAt(h, v, path, way), Holds(h, Leads(h, v, way).value)[i])
  }

  /** A rule hits the name, the message or the stack of an error at `path`, or something that these hold. */
  ghost predicate ErrorIsHit(h: Heap, m: Matchers, path: string, kind: Kind)
    requires kind.Error?
  {
    exists k :: 0 <= k < 3 && FieldIsHit(h, m, path, Shown(kind)[k])
  }

  ghost predicate FieldIsHit(h: Heap, m: Matchers, path: string, shown: Prop<Value>) {
    IsHit(m, path, Edge(Some(shown.key), shown.value)) || HoldsHit(h, shown.value, Join(path, shown.key), m)
  }

  ghost function HitBy(h: Heap, m: Matchers): (string, Kind) -> bool {
    (path, kind: Kind) => kind.Error? && ErrorIsHit(h, m, path, kind)
  }

  /** A rule hits what goes in exactly if what comes out of passing it through disobeys. */
  lemma HitDisobeys(m: Matchers, path: string, edge: Edge<Value>)
    ensures IsHit(m, path, edge) <==> !EdgeObeys(m, path, Edge(edge.name, PassedThrough(edge.value)))
  {
  }

  lemma ShownIsHeld(h: Heap, kind: Kind, k: nat)
    requires kind.Error? && k < 3
    ensures |OutHolds(h, SanitizedError(kind))| == 3
    ensures OutHolds(h, SanitizedError(kind))[k] == Edge(Some(Shown(kind)[k].key), PassedThrough(Shown(kind)[k].value))
  {
  }

  lemma ObeysBelow(h: Heap, out: Out, path: string, m: Matchers, i: nat)
    requires Obeys(h, out, path, m) && i < |OutHolds(h, out)|
    ensures EdgeObeys(m, path, OutHolds(h, out)[i])
    ensures Obeys(h, OutHolds(h, out)[i].value, Below(path, OutHolds(h, out)[i].name), m)
  {
    var edge := OutHolds(h, out)[i];
    assert OutLeads(h, out, []) == Some(out);
    forall way, j | OutLeads(h, edge.value, way).Some? && 0 <= j < |OutHolds(h, OutLeads(h, edge.value, way).value)|
      ensures EdgeObeys(m, OutPathAt(h, edge.value, Below(path, edge.name), way),
                        OutHolds(h, OutLeads(h, edge.value, way).value)[j])
    {
      assert ([i] + way)[1..] == way;
      assert OutLeads(h, out, [i] + way) == OutLeads(h, edge.value, way);
    }
  }

  lemma ObeysAbove(h: Heap, out: Out, path: string, m: Matchers)
    requires forall i :: 0 <= i < |OutHolds(h, out)| ==>
      EdgeObeys(m, path, OutHolds(h, out)[i])
      && Obeys(h, OutHolds(h, out)[i].value, Below(path, OutHolds(h, out)[i].name), m)
    ensures Obeys(h, out, path, m)
  {
    forall way, j | OutLeads(h, out, way).Some? && 0 <= j < |OutHolds(h, OutLeads(h, out, way).value)|
      ensures EdgeObeys(m, OutPathAt(h, out, path, way), OutHolds(h, OutLeads(h, out, way).value)[j])
    {
      if way != [] {
        var edge := OutHolds(h, out)[way[0]];
        assert Obeys(h, edge.value, Below(path, edge.name), m);
        assert OutLeads(h, edge.value, way[1..]) == OutLeads(h, out, way);
      }
    }
  }

  lemma PassedObeys(h: Heap, v: Value, path: string, m: Matchers)
    ensures Obeys(h, PassedThrough(v), path, m) <==> !HoldsHit(h, v, path, m)
  {
    if way, i :| HitsAt(h, v, path, m, way, i) {
      PassedIsHit(h, m, v, path, way, i);
    }
    if !HoldsHit(h, v, path, m) {
      forall way, i | OutLeads(h, PassedThrough(v), way).Some?
                      && 0 <= i < |OutHolds(h, OutLeads(h, PassedThrough(v), way).value)|
        ensures EdgeObeys(m, OutPathAt(h, PassedThrough(v), path, way),
                          OutHolds(h, OutLeads(h, PassedThrough(v), way).value)[i])
      {
        PassedLeads(h, v, path, way);
        PassedHolds(h, Leads(h, v, way).value, i);
        PassedIsHit(h, m, v, path, way, i);
        assert !HitsAt(h, v, path, m, way, i);
      }
    }
  }

  /** What an error shows breaks the rules, there or further down, if and only if it is hit. */
  lemma HitErrorDisobeys(h: Heap, m: Matchers, path: string, kind: Kind)
    requires kind.Error?
    ensures ErrorIsHit(h, m, path, kind) <==> !Obeys(h, SanitizedError(kind), path, m)
  {
    var out := SanitizedError(kind);
    forall k: nat | k < 3
      ensures |OutHolds(h, out)| == 3
      ensures FieldIsHit(h, m, path, Shown(kind)[k]) <==>
                !(EdgeObeys(m, path, OutHolds(h, out)[k])
                  && Obeys(h, OutHolds(h, out)[k].value, Below(path, OutHolds(h, out)[k].name), m))
    {
      FieldDisobeys(h, m, path, kind, k);
    }
    if Obeys(h, out, path, m) {
      forall k: nat | k < 3 ensures !FieldIsHit(h, m, path, Shown(kind)[k]) {
        ObeysBelow(h, out, path, m, k);
      }
    } else if !ErrorIsHit(h, m, path, kind) {
      ObeysAbove(h, out, path, m);
    }
  }

  lemma FieldDisobeys(h: Heap, m: Matchers, path: string, kind: Kind, k: nat)
    requires kind.Error? && k < 3
    ensures |OutHolds(h, SanitizedError(kind))| == 3
    ensures var edge := OutHolds(h, SanitizedError(kind))[k];
            FieldIsHit(h, m, path, Shown(kind)[k]) <==>
              !(EdgeObeys(m, path, edge) && Obeys(h, edge.value, Below(path, edge.name), m))
  {
    var shown := Shown(kind)[k];
    ShownIsHeld(h, kind, k);
    HitDisobeys(m, path, Edge(Some(shown.key), shown.value));
    PassedObeys(h, shown.value, Join(path, shown.key), m);
  }

  lemma PassedIsHit(h: Heap, m: Matchers, v: Value, path: string, way: seq<nat>, i: nat)
    requires Leads(h, v, way).Some? && i < |Holds(h, Leads(h, v, way).value)|
    ensures var out := OutLeads(h, PassedThrough(v), way);
            && out.Some? && i < |OutHolds(h, out.value)|
            && (HitsAt(h, v, path, m, way, i) <==>
                  !EdgeObeys(m, OutPathAt(h, PassedThrough(v), path, way), OutHolds(h, out.value)[i]))
  {
    var w := Leads(h, v, way).value;
    PassedLeads(h, v, path, way);
    PassedHolds(h, w, i);
    HitDisobeys(m, PathAt(h, v, path, way), Holds(h, w)[i]);
  }

  /** What the walk makes of one value obeys the rules where it is, unless it is an error that is hit. */
  lemma VisitObeys(h: Heap, v: Value, path: string, m: Matchers, up: set<Ref>, i: nat)
    requires Closed(h) && InHeap(h, v) && i < |OutHolds(h, Sanitized(h, v, path, m, up))|
    requires v.Obj? && v.ref !in up && h[v.ref].kind.Error? ==> !ErrorIsHit(h, m, path, h[v.ref].kind)
    ensures EdgeObeys(m, path, OutHolds(h, Sanitized(h, v, path, m, up))[i])
  {
    assert v.Obj? && v.ref !in up;
    if Fields(h, h[v.ref]).Some? {
      RecordOfFields(h, v, path, m, up);
      var j := PropOrigin(h, Fields(h, h[v.ref]).value, path, m, up + {v.ref}, i);
    } else if h[v.ref].kind.Set? || h[v.ref].kind.Array? {
      ListOfItems(h, v, path, m, up);
    } else if h[v.ref].kind.Error? {
      HitErrorDisobeys(h, m, path, h[v.ref].kind);
      ObeysBelow(h, SanitizedError(h[v.ref].kind), path, m, i);
    } else {
      TextOtherwise(h, v, path, m, up);
    }
  }

  lemma PlaceObeys(h: Heap, v: Value, m: Matchers, way: seq<nat>, i: nat)
    requires Closed(h) && InHeap(h, v) && !ComesToError(h, v, m, HitBy(h, m))
    requires var to := OutLeads(h, Sanitized(h, v, "", m, {}), way); to.Some? && i < |OutHolds(h, to.value)|
    ensures var out := Sanitized(h, v, "", m, {});
            EdgeObeys(m, OutPathAt(h, out, "", way), OutHolds(h, OutLeads(h, out, way).value)[i])
  {
    var origin := EveryPlaceHasOrigin(h, v, "", m, {}, way);
    var end := Walk(h, v, "", m, {}, origin.trail);
    assert !IsBadError(h, end, HitBy(h, m));
    match origin
    case Walked(_) => VisitObeys(h, end.value.value, end.value.path, m, end.value.up, i);
    case Masked(_) =>
    case Passed(_, field, rest) =>
      var shown := Shown(h[end.value.value.ref].kind)[field];
      assert !FieldIsHit(h, m, end.value.path, shown);
      PassedHolds(h, Leads(h, shown.value, rest).value, i);
      PassedIsHit(h, m, shown.value, Join(end.value.path, shown.key), rest, i);
      PassedLeads(h, shown.value, Join(end.value.path, shown.key), rest);
      assert !HitsAt(h, shown.value, Join(end.value.path, shown.key), m, rest, i);
  }

  lemma {:induction false} ObeysAt(h: Heap, out: Out, path: string, m: Matchers, way: seq<nat>)
    requires Obeys(h, out, path, m) && OutLeads(h, out, way).Some?
    ensures Obeys(h, OutLeads(h, out, way).value, OutPathAt(h, out, path, way), m)
    decreases |way|
  {
    if way != [] {
      ObeysBelow(h, out, path, m, way[0]);
      ObeysAt(h, OutHolds(h, out)[way[0]].value, Below(path, OutHolds(h, out)[way[0]].name), m, way[1..]);
    }
  }

  /**
   Every property at any depth of the result obeys the rules, those included that an error passes through, if and
   only if no rule hits an error the walk comes to, or something in the graph of its name, message or stack.
   */
  lemma RulesHoldIffNoErrorIsHit(h: Heap, v: Value, m: Matchers)
    requires Closed(h) && InHeap(h, v)
    ensures Obeys(h, Sanitized(h, v, "", m, {}), "", m) <==> !ComesToError(h, v, m, HitBy(h, m))
  {
    var out := Sanitized(h, v, "", m, {});
    if trail :| IsBadError(h, Walk(h, v, "", m, {}, trail), HitBy(h, m)) {
      var end := Walk(h, v, "", m, {}, trail).value;
      var way := WalkHasPlace(h, v, "", m, {}, trail);
      HitErrorDisobeys(h, m, end.path, h[end.value.ref].kind);
      ErrorIsShown(h, end.value, end.path, m, end.up);
      if Obeys(h, out, "", m) {
        ObeysAt(h, out, "", m, way);
      }
    } else {
      forall way, i | OutLeads(h, out, way).Some? && 0 <= i < |OutHolds(h, OutLeads(h, out, way).value)|
        ensures EdgeObeys(m, OutPathAt(h, out, "", way), OutHolds(h, OutLeads(h, out, way).value)[i])
      {
        PlaceObeys(h, v, m, way, i);
      }
    }
  }

  // ---- Exactly when the result is finite ----

  /** No way through the result takes more than `n` steps. */
  ghost predicate NestsWithin(h: Heap, out: Out, n: nat) {
    forall way :: OutLeads(h, out, way).Some? ==> |way| <= n
  }

  /** `v` leads to something that leads back to itself. */
  ghost predicate HoldsCycle(h: Heap, v: Value) {
    exists way, round :: IsCycle(h, v, way, round)
  }

  ghost predicate IsCycle(h: Heap, v: Value, way: seq<nat>, round: seq<nat>) {
    round != [] && Leads(h, v, way).Some? && Leads(h, Leads(h, v, way).value, round) == Leads(h, v, way)
  }

  ghost predicate FieldHoldsCycle(h: Heap, kind: Kind)
    requires kind.Error?
  {
    exists k :: 0 <= k < 3 && HoldsCycle(h, Shown(kind)[k].value)
  }

  ghost function Cyclic(h: Heap): (string, Kind) -> bool {
    (path, kind: Kind) => kind.Error? && FieldHoldsCycle(h, kind)
  }

  /** Objects in `seen` hold `v`, directly or not. */
  ghost predicate AllHold(h: Heap, seen: set<Ref>, v: Value) {
    seen <= h.Keys && forall r :: r in seen ==> HoldsSomewhere(h, r, v)
  }

  ghost predicate HoldsSomewhere(h: Heap, r: Ref, v: Value) {
    exists way :: way != [] && Leads(h, Obj(r), way) == Some(v)
  }

  /** What `v` holds at `i` is held by all that hold `v`, and by `v`. */
  lemma HoldersOfPart(h: Heap, seen: set<Ref>, v: Value, i: nat)
    requires AllHold(h, seen, v) && i < |Holds(h, v)|
    ensures v.Obj? && AllHold(h, seen + {v.ref}, Holds(h, v)[i].value)
  {
    var part := Holds(h, v)[i].value;
    forall r | r in seen + {v.ref} ensures HoldsSomewhere(h, r, part) {
      if r == v.ref {
        assert Leads(h, Obj(r), [i]) == Some(part);
      } else {
        var way :| way != [] && Leads(h, Obj(r), way) == Some(v);
        LeadsOn(h, Obj(r), way, [i]);
        assert Leads(h, v, [i]) == Some(part);
      }
    }
  }

  lemma CycleBelow(h: Heap, v: Value, i: nat)
    requires i < |Holds(h, v)| && HoldsCycle(h, Holds(h, v)[i].value)
    ensures HoldsCycle(h, v)
  {
    var way, round :| IsCycle(h, Holds(h, v)[i].value, way, round);
    assert ([i] + way)[1..] == way;
    assert IsCycle(h, v, [i] + way, round);
  }

  /** Without a cycle a way comes to new objects only. */
  lemma {:induction false} WaysAreShort(h: Heap, seen: set<Ref>, v: Value, way: seq<nat>)
    requires AllHold(h, seen, v) && !HoldsCycle(h, v) && Leads(h, v, way).Some?
    ensures |seen| + |way| <= |h.Keys|
    decreases |way|
  {
    if way == [] {
      SubsetIsSmaller(seen, h.Keys);
    } else {
      if v.ref in seen {
        var round :| round != [] && Leads(h, Obj(v.ref), round) == Some(v);
        assert IsCycle(h, v, [], round);
      }
      HoldersOfPart(h, seen, v, way[0]);
      if HoldsCycle(h, Holds(h, v)[way[0]].value) {
        CycleBelow(h, v, way[0]);
      }
      WaysAreShort(h, seen + {v.ref}, Holds(h, v)[way[0]].value, way[1..]);
    }
  }

  lemma SubsetIsSmaller<T>(part: set<T>, all: set<T>)
    requires part <= all
    ensures |part| <= |all|
  {
    assert all == part + (all - part);
  }

  /** What the walk goes on to is something the object holds. */
  lemma ChildIsHeld(h: Heap, v: Value, step: Step) returns (i: nat)
    requires Closed(h) && InHeap(h, v) && v.Obj? && Child(h, h[v.ref], step).Some?
    ensures i < |Holds(h, v)| && Holds(h, v)[i].value == Child(h, h[v.ref], step).value
  {
    match step
    case Index(k) => i := k;
    case Key(key) =>
      var props := Fields(h, h[v.ref]).value;
      var j :| 0 <= j < |props| && props[j].key == key && props[j].value == Lookup(props, key).value;
      i := FieldIsHeld(h, v, j);
  }

  lemma FieldIsHeld(h: Heap, v: Value, j: nat) returns (i: nat)
    requires Closed(h) && InHeap(h, v) && v.Obj? && Fields(h, h[v.ref]).Some? && j < |Fields(h, h[v.ref]).value|
    ensures i < |Holds(h, v)| && Holds(h, v)[i].value == Fields(h, h[v.ref]).value[j].value
  {
    FieldsAre(h, h[v.ref]);
    i := j;
    if h[v.ref].kind.Map? {
      var k := PropertiesAreEntries(h, h[v.ref].kind.entries, j);
      i := EntryIsHeld(h, v, k);
    }
  }

  lemma FieldsAre(h: Heap, node: Node)
    requires KindOk(h, node.kind) && Fields(h, node).Some?
    ensures node.kind.Map? || node.kind.Object?
    ensures Fields(h, node).value == if node.kind.Map? then FromEntries(h, node.kind.entries) else node.kind.own
  {
  }

  lemma EntryIsHeld(h: Heap, v: Value, k: nat) returns (i: nat)
    requires v.Obj? && v.ref in h && h[v.ref].kind.Map? && k < |h[v.ref].kind.entries|
    ensures i < |Holds(h, v)| && Holds(h, v)[i].value == h[v.ref].kind.entries[k].1
  {
    i := |h[v.ref].kind.entries| + k;
  }

  /** The walk is inside of one more object with every step, and each of them holds where it is. */
  lemma {:induction false} WalkIsInside(h: Heap, v: Value, path: string, m: Matchers, up: set<Ref>, trail: seq<Step>)
    requires Closed(h) && InHeap(h, v) && AllHold(h, up, v) && Walk(h, v, path, m, up, trail).Some?
    ensures var end := Walk(h, v, path, m, up, trail).value;
            |end.up| == |up| + |trail| && AllHold(h, end.up, end.value)
    decreases |trail|
  {
    if trail != [] {
      var i := ChildIsHeld(h, v, trail[0]);
      HoldersOfPart(h, up, v, i);
      WalkIsInside(h, Child(h, h[v.ref], trail[0]).value, StepPath(path, trail[0]), m, up + {v.ref}, trail[1..]);
    }
  }

  /** A trail is as long as the walk is deep, and what it enters is one object more. */
  lemma TrailsAreShort(h: Heap, v: Value, m: Matchers, trail: seq<Step>)
    requires Closed(h) && InHeap(h, v) && Walk(h, v, "", m, {}, trail).Some?
    ensures |trail| <= |h.Keys|
    ensures Enters(h, Walk(h, v, "", m, {}, trail)) ==> |trail| + 1 <= |h.Keys|
  {
    var end := Walk(h, v, "", m, {}, trail).value;
    WalkIsInside(h, v, "", m, {}, trail);
    HoldersAreFew(h, end);
  }

  lemma HoldersAreFew(h: Heap, end: Visit)
    requires Closed(h) && AllHold(h, end.up, end.value)
    ensures |end.up| <= |h.Keys|
    ensures Enters(h, Some(end)) ==> |end.up| + 1 <= |h.Keys|
  {
    SubsetIsSmaller(end.up, h.Keys);
    if Enters(h, Some(end)) {
      SubsetIsSmaller(end.up + {end.value.ref}, h.Keys);
    }
  }

  lemma PassedIsShort(h: Heap, v: Value, m: Matchers, trail: seq<Step>, field: nat, way: seq<nat>)
    requires Closed(h) && InHeap(h, v) && EntersError(h, Walk(h, v, "", m, {}, trail)) && field < 3
    requires var shown := Shown(h[Walk(h, v, "", m, {}, trail).value.value.ref].kind)[field].value;
             !HoldsCycle(h, shown) && Leads(h, shown, way).Some?
    ensures |trail| + 1 + |way| <= |h.Keys|
  {
    var end := Walk(h, v, "", m, {}, trail).value;
    WalkIsInside(h, v, "", m, {}, trail);
    HoldersOfPart(h, end.up, end.value, field);
    WaysAreShort(h, end.up + {end.value.ref}, Shown(h[end.value.ref].kind)[field].value, way);
  }

  /** The result nests no deeper than there are objects, unless an error passes a cycle through. */
  lemma NoDeeperThanTheGraph(h: Heap, v: Value, m: Matchers, way: seq<nat>)
    requires Closed(h) && InHeap(h, v) && !ComesToError(h, v, m, Cyclic(h))
    requires OutLeads(h, Sanitized(h, v, "", m, {}), way).Some?
    ensures |way| <= |h.Keys|
  {
    var origin := EveryPlaceHasOrigin(h, v, "", m, {}, way);
    match origin
    case Walked(trail) => TrailsAreShort(h, v, m, trail);
    case Masked(trail) => TrailsAreShort(h, v, m, trail);
    case Passed(trail, field, rest) =>
      assert !IsBadError(h, Walk(h, v, "", m, {}, trail), Cyclic(h));
      NoFieldHoldsCycle(h, Walk(h, v, "", m, {}, trail), field);
      PassedIsShort(h, v, m, trail, field, rest);
  }

  lemma NoFieldHoldsCycle(h: Heap, end: Option<Visit>, field: nat)
    requires EntersError(h, end) && !IsBadError(h, end, Cyclic(h)) && field < 3
    ensures !HoldsCycle(h, Shown(h[end.value.value.ref].kind)[field].value)
  {
  }

  /** Going round `n` times. */
  lemma {:induction false} RoundAndRound(h: Heap, v: Value, round: seq<nat>, n: nat) returns (way: seq<nat>)
    requires round != [] && Leads(h, v, round) == Some(v)
    ensures |way| >= n && Leads(h, v, way) == Some(v)
  {
    if n == 0 {
      return [];
    }
    var rest := RoundAndRound(h, v, round, n - 1);
    LeadsOn(h, v, round, rest);
    way := round + rest;
  }

  /**
   The result is finite, and then no deeper than the graph, if and only if the walk comes to no error whose name,
   message or stack leads into a cycle.
   */
  lemma FiniteIffNoErrorHoldsCycle(h: Heap, v: Value, m: Matchers)
    requires Closed(h) && InHeap(h, v)
    ensures NestsWithin(h, Sanitized(h, v, "", m, {}), |h.Keys|) <==> !ComesToError(h, v, m, Cyclic(h))
    ensures (exists n :: NestsWithin(h, Sanitized(h, v, "", m, {}), n)) <==> !ComesToError(h, v, m, Cyclic(h))
  {
    var out := Sanitized(h, v, "", m, {});
    if ComesToError(h, v, m, Cyclic(h)) {
      forall n: nat ensures !NestsWithin(h, out, n) {
        var way := LongWay(h, v, m, n);
      }
    } else {
      forall way | OutLeads(h, out, way).Some? ensures |way| <= |h.Keys| {
        NoDeeperThanTheGraph(h, v, m, way);
      }
      assert NestsWithin(h, out, |h.Keys|);
    }
  }

  lemma LongWay(h: Heap, v: Value, m: Matchers, n: nat) returns (way: seq<nat>)
    requires Closed(h) && InHeap(h, v) && ComesToError(h, v, m, Cyclic(h))
    ensures OutLeads(h, Sanitized(h, v, "", m, {}), way).Some? && |way| > n
  {
    var trail :| IsBadError(h, Walk(h, v, "", m, {}, trail), Cyclic(h));
    var kind := h[Walk(h, v, "", m, {}, trail).value.value.ref].kind;
    var k: nat :| k < 3 && HoldsCycle(h, Shown(kind)[k].value);
    var start, round :| IsCycle(h, Shown(kind)[k].value, start, round);
    var rounds := RoundAndRound(h, Leads(h, Shown(kind)[k].value, start).value, round, n);
    LeadsOn(h, Shown(kind)[k].value, start, rounds);
    way := FieldHasPlace(h, v, m, trail, k, start + rounds);
  }

  // ---- Exactly when the result is plain ----

  ghost predicate IsPlainTree(h: Heap, out: Out) {
    forall way :: OutLeads(h, out, way).Some? ==> !OutLeads(h, out, way).value.Raw?
  }

  predicate FieldIsRaw(kind: Kind)
    requires kind.Error?
  {
    exists k :: 0 <= k < 3 && PassedThrough(Shown(kind)[k].value).Raw?
  }

  ghost function RawField(): (string, Kind) -> bool {
    (path, kind: Kind) => kind.Error? && FieldIsRaw(kind)
  }

  lemma SanitizedIsNotRaw(h: Heap, v: Value, path: string, m: Matchers, up: set<Ref>)
    requires Closed(h) && InHeap(h, v)
    ensures !Sanitized(h, v, path, m, up).Raw?
  {
    if v.Obj? && v.ref !in up {
      if Fields(h, h[v.ref]).Some? {
        RecordOfFields(h, v, path, m, up);
      } else if h[v.ref].kind.Set? || h[v.ref].kind.Array? {
        ListOfItems(h, v, path, m, up);
      } else if !h[v.ref].kind.Error? {
        TextOtherwise(h, v, path, m, up);
      }
    }
  }

  /**
   The result is a tree of records, lists, texts, numbers, flags and nulls if and only if the name, message and
   stack of every error the walk comes to are none but these leaves.
   */
  lemma PlainIffErrorsArePlain(h: Heap, v: Value, m: Matchers)
    requires Closed(h) && InHeap(h, v)
    ensures IsPlainTree(h, Sanitized(h, v, "", m, {})) <==> !ComesToError(h, v, m, RawField())
  {
    var out := Sanitized(h, v, "", m, {});
    if trail :| IsBadError(h, Walk(h, v, "", m, {}, trail), RawField()) {
      var kind := h[Walk(h, v, "", m, {}, trail).value.value.ref].kind;
      var k: nat :| k < 3 && PassedThrough(Shown(kind)[k].value).Raw?;
      var way := FieldHasPlace(h, v, m, trail, k, []);
      assert OutLeads(h, out, way).value.Raw?;
    } else {
      forall way | OutLeads(h, out, way).Some? ensures !OutLeads(h, out, way).value.Raw? {
        PlaceIsPlain(h, v, m, way);
      }
    }
  }

  lemma PlaceIsPlain(h: Heap, v: Value, m: Matchers, way: seq<nat>)
    requires Closed(h) && InHeap(h, v) && !ComesToError(h, v, m, RawField())
    requires OutLeads(h, Sanitized(h, v, "", m, {}), way).Some?
    ensures !OutLeads(h, Sanitized(h, v, "", m, {}), way).value.Raw?
  {
    var origin := EveryPlaceHasOrigin(h, v, "", m, {}, way);
    var end := Walk(h, v, "", m, {}, origin.trail).value;
    assert !IsBadError(h, Some(end), RawField());
    match origin
    case Walked(_) => SanitizedIsNotRaw(h, end.value, end.path, m, end.up);
    case Masked(_) =>
    case Passed(_, field, rest) =>
      LeafHoldsNothing(h, Shown(h[end.value.ref].kind)[field].value, rest);
  }

  lemma LeafHoldsNothing(h: Heap, v: Value, way: seq<nat>)
    requires !PassedThrough(v).Raw? && Leads(h, v, way).Some?
    ensures Leads(h, v, way) == Some(v)
  {
    assert Holds(h, v) == [];
  }

  // ---- Graphs without errors ----

  ghost predicate HasNoErrors(h: Heap) {
    forall r :: r in h ==> !h[r].kind.Error?
  }

  /** Property `key` with path `at` and this value is somewhere in the result. */
  ghost predicate Occurs(h: Heap, out: Out, key: string, at: string, value: Out) {
    exists way, i :: OccursAt(h, out, key, at, value, way, i)
  }

  ghost predicate OccursAt(h: Heap, out: Out, key: string, at: string, value: Out, way: seq<nat>, i: nat) {
    && OutLeads(h, out, way).Some? && i < |OutHolds(h, OutLeads(h, out, way).value)|
    && OutHolds(h, OutLeads(h, out, way).value)[i] == Edge(Some(key), value)
    && Join(OutPathAt(h, out, "", way), key) == at
  }

  /**
   In the words of the options, for graphs without errors: no excluded property is in the result at any depth,
   and a property that a redaction rule names holds exactly the replacement.
   */
  lemma NothingNamedLeaks(h: Heap, v: Value, options: Options, m: Matchers, key: string, at: string, value: Out)
    requires Closed(h) && InHeap(h, v) && HasNoErrors(h) && Compiles(options, m)
    requires Occurs(h, Sanitized(h, v, "", m, {}), key, at, value)
    ensures forall rule :: rule in ExcludeRules(options) ==> !ExcludeRuleHits(rule, key, at)
    ensures (exists rule :: rule in RedactRules(options) && RedactRuleHits(rule, key, at)) ==>
              value == Text(Replacement(options))
  {
    RulesHoldIffNoErrorIsHit(h, v, m);
    var way, i :| OccursAt(h, Sanitized(h, v, "", m, {}), key, at, value, way, i);
  }

  // ---- Three ways errors escape ----

  ghost predicate IsError(h: Heap, v: Value) {
    Closed(h) && v.Obj? && v.ref in h && h[v.ref].kind.Error?
  }

  lemma ErrorIsRoot(h: Heap, v: Value, m: Matchers, bad: (string, Kind) -> bool)
    requires IsError(h, v)
    ensures Sanitized(h, v, "", m, {}) == SanitizedError(h[v.ref].kind)
    ensures bad("", h[v.ref].kind) ==> ComesToError(h, v, m, bad)
  {
    ErrorIsShown(h, v, "", m, {});
    assert Walk(h, v, "", m, {}, []) == Some(Visit(v, "", {}));
    if bad("", h[v.ref].kind) {
      assert IsBadError(h, Walk(h, v, "", m, {}, []), bad);
    }
  }

  /** An error's message is shown although a rule masks every `message`. */
  lemma ErrorsAreNotMasked(h: Heap, v: Value, text: string, m: Matchers)
    requires IsError(h, v) && h[v.ref].kind.message == Str(text) && text != REDACTED
    requires Compiles(Options([], ["message"], None), m)
    ensures ComesToError(h, v, m, HitBy(h, m)) && IsRedacted("message", "message", m)
    ensures Occurs(h, Sanitized(h, v, "", m, {}), "message", "message", Text(text))
  {
    AlikeItself("message");
    assert RedactRuleHits("message", "message", "message") && "message" in ["message"];
    var kind := h[v.ref].kind;
    assert FieldIsHit(h, m, "", Shown(kind)[1]);
    ErrorIsRoot(h, v, m, HitBy(h, m));
    ShownIsHeld(h, kind, 1);
    assert OutLeads(h, SanitizedError(kind), []) == Some(SanitizedError(kind));
    assert OccursAt(h, SanitizedError(kind), "message", "message", Text(text), [], 1);
  }

  lemma ShownLeads(h: Heap, kind: Kind, k: nat)
    requires kind.Error? && k < 3
    ensures OutLeads(h, SanitizedError(kind), [k]) == Some(PassedThrough(Shown(kind)[k].value))
    ensures OutPathAt(h, SanitizedError(kind), "", [k]) == Shown(kind)[k].key
  {
    ShownIsHeld(h, kind, k);
    var value := PassedThrough(Shown(kind)[k].value);
    assert OutLeads(h, value, []) == Some(value);
  }

  /** What an error's message holds is in the result as it is. */
  lemma MessageIsShown(h: Heap, v: Value, j: nat, name: string, m: Matchers)
    requires IsError(h, v)
    requires var held := Holds(h, h[v.ref].kind.message); j < |held| && held[j].name == Some(name)
    ensures Occurs(h, Sanitized(h, v, "", m, {}), name, Join("message", name),
                   PassedThrough(Holds(h, h[v.ref].kind.message)[j].value))
  {
    var kind := h[v.ref].kind;
    ErrorIsShown(h, v, "", m, {});
    ShownLeads(h, kind, 1);
    PassedHolds(h, kind.message, j);
    assert OccursAt(h, SanitizedError(kind), name, Join("message", name),
                    PassedThrough(Holds(h, kind.message)[j].value), [1], j);
  }

  /** A password that an error's message holds is shown although a rule masks every `password`. */
  lemma ErrorsHideSecrets(h: Heap, v: Value, j: nat, m: Matchers)
    requires IsError(h, v) && Compiles(Options([], ["password"], None), m)
    requires var held := Holds(h, h[v.ref].kind.message); j < |held| && held[j].name == Some("password")
    ensures IsRedacted("password", Join("message", "password"), m)
    ensures Occurs(h, Sanitized(h, v, "", m, {}), "password", Join("message", "password"),
                   PassedThrough(Holds(h, h[v.ref].kind.message)[j].value))
  {
    var here := Join("message", "password");
    AlikeItself("password");
    assert RedactRuleHits("password", "password", here) && "password" in ["password"];
    MessageIsShown(h, v, j, "password", m);
  }

  /** An error that is its own message makes the result cyclic. */
  lemma ErrorsCloseCycles(h: Heap, v: Value, m: Matchers)
    requires IsError(h, v) && h[v.ref].kind.message == v
    ensures forall n :: !NestsWithin(h, Sanitized(h, v, "", m, {}), n)
  {
    var kind := h[v.ref].kind;
    assert Holds(h, v)[1].value == v;
    assert Leads(h, v, [1]) == Some(v) by {
      assert Leads(h, v, []) == Some(v);
    }
    assert IsCycle(h, Shown(kind)[1].value, [], [1]);
    ErrorIsRoot(h, v, m, Cyclic(h));
    FiniteIffNoErrorHoldsCycle(h, v, m);
  }
}
