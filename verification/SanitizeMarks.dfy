/**
 The texts that `safeSanitize` writes in its JSON mode, and the paths that its rules are compared with, in plain
 terms: what takes the place of a function, a symbol, a date, a stream, an uploaded file or a masked value, which
 rules the options stand for, and how the names on the way to a property are put together with dots. The walk
 itself is in `Sanitize`.
 */
module SanitizeMarks {
  import opened Wrappers
  import opened Sanitize

  // ---- Leaves ----

  lemma PrimitivesBecome(h: Heap, v: Value, path: string, m: Matchers, up: set<Ref>)
    requires Closed(h) && InHeap(h, v) && !v.Obj?
    ensures Sanitized(h, v, path, m, up) ==
      match v
      case Undefined => Missing
      case Null => Nil
      case Str(text) => Text(text)
      case Num(text) => Number(text)
      case Bool(on) => Flag(on)
      case BigInt(_) => Text("[bigint]")
      case Symbol => Text("[symbol]")
      case Function(_) => Text("[Function]")
  {
  }

  lemma ObjectsBecome(h: Heap, v: Value, path: string, m: Matchers, up: set<Ref>)
    requires Closed(h) && InHeap(h, v) && v.Obj?
    ensures v.ref in up ==> Sanitized(h, v, path, m, up) == Text("[Circular]")
    ensures v.ref !in up ==>
      match h[v.ref].kind
      case Date(Some(iso)) => Sanitized(h, v, path, m, up) == Text(iso)
      case Date(None) => Sanitized(h, v, path, m, up) == Text("[Invalid Date]")
      case RegExp => Sanitized(h, v, path, m, up) == Text(h[v.ref].text)
      case Binary(_) => Sanitized(h, v, path, m, up) == Text("[Binary Data]")
      case _ => true
  {
    if v.ref !in up {
      assert Sanitized(h, v, path, m, up) == SanitizedNode(h, h[v.ref], path, m, up + {v.ref});
    }
  }

  // ---- Streams and files ----

  predicate Has(props: seq<Prop<Value>>, key: string, v: Value) {
    Prop(key, v) in props
  }

  /** Reading property `key` gives `v`: it is an own property, or an inherited one that no own one shadows. */
  ghost predicate IsRead(own: seq<Prop<Value>>, inherited: seq<Prop<Value>>, key: string, v: Value) {
    Has(own, key, v) || (Has(inherited, key, v) && forall w :: !Has(own, key, w))
  }

  ghost predicate HasMethod(own: seq<Prop<Value>>, inherited: seq<Prop<Value>>, key: string) {
    exists text :: IsRead(own, inherited, key, Function(text))
  }

  ghost predicate HasBuffer(h: Heap, own: seq<Prop<Value>>, inherited: seq<Prop<Value>>) {
    exists r :: r in h && h[r].kind == Binary(true) && IsRead(own, inherited, "buffer", Obj(r))
  }

  lemma {:induction false} LookupIs(props: seq<Prop<Value>>, key: string, v: Value)
    requires Distinct(props)
    ensures Lookup(props, key) == Some(v) <==> Has(props, key, v)
    ensures Lookup(props, key) == None <==> forall w :: !Has(props, key, w)
  {
    if Lookup(props, key).Some? {
      var i :| 0 <= i < |props| && props[i].key == key && props[i].value == Lookup(props, key).value;
      assert props[i] == Prop(key, props[i].value);
      assert Has(props, key, props[i].value);
    }
  }

  lemma PropertyIs(own: seq<Prop<Value>>, inherited: seq<Prop<Value>>, key: string, v: Value)
    requires Distinct(own) && Distinct(inherited)
    ensures Property(own, inherited, key) == Some(v) <==> IsRead(own, inherited, key, v)
  {
    LookupIs(own, key, v);
    LookupIs(inherited, key, v);
  }

  lemma ObjectIs(h: Heap, v: Value, path: string, m: Matchers, up: set<Ref>)
    requires Closed(h) && InHeap(h, v) && v.Obj? && v.ref !in up && h[v.ref].kind.Object?
    ensures Sanitized(h, v, path, m, up)
         == SanitizedObject(h, h[v.ref].kind.own, h[v.ref].kind.inherited, path, m, up + {v.ref})
  {
    assert Sanitized(h, v, path, m, up) == SanitizedNode(h, h[v.ref], path, m, up + {v.ref});
  }

  /** An object with the methods `pipe` and `on` is a stream. */
  lemma StreamsBecome(h: Heap, v: Value, path: string, m: Matchers, up: set<Ref>)
    requires Closed(h) && InHeap(h, v) && v.Obj? && v.ref !in up && h[v.ref].kind.Object?
    ensures var (own, inherited) := (h[v.ref].kind.own, h[v.ref].kind.inherited);
            && (IsStream(own, inherited) <==> HasMethod(own, inherited, "pipe") && HasMethod(own, inherited, "on"))
            && (IsStream(own, inherited) ==> Sanitized(h, v, path, m, up) == Text("[Stream]"))
  {
    var (own, inherited) := (h[v.ref].kind.own, h[v.ref].kind.inherited);
    MethodIs(own, inherited, "pipe");
    MethodIs(own, inherited, "on");
    ObjectIs(h, v, path, m, up);
  }

  lemma MethodIs(own: seq<Prop<Value>>, inherited: seq<Prop<Value>>, key: string)
    requires Distinct(own) && Distinct(inherited)
    ensures HasMethod(own, inherited, key) <==>
            Property(own, inherited, key).Some? && Property(own, inherited, key).value.Function?
  {
    var found := Property(own, inherited, key);
    if found.Some? && found.value.Function? {
      PropertyIs(own, inherited, key, found.value);
      assert IsRead(own, inherited, key, Function(found.value.text));
    }
    if text :| IsRead(own, inherited, key, Function(text)) {
      PropertyIs(own, inherited, key, Function(text));
    }
  }

  /** Any other object with a name and a buffer is an uploaded file, and shown by its name. */
  lemma FilesBecome(h: Heap, v: Value, path: string, m: Matchers, up: set<Ref>, name: Value)
    requires Closed(h) && InHeap(h, v) && v.Obj? && v.ref !in up && h[v.ref].kind.Object?
    requires var (own, inherited) := (h[v.ref].kind.own, h[v.ref].kind.inherited);
             && !(HasMethod(own, inherited, "pipe") && HasMethod(own, inherited, "on"))
             && IsRead(own, inherited, "originalname", name)
    ensures var (own, inherited) := (h[v.ref].kind.own, h[v.ref].kind.inherited);
            && InHeap(h, name)
            && (HasBuffer(h, own, inherited) ==>
                  Sanitized(h, v, path, m, up) == Text("[File: " + TextOf(h, name) + "]"))
            && (!HasBuffer(h, own, inherited) ==> Sanitized(h, v, path, m, up).Record?)
  {
    var (own, inherited) := (h[v.ref].kind.own, h[v.ref].kind.inherited);
    StreamsBecome(h, v, path, m, up);
    PropertyIs(own, inherited, "originalname", name);
    BufferIs(h, own, inherited);
    ObjectIs(h, v, path, m, up);
  }

  lemma BufferIs(h: Heap, own: seq<Prop<Value>>, inherited: seq<Prop<Value>>)
    requires Distinct(own) && Distinct(inherited)
    ensures HasBuffer(h, own, inherited) <==>
            Property(own, inherited, "buffer").Some? && IsBuffer(h, Property(own, inherited, "buffer").value)
  {
    var found := Property(own, inherited, "buffer");
    if found.Some? && IsBuffer(h, found.value) {
      PropertyIs(own, inherited, "buffer", found.value);
      assert IsRead(own, inherited, "buffer", Obj(found.value.ref));
    }
    if r :| r in h && h[r].kind == Binary(true) && IsRead(own, inherited, "buffer", Obj(r)) {
      PropertyIs(own, inherited, "buffer", Obj(r));
    }
  }

  /** An object without a name is walked. */
  lemma NamelessAreWalked(h: Heap, v: Value, path: string, m: Matchers, up: set<Ref>)
    requires Closed(h) && InHeap(h, v) && v.Obj? && v.ref !in up && h[v.ref].kind.Object?
    requires var (own, inherited) := (h[v.ref].kind.own, h[v.ref].kind.inherited);
             && !(HasMethod(own, inherited, "pipe") && HasMethod(own, inherited, "on"))
             && forall name :: !IsRead(own, inherited, "originalname", name)
    ensures Sanitized(h, v, path, m, up).Record?
  {
    var (own, inherited) := (h[v.ref].kind.own, h[v.ref].kind.inherited);
    StreamsBecome(h, v, path, m, up);
    if Property(own, inherited, "originalname").Some? {
      PropertyIs(own, inherited, "originalname", Property(own, inherited, "originalname").value);
    }
    ObjectIs(h, v, path, m, up);
  }

  /** What a key of a map, or the name of a file, is as a text. */
  lemma TextsAre(h: Heap, v: Value)
    requires InHeap(h, v)
    ensures match v
            case Undefined => TextOf(h, v) == "undefined"
            case Null => TextOf(h, v) == "null"
            case Bool(on) => TextOf(h, v) == if on then "true" else "false"
            case Str(text) => TextOf(h, v) == text
            case Num(text) => TextOf(h, v) == text
            case BigInt(text) => TextOf(h, v) == text
            case Function(text) => TextOf(h, v) == text
            case Obj(r) => TextOf(h, v) == h[r].text
            case Symbol => true
  {
  }

  // ---- The options ----

  /** A set of keys names what is excluded, and options what is excluded and what is masked. */
  lemma RulesAre(options: Options)
    ensures match options
            case NoOptions => ExcludeRules(options) == [] && RedactRules(options) == []
            case KeySet(keys) => ExcludeRules(options) == keys && RedactRules(options) == []
            case Options(excluded, masked, _) => ExcludeRules(options) == excluded && RedactRules(options) == masked
  {
  }

  /** A rule with a dot excludes the path it is, any other the name it is, letter by letter. */
  lemma ExclusionIs(rule: string, key: string, path: string)
    ensures ExcludeRuleHits(rule, key, path) <==> rule == if '.' in rule then path else key
  {
  }

  /** Masked properties hold `[REDACTED]` unless the options name something else. */
  lemma ReplacementIs(options: Options)
    ensures Replacement(options)
         == match options
            case NoOptions => "[REDACTED]"
            case KeySet(_) => "[REDACTED]"
            case Options(_, _, None) => "[REDACTED]"
            case Options(_, _, Some(text)) => if text == "" then "[REDACTED]" else text
  {
  }

  // ---- Paths ----

  /** The names of a trail; items have none. */
  function NamesOf(trail: seq<Step>): seq<string> {
    if trail == [] then []
    else (if trail[0].Key? then [trail[0].key] else []) + NamesOf(trail[1..])
  }

  /** Every name behind a dot. */
  function DotNames(names: seq<string>): string {
    if names == [] then "" else "." + names[0] + DotNames(names[1..])
  }

  /** The names with dots in between; empty ones at the front leave no trace. */
  function Dotted(names: seq<string>): string {
    if names == [] then ""
    else if names[0] == "" then Dotted(names[1..])
    else names[0] + DotNames(names[1..])
  }

  lemma NextName(path: string, key: string, names: seq<string>)
    ensures (if Join(path, key) == "" then Dotted(names) else Join(path, key) + DotNames(names))
         == (if path == "" then Dotted([key] + names) else path + DotNames([key] + names))
  {
    assert ([key] + names)[1..] == names;
    if path == "" {
      assert key == "" ==> Dotted([key] + names) == Dotted(names);
    } else {
      assert path + "." + key + DotNames(names) == path + ("." + key + DotNames(names));
    }
  }

  /** The path of what the walk comes to is the names on the way there, with dots in between. */
  lemma {:induction false} PathIsDotted(h: Heap, v: Value, path: string, m: Matchers, up: set<Ref>, trail: seq<Step>)
    requires Closed(h) && InHeap(h, v) && Walk(h, v, path, m, up, trail).Some?
    ensures Walk(h, v, path, m, up, trail).value.path
         == if path == "" then Dotted(NamesOf(trail)) else path + DotNames(NamesOf(trail))
    decreases |trail|
  {
    if trail == [] {
      assert path + "" == path;
    } else {
      var (step, rest) := (trail[0], trail[1..]);
      PathIsDotted(h, Child(h, h[v.ref], step).value, StepPath(path, step), m, up + {v.ref}, rest);
      if step.Key? {
        NextName(path, step.key, NamesOf(rest));
      } else {
        assert [] + NamesOf(rest) == NamesOf(rest);
      }
    }
  }
}
