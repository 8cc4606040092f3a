/**
 Composite keys: `escapeKeySegment`, `joinKeySegments`, and a reader that undoes them. A segment is a text or
 absent; colons and backslashes in it are escaped and an absent one has a mark of its own, so that different
 lists of segments get different keys. The one exception is the list without any segment.
 */
module KeySegments {
  import opened Wrappers

  const SEGMENT_SEPARATOR := ':'
  const ABSENT_SEGMENT := "\\-"

  /** Every `c` of `s` replaced by `text`. */
  function ReplaceAll(s: string, c: char, text: string): string {
    if s == "" then "" else (if s[0] == c then text else [s[0]]) + ReplaceAll(s[1..], c, text)
  }

  function EscapeKeySegment(value: string): string {
    ReplaceAll(ReplaceAll(value, '\\', "\\\\"), ':', "\\:")
  }

  function Render(segment: Option<string>): string {
    if segment.None? then ABSENT_SEGMENT else EscapeKeySegment(segment.value)
  }

  function JoinKeySegments(segments: seq<Option<string>>): string {
    if segments == [] then ""
    else if |segments| == 1 then Render(segments[0])
    else Render(segments[0]) + [SEGMENT_SEPARATOR] + JoinKeySegments(segments[1..])
  }

  // ---- Reading a key back ----

  /** A value up to the next separator that is not escaped, and what follows it. */
  function ReadValue(s: string): (string, string) {
    if s == "" || s[0] == SEGMENT_SEPARATOR then ("", s)
    else if s[0] == '\\' && |s| > 1 then
      var (value, rest) := ReadValue(s[2..]);
      ([s[1]] + value, rest)
    else
      var (value, rest) := ReadValue(s[1..]);
      ([s[0]] + value, rest)
  }

  function ReadSegment(s: string): (r: (Option<string>, string)) {
    if ABSENT_SEGMENT <= s then (None, s[2..])
    else
      var (value, rest) := ReadValue(s);
      (Some(value), rest)
  }

  lemma {:induction false} ReadingShortens(s: string)
    ensures |ReadValue(s).1| <= |s|
    decreases |s|
  {
    if s != "" && s[0] != SEGMENT_SEPARATOR {
      ReadingShortens(if s[0] == '\\' && |s| > 1 then s[2..] else s[1..]);
    }
  }

  function Parse(key: string): seq<Option<string>>
    decreases |key|
  {
    var (segment, rest) := ReadSegment(key);
    ReadingShortens(key);
    if rest == "" then [segment] else [segment] + Parse(rest[1..])
  }

  // ---- The reader undoes the join ----

  function EscapedChar(c: char): string {
    if c == '\\' then "\\\\" else if c == ':' then "\\:" else [c]
  }

  lemma {:induction false} ReplaceInConcat(a: string, b: string, c: char, text: string)
    ensures ReplaceAll(a + b, c, text) == ReplaceAll(a, c, text) + ReplaceAll(b, c, text)
  {
    if a == "" {
      assert a + b == b;
    } else {
      assert (a + b)[1..] == a[1..] + b;
      ReplaceInConcat(a[1..], b, c, text);
    }
  }

  /** The two replacements escape one character after the other. */
  lemma EscapeStep(value: string)
    requires value != ""
    ensures EscapeKeySegment(value) == EscapedChar(value[0]) + EscapeKeySegment(value[1..])
  {
    var head := if value[0] == '\\' then "\\\\" else [value[0]];
    ReplaceInConcat(head, ReplaceAll(value[1..], '\\', "\\\\"), ':', "\\:");
    assert ReplaceAll(head, ':', "\\:") == EscapedChar(value[0]) by {
      if value[0] == '\\' {
        assert head[1..] == "\\" && head[1..][1..] == "";
      } else {
        assert head[1..] == "";
      }
    }
  }

  /** Segments are separated by colons, and an absent one is written as `\-`. */
  lemma JoinStep(head: Option<string>, rest: seq<Option<string>>)
    ensures JoinKeySegments([head] + rest)
         == (if head.Some? then EscapeKeySegment(head.value) else "\\-")
            + (if rest == [] then "" else ":" + JoinKeySegments(rest))
    ensures JoinKeySegments([]) == "" && EscapeKeySegment("") == ""
  {
    assert ([head] + rest)[1..] == rest;
  }

  predicate EndsSegment(rest: string) {
    rest == "" || rest[0] == SEGMENT_SEPARATOR
  }

  lemma ConcatAssociates(a: string, b: string, c: string)
    ensures (a + b) + c == a + (b + c)
  {
  }

  lemma EscapeStepOnto(value: string, rest: string)
    requires value != ""
    ensures EscapeKeySegment(value) + rest == EscapedChar(value[0]) + (EscapeKeySegment(value[1..]) + rest)
  {
    EscapeStep(value);
    ConcatAssociates(EscapedChar(value[0]), EscapeKeySegment(value[1..]), rest);
  }

  lemma {:induction false} ValueIsReadBack(value: string, rest: string)
    requires EndsSegment(rest)
    ensures ReadValue(EscapeKeySegment(value) + rest) == (value, rest)
    decreases |value|
  {
    if value == "" {
      assert EscapeKeySegment(value) + rest == rest;
    } else {
      var tail := EscapeKeySegment(value[1..]) + rest;
      EscapeStepOnto(value, rest);
      ValueIsReadBack(value[1..], rest);
      assert value == [value[0]] + value[1..];
    }
  }

  lemma EscapedIsNotAbsent(value: string, rest: string)
    requires EndsSegment(rest)
    ensures !(ABSENT_SEGMENT <= EscapeKeySegment(value) + rest)
  {
    var s := EscapeKeySegment(value) + rest;
    if value == "" {
      assert s == rest;
    } else {
      EscapeStep(value);
      var head := EscapedChar(value[0]);
      assert s == head + (EscapeKeySegment(value[1..]) + rest);
      assert s[0] == head[0] && (|head| == 2 ==> s[1] == head[1]);
    }
  }

  lemma SegmentIsReadBack(segment: Option<string>, rest: string)
    requires EndsSegment(rest)
    ensures ReadSegment(Render(segment) + rest) == (segment, rest)
  {
    if segment.Some? {
      ValueIsReadBack(segment.value, rest);
      EscapedIsNotAbsent(segment.value, rest);
    }
  }

  /** Every non-empty list of present and absent segments can be read back from its key. */
  lemma {:induction false} ParseUndoesJoin(segments: seq<Option<string>>)
    requires segments != []
    ensures Parse(JoinKeySegments(segments)) == segments
    decreases |segments|
  {
    var head := Render(segments[0]);
    if |segments| == 1 {
      SegmentIsReadBack(segments[0], "");
      assert head + "" == head;
    } else {
      var rest := [SEGMENT_SEPARATOR] + JoinKeySegments(segments[1..]);
      SegmentIsReadBack(segments[0], rest);
      assert JoinKeySegments(segments) == head + rest;
      assert rest[1..] == JoinKeySegments(segments[1..]);
      ParseUndoesJoin(segments[1..]);
      assert segments == [segments[0]] + segments[1..];
    }
  }

  predicate IsEmptyAndBlank(a: seq<Option<string>>, b: seq<Option<string>>) {
    a == [] && b == [Some("")]
  }

  /** Two lists share a key only if they are the same, or one is empty and the other one empty segment. */
  lemma KeysCollideIff(a: seq<Option<string>>, b: seq<Option<string>>)
    ensures JoinKeySegments(a) == JoinKeySegments(b) <==> a == b || IsEmptyAndBlank(a, b) || IsEmptyAndBlank(b, a)
  {
    assert JoinKeySegments([Some("")]) == "";
    ParseUndoesJoin([Some("")]);
    if a != [] {
      ParseUndoesJoin(a);
    }
    if b != [] {
      ParseUndoesJoin(b);
    }
  }
}
