/**
 What `isUuidV7` accepts: the texts of version 7 identifiers, in either case, with blank space around them. The
 pattern is a list of classes of characters by place, and trimming takes blanks from both ends; put together, a
 text passes if and only if it is some sixteen bytes with version 7 and variant `10` in hexadecimal, with dashes
 where they belong, and nothing but blanks around.
 */
module UuidAcceptance {
  import opened Sorting
  import opened Uuid

  predicate SameLetter(c: char, d: char) {
    c == d || ('A' <= c <= 'F' && 'a' <= d <= 'f' && d - 'a' == c - 'A')
  }

  /** `s` is `text`, which is in lower case, in any case. */
  predicate IsInAnyCase(s: string, text: string) {
    |s| == |text| && forall i :: 0 <= i < |s| ==> SameLetter(s[i], text[i])
  }

  /** Sixteen bytes with version 7 in the seventh and variant `10` in the ninth. */
  predicate IsVersion7(bytes: seq<Byte>) {
    |bytes| == 16 && bytes[6] / 16 == 7 && bytes[8] / 64 == 2
  }

  ghost predicate IsIdentifier(value: string, before: string, s: string, after: string, bytes: seq<Byte>) {
    && value == before + s + after && AllSpace(before) && AllSpace(after)
    && IsVersion7(bytes) && IsInAnyCase(s, TextOf(bytes))
  }

  // ---- Digits ----

  function DigitOf(c: char): nat {
    if '0' <= c <= '9' then c as int - '0' as int
    else if 'a' <= c <= 'f' then c as int - 'a' as int + 10
    else if 'A' <= c <= 'F' then c as int - 'A' as int + 10
    else 0
  }

  lemma DigitIsSame(c: char)
    requires IsHex(c)
    ensures DigitOf(c) < 16 && SameLetter(c, HexDigit(DigitOf(c)))
  {
  }

  lemma SameIsHex(c: char, d: int)
    requires 0 <= d < 16 && SameLetter(c, HexDigit(d))
    ensures IsHex(c) && (d == 7 <==> c == '7') && (8 <= d < 12 <==> c in "89abAB")
  {
  }

  predicate IsDash(i: nat) {
    i == 8 || i == 13 || i == 18 || i == 23
  }

  /** The byte whose digit is at place `i`. */
  function ByteAt(i: nat): nat
    requires i < 36 && !IsDash(i)
  {
    if i < 8 then i / 2 else if i < 13 then (i - 1) / 2 else if i < 18 then (i - 2) / 2
    else if i < 23 then (i - 3) / 2 else (i - 4) / 2
  }

  lemma PlaceOfByte(i: nat)
    requires i < 36 && !IsDash(i)
    ensures ByteAt(i) < 16 && (i == Place(ByteAt(i)) || i == Place(ByteAt(i)) + 1)
  {
  }

  lemma DashesAre(bytes: seq<Byte>)
    requires |bytes| == 16
    ensures var text := TextOf(bytes); text[8] == '-' && text[13] == '-' && text[18] == '-' && text[23] == '-'
  {
  }

  // ---- The pattern ----

  function BytesOf(s: string): (bytes: seq<Byte>)
    requires Matches(s)
    ensures |bytes| == 16
  {
    seq(16, j requires 0 <= j < 16 => ByteOf(s, j))
  }

  function ByteOf(s: string, j: nat): (b: Byte)
    requires Matches(s) && j < 16
  {
    PlacesMatch(s, j);
    DigitOf(s[Place(j)]) * 16 + DigitOf(s[Place(j) + 1])
  }

  lemma PlacesMatch(s: string, j: nat)
    requires Matches(s) && j < 16
    ensures Place(j) + 1 < 36 && DigitOf(s[Place(j)]) < 16 && DigitOf(s[Place(j) + 1]) < 16
    ensures IsHex(s[Place(j)]) && IsHex(s[Place(j) + 1])
    ensures j == 6 ==> s[Place(j)] == '7'
    ensures j == 8 ==> s[Place(j)] in "89abAB"
  {
    assert !IsDash(Place(j)) && !IsDash(Place(j) + 1);
  }

  lemma VersionMatches(s: string)
    requires Matches(s)
    ensures IsVersion7(BytesOf(s))
  {
    PlacesMatch(s, 6);
    PlacesMatch(s, 8);
    assert BytesOf(s)[6] == ByteOf(s, 6) && BytesOf(s)[8] == ByteOf(s, 8);
  }

  /** Every text of the pattern is that of some identifier. */
  lemma MatchIsText(s: string)
    requires Matches(s)
    ensures IsVersion7(BytesOf(s)) && IsInAnyCase(s, TextOf(BytesOf(s)))
  {
    var bytes := BytesOf(s);
    VersionMatches(s);
    DashesAre(bytes);
    forall i | 0 <= i < 36 ensures SameLetter(s[i], TextOf(bytes)[i]) {
      if !IsDash(i) {
        PlaceOfByte(i);
        DigitMatches(s, ByteAt(i));
      }
    }
  }

  lemma DigitMatches(s: string, j: nat)
    requires Matches(s) && j < 16
    ensures Place(j) + 1 < 36
    ensures SameLetter(s[Place(j)], TextOf(BytesOf(s))[Place(j)])
    ensures SameLetter(s[Place(j) + 1], TextOf(BytesOf(s))[Place(j) + 1])
  {
    PlacesMatch(s, j);
    DigitsAt(BytesOf(s), j);
    var (high, low) := (s[Place(j)], s[Place(j) + 1]);
    DigitsOfByte(DigitOf(high), DigitOf(low));
    DigitIsSame(high);
    DigitIsSame(low);
    assert BytesOf(s)[j] == DigitOf(high) * 16 + DigitOf(low);
  }

  lemma DigitsOfByte(high: nat, low: nat)
    requires low < 16
    ensures (high * 16 + low) / 16 == high && (high * 16 + low) % 16 == low
  {
  }

  /** And every identifier, in any case, is of the pattern. */
  lemma TextIsMatch(s: string, bytes: seq<Byte>)
    requires IsVersion7(bytes) && IsInAnyCase(s, TextOf(bytes))
    ensures Matches(s)
  {
    DashesAre(bytes);
    forall i | 0 <= i < 36
      ensures if IsDash(i) then s[i] == '-'
              else IsHex(s[i]) && (i == 14 ==> s[i] == '7') && (i == 19 ==> s[i] in "89abAB")
    {
      if !IsDash(i) {
        var j := ByteAt(i);
        PlaceOfByte(i);
        DigitsAt(bytes, j);
        SameIsHex(s[i], if i == Place(j) then bytes[j] / 16 else bytes[j] % 16);
      }
    }
  }

  // ---- Blank space ----

  /** Blank space is what `trim` takes away: white space and line ends of any script, and the byte order mark. */
  lemma BlanksAre(c: char)
    ensures IsSpace(c) <==>
            9 <= c as int <= 13 || 0x2000 <= c as int <= 0x200A
            || c as int in {0x20, 0xA0, 0x1680, 0x2028, 0x2029, 0x202F, 0x205F, 0x3000, 0xFEFF}
  {
  }

  lemma {:induction false} StartIsTrimmed(s: string) returns (before: string)
    ensures s == before + TrimStart(s) && AllSpace(before)
    ensures TrimStart(s) != "" ==> !IsSpace(TrimStart(s)[0])
  {
    if s != "" && IsSpace(s[0]) {
      var rest := StartIsTrimmed(s[1..]);
      before := [s[0]] + rest;
    } else {
      before := "";
    }
  }

  lemma {:induction false} EndIsTrimmed(s: string) returns (after: string)
    ensures s == TrimEnd(s) + after && AllSpace(after)
  {
    if s != "" && IsSpace(s[|s| - 1]) {
      var rest := EndIsTrimmed(s[..|s| - 1]);
      after := rest + [s[|s| - 1]];
    } else {
      after := "";
    }
  }

  lemma IdentifierIsAccepted(value: string, before: string, s: string, after: string, bytes: seq<Byte>)
    requires IsIdentifier(value, before, s, after, bytes)
    ensures IsUuidV7(value)
  {
    TextIsMatch(s, bytes);
    assert IsHex(s[0]) && IsHex(s[35]);
    assert value == before + (s + after);
    TrimStartDrops(before, s + after);
    TrimEndDrops(s, after);
  }

  lemma AcceptedIsIdentifier(value: string) returns (before: string, s: string, after: string, bytes: seq<Byte>)
    requires IsUuidV7(value)
    ensures IsIdentifier(value, before, s, after, bytes)
  {
    s := Trim(value);
    before := StartIsTrimmed(value);
    after := EndIsTrimmed(TrimStart(value));
    assert value == before + (s + after) == before + s + after;
    bytes := BytesOf(s);
    MatchIsText(s);
  }

  /** `isUuidV7` accepts a text if and only if, blank space around it aside, it is that of a version 7 identifier. */
  lemma AcceptedIff(value: string)
    ensures IsUuidV7(value) <==> exists before, s, after, bytes :: IsIdentifier(value, before, s, after, bytes)
  {
    if IsUuidV7(value) {
      var before, s, after, bytes := AcceptedIsIdentifier(value);
    }
    if before, s, after, bytes :| IsIdentifier(value, before, s, after, bytes) {
      IdentifierIsAccepted(value, before, s, after, bytes);
    }
  }
}
