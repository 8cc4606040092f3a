/**
 `uuidv7` and `isUuidV7`: the layout of section 5.7 of RFC 9562. The clock and the random bytes are parameters.
 What is proved of the text: it is accepted, the time (modulo 2^48) and the seventy-four random bits can be read
 back from it, and texts of different milliseconds are in the order of their times as long as these are below 2^48.
 */
module Uuid {
  import opened Sorting

  type Byte = b: int | 0 <= b < 0x100

  // ---- The bytes ----

  /** The lowest byte of a whole number, which the mask `0xff` leaves of its lowest 32 bits. */
  function And255(x: nat): (b: Byte)
    ensures b == x % 256
  {
    x % 0x1_0000_0000 % 0x100
  }

  /** The byte as eight bits. */
  function Bits(b: Byte): (x: bv8)
    ensures x as int == b
  {
    if b == 0 then 0
    else
      var (half, bit: bv8) := (Bits(b / 2), if b % 2 == 1 then 1 else 0);
      (half << 1) | bit
  }

  lemma VersionMask(x: bv8)
    ensures ((x & 0x0f) | 0x70) as int == x as int % 16 + 0x70
  {
  }

  lemma VariantMask(x: bv8)
    ensures ((x & 0x3f) | 0x80) as int == x as int % 64 + 0x80
  {
  }

  /** The high half of the byte becomes the version. */
  function WithVersion(b: Byte): (r: Byte)
    ensures r == b % 16 + 0x70
  {
    VersionMask(Bits(b));
    ((Bits(b) & 0x0f) | 0x70) as int
  }

  /** The two highest bits become the variant. */
  function WithVariant(b: Byte): (r: Byte)
    ensures r == b % 64 + 0x80
  {
    VariantMask(Bits(b));
    ((Bits(b) & 0x3f) | 0x80) as int
  }

  /** `value` in big-endian bytes. */
  function BigEndian(value: nat, n: nat): (r: seq<Byte>)
    ensures |r| == n
  {
    if n == 0 then [] else BigEndian(value / 256, n - 1) + [value % 256]
  }

  function Layout(now: nat, random: seq<Byte>): (r: seq<Byte>)
    requires |random| == 16
    ensures |r| == 16
  {
    BigEndian(now, 6) + [WithVersion(random[6]), random[7], WithVariant(random[8])] + random[9..]
  }

  lemma BytesOfTime(now: nat)
    ensures BigEndian(now, 6) == [And255(now / 0x100_0000_0000), And255(now / 0x1_0000_0000), And255(now / 0x100_0000),
                                  And255(now / 0x1_0000), And255(now / 0x100), And255(now)]
  {
    ByteSteps(now);
    BytesOneByOne(now, now / 0x100, now / 0x1_0000, now / 0x100_0000, now / 0x1_0000_0000, now / 0x100_0000_0000);
  }

  lemma BytesOneByOne(now: nat, a: nat, b: nat, c: nat, d: nat, e: nat)
    requires a == now / 256 && b == a / 256 && c == b / 256 && d == c / 256 && e == d / 256
    ensures BigEndian(now, 6) == [And255(e), And255(d), And255(c), And255(b), And255(a), And255(now)]
  {
    assert BigEndian(e / 256, 0) == [];
    assert BigEndian(e, 1) == [And255(e)];
    assert BigEndian(d, 2) == [And255(e), And255(d)];
    assert BigEndian(c, 3) == [And255(e), And255(d), And255(c)];
    assert BigEndian(b, 4) == [And255(e), And255(d), And255(c), And255(b)];
    assert BigEndian(a, 5) == [And255(e), And255(d), And255(c), And255(b), And255(a)];
  }

  lemma ByteSteps(now: nat)
    ensures now / 0x100 / 256 == now / 0x1_0000 && now / 0x1_0000 / 256 == now / 0x100_0000
    ensures now / 0x100_0000 / 256 == now / 0x1_0000_0000 && now / 0x1_0000_0000 / 256 == now / 0x100_0000_0000
  {
  }

  // ---- The text ----

  function HexDigit(d: int): char
    requires 0 <= d < 16
  {
    if d < 10 then '0' + d as char else 'a' + (d - 10) as char
  }

  function Hex(bytes: seq<Byte>): (s: string)
    ensures |s| == 2 * |bytes|
    ensures forall j :: 0 <= j < |bytes| ==>
              s[2 * j] == HexDigit(bytes[j] / 16) && s[2 * j + 1] == HexDigit(bytes[j] % 16)
  {
    if bytes == [] then ""
    else
      var n := |bytes| - 1;
      Hex(bytes[..n]) + [HexDigit(bytes[n] / 16), HexDigit(bytes[n] % 16)]
  }

  function Dashed(hex: string): (s: string)
    requires |hex| == 32
    ensures |s| == 36
  {
    hex[..8] + "-" + hex[8..12] + "-" + hex[12..16] + "-" + hex[16..20] + "-" + hex[20..]
  }

  function TextOf(bytes: seq<Byte>): (s: string)
    requires |bytes| == 16
    ensures |s| == 36
  {
    Dashed(Hex(bytes))
  }

  /** Overwrites random bytes with the time, the version and the variant, and prints them. */
  method Uuidv7(bytes: array<Byte>, now: nat) returns (text: string)
    requires bytes.Length == 16
    modifies bytes
    ensures bytes[..] == Layout(now, old(bytes[..]))
    ensures text == TextOf(Layout(now, old(bytes[..])))
  {
    bytes[0] := And255(now / 0x100_0000_0000);
    bytes[1] := And255(now / 0x1_0000_0000);
    bytes[2] := And255(now / 0x100_0000);
    bytes[3] := And255(now / 0x1_0000);
    bytes[4] := And255(now / 0x100);
    bytes[5] := And255(now);
    bytes[6] := WithVersion(bytes[6]);
    bytes[8] := WithVariant(bytes[8]);
    BytesOfTime(now);
    assert bytes[..] == Layout(now, old(bytes[..]));
    var hex := Hex(bytes[..]);
    text := hex[..8] + "-" + hex[8..12] + "-" + hex[12..16] + "-" + hex[16..20] + "-" + hex[20..];
  }

  // ---- Reading the time back ----

  function DigitValue(c: char): nat {
    if '0' <= c <= '9' then c as int - '0' as int
    else if 'a' <= c <= 'f' then c as int - 'a' as int + 10
    else 0
  }

  function HexValue(s: string): nat {
    if s == "" then 0 else HexValue(s[..|s| - 1]) * 16 + DigitValue(s[|s| - 1])
  }

  function TimeOf(text: string): nat
    requires |text| == 36
  {
    HexValue(text[..8] + text[9..13])
  }

  function Power256(n: nat): (p: nat)
    ensures p > 0
  {
    if n == 0 then 1 else 256 * Power256(n - 1)
  }

  lemma HexOneMore(front: seq<Byte>, b: Byte)
    ensures HexValue(Hex(front + [b])) == HexValue(Hex(front)) * 256 + b
  {
    var (hex, hi, lo) := (Hex(front), HexDigit(b / 16), HexDigit(b % 16));
    HexOfOneMore(front, b);
    ValueOfOneMore(hex, hi);
    ValueOfOneMore(hex + [hi], lo);
  }

  lemma HexOfOneMore(front: seq<Byte>, b: Byte)
    ensures Hex(front + [b]) == Hex(front) + [HexDigit(b / 16)] + [HexDigit(b % 16)]
  {
    assert (front + [b])[..|front|] == front;
  }

  lemma ValueOfOneMore(s: string, c: char)
    ensures HexValue(s + [c]) == HexValue(s) * 16 + DigitValue(c)
  {
    assert (s + [c])[..|s|] == s;
  }

  /** What `n` bytes hold of a value. */
  function LowBytes(value: nat, n: nat): nat {
    if n == 0 then 0 else LowBytes(value / 256, n - 1) * 256 + value % 256
  }

  lemma {:induction false} LowBytesAreRemainder(value: nat, n: nat)
    ensures LowBytes(value, n) == value % Power256(n)
    decreases n
  {
    if n > 0 {
      LowBytesAreRemainder(value / 256, n - 1);
      RemainderInTwoSteps(value, Power256(n - 1));
    } else {
      assert value % 1 == 0;
    }
  }

  lemma {:induction false} HexOfBigEndian(value: nat, n: nat)
    ensures HexValue(Hex(BigEndian(value, n))) == LowBytes(value, n)
    decreases n
  {
    if n > 0 {
      HexOfBigEndian(value / 256, n - 1);
      HexOneMore(BigEndian(value / 256, n - 1), value % 256);
    }
  }

  lemma RemainderInTwoSteps(value: nat, p: nat)
    requires p > 0
    ensures value % (256 * p) == value / 256 % p * 256 + value % 256
  {
    var (q, r) := (value / 256, value % 256);
    var (a, b) := (q / p, q % p);
    assert value == 256 * (a * p + b) + r == a * (256 * p) + (256 * b + r);
    RemainderIs(value, 256 * p, a, 256 * b + r);
  }

  lemma RemainderIs(value: nat, d: nat, q: nat, r: nat)
    requires d > 0 && r < d && value == q * d + r
    ensures value % d == r
  {
    var (a, b) := (value / d, value % d);
    assert (q - a) * d == b - r && (a - q) * d == r - b;
    if q > a {
      TimesAtLeastOne(q - a, d);
    } else if q < a {
      TimesAtLeastOne(a - q, d);
    }
  }

  lemma TimesAtLeastOne(k: nat, d: nat)
    requires k > 0
    ensures k * d >= d
  {
  }

  lemma PowersOf256()
    ensures Power256(6) == 0x1_0000_0000_0000
  {
    assert Power256(3) == 0x100_0000 by { assert Power256(1) == 256 && Power256(2) == 0x1_0000; }
    assert Power256(4) == 0x1_0000_0000 && Power256(5) == 0x100_0000_0000;
  }

  lemma TimeDigits(bytes: seq<Byte>)
    requires |bytes| == 16
    ensures TextOf(bytes)[..8] + TextOf(bytes)[9..13] == Hex(bytes[..6])
  {
    var (hex, head) := (Hex(bytes), Hex(bytes[..6]));
    var s := TextOf(bytes)[..8] + TextOf(bytes)[9..13];
    assert s == hex[..8] + hex[8..12] == hex[..12];
    forall i | 0 <= i < 12 ensures hex[i] == head[i] {
      var j := i / 2;
      assert bytes[..6][j] == bytes[j];
      assert i == 2 * j || i == 2 * j + 1;
    }
  }

  /** The text tells the time, up to the 48 bits there are. */
  lemma TimeIsReadBack(now: nat, random: seq<Byte>)
    requires |random| == 16
    ensures TimeOf(TextOf(Layout(now, random))) == now % 0x1_0000_0000_0000
  {
    var bytes := Layout(now, random);
    TimeDigits(bytes);
    assert bytes[..6] == BigEndian(now, 6);
    HexOfBigEndian(now, 6);
    LowBytesAreRemainder(now, 6);
    PowersOf256();
  }

  /** Version 7, variant `10`, and all the other bits random. */
  lemma RandomBitsAreKept(now: nat, random: seq<Byte>)
    requires |random| == 16
    ensures var bytes := Layout(now, random);
            && bytes[6] / 16 == 7 && bytes[6] % 16 == random[6] % 16 && bytes[7] == random[7]
            && bytes[8] / 64 == 2 && bytes[8] % 64 == random[8] % 64
            && forall i :: 9 <= i < 16 ==> bytes[i] == random[i]
  {
  }

  // ---- isUuidV7 ----

  predicate IsSpace(c: char) {
    || '\t' <= c <= '\r' || c == ' ' || c == '\U{00A0}' || c == '\U{1680}' || '\U{2000}' <= c <= '\U{200A}'
    || c == '\U{2028}' || c == '\U{2029}' || c == '\U{202F}' || c == '\U{205F}' || c == '\U{3000}' || c == '\U{FEFF}'
  }

  function TrimStart(s: string): string {
    if s != "" && IsSpace(s[0]) then TrimStart(s[1..]) else s
  }

  function TrimEnd(s: string): string {
    if s != "" && IsSpace(s[|s| - 1]) then TrimEnd(s[..|s| - 1]) else s
  }

  function Trim(s: string): string {
    TrimEnd(TrimStart(s))
  }

  predicate IsHex(c: char) {
    '0' <= c <= '9' || 'a' <= c <= 'f' || 'A' <= c <= 'F'
  }

  predicate Matches(s: string) {
    && |s| == 36
    && forall i :: 0 <= i < 36 ==>
         if i == 8 || i == 13 || i == 18 || i == 23 then s[i] == '-'
         else if i == 14 then s[i] == '7'
         else if i == 19 then s[i] in "89abAB"
         else IsHex(s[i])
  }

  predicate IsUuidV7(value: string) {
    Trim(value) != "" && Matches(Trim(value))
  }

  predicate AllSpace(s: string) {
    forall i :: 0 <= i < |s| ==> IsSpace(s[i])
  }

  lemma {:induction false} TrimStartDrops(pad: string, s: string)
    requires AllSpace(pad) && s != "" && !IsSpace(s[0])
    ensures TrimStart(pad + s) == s
    decreases |pad|
  {
    if pad == "" {
      assert pad + s == s;
    } else {
      assert (pad + s)[1..] == pad[1..] + s;
      TrimStartDrops(pad[1..], s);
    }
  }

  lemma {:induction false} TrimEndDrops(s: string, pad: string)
    requires AllSpace(pad) && s != "" && !IsSpace(s[|s| - 1])
    ensures TrimEnd(s + pad) == s
    decreases |pad|
  {
    if pad == "" {
      assert s + pad == s;
    } else {
      assert (s + pad)[..|s + pad| - 1] == s + pad[..|pad| - 1];
      TrimEndDrops(s, pad[..|pad| - 1]);
    }
  }

  lemma TextMatches(now: nat, random: seq<Byte>)
    requires |random| == 16
    ensures Matches(TextOf(Layout(now, random)))
  {
    var bytes := Layout(now, random);
    var (hex, s) := (Hex(bytes), TextOf(bytes));
    RandomBitsAreKept(now, random);
    assert hex[12] == HexDigit(7) by { assert hex[2 * 6] == HexDigit(bytes[6] / 16); }
    assert hex[16] == HexDigit(bytes[8] / 16) && 8 <= bytes[8] / 16 < 12 by {
      assert hex[2 * 8] == HexDigit(bytes[8] / 16);
    }
    forall i | 0 <= i < 32 ensures IsHex(hex[i]) {
      var j := i / 2;
      assert i == 2 * j || i == 2 * j + 1;
      assert hex[2 * j] == HexDigit(bytes[j] / 16) && hex[2 * j + 1] == HexDigit(bytes[j] % 16);
    }
  }

  /** What `uuidv7` returns is accepted, whatever blank space is around it. */
  lemma GeneratedIsAccepted(now: nat, random: seq<Byte>, before: string, after: string)
    requires |random| == 16 && AllSpace(before) && AllSpace(after)
    ensures IsUuidV7(before + TextOf(Layout(now, random)) + after)
  {
    var s := TextOf(Layout(now, random));
    TextMatches(now, random);
    assert IsHex(s[0]) && IsHex(s[35]);
    assert before + s + after == before + (s + after);
    TrimStartDrops(before, s + after);
    TrimEndDrops(s, after);
  }

  // ---- Order ----

  /** `a` sorts before `b` at place `i`. */
  predicate BeforeAt<T(==)>(a: seq<T>, b: seq<T>, i: nat, less: (T, T) -> bool) {
    i < |a| && i < |b| && a[..i] == b[..i] && less(a[i], b[i])
  }

  predicate LessByte(x: Byte, y: Byte) {
    x < y
  }

  lemma {:induction false} FirstDifferenceDecides<T>(a: seq<T>, b: seq<T>, i: nat, less: (T, T) -> bool)
    requires BeforeAt(a, b, i, less)
    ensures LexLess(less, a, b)
    decreases i
  {
    if i > 0 {
      assert a[..i][0] == b[..i][0];
      assert a[1..][..i - 1] == a[..i][1..] && b[1..][..i - 1] == b[..i][1..];
      FirstDifferenceDecides(a[1..], b[1..], i - 1, less);
    }
  }

  lemma {:induction false} BigEndianOrders(x: nat, y: nat, n: nat) returns (i: nat)
    requires x < y < Power256(n)
    ensures i < n && BeforeAt(BigEndian(x, n), BigEndian(y, n), i, LessByte)
    decreases n
  {
    var (p, q) := (BigEndian(x / 256, n - 1), BigEndian(y / 256, n - 1));
    if x / 256 < y / 256 {
      i := BigEndianOrders(x / 256, y / 256, n - 1);
      assert BigEndian(x, n)[..i] == p[..i] && BigEndian(y, n)[..i] == q[..i];
    } else {
      i := n - 1;
      assert BigEndian(x, n)[..i] == p && BigEndian(y, n)[..i] == q;
    }
  }

  /** Where the first digit of byte `j` is in the text. */
  function Place(j: nat): nat {
    2 * j + (if j < 4 then 0 else if j < 6 then 1 else if j < 8 then 2 else if j < 10 then 3 else 4)
  }

  lemma DigitsAt(bytes: seq<Byte>, j: nat)
    requires |bytes| == 16 && j < 16
    ensures Place(j) + 1 < 36
    ensures TextOf(bytes)[Place(j)] == HexDigit(bytes[j] / 16) && TextOf(bytes)[Place(j) + 1] == HexDigit(bytes[j] % 16)
  {
    var hex := Hex(bytes);
    assert hex[2 * j] == HexDigit(bytes[j] / 16) && hex[2 * j + 1] == HexDigit(bytes[j] % 16);
  }

  lemma SameBytesSameText(a: seq<Byte>, b: seq<Byte>, j: nat)
    requires |a| == 16 && |b| == 16 && j < 6 && a[..j] == b[..j]
    ensures TextOf(a)[..Place(j)] == TextOf(b)[..Place(j)]
  {
    forall p | 0 <= p < Place(j) ensures TextOf(a)[p] == TextOf(b)[p] {
      if p != 8 {
        var k := if p < 8 then p / 2 else (p - 1) / 2;
        assert k < j && a[k] == a[..j][k] && b[k] == b[..j][k];
        DigitsAt(a, k);
        DigitsAt(b, k);
        assert p == Place(k) || p == Place(k) + 1;
      }
    }
  }

  lemma SmallerByteSmallerText(a: seq<Byte>, b: seq<Byte>, j: nat)
    requires |a| == 16 && |b| == 16 && j < 6 && BeforeAt(a, b, j, LessByte)
    ensures LexLess(LessChar, TextOf(a), TextOf(b))
  {
    SameBytesSameText(a, b, j);
    DigitsAt(a, j);
    DigitsAt(b, j);
    if a[j] / 16 < b[j] / 16 {
      FirstDifferenceDecides(TextOf(a), TextOf(b), Place(j), LessChar);
    } else {
      TakeOneMore(TextOf(a), Place(j));
      TakeOneMore(TextOf(b), Place(j));
      FirstDifferenceDecides(TextOf(a), TextOf(b), Place(j) + 1, LessChar);
    }
  }

  /** Identifiers of different milliseconds sort as text by their time. */
  lemma TextSortsByTime(x: nat, r: seq<Byte>, y: nat, s: seq<Byte>)
    requires |r| == 16 && |s| == 16 && x < y < 0x1_0000_0000_0000
    ensures LexLess(LessChar, TextOf(Layout(x, r)), TextOf(Layout(y, s)))
  {
    PowersOf256();
    var j := BigEndianOrders(x, y, 6);
    var (a, b) := (Layout(x, r), Layout(y, s));
    assert a[..6] == BigEndian(x, 6) && b[..6] == BigEndian(y, 6);
    assert a[..j] == a[..6][..j] && b[..j] == b[..6][..j];
    SmallerByteSmallerText(a, b, j);
  }
}
