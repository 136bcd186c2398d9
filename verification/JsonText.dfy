/** The text that JSON serialization gives for strings, numbers and lists, without
    escaping to ASCII, and its bytes in UTF-8. */
module JsonText {
  import opened Wrappers

  /** A Unicode code point. */
  type CodePoint = c: int | 0 <= c < 0x11_0000

  type Text = seq<CodePoint>

  function Points(s: string): Text {
    seq(|s|, i requires 0 <= i < |s| => Point(s[i]))
  }

  function Point(c: char): CodePoint { c as int }

  const QUOTE: CodePoint := '\"' as int
  const BACKSLASH: CodePoint := '\\' as int

  // ---- UTF-8 ----

  function Utf8(c: CodePoint): (b: seq<int>)
    ensures 1 <= |b| <= 4
  {
    if c < 0x80 then [c]
    else if c < 0x800 then [0xC0 + c / 64, 0x80 + c % 64]
    else if c < 0x1_0000 then [0xE0 + c / 64 / 64, 0x80 + c / 64 % 64, 0x80 + c % 64]
    else [0xF0 + c / 64 / 64 / 64, 0x80 + c / 64 / 64 % 64, 0x80 + c / 64 % 64, 0x80 + c % 64]
  }

  function Encoded(t: Text): seq<int> {
    if t == [] then [] else Encoded(t[..|t| - 1]) + Utf8(t[|t| - 1])
  }

  lemma {:induction false} EncodedConcat(p: Text, q: Text)
    ensures Encoded(p + q) == Encoded(p) + Encoded(q)
  {
    hide Utf8;
    if q == [] {
      assert p + q == p;
    } else {
      assert (p + q)[..|p + q| - 1] == p + q[..|q| - 1];
      EncodedConcat(p, q[..|q| - 1]);
    }
  }

  /** The first character of some bytes, by its leading byte. */
  function FirstPoint(b: seq<int>): Option<(int, nat)> {
    if |b| >= 1 && b[0] < 0x80 then Some((b[0], 1))
    else if |b| >= 2 && 0xC0 <= b[0] < 0xE0 then Some(((b[0] - 0xC0) * 64 + b[1] - 0x80, 2))
    else if |b| >= 3 && 0xE0 <= b[0] < 0xF0 then
      Some((((b[0] - 0xE0) * 64 + b[1] - 0x80) * 64 + b[2] - 0x80, 3))
    else if |b| >= 4 && 0xF0 <= b[0] then
      Some(((((b[0] - 0xF0) * 64 + b[1] - 0x80) * 64 + b[2] - 0x80) * 64 + b[3] - 0x80, 4))
    else None
  }

  /** Each character can be read back from its bytes, whatever follows. */
  lemma Utf8Reads(c: CodePoint, rest: seq<int>)
    ensures FirstPoint(Utf8(c) + rest) == Some((c, |Utf8(c)|))
    ensures forall i | 0 <= i < |Utf8(c)| :: 0 <= Utf8(c)[i] < 256
  {
    var b := Utf8(c) + rest;
    assert forall i | 0 <= i < |Utf8(c)| :: b[i] == Utf8(c)[i];
    assert c == c / 64 * 64 + c % 64 && c / 64 == c / 64 / 64 * 64 + c / 64 % 64;
    assert c / 64 / 64 == c / 64 / 64 / 64 * 64 + c / 64 / 64 % 64;
  }

  // ---- Strings ----

  function HexDigit(n: nat): CodePoint
    requires n < 16
  {
    if n < 10 then '0' as int + n else 'a' as int + n - 10
  }

  /** One character inside a string. */
  function Escape(c: CodePoint): (t: Text)
    ensures 1 <= |t| <= 6
  {
    if c == QUOTE || c == BACKSLASH then [BACKSLASH, c]
    else if c == 0x08 then [BACKSLASH, 'b' as int]
    else if c == 0x09 then [BACKSLASH, 't' as int]
    else if c == 0x0A then [BACKSLASH, 'n' as int]
    else if c == 0x0C then [BACKSLASH, 'f' as int]
    else if c == 0x0D then [BACKSLASH, 'r' as int]
    else if c < 0x20 then [BACKSLASH, 'u' as int, '0' as int, '0' as int, HexDigit(c / 16), HexDigit(c % 16)]
    else [c]
  }

  function Escapes(s: Text): Text {
    if s == [] then [] else Escapes(s[..|s| - 1]) + Escape(s[|s| - 1])
  }

  function Quoted(s: Text): Text { [QUOTE] + Escapes(s) + [QUOTE] }

  function FromHexDigit(c: CodePoint): Option<nat> {
    if '0' as int <= c <= '9' as int then Some(c - '0' as int)
    else if 'a' as int <= c <= 'f' as int then Some(c - 'a' as int + 10)
    else None
  }

  /** The first character of a string's inside, and how much text it takes; None at
      the closing quote, or where no string could go on. */
  function FirstCharacter(t: Text): Option<(int, nat)> {
    if t == [] || t[0] == QUOTE || t[0] < 0x20 then None
    else if t[0] != BACKSLASH then Some((t[0], 1))
    else if |t| < 2 then None
    else if t[1] == QUOTE || t[1] == BACKSLASH then Some((t[1], 2))
    else if t[1] == 'b' as int then Some((0x08, 2))
    else if t[1] == 't' as int then Some((0x09, 2))
    else if t[1] == 'n' as int then Some((0x0A, 2))
    else if t[1] == 'f' as int then Some((0x0C, 2))
    else if t[1] == 'r' as int then Some((0x0D, 2))
    else if t[1] == 'u' as int && |t| >= 6 then
      var (a, b, c, d) := (FromHexDigit(t[2]), FromHexDigit(t[3]), FromHexDigit(t[4]), FromHexDigit(t[5]));
      if a.None? || b.None? || c.None? || d.None? then None
      else Some((((a.value * 16 + b.value) * 16 + c.value) * 16 + d.value, 6))
    else None
  }

  lemma EscapeReads(c: CodePoint, rest: Text)
    ensures FirstCharacter(Escape(c) + rest) == Some((c, |Escape(c)|))
  {
    var t := Escape(c) + rest;
    assert forall i | 0 <= i < |Escape(c)| :: t[i] == Escape(c)[i];
    if c < 0x20 {
      HexReads(c / 16);
      HexReads(c % 16);
      HexReads(0);
      assert c == c / 16 * 16 + c % 16;
    }
  }

  lemma HexReads(n: nat)
    requires n < 16
    ensures FromHexDigit(HexDigit(n)) == Some(n)
  {}

  /** Reading a string up to its closing quote: its characters and the text left. */
  function ReadString(t: Text): (seq<int>, Text)
    decreases |t|
  {
    var first := FirstCharacter(t);
    if first.None? || first.value.1 > |t| || first.value.1 == 0 then ([], t)
    else
      var (s, rest) := ReadString(t[first.value.1..]);
      ([first.value.0] + s, rest)
  }

  /** A quoted string reads back as itself and ends at its own closing quote,
      whatever it contains and whatever follows. */
  lemma {:induction false} QuotedReads(s: Text, rest: Text)
    ensures ReadString(Escapes(s) + [QUOTE] + rest) == (s, [QUOTE] + rest)
  {
    hide Escape, FirstCharacter;
    var tail := [QUOTE] + rest;
    if s == [] {
      assert Escapes(s) + [QUOTE] + rest == tail;
      AtQuote(rest);
    } else {
      var (c, more) := (s[0], s[1..]);
      EscapesFirst(s);
      var inside := Escapes(more) + [QUOTE] + rest;
      assert Escapes(s) + [QUOTE] + rest == Escape(c) + inside;
      EscapeReads(c, inside);
      assert (Escape(c) + inside)[|Escape(c)|..] == inside;
      QuotedReads(more, rest);
      assert s == [c] + more;
    }
  }

  lemma AtQuote(rest: Text)
    ensures FirstCharacter([QUOTE] + rest) == None
  {}

  lemma {:induction false} EscapesFirst(s: Text)
    requires s != []
    ensures Escapes(s) == Escape(s[0]) + Escapes(s[1..])
  {
    hide Escape;
    if |s| == 1 {
      assert s[..0] == [] && s[1..] == [];
    } else {
      EscapesFirst(s[..|s| - 1]);
      assert s[1..][..|s[1..]| - 1] == s[..|s| - 1][1..];
    }
  }

  // ---- Numbers ----

  function Decimal(n: nat): (t: Text)
    ensures t != []
  {
    (if n < 10 then [] else Decimal(n / 10)) + ['0' as int + n % 10]
  }

  function Value(t: Text): int {
    if t == [] then 0 else Value(t[..|t| - 1]) * 10 + t[|t| - 1] - '0' as int
  }

  /** A number's digits are worth that number, and the first of several is not 0. */
  lemma {:induction false} DecimalValue(n: nat)
    ensures Value(Decimal(n)) == n && (n >= 10 ==> Decimal(n)[0] != '0' as int)
    ensures forall i | 0 <= i < |Decimal(n)| :: '0' as int <= Decimal(n)[i] <= '9' as int
    ensures n > 0 ==> Decimal(n)[0] != '0' as int
  {
    if n >= 10 {
      DecimalValue(n / 10);
      assert Decimal(n)[..|Decimal(n)| - 1] == Decimal(n / 10);
    } else {
      assert Decimal(n)[..0] == [];
    }
  }

  function Signed(n: int): Text { if n < 0 then ['-' as int] + Decimal(-n) else Decimal(n) }

  // ---- Lists ----

  /** Parts with a comma and a space between them. */
  function Joined(parts: seq<Text>): Text {
    if parts == [] then []
    else if |parts| == 1 then parts[0]
    else Joined(parts[..|parts| - 1]) + Points(", ") + parts[|parts| - 1]
  }
}
