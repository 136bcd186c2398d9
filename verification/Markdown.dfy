/** The Markdown escaper: four replacement passes, the one character-wise code
    they amount to, and its inverse. */
module Markdown {
  import opened Wrappers
  import opened JsonText

  const BACKTICK: CodePoint := '`' as int
  const PIPE: CodePoint := '|' as int
  const LETTER_X: CodePoint := 'x' as int

  /** C0, DEL and C1. */
  predicate Control(c: CodePoint) { 0 <= c <= 0x1F || 0x7F <= c <= 0x9F }

  /** `\xhh` */
  function Hex(c: CodePoint): Text
    requires 0 <= c < 256
  {
    [BACKSLASH, LETTER_X, HexDigit(c / 16), HexDigit(c % 16)]
  }

  // ---- The passes ----

  /** `text.replace(c, with)` for one character. */
  function Replace(s: Text, c: CodePoint, with: Text): Text {
    if s == [] then [] else Replace(s[..|s| - 1], c, with) + if s[|s| - 1] == c then with else [s[|s| - 1]]
  }

  /** The regular-expression substitution of the control characters. */
  function ReplaceControls(s: Text): Text {
    if s == [] then []
    else
      var c := s[|s| - 1];
      ReplaceControls(s[..|s| - 1]) + if Control(c) then Hex(c) else [c]
  }

  const NULL: Text := Points("null")

  /** The four passes over a text, in order. */
  function Passes(s: Text): Text {
    var slashes := Replace(s, BACKSLASH, [BACKSLASH, BACKSLASH]);
    var ticks := Replace(slashes, BACKTICK, Hex(BACKTICK));
    var pipes := Replace(ticks, PIPE, [BACKSLASH, PIPE]);
    ReplaceControls(pipes)
  }

  function SanitizeMarkdown(value: Option<Text>): Text {
    Passes(if value.None? then NULL else value.value)
  }

  // ---- The code ----

  function Code(c: CodePoint): (t: Text)
    ensures 1 <= |t| <= 4
  {
    if c == BACKSLASH then [BACKSLASH, BACKSLASH]
    else if c == PIPE then [BACKSLASH, PIPE]
    else if c == BACKTICK || Control(c) then Hex(c)
    else [c]
  }

  function Encode(s: Text): Text {
    if s == [] then [] else Encode(s[..|s| - 1]) + Code(s[|s| - 1])
  }

  lemma {:induction false} ReplaceConcat(p: Text, q: Text, c: CodePoint, with: Text)
    ensures Replace(p + q, c, with) == Replace(p, c, with) + Replace(q, c, with)
  {
    if q == [] {
      assert p + q == p;
    } else {
      assert (p + q)[..|p + q| - 1] == p + q[..|q| - 1];
      ReplaceConcat(p, q[..|q| - 1], c, with);
    }
  }

  lemma {:induction false} ReplaceControlsConcat(p: Text, q: Text)
    ensures ReplaceControls(p + q) == ReplaceControls(p) + ReplaceControls(q)
  {
    hide Hex;
    if q == [] {
      assert p + q == p;
    } else {
      assert (p + q)[..|p + q| - 1] == p + q[..|q| - 1];
      ReplaceControlsConcat(p, q[..|q| - 1]);
    }
  }

  lemma PassesConcat(p: Text, q: Text)
    ensures Passes(p + q) == Passes(p) + Passes(q)
  {
    hide Replace, ReplaceControls, Hex;
    var a, b := Replace(p, BACKSLASH, [BACKSLASH, BACKSLASH]), Replace(q, BACKSLASH, [BACKSLASH, BACKSLASH]);
    ReplaceConcat(p, q, BACKSLASH, [BACKSLASH, BACKSLASH]);
    ReplaceConcat(a, b, BACKTICK, Hex(BACKTICK));
    var c, d := Replace(a, BACKTICK, Hex(BACKTICK)), Replace(b, BACKTICK, Hex(BACKTICK));
    ReplaceConcat(c, d, PIPE, [BACKSLASH, PIPE]);
    ReplaceControlsConcat(Replace(c, PIPE, [BACKSLASH, PIPE]), Replace(d, PIPE, [BACKSLASH, PIPE]));
  }

  /** No pass touches what an earlier one wrote. */
  lemma PassesOne(c: CodePoint)
    ensures Passes([c]) == Code(c)
  {
    hide Replace, ReplaceControls;
    ReplaceOne(c, BACKSLASH, [BACKSLASH, BACKSLASH]);
    ReplaceOne(c, BACKTICK, Hex(BACKTICK));
    ReplaceOne(c, PIPE, [BACKSLASH, PIPE]);
    ControlsOne(c);
    if c == BACKSLASH {
      Untouched([BACKSLASH, BACKSLASH], BACKTICK, Hex(BACKTICK));
      Untouched([BACKSLASH, BACKSLASH], PIPE, [BACKSLASH, PIPE]);
      NoControls([BACKSLASH, BACKSLASH]);
    } else if c == BACKTICK {
      HexPlain(c);
      Untouched(Hex(BACKTICK), PIPE, [BACKSLASH, PIPE]);
      NoControls(Hex(BACKTICK));
    } else if c == PIPE {
      NoControls([BACKSLASH, PIPE]);
    }
  }

  lemma HexPlain(c: CodePoint)
    requires 0 <= c < 256
    ensures forall i | 0 <= i < |Hex(c)| :: Hex(c)[i] != PIPE && !Control(Hex(c)[i])
  {}

  lemma ControlsOne(c: CodePoint)
    ensures ReplaceControls([c]) == if Control(c) then Hex(c) else [c]
  {
    hide Hex;
    assert [c][..0] == [];
  }

  lemma ReplaceOne(c: CodePoint, d: CodePoint, with: Text)
    ensures Replace([c], d, with) == if c == d then with else [c]
  {
    assert [c][..0] == [];
  }

  lemma {:induction false} Untouched(s: Text, c: CodePoint, with: Text)
    requires forall i | 0 <= i < |s| :: s[i] != c
    ensures Replace(s, c, with) == s
  {
    if s != [] {
      Untouched(s[..|s| - 1], c, with);
      assert s == s[..|s| - 1] + [s[|s| - 1]];
    }
  }

  lemma {:induction false} NoControls(s: Text)
    requires forall i | 0 <= i < |s| :: !Control(s[i])
    ensures ReplaceControls(s) == s
  {
    if s != [] {
      NoControls(s[..|s| - 1]);
      assert s == s[..|s| - 1] + [s[|s| - 1]];
    }
  }

  /** The four passes are one character-wise code. */
  lemma {:induction false} PassesAreEncode(s: Text)
    ensures SanitizeMarkdown(Some(s)) == Encode(s)
  {
    if s == [] {
    } else {
      hide Passes, Code;
      var (rest, c) := (s[..|s| - 1], s[|s| - 1]);
      assert s == rest + [c];
      PassesAreEncode(rest);
      PassesConcat(rest, [c]);
      PassesOne(c);
    }
  }

  // ---- The inverse ----

  /** The first coded character of a text and the length of its code. */
  function First(t: Text): Option<(CodePoint, nat)> {
    if t == [] then None
    else if t[0] != BACKSLASH then
      if t[0] == PIPE || t[0] == BACKTICK || Control(t[0]) then None else Some((t[0], 1))
    else if |t| >= 2 && t[1] == BACKSLASH then Some((BACKSLASH, 2))
    else if |t| >= 2 && t[1] == PIPE then Some((PIPE, 2))
    else if |t| >= 4 && t[1] == LETTER_X && FromHexDigit(t[2]).Some? && FromHexDigit(t[3]).Some? then
      var c := FromHexDigit(t[2]).value * 16 + FromHexDigit(t[3]).value;
      if c == BACKTICK || Control(c) then Some((c, 4)) else None
    else None
  }

  function Decode(t: Text): Option<Text> {
    if t == [] then Some([])
    else match First(t)
         case None => None
         case Some(p) =>
           if 0 < p.1 <= |t| then
             match Decode(t[p.1..])
             case None => None
             case Some(rest) => Some([p.0] + rest)
           else None
  }

  lemma FirstOfCode(c: CodePoint, rest: Text)
    ensures First(Code(c) + rest) == Some((c, |Code(c)|))
  {
    if c == BACKTICK || Control(c) {
      var t := Code(c) + rest;
      assert t[0] == BACKSLASH && t[1] == LETTER_X && t[2] == HexDigit(c / 16) && t[3] == HexDigit(c % 16);
    }
  }

  lemma FirstIsCode(t: Text)
    requires First(t).Some?
    ensures var (c, n) := First(t).value; 0 < n <= |t| && t[..n] == Code(c)
  {
    var (c, n) := First(t).value;
    if n == 4 {
      var (h, l) := (FromHexDigit(t[2]).value, FromHexDigit(t[3]).value);
      assert c / 16 == h && c % 16 == l;
    }
  }

  /** Encoding character by character from the front. */
  lemma {:induction false} EncodeCons(c: CodePoint, s: Text)
    ensures Encode([c] + s) == Code(c) + Encode(s)
  {
    hide Code;
    if s == [] {
      assert [c] + s == [c] && [c][..0] == [];
    } else {
      assert ([c] + s)[..|s|] == [c] + s[..|s| - 1];
      EncodeCons(c, s[..|s| - 1]);
    }
  }

  lemma {:induction false} DecodeEncode(s: Text)
    ensures Decode(Encode(s)) == Some(s)
  {
    if s != [] {
      hide Code, First, Encode;
      var (c, rest) := (s[0], s[1..]);
      assert s == [c] + rest;
      EncodeCons(c, rest);
      FirstOfCode(c, Encode(rest));
      assert Encode(s)[|Code(c)|..] == Encode(rest);
      DecodeEncode(rest);
    }
  }

  lemma {:induction false} EncodeDecode(t: Text)
    requires Decode(t).Some?
    ensures Encode(Decode(t).value) == t
    decreases |t|
  {
    if t != [] {
      hide Code, First, Encode;
      FirstIsCode(t);
      var (c, n) := First(t).value;
      EncodeDecode(t[n..]);
      EncodeCons(c, Decode(t[n..]).value);
      assert t == t[..n] + t[n..];
    }
  }

  /** The escaper is exactly invertible: a text is the escape of at most one value,
      and decoding finds it. */
  lemma ExactInverse(s: Text, t: Text)
    ensures SanitizeMarkdown(Some(s)) == t <==> Decode(t) == Some(s)
  {
    hide SanitizeMarkdown, Encode, Decode;
    PassesAreEncode(s);
    DecodeEncode(s);
    if Decode(t) == Some(s) { EncodeDecode(t); }
  }

  /** What becomes of one character. */
  lemma EachCharacter(c: CodePoint)
    ensures var t := SanitizeMarkdown(Some([c]));
            if c == '\\' as int then t == Points("\\\\")
            else if c == '|' as int then t == Points("\\|")
            else if c == '`' as int then t == Points("\\x60")
            else if c <= 0x1F || 0x7F <= c <= 0x9F then
              |t| == 4 && t[..2] == Points("\\x") && FromHexDigit(t[2]) == Some(c / 16) &&
              FromHexDigit(t[3]) == Some(c % 16)
            else t == [c]
  {
    hide SanitizeMarkdown, Code;
    PassesAreEncode([c]);
    assert [c][..0] == [];
    assert Encode([c]) == Code(c);
    CodeSays(c);
  }

  lemma CodeSays(c: CodePoint)
    ensures var t := Code(c);
            if c == '\\' as int then t == Points("\\\\")
            else if c == '|' as int then t == Points("\\|")
            else if c == '`' as int then t == Points("\\x60")
            else if c <= 0x1F || 0x7F <= c <= 0x9F then
              |t| == 4 && t[..2] == Points("\\x") && FromHexDigit(t[2]) == Some(c / 16) &&
              FromHexDigit(t[3]) == Some(c % 16)
            else t == [c]
  {
  }

  /** Text by text: what is rendered of two texts together is what is rendered of each. */
  lemma EachText(p: Text, q: Text)
    ensures SanitizeMarkdown(Some(p + q)) == SanitizeMarkdown(Some(p)) + SanitizeMarkdown(Some(q))
    ensures SanitizeMarkdown(None) == SanitizeMarkdown(Some(Points("null")))
  {
    hide Passes;
    PassesConcat(p, q);
  }

  // ---- What cannot survive ----

  /** How many backslashes end the text. */
  function Run(t: Text): nat {
    if t == [] || t[|t| - 1] != BACKSLASH then 0 else 1 + Run(t[..|t| - 1])
  }

  /** No backtick, no control character, and every pipe escaped: after an odd
      number of backslashes. */
  ghost predicate Inert(t: Text) {
    forall i | 0 <= i < |t| :: InertAt(t, i)
  }

  ghost predicate InertAt(t: Text, i: nat)
    requires i < |t|
  {
    t[i] != '`' as int && !(t[i] <= 0x1F || 0x7F <= t[i] <= 0x9F) && (t[i] == '|' as int ==> Run(t[..i]) % 2 == 1)
  }

  /** Coding one more character keeps the text inert and its trailing run even. */
  lemma InertNext(t: Text, c: CodePoint)
    requires Inert(t) && Run(t) % 2 == 0
    ensures Inert(t + Code(c)) && Run(t + Code(c)) % 2 == 0
  {
    var code := Code(c);
    var all := t + code;
    CodeRuns(t, c);
    hide Code;
    forall i | 0 <= i < |all| ensures InertAt(all, i) {
      if i < |t| {
        assert InertAt(t, i);
        assert all[..i] == t[..i];
      } else {
        assert all[i] == code[i - |t|];
        CodePlain(c, i - |t|);
        if all[i] == PIPE { assert all[..i] == t + [BACKSLASH]; }
      }
    }
  }

  lemma CodePlain(c: CodePoint, i: nat)
    requires i < |Code(c)|
    ensures Code(c)[i] != BACKTICK && !Control(Code(c)[i])
    ensures Code(c)[i] == PIPE ==> i == 1 && Code(c)[0] == BACKSLASH
  {
  }

  lemma CodeRuns(t: Text, c: CodePoint)
    ensures Run(t + [BACKSLASH]) == Run(t) + 1
    ensures Run(t + Code(c)) == if c == BACKSLASH then Run(t) + 2 else 0
  {
    assert (t + [BACKSLASH])[..|t|] == t;
    assert (t + [BACKSLASH, BACKSLASH])[..|t| + 1] == t + [BACKSLASH];
    if c != BACKSLASH {
      var all := t + Code(c);
      assert all[|all| - 1] == Code(c)[|Code(c)| - 1];
    }
  }

  lemma {:induction false} EncodeInert(s: Text)
    ensures Inert(Encode(s)) && Run(Encode(s)) % 2 == 0
  {
    hide Code, Inert;
    if s == [] {
      EmptyInert();
    } else {
      EncodeInert(s[..|s| - 1]);
      InertNext(Encode(s[..|s| - 1]), s[|s| - 1]);
    }
  }

  lemma EmptyInert()
    ensures Inert([]) && Run([]) == 0
  {}

  /** Whatever the value, its rendering is inert. */
  lemma SanitizedInert(value: Option<Text>)
    ensures Inert(SanitizeMarkdown(value))
  {
    hide Inert, SanitizeMarkdown, Encode;
    var text := if value.None? then NULL else value.value;
    PassesAreEncode(text);
    EncodeInert(text);
    NullText();
  }

  lemma NullText()
    ensures SanitizeMarkdown(None) == SanitizeMarkdown(Some(NULL))
  {}
}
