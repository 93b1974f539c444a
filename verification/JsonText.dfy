/**
 Texts of UTF-16 code units as `JSON.stringify` writes them: string escaping, joining with
 commas, and why no such text can be mistaken for another one inside a longer text.
 */
module JsonText {

  type Unit = u: int | 0 <= u < 0x1_0000
  type Text = seq<Unit>

  const QUOTE: Unit := 0x22
  const COMMA: Unit := 0x2C
  const MINUS: Unit := 0x2D
  const COLON: Unit := 0x3A
  const OPEN_ARRAY: Unit := 0x5B
  const BACKSLASH: Unit := 0x5C
  const CLOSE_ARRAY: Unit := 0x5D
  const OPEN_OBJECT: Unit := 0x7B
  const CLOSE_OBJECT: Unit := 0x7D

  lemma CutPrefix(a: Text, x: Text, b: Text, y: Text)
    requires a + x == b + y && |a| == |b|
    ensures a == b && x == y
  {
    assert a == (a + x)[..|a|] && x == (a + x)[|a|..];
    assert b == (b + y)[..|b|] && y == (b + y)[|b|..];
  }

  // ------------------------------------------------------------------------ string escaping

  predicate HighSurrogate(u: Unit) {
    0xD800 <= u <= 0xDBFF
  }

  predicate LowSurrogate(u: Unit) {
    0xDC00 <= u <= 0xDFFF
  }

  /// The text starts with a surrogate pair, which is written as it is.
  predicate StartsWithPair(s: Text) {
    |s| >= 2 && HighSurrogate(s[0]) && LowSurrogate(s[1])
  }

  function HexDigit(d: nat): Unit
    requires d < 16
  {
    if d < 10 then 0x30 + d else 0x57 + d
  }

  function UnicodeEscape(u: Unit): Text {
    [BACKSLASH, 0x75, HexDigit(u / 16 / 16 / 16), HexDigit(u / 16 / 16 % 16), HexDigit(u / 16 % 16), HexDigit(u % 16)]
  }

  /// A code unit that is not part of a surrogate pair: section 7 of RFC 8259, with lone surrogates escaped.
  function EscapeUnit(u: Unit): Text {
    if u == 0x08 then [BACKSLASH, 0x62]
    else if u == 0x09 then [BACKSLASH, 0x74]
    else if u == 0x0A then [BACKSLASH, 0x6E]
    else if u == 0x0C then [BACKSLASH, 0x66]
    else if u == 0x0D then [BACKSLASH, 0x72]
    else if u == QUOTE || u == BACKSLASH then [BACKSLASH, u]
    else if u < 0x20 || HighSurrogate(u) || LowSurrogate(u) then UnicodeEscape(u)
    else [u]
  }

  function Escape(s: Text): Text {
    if s == [] then []
    else if StartsWithPair(s) then s[..2] + Escape(s[2..])
    else EscapeUnit(s[0]) + Escape(s[1..])
  }

  /// `JSON.stringify` of a string.
  function Quote(s: Text): Text {
    [QUOTE] + Escape(s) + [QUOTE]
  }

  lemma HexDigitsApart(d: nat, e: nat)
    requires d < 16 && e < 16 && HexDigit(d) == HexDigit(e)
    ensures d == e
  {
  }

  lemma EscapedUnitsApart(u: Unit, v: Unit)
    requires UnicodeEscape(u) == UnicodeEscape(v)
    ensures u == v
  {
    var a, b := UnicodeEscape(u), UnicodeEscape(v);
    assert a[2] == b[2] && a[3] == b[3] && a[4] == b[4] && a[5] == b[5];
    HexDigitsApart(u / 16 / 16 / 16, v / 16 / 16 / 16);
    HexDigitsApart(u / 16 / 16 % 16, v / 16 / 16 % 16);
    HexDigitsApart(u / 16 % 16, v / 16 % 16);
    HexDigitsApart(u % 16, v % 16);
  }

  lemma UnitsApart(u: Unit, x: Text, v: Unit, y: Text)
    requires EscapeUnit(u) + x == EscapeUnit(v) + y
    ensures u == v && x == y
  {
    var a, b := EscapeUnit(u), EscapeUnit(v);
    assert a[0] == (a + x)[0] && b[0] == (b + y)[0];
    if |a| > 1 {
      assert a[1] == (a + x)[1] && b[1] == (b + y)[1];
    }
    CutPrefix(a, x, b, y);
    if |a| == 6 {
      EscapedUnitsApart(u, v);
    }
  }

  /// An escaped text with its closing quote and what follows.
  function Closed(s: Text, x: Text): Text {
    Escape(s) + [QUOTE] + x
  }

  lemma ClosedStep(s: Text, x: Text)
    ensures s == [] ==> Closed(s, x) == [QUOTE] + x
    ensures s != [] && StartsWithPair(s) ==> Closed(s, x) == s[..2] + Closed(s[2..], x)
    ensures s != [] && !StartsWithPair(s) ==> Closed(s, x) == EscapeUnit(s[0]) + Closed(s[1..], x)
  {
  }

  /// The first unit tells what the text starts with.
  lemma FirstUnit(s: Text, x: Text)
    ensures var first := Closed(s, x)[0];
      if s == [] then first == QUOTE
      else if StartsWithPair(s) then first == s[0]
      else first == EscapeUnit(s[0])[0] && first != QUOTE && !HighSurrogate(first)
  {
  }

  /** Reading up to the closing quote recovers the string and leaves the rest. */
  lemma {:induction false} EscapesApart(s: Text, x: Text, t: Text, y: Text)
    requires Closed(s, x) == Closed(t, y)
    ensures s == t && x == y
    decreases |s|
  {
    FirstUnit(s, x);
    FirstUnit(t, y);
    ClosedStep(s, x);
    ClosedStep(t, y);
    if s == [] {
      CutPrefix([QUOTE], x, [QUOTE], y);
    } else if StartsWithPair(s) {
      CutPrefix(s[..2], Closed(s[2..], x), t[..2], Closed(t[2..], y));
      EscapesApart(s[2..], x, t[2..], y);
      assert s == s[..2] + s[2..] && t == t[..2] + t[2..];
    } else {
      UnitsApart(s[0], Closed(s[1..], x), t[0], Closed(t[1..], y));
      EscapesApart(s[1..], x, t[1..], y);
      assert s == [s[0]] + s[1..] && t == [t[0]] + t[1..];
    }
  }

  /** A quoted string inside a longer text is recovered with what follows it. */
  lemma QuotesApart(s: Text, x: Text, t: Text, y: Text)
    requires Quote(s) + x == Quote(t) + y
    ensures s == t && x == y
  {
    assert Quote(s) + x == [QUOTE] + Closed(s, x);
    assert Quote(t) + y == [QUOTE] + Closed(t, y);
    CutPrefix([QUOTE], Closed(s, x), [QUOTE], Closed(t, y));
    EscapesApart(s, x, t, y);
  }

  // --------------------------------------------------------------------- prefix-unambiguity

  /// What can follow a value inside a JSON text.
  predicate Terminator(u: Unit) {
    u == COMMA || u == CLOSE_ARRAY || u == CLOSE_OBJECT
  }

  predicate Terminated(s: Text) {
    s == [] || Terminator(s[0])
  }

  /// Followed by a terminator, neither text can be mistaken for the other.
  ghost predicate Apart(a: Text, b: Text) {
    forall s: Text, t: Text | Terminated(s) && Terminated(t) && a + s == b + t :: a == b
  }

  /// A text that a list can hold.
  predicate Item(a: Text) {
    a != [] && !Terminator(a[0])
  }

  ghost predicate AllApart(a: seq<Text>, b: seq<Text>) {
    && (forall x | x in a :: Item(x)) && (forall y | y in b :: Item(y))
    && (forall x, y | x in a && y in b :: Apart(x, y))
  }

  /// `texts.join(',')`.
  function Join(texts: seq<Text>): Text {
    if texts == [] then []
    else if |texts| == 1 then texts[0]
    else texts[0] + [COMMA] + Join(texts[1..])
  }

  /// What follows the first item of a list, up to the end of the text.
  function AfterFirst(texts: seq<Text>, close: Unit, rest: Text): Text
    requires texts != []
  {
    if |texts| == 1 then [close] + rest else [COMMA] + (Join(texts[1..]) + [close] + rest)
  }

  lemma SplitFirst(texts: seq<Text>, close: Unit, rest: Text)
    requires texts != []
    ensures Join(texts) + [close] + rest == texts[0] + AfterFirst(texts, close, rest)
  {
  }

  /** A joined list, closed and followed by anything, is recovered item by item with what follows. */
  lemma {:induction false} JoinsApart(a: seq<Text>, s: Text, b: seq<Text>, t: Text, close: Unit)
    requires close == CLOSE_ARRAY || close == CLOSE_OBJECT
    requires AllApart(a, b) && Join(a) + [close] + s == Join(b) + [close] + t
    ensures a == b && s == t
    decreases |a|
  {
    if a == [] || b == [] {
      FirstOfClosed(a, close, s);
      FirstOfClosed(b, close, t);
      CutPrefix([close], s, [close], t);
    } else {
      SplitFirst(a, close, s);
      SplitFirst(b, close, t);
      var x, y := AfterFirst(a, close, s), AfterFirst(b, close, t);
      assert a[0] in a && b[0] in b && Apart(a[0], b[0]);
      assert a[0] + x == b[0] + y;
      CutPrefix(a[0], x, b[0], y);
      assert x[0] == y[0];
      if |a| == 1 {
        CutPrefix([close], s, [close], t);
      } else {
        CutPrefix([COMMA], Join(a[1..]) + [close] + s, [COMMA], Join(b[1..]) + [close] + t);
        JoinsApart(a[1..], s, b[1..], t, close);
      }
    }
  }

  lemma FirstOfClosed(texts: seq<Text>, close: Unit, rest: Text)
    requires Terminator(close) && forall x | x in texts :: Item(x)
    ensures texts == [] ==> Join(texts) + [close] + rest == [close] + rest
    ensures texts != [] ==> (Join(texts) + [close] + rest)[0] != close
  {
    if texts != [] {
      SplitFirst(texts, close, rest);
      assert Item(texts[0]);
    }
  }
}
