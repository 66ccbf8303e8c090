/** The decoder of complete string literals (src/ast_matcher.rs) as functions, and its agreement
    with what the literals mean. */
module Decoding {
  import opened Seqs
  import opened Spelling
  import opened Syntax
  import opened Wrappers

  // --------------------------------------------------------------- numbers

  /** The Unicode scalar with this number, if there is one. */
  function Scalar(v: nat): Option<char> {
    if v < 0xD800 || 0xE000 <= v < 0x11_0000 then Some(v as char) else None
  }

  /** The length of the leading run of digits, at most `max`. */
  function DigitRun(s: string, radix: nat, max: nat): (n: nat)
    ensures n <= |s| && n <= max
    ensures Digits(s[..n], radix)
    ensures n < |s| && n < max ==> !IsDigit(s[n], radix)
    decreases max
  {
    if s == [] || max == 0 || !IsDigit(s[0], radix) then 0
    else
      var n := DigitRun(s[1..], radix, max - 1);
      assert s[..n + 1] == [s[0]] + s[1..][..n];
      n + 1
  }

  /** The scalar spelled by exactly `count` hexadecimal digits at the head of `s`. */
  function HexEscape(s: string, count: nat): Option<char> {
    if DigitRun(s, 16, count) == count then Scalar(Value(s[..count], 16)) else None
  }

  lemma FullHex(s: string, count: nat)
    requires count <= |s| && Digits(s[..count], 16)
    ensures HexEscape(s, count) == Scalar(Value(s[..count], 16))
  {
    FullRun(s, 16, count);
  }

  lemma {:induction false} FullRun(s: string, radix: nat, count: nat)
    requires count <= |s| && Digits(s[..count], radix)
    ensures DigitRun(s, radix, count) == count
    decreases count
  {
    if count > 0 {
      assert s[..count][0] == s[0];
      var tail := s[1..][..count - 1];
      forall k | 0 <= k < |tail| ensures IsDigit(tail[k], radix) {
        assert s[..count][k + 1] == tail[k];
      }
      FullRun(s[1..], radix, count - 1);
    }
  }

  lemma RunIsDigits(s: string, radix: nat, n: nat, max: nat)
    ensures n < DigitRun(s, radix, max) ==> n < |s| && IsDigit(s[n], radix)
  {
    var run := DigitRun(s, radix, max);
    var head := s[..run];
    assert n < run ==> head[n] == s[n];
  }

  lemma {:induction false} ExactRun(s: string, radix: nat, n: nat, max: nat)
    requires n <= |s| && n <= max && Digits(s[..n], radix)
    requires n == max || n == |s| || !IsDigit(s[n], radix)
    ensures DigitRun(s, radix, max) == n
    decreases n
  {
    if n > 0 {
      assert s[..n][0] == s[0];
      var tail := s[1..][..n - 1];
      forall k | 0 <= k < |tail| ensures IsDigit(tail[k], radix) {
        assert s[..n][k + 1] == tail[k];
      }
      ExactRun(s[1..], radix, n - 1, max - 1);
    }
  }

  // ------------------------------------------------------- decoding a body

  /** One source unit of a body: what it contributes and how much text it takes. */
  datatype Unit = Unit(out: string, width: nat)

  function LineEnd(s: string): (n: nat)
    requires s != [] && s[0] == '\r'
    ensures 1 <= n <= |s|
  {
    if |s| > 1 && s[1] == '\n' then 2 else 1
  }

  /** The braces of a JavaScript `\u{...}` escape; `s` starts after the opening one. */
  function BracedEscape(s: string): Option<Unit> {
    var n := DigitRun(s, 16, 6);
    if 0 < n < |s| && s[n] == '}' && Scalar(Value(s[..n], 16)).Some? then
      Some(Unit([Scalar(Value(s[..n], 16)).value], n + 1))
    else
      None
  }

  function Spelled(c: Option<char>, width: nat): Option<Unit> {
    if c.Some? then Some(Unit([c.value], width)) else None
  }

  /** The escape that `s`, a text after a backslash, starts with. */
  function Escape(s: string, f: Flavor): Option<Unit>
    requires s != []
  {
    var e := s[0];
    if e == '\\' || e == '\'' || e == '"' then Some(Unit([e], 1))
    else if e == 'n' then Some(Unit(['\n'], 1))
    else if e == 'r' then Some(Unit(['\r'], 1))
    else if e == 't' then Some(Unit(['\t'], 1))
    else if e == 'b' then Some(Unit(['\U{0008}'], 1))
    else if e == 'f' then Some(Unit(['\U{000C}'], 1))
    else if e == 'v' then Some(Unit(['\U{000B}'], 1))
    else if e == 'a' && f.python then Some(Unit(['\U{0007}'], 1))
    else if e == '\n' then Some(Unit([], 1))
    else if (e == '\U{2028}' || e == '\U{2029}') && !f.python then Some(Unit([], 1))
    else if e == '\r' then Some(Unit([], LineEnd(s)))
    else if '0' <= e <= '7' && f.python then
      var n := DigitRun(s, 8, 3);
      Spelled(Scalar(Value(s[..n], 8)), n)
    else if e == 'x' then Spelled(HexEscape(s[1..], 2), 3)
    else if e == 'u' && f.python && !f.bytes then Spelled(HexEscape(s[1..], 4), 5)
    else if e == 'U' && f.python && !f.bytes then Spelled(HexEscape(s[1..], 8), 9)
    else if e == 'u' && !f.python then
      if |s| > 1 && s[1] == '{' then
        var u := BracedEscape(s[2..]);
        if u.Some? then Some(Unit(u.value.out, u.value.width + 2)) else None
      else Spelled(HexEscape(s[1..], 4), 5)
    else if e == 'N' && f.python && !f.bytes then None
    else if e == '0' && !f.python && !(|s| > 1 && '0' <= s[1] <= '9') then Some(Unit(['\0'], 1))
    else if '0' <= e <= '9' && !f.python then None
    else if f.python then Some(Unit(['\\', e], 1))
    else Some(Unit([e], 1))
  }

  /** The unit at the head of a body. */
  function Head(s: string, f: Flavor): (u: Option<Unit>)
    requires s != []
    ensures u.Some? ==> 1 <= u.value.width <= |s|
  {
    if s[0] == '\r' then Some(Unit(['\n'], LineEnd(s)))
    else if f.formatted && (s[0] == '{' || s[0] == '}') && |s| > 1 && s[1] == s[0] then Some(Unit([s[0]], 2))
    else if s[0] != '\\' || f.raw then Some(Unit([s[0]], 1))
    else if |s| == 1 then None
    else
      var u := Escape(s[1..], f);
      if u.Some? then Some(Unit(u.value.out, u.value.width + 1)) else None
  }

  function Body(s: string, f: Flavor): Option<string>
    decreases |s|
  {
    if s == [] then Some([]) else
    var u := Head(s, f);
    if u.None? then None else
    var rest := Body(s[u.value.width..], f);
    if rest.None? then None else Some(u.value.out + rest.value)
  }

  // ------------------------------------------------------ a whole literal

  predicate IsQuote(c: char) { c == '\'' || c == '"' || c == '`' }

  /** The first quote in `s`, or its length. */
  function FirstQuote(s: string): (i: nat)
    ensures i <= |s| && (i < |s| ==> IsQuote(s[i])) && forall k :: 0 <= k < i ==> !IsQuote(s[k])
  {
    if s == [] || IsQuote(s[0]) then 0 else 1 + FirstQuote(s[1..])
  }

  /** The flavor a literal prefix selects, when the language has that prefix. */
  function PrefixFlavor(prefix: string, lang: Language): Option<Flavor> {
    if lang == JavaScript then
      if prefix == [] then Some(Flavor(false, false, false, false)) else None
    else if |prefix| == 0 then Some(Flavor(true, false, false, false))
    else if |prefix| == 1 then
      match Lower(prefix[0])
      case 'r' => Some(Flavor(true, true, false, false))
      case 'u' => Some(Flavor(true, false, false, false))
      case 'b' => Some(Flavor(true, false, false, true))
      case 'f' => Some(Flavor(true, false, true, false))
      case _ => None
    else if |prefix| == 2 then
      var a, b := Lower(prefix[0]), Lower(prefix[1]);
      if (a == 'b' && b == 'r') || (a == 'r' && b == 'b') then Some(Flavor(true, true, false, true))
      else if (a == 'f' && b == 'r') || (a == 'r' && b == 'f') then Some(Flavor(true, true, true, false))
      else None
    else None
  }

  predicate AllAre(s: string, c: char) {
    forall k :: 0 <= k < |s| ==> s[k] == c
  }

  /** Python literals may open and close with three quotes. */
  function QuoteWidth(text: string, first: nat, lang: Language): (w: nat)
    requires first < |text|
    ensures w == 1 || w == 3
  {
    if lang == Python && first + 3 <= |text| && AllAre(text[first..first + 3], text[first]) then 3 else 1
  }

  /** What a literal's text has between its quotes, and how that is read. */
  datatype Content = Content(body: string, flavor: Flavor)

  function Split(text: string, lang: Language): Option<Content> {
    var first := FirstQuote(text);
    if first == |text| then None else
    var flavor := PrefixFlavor(text[..first], lang);
    if flavor.None? then None else
    var f, quote := flavor.value, text[first];
    if f.python && quote == '`' then None else
    var width := QuoteWidth(text, first, lang);
    if |text| < first + 2 * width || !AllAre(text[|text| - width..], quote) then None
    else Some(Content(text[first + width..|text| - width], f))
  }

  /** Bytes literals are ASCII, as written and as read. */
  function Representable(c: Content, value: Option<string>): Option<string> {
    if c.flavor.bytes && !(IsAscii(c.body) && (value.Some? ==> IsAscii(value.value))) then None else value
  }

  /** The value of the literal with this source text, when it is a static one. */
  function LiteralText(text: string, lang: Language): Option<string> {
    var c := Split(text, lang);
    if c.None? then None else Representable(c.value, Body(c.value.body, c.value.flavor))
  }

  /** `static_interpreter_literal`. */
  function StaticLiteral(n: Node, parent: Option<Node>, lang: Language, depth: nat): Option<string>
    decreases n, 1
  {
    if depth >= 64 then None
    else if n.kind == ConcatenatedString then JoinLiterals(n.children, n, lang, depth)
    else if n.kind != StringLiteral && n.kind != TemplateString then None
    else if Interpolated(n) then None
    else if lang == JavaScript && Tagged(n, parent) then None
    else LiteralText(n.text, lang)
  }

  function JoinLiterals(ns: seq<Node>, parent: Node, lang: Language, depth: nat): Option<string>
    decreases ns, 0
  {
    if ns == [] then Some([])
    else if !ns[0].named || ns[0].kind == Comment then JoinLiterals(ns[1..], parent, lang, depth)
    else
      var head := StaticLiteral(ns[0], Some(parent), lang, depth + 1);
      if head.None? then None else
      var rest := JoinLiterals(ns[1..], parent, lang, depth);
      if rest.None? then None else Some(head.value + rest.value)
  }


  // ------------------------------------- the decoder agrees with the meaning

  lemma HexEscapeExact(s: string, w: nat, v: string)
    ensures w <= |s| && Digits(s[..w], 16) && Numbered(Value(s[..w], 16), v) <==>
            HexEscape(s, w).Some? && v == [HexEscape(s, w).value]
  {
    if w <= |s| && Digits(s[..w], 16) { FullHex(s, w); }
  }

  /** Escapes with a fixed number of hexadecimal digits. */
  predicate IsHex(s: string, f: Flavor) {
    s != [] && HexWidth(s[0], f) > 0 && !IsBraced(s, f)
  }

  predicate IsBraced(s: string, f: Flavor) {
    !f.python && |s| > 1 && s[0] == 'u' && s[1] == '{'
  }

  predicate IsOctal(s: string, f: Flavor) {
    f.python && s != [] && IsDigit(s[0], 8)
  }

  lemma HexReading(s: string, f: Flavor)
    requires IsHex(s, f)
    ensures Escape(s, f) == Spelled(HexEscape(s[1..], HexWidth(s[0], f)), HexWidth(s[0], f) + 1)
  {
    hide HexEscape;
    hide BracedEscape;
    hide DigitRun;
  }

  lemma BracedReading(s: string, f: Flavor)
    requires IsBraced(s, f)
    ensures var u := BracedEscape(s[2..]);
            Escape(s, f) == if u.Some? then Some(Unit(u.value.out, u.value.width + 2)) else None
  {
    hide HexEscape;
    hide BracedEscape;
    hide DigitRun;
  }

  lemma OctalReading(s: string, f: Flavor)
    requires IsOctal(s, f)
    ensures var n := DigitRun(s, 8, 3); Escape(s, f) == Spelled(Scalar(Value(s[..n], 8)), n)
  {
    hide HexEscape;
    hide BracedEscape;
    hide DigitRun;
  }

  lemma HexExact(s: string, f: Flavor, w: nat, v: string)
    requires IsHex(s, f) && 1 <= w <= |s|
    ensures Escape(s, f) == Some(Unit(v, w)) <==> HexDigits(s[..w], v, f)
  {
    var n := HexWidth(s[0], f);
    HexReading(s, f);
    HexEscapeExact(s[1..], n, v);
    hide Escape;
    hide HexEscape;
    assert s[..w][0] == s[0] && s[..w][1..] == s[1..][..w - 1];
  }

  lemma BracedExact(s: string, f: Flavor, w: nat, v: string)
    requires IsBraced(s, f) && 1 <= w <= |s|
    ensures Escape(s, f) == Some(Unit(v, w)) <==> BracedHex(s[..w], v, f)
  {
    BracedReading(s, f);
    hide Escape;
    if |v| == 1 { assert v == [v[0]]; }
    var d, n := s[2..], DigitRun(s[2..], 16, 6);
    assert s[..w][0] == s[0] && (w > 1 ==> s[..w][1] == s[1]);
    if w >= 4 {
      SliceOfTake(s, w, 2, w - 1);
      assert s[..w][w - 1] == d[w - 3];
      if w <= 9 && d[w - 3] == '}' && Digits(d[..w - 3], 16) {
        ExactRun(d, 16, w - 3, 6);
      }
    }
  }

  lemma OctalExact(s: string, f: Flavor, w: nat, v: string)
    requires IsOctal(s, f) && 1 <= w <= |s|
    ensures Escape(s, f) == Some(Unit(v, w)) <==> OctalRun(s[..w], v, s[w..], f)
  {
    OctalReading(s, f);
    hide Escape;
    if |v| == 1 { assert v == [v[0]]; }
    if w < |s| { assert s[w..][0] == s[w]; }
    assert DigitRun(s, 8, 3) > 0;
    if w <= 3 && Digits(s[..w], 8) && (w == 3 || w == |s| || !IsDigit(s[w..][0], 8)) {
      ExactRun(s, 8, w, 3);
    }
  }

  /** Escapes of one character, and line ends. */
  lemma PlainExact(s: string, f: Flavor, w: nat, v: string)
    requires s != [] && !IsHex(s, f) && !IsBraced(s, f) && !IsOctal(s, f) && 1 <= w <= |s|
    ensures Escape(s, f) == Some(Unit(v, w)) <==>
            || LetterEscape(s[..w], v, f)
            || Continuation(s[..w], v, s[w..], f)
            || Nul(s[..w], v, s[w..], f)
            || Unrecognized(s[..w], v, f)
  {
    hide HexEscape;
    hide BracedEscape;
    hide DigitRun;
    var e := s[0];
    assert "\\" + [e] == ['\\', e];
    assert w < |s| ==> s[w..][0] == s[w];
    if w == 1 {
      assert s[..w] == [e];
    } else if w == 2 {
      assert s[..w] == [e, s[1]];
    }
  }

  lemma KindsOfEscape(s: string, f: Flavor, w: nat, v: string)
    requires s != [] && 1 <= w <= |s|
    ensures HexDigits(s[..w], v, f) ==> IsHex(s, f)
    ensures BracedHex(s[..w], v, f) ==> IsBraced(s, f)
    ensures OctalRun(s[..w], v, s[w..], f) ==> IsOctal(s, f)
    ensures IsHex(s, f) || IsBraced(s, f) || IsOctal(s, f) ==>
              !LetterEscape(s[..w], v, f) && !Continuation(s[..w], v, s[w..], f) && !Nul(s[..w], v, s[w..], f)
                && !Unrecognized(s[..w], v, f)
    ensures !(IsHex(s, f) && IsOctal(s, f))
  {
    var t := s[..w];
    assert t[0] == s[0] && (w > 1 ==> t[1] == s[1]);
    if HexDigits(t, v, f) { assert IsDigit(t[1..][0], 16); }
  }

  /** What the decoder reads after a backslash is what stands there. */
  lemma EscapeExact(s: string, f: Flavor, w: nat, v: string)
    requires s != [] && 1 <= w <= |s|
    ensures Escape(s, f) == Some(Unit(v, w)) <==> Escaped(s[..w], v, s[w..], f)
  {
    KindsOfEscape(s, f, w, v);
    hide Escape;
    hide LetterEscape;
    hide Continuation;
    hide OctalRun;
    hide HexDigits;
    hide BracedHex;
    hide Nul;
    hide Unrecognized;
    if IsHex(s, f) { HexExact(s, f, w, v); }
    else if IsBraced(s, f) { BracedExact(s, f, w, v); }
    else if IsOctal(s, f) { OctalExact(s, f, w, v); }
    else { PlainExact(s, f, w, v); }
  }

  lemma EscapeWidth(s: string, f: Flavor)
    requires s != [] && Escape(s, f).Some?
    ensures 1 <= Escape(s, f).value.width <= |s|
  {
    hide Value;
  }

  // A formatted body is read differently at a backslash before a brace.

  predicate AtBrace(s: string, f: Flavor) {
    KeepsBraces(f) && |s| > 1 && s[0] == '\\' && IsBrace(s[1])
  }

  /** The unit at the head of a body, as the language reads it. */
  function TrueHead(s: string, f: Flavor): (u: Option<Unit>)
    requires s != []
    ensures u.Some? ==> 1 <= u.value.width <= |s|
  {
    if AtBrace(s, f) then Some(Unit("\\", 1)) else Head(s, f)
  }

  function TrueBody(s: string, f: Flavor): Option<string>
    decreases |s|
  {
    if s == [] then Some([]) else
    var u := TrueHead(s, f);
    if u.None? then None else
    var rest := TrueBody(s[u.value.width..], f);
    if rest.None? then None else Some(u.value.out + rest.value)
  }

  /** What the decoder reads at the head of a body is a unit of the language, unless that is where a
      formatted body has a backslash before a brace: there it takes both for one. */
  lemma HeadSound(s: string, f: Flavor)
    requires s != [] && Head(s, f).Some?
    ensures var u := Head(s, f).value;
            && 1 <= u.width <= |s|
            && if AtBrace(s, f) then u == Unit(s[..2], 2) && BeforeBrace(s[..1], s[..1], s[1..], f)
               else Means(s[..u.width], u.out, s[u.width..], f)
  {
    hide Escape;
    hide Escaped;
    var u := Head(s, f).value;
    assert |s| > 1 ==> s[1..][0] == s[1];
    if AtBrace(s, f) {
      EscapedBrace(s[1..], f);
      assert s[..2] == "\\" + [s[1]] && s[..1] == "\\";
    } else if s[0] == '\r' {
      assert |s| > 1 && s[1] == '\n' ==> s[..2] == "\r\n";
      assert s[..1] == "\r";
    } else if s[0] == '\\' && !f.raw {
      EscapeWidth(s[1..], f);
      EscapeExact(s[1..], f, u.width - 1, u.out);
      assert s[..u.width][1..] == s[1..][..u.width - 1] && s[1..][u.width - 1..] == s[u.width..];
      assert Backslashed(s[..u.width], u.out, s[u.width..], f);
    } else if u.width == 1 {
      assert Itself(s[..1], u.out, s[1..], f);
    } else {
      assert DoubledBrace(s[..2], u.out, f);
    }
  }

  lemma EscapedBrace(s: string, f: Flavor)
    requires s != [] && IsBrace(s[0]) && f.python
    ensures Escape(s, f) == Some(Unit("\\" + [s[0]], 1))
  {
    hide HexEscape;
    hide BracedEscape;
    hide DigitRun;
    assert "\\" + [s[0]] == ['\\', s[0]];
  }

  lemma TrueHeadSound(s: string, f: Flavor)
    requires s != [] && TrueHead(s, f).Some?
    ensures var u := TrueHead(s, f).value;
            1 <= u.width <= |s| && Means(s[..u.width], u.out, s[u.width..], f)
  {
    hide Means;
    hide Head;
    if AtBrace(s, f) {
      assert s[..1] == "\\" && s[1..][0] == s[1];
      BracesFirst(s[..1], s[..1], s[1..], f);
    } else {
      HeadSound(s, f);
    }
  }

  lemma BracesFirst(t: string, v: string, rest: string, f: Flavor)
    requires BeforeBrace(t, v, rest, f)
    ensures Means(t, v, rest, f)
  {}

  lemma PlainHeadComplete(s: string, f: Flavor, w: nat, v: string)
    requires 1 <= w <= |s|
             && (LineFeed(s[..w], v, s[w..]) || DoubledBrace(s[..w], v, f) || Itself(s[..w], v, s[w..], f))
    ensures Head(s, f) == Some(Unit(v, w))
  {
    hide Escape;
    var t := s[..w];
    assert t[0] == s[0] && (w < |s| ==> s[w..][0] == s[w]) && (w > 1 ==> t[1] == s[1]);
    if w == 1 {
      assert t == [s[0]];
    } else {
      assert t[..1] == [s[0]];
    }
  }

  lemma TrueHeadComplete(s: string, f: Flavor, w: nat, v: string)
    requires 1 <= w <= |s| && Means(s[..w], v, s[w..], f)
    ensures TrueHead(s, f) == Some(Unit(v, w))
  {
    var t, rest := s[..w], s[w..];
    assert t[0] == s[0] && (w > 1 ==> t[1] == s[1]) && (w < |s| ==> rest[0] == s[w]);
    if LineFeed(t, v, rest) || DoubledBrace(t, v, f) || Itself(t, v, rest, f) {
      PlainHeadComplete(s, f, w, v);
      hide Head;
    } else if BeforeBrace(t, v, rest, f) {
      hide Head;
    } else {
      assert t[1..] == s[1..][..w - 1] && s[1..][w - 1..] == rest;
      EscapeExact(s[1..], f, w - 1, v);
      hide Escape;
      hide Escaped;
    }
  }

  /** A body, as the language reads it, has a value if and only if it spells one, and then it is that one. */
  lemma {:induction false} TrueBodyExact(t: string, f: Flavor, v: string)
    ensures TrueBody(t, f) == Some(v) <==> SpellsBody(t, v, f)
    decreases |t|
  {
    hide TrueHead;
    hide Means;
    if t != [] {
      if TrueBody(t, f) == Some(v) {
        var u := TrueHead(t, f).value;
        TrueHeadSound(t, f);
        var j := |u.out|;
        var rest := TrueBody(t[u.width..], f).value;
        assert v == u.out + rest && v[..j] == u.out && v[j..] == rest;
        TrueBodyExact(t[u.width..], f, v[j..]);
      }
      if SpellsBody(t, v, f) {
        var i, j :| 1 <= i <= |t| && 0 <= j <= |v| && Means(t[..i], v[..j], t[i..], f) && SpellsBody(t[i..], v[j..], f);
        TrueHeadComplete(t, f, i, v[..j]);
        TrueBodyExact(t[i..], f, v[j..]);
        assert v == v[..j] + v[j..];
      }
    }
  }

  // -------------------------------------- where the decoder reads differently

  /** The length of the run of `c` at the head of `s`. */
  function RunOf(s: string, c: char): (n: nat)
    ensures n <= |s| && (forall k :: 0 <= k < n ==> s[k] == c) && (n < |s| ==> s[n] != c)
  {
    if s == [] || s[0] != c then 0 else 1 + RunOf(s[1..], c)
  }

  /** How often an unescaped backslash stands before an even number of braces: all of them doubled
      ones, of which the decoder takes the first brace for itself. */
  function Misreadings(s: string): nat
    decreases |s|
  {
    if |s| < 2 then 0
    else if s[0] != '\\' then Misreadings(s[1..])
    else if !IsBrace(s[1]) then Misreadings(s[2..])
    else
      var n := RunOf(s[1..], s[1]);
      (if n % 2 == 0 then 1 else 0) + Misreadings(s[1 + n..])
  }

  lemma SkipPlain(s: string, n: nat)
    requires n <= |s| && '\\' !in s[..n]
    ensures Misreadings(s) == Misreadings(s[n..])
    decreases n
  {
    if n > 0 {
      assert s[..n][0] == s[0] && s[1..][..n - 1] == s[..n][1..] && s[1..][n - 1..] == s[n..];
      SkipPlain(s[1..], n - 1);
    } else {
      assert s[0..] == s;
    }
  }

  lemma NoBackslash(d: string, radix: nat)
    requires Digits(d, radix)
    ensures '\\' !in d
  {
    assert DigitValue('\\') == None;
  }

  /** An escape has no second backslash. */
  lemma EscapeTail(t: string, f: Flavor)
    requires t != [] && f.python && Escape(t, f).Some?
    ensures var w := Escape(t, f).value.width; 1 <= w <= |t| && '\\' !in t[1..w]
  {
    EscapeWidth(t, f);
    var u := Escape(t, f).value;
    EscapeExact(t, f, u.width, u.out);
    hide Escape;
    var d := t[..u.width];
    assert d[1..] == t[1..u.width];
    if HexDigits(d, u.out, f) {
      NoBackslash(d[1..], 16);
    } else if OctalRun(d, u.out, t[u.width..], f) {
      NoBackslash(d, 8);
    } else {
      assert d == "\r\n" ==> d[1..] == "\n";
    }
  }

  lemma UnitSkips(s: string, f: Flavor)
    requires KeepsBraces(f) && s != [] && !AtBrace(s, f) && Head(s, f).Some?
    ensures Misreadings(s) == Misreadings(s[Head(s, f).value.width..])
  {
    var w := Head(s, f).value.width;
    hide Escape;
    if s[0] != '\\' {
      assert w == 2 ==> s[..2] == [s[0], s[1]];
      SkipPlain(s, w);
    } else {
      EscapeTail(s[1..], f);
      assert s[2..][..w - 2] == s[1..][1..w - 1] && s[2..][w - 2..] == s[w..];
      SkipPlain(s[2..], w - 2);
    }
  }

  function Ahead(out: string, rest: Option<string>): Option<string> {
    if rest.None? then None else Some(out + rest.value)
  }

  lemma RunAhead(c: char, n: nat, rest: Option<string>)
    ensures Ahead(Quotes(c, n + 1), rest) == Ahead([c], Ahead(Quotes(c, n), rest))
  {
    assert Quotes(c, n + 1) == [c] + Quotes(c, n);
    if rest.Some? { Associative([c], Quotes(c, n), rest.value); }
  }

  lemma NothingAhead(c: char, rest: Option<string>)
    ensures Ahead(Quotes(c, 0), rest) == rest
  {
    if rest.Some? { assert Quotes(c, 0) + rest.value == rest.value; }
  }

  /** A run of braces is read in pairs, and a last one by itself. */
  lemma {:induction false} RunReads(s: string, c: char, f: Flavor)
    requires KeepsBraces(f) && IsBrace(c)
    ensures var n := RunOf(s, c);
            && Body(s, f) == Ahead(Quotes(c, (n + 1) / 2), Body(s[n..], f))
            && TrueBody(s, f) == Ahead(Quotes(c, (n + 1) / 2), TrueBody(s[n..], f))
    decreases |s|
  {
    hide *;
    var n := RunOf(s, c);
    if n == 0 {
      assert s[0..] == s;
      NothingAhead(c, Body(s, f));
      NothingAhead(c, TrueBody(s, f));
    } else {
      BraceReads(s, c, f);
      var w := if n == 1 then 1 else 2;
      assert s[w..][n - w..] == s[n..];
      RunTail(s, c, w);
      RunReads(s[w..], c, f);
      assert (n - w + 1) / 2 + 1 == (n + 1) / 2;
      RunAhead(c, (n - w + 1) / 2, Body(s[n..], f));
      RunAhead(c, (n - w + 1) / 2, TrueBody(s[n..], f));
    }
  }

  lemma RunTail(s: string, c: char, w: nat)
    requires w <= RunOf(s, c) && w <= 2
    ensures RunOf(s[w..], c) == RunOf(s, c) - w
  {
    assert w == 2 ==> s[1..][1..] == s[2..];
    assert s[0..] == s;
  }

  lemma BraceReads(s: string, c: char, f: Flavor)
    requires KeepsBraces(f) && IsBrace(c) && RunOf(s, c) > 0
    ensures var rest := s[if RunOf(s, c) == 1 then 1 else 2..];
            Body(s, f) == Ahead([c], Body(rest, f)) && TrueBody(s, f) == Ahead([c], TrueBody(rest, f))
  {
    hide Escape;
    assert Head(s, f) == Some(Unit([c], if RunOf(s, c) == 1 then 1 else 2));
  }

  /** What one reading is to the other. */
  predicate Agrees(read: Option<string>, meant: Option<string>, misreadings: nat) {
    && (read.Some? <==> meant.Some?)
    && (read.Some? ==> |read.value| == |meant.value| + misreadings)
    && (misreadings == 0 ==> read == meant)
  }

  lemma AgreeAhead(out: string, read: Option<string>, meant: Option<string>, misreadings: nat)
    requires Agrees(read, meant, misreadings)
    ensures Agrees(Ahead(out, read), Ahead(out, meant), misreadings)
  {}

  /** A backslash before `n` braces: one brace too many is read if `n` is even. */
  lemma AgreeBraces(c: char, n: nat, read: Option<string>, meant: Option<string>, misreadings: nat)
    requires Agrees(read, meant, misreadings) && n > 0
    ensures Agrees(Ahead("\\" + [c], Ahead(Quotes(c, n / 2), read)), Ahead("\\", Ahead(Quotes(c, (n + 1) / 2), meant)),
                   (if n % 2 == 0 then 1 else 0) + misreadings)
  {
    if read.Some? && n % 2 == 1 {
      RunAhead(c, n / 2, meant);
      assert ("\\" + [c]) + (Quotes(c, n / 2) + read.value) == "\\" + ([c] + (Quotes(c, n / 2) + read.value));
    }
  }

  lemma MisreadingsAtBrace(s: string, f: Flavor)
    requires AtBrace(s, f)
    ensures var n := RunOf(s[1..], s[1]);
            n > 0 && Misreadings(s) == (if n % 2 == 0 then 1 else 0) + Misreadings(s[1 + n..])
  {}

  /** Both readings of a formatted body: one is there if the other is, the decoder's is longer by
      the number of misreadings, and without misreadings they are the same. */
  lemma {:induction false} ReadingsAgree(s: string, f: Flavor)
    requires KeepsBraces(f)
    ensures Agrees(Body(s, f), TrueBody(s, f), Misreadings(s))
    decreases |s|
  {
    hide *;
    if s == [] {
      NothingRead(f);
    } else if AtBrace(s, f) {
      BackslashReads(s, f);
      MisreadingsAtBrace(s, f);
      var c, n := s[1], RunOf(s[1..], s[1]);
      var rest := s[1 + n..];
      ReadingsAgree(rest, f);
      AgreeBraces(c, n, Body(rest, f), TrueBody(rest, f), Misreadings(rest));
    } else {
      UnitReads(s, f);
      var u := Head(s, f);
      if u.Some? {
        UnitSkips(s, f);
        ReadingsAgree(s[u.value.width..], f);
        AgreeAhead(u.value.out, Body(s[u.value.width..], f), TrueBody(s[u.value.width..], f), Misreadings(s));
      } else {
        NeitherReads(Misreadings(s));
      }
    }
  }

  lemma NothingRead(f: Flavor)
    ensures Agrees(Body([], f), TrueBody([], f), Misreadings([]))
  {}

  lemma NeitherReads(misreadings: nat)
    ensures Agrees(None, None, misreadings)
  {}

  lemma UnitReads(s: string, f: Flavor)
    requires s != [] && !AtBrace(s, f)
    ensures var u := Head(s, f);
            if u.None? then Body(s, f) == None && TrueBody(s, f) == None
            else
              && Body(s, f) == Ahead(u.value.out, Body(s[u.value.width..], f))
              && TrueBody(s, f) == Ahead(u.value.out, TrueBody(s[u.value.width..], f))
  {
    hide Head;
    hide AtBrace;
  }

  lemma HeadsAtBrace(s: string, f: Flavor)
    requires AtBrace(s, f)
    ensures Head(s, f) == Some(Unit("\\" + [s[1]], 2)) && TrueHead(s, f) == Some(Unit("\\", 1))
  {
    EscapedBrace(s[1..], f);
    hide Escape;
  }

  lemma BodiesAtBrace(s: string, f: Flavor)
    requires AtBrace(s, f)
    ensures Body(s, f) == Ahead("\\" + [s[1]], Body(s[2..], f)) && TrueBody(s, f) == Ahead("\\", TrueBody(s[1..], f))
  {
    HeadsAtBrace(s, f);
    hide Head;
    hide TrueHead;
  }

  /** At a backslash before braces the decoder takes one brace out of the run. */
  lemma BackslashReads(s: string, f: Flavor)
    requires AtBrace(s, f)
    ensures var c, n := s[1], RunOf(s[1..], s[1]);
            var rest := s[1 + n..];
            && n > 0
            && Body(s, f) == Ahead("\\" + [c], Ahead(Quotes(c, n / 2), Body(rest, f)))
            && TrueBody(s, f) == Ahead("\\", Ahead(Quotes(c, (n + 1) / 2), TrueBody(rest, f)))
  {
    MisreadingsAtBrace(s, f);
    BraceFacts(s, f);
    hide *;
    var c, n := s[1], RunOf(s[1..], s[1]);
    assert s[1..][n..] == s[1 + n..] && s[2..][n - 1..] == s[1 + n..] && s[1..][1..] == s[2..];
    BodiesAtBrace(s, f);
    RunReads(s[1..], c, f);
    RunTail(s[1..], c, 1);
    RunReads(s[2..], c, f);
  }

  lemma BraceFacts(s: string, f: Flavor)
    requires AtBrace(s, f)
    ensures |s| > 1 && KeepsBraces(f) && IsBrace(s[1])
  {}

  lemma {:induction false} SameReading(s: string, f: Flavor)
    requires !KeepsBraces(f)
    ensures TrueBody(s, f) == Body(s, f)
    decreases |s|
  {
    hide Head;
    if s != [] {
      var u := Head(s, f);
      if u.Some? { SameReading(s[u.value.width..], f); }
    }
  }

  // ------------------------------------------------------- whole literals

  lemma PrefixExact(prefix: string, f: Flavor, lang: Language)
    ensures PrefixFlavor(prefix, lang) == Some(f) <==> Prefixes(prefix, f, lang)
  {
    if lang == Python && |prefix| == 1 {
      assert Lower(prefix[0]) == Lower(prefix[0]);
    } else if lang == Python && |prefix| == 2 {
      assert forall c :: HasLetter(prefix, c) <==> Lower(prefix[0]) == c || Lower(prefix[1]) == c;
    }
  }

  lemma PrefixHasNoQuote(prefix: string, lang: Language)
    requires PrefixFlavor(prefix, lang).Some?
    ensures forall k :: 0 <= k < |prefix| ==> !IsQuote(prefix[k])
    ensures PrefixFlavor(prefix, lang).value.python == (lang == Python)
  {}

  lemma {:induction false} FirstQuoteAfter(prefix: string, rest: string)
    requires forall k :: 0 <= k < |prefix| ==> !IsQuote(prefix[k])
    requires rest != [] && IsQuote(rest[0])
    ensures FirstQuote(prefix + rest) == |prefix|
  {
    if prefix == [] {
      Nothing(rest);
    } else {
      DropConcat(prefix, rest, 1);
      FirstQuoteAfter(prefix[1..], rest);
    }
  }

  lemma TextOfParts(p: Parts)
    requires p.width > 0
    ensures var text, n := p.Text(), |p.prefix|;
            && |text| == n + 2 * p.width + |p.body|
            && text[..n] == p.prefix && text[n] == p.quote
            && AllAre(text[|text| - p.width..], p.quote)
            && text[n + p.width..|text| - p.width] == p.body
  {
    var q, text, n := Quotes(p.quote, p.width), p.Text(), |p.prefix|;
    assert text[|text| - p.width..] == q;
  }

  lemma QuoteOfParts(p: Parts, lang: Language)
    requires p.Valid(lang)
    ensures FirstQuote(p.Text()) == |p.prefix| && QuoteWidth(p.Text(), |p.prefix|, lang) == p.width
    ensures p.width > 0 && p.flavor.python == (lang == Python) && (lang == Python ==> p.quote != '`')
    ensures PrefixFlavor(p.prefix, lang) == Some(p.flavor)
  {
    PrefixExact(p.prefix, p.flavor, lang);
    PrefixHasNoQuote(p.prefix, lang);
    hide PrefixFlavor;
    hide Prefixes;
    var q := Quotes(p.quote, p.width);
    FirstQuoteAfter(p.prefix, q + (p.body + q));
    WidthOfParts(p, lang);
  }

  lemma SplitWith(text: string, first: nat, f: Flavor, width: nat, lang: Language)
    requires first == FirstQuote(text) && first < |text| && PrefixFlavor(text[..first], lang) == Some(f)
    requires f.python ==> text[first] != '`'
    requires width == QuoteWidth(text, first, lang) && first + 2 * width <= |text|
    requires AllAre(text[|text| - width..], text[first])
    ensures Split(text, lang) == Some(Content(text[first + width..|text| - width], f))
  {
    hide PrefixFlavor;
    hide AllAre;
    hide QuoteWidth;
    hide FirstQuote;
  }

  /** A literal built from its parts has them between its quotes. */
  lemma SplitOfParts(p: Parts, lang: Language)
    requires p.Valid(lang)
    ensures Split(p.Text(), lang) == Some(Content(p.body, p.flavor))
  {
    hide *;
    QuoteOfParts(p, lang);
    TextOfParts(p);
    SplitWith(p.Text(), |p.prefix|, p.flavor, p.width, lang);
  }

  lemma AllAreQuotes(s: string, c: char)
    ensures AllAre(s, c) <==> s == Quotes(c, |s|)
  {}

  lemma WidthCases(text: string, first: nat, lang: Language)
    requires first < |text|
    ensures QuoteWidth(text, first, lang) ==
            if lang == Python && first + 3 <= |text| && AllAre(text[first..first + 3], text[first]) then 3 else 1
  {
    hide AllAre;
  }

  lemma ValidCases(p: Parts, lang: Language)
    requires p.Valid(lang)
    ensures p.width == 1 || (p.width == 3 && lang == Python)
    ensures p.width == 1 && lang == Python ==> !(Quotes(p.quote, 3) <= p.Text()[|p.prefix|..])
  {
    hide Prefixes;
  }

  /** The head of a text after its prefix. */
  lemma HeadOfParts(p: Parts)
    requires p.width > 0
    ensures var text, n := p.Text(), |p.prefix|;
            && n < |text| && text[n] == p.quote
            && (p.width == 3 ==> n + 3 <= |text| && text[n..n + 3] == Quotes(p.quote, 3))
            && (n + 3 <= |text| && text[n..n + 3] == Quotes(p.quote, 3) ==> Quotes(p.quote, 3) <= text[n..])
  {
    var text, n := p.Text(), |p.prefix|;
    if n + 3 <= |text| { assert text[n..][..3] == text[n..n + 3]; }
    if p.width == 3 { assert text[n..n + 3] == Quotes(p.quote, 3); }
  }

  lemma WidthOfParts(p: Parts, lang: Language)
    requires p.Valid(lang)
    ensures QuoteWidth(p.Text(), |p.prefix|, lang) == p.width
  {
    hide *;
    var text, n := p.Text(), |p.prefix|;
    ValidCases(p, lang);
    HeadOfParts(p);
    WidthCases(text, n, lang);
    if n + 3 <= |text| { AllAreQuotes(text[n..n + 3], p.quote); }
  }

  lemma SplitText(t: string, first: nat, width: nat)
    requires 0 < width && first + 2 * width <= |t|
    requires AllAre(t[first..first + width], t[first]) && AllAre(t[|t| - width..], t[first])
    ensures var q := Quotes(t[first], width);
            t == t[..first] + (q + (t[first + width..|t| - width] + q))
  {
    var q, n := Quotes(t[first], width), |t| - width;
    assert t[first..first + width] == q && t[n..] == q;
    assert t[first + width..n] + t[n..] == t[first + width..];
    assert t[first..first + width] + t[first + width..] == t[first..];
    assert t[..first] + t[first..] == t;
  }

  lemma ShapeOfLiteral(t: string, lang: Language)
    requires Split(t, lang).Some?
    ensures var first := FirstQuote(t);
            && first < |t| && PrefixFlavor(t[..first], lang).Some? && (lang == Python ==> t[first] != '`')
            && var width := QuoteWidth(t, first, lang);
               && first + 2 * width <= |t| && AllAre(t[|t| - width..], t[first])
               && Split(t, lang).value == Content(t[first + width..|t| - width], PrefixFlavor(t[..first], lang).value)
  {
    hide AllAre;
    hide PrefixFlavor;
    hide QuoteWidth;
    hide FirstQuote;
    PrefixHasNoQuote(t[..FirstQuote(t)], lang);
  }

  lemma WidthOfQuotes(t: string, first: nat, lang: Language)
    requires first < |t|
    ensures var width := QuoteWidth(t, first, lang);
            && (first + width <= |t| ==> AllAre(t[first..first + width], t[first]))
            && (width == 3 ==> lang == Python)
            && (width == 1 && lang == Python ==> !(Quotes(t[first], 3) <= t[first..]))
  {
    if Quotes(t[first], 3) <= t[first..] {
      assert t[first..][..3] == t[first..first + 3];
    }
  }

  /** The parts the decoder takes a text for. */
  lemma PartsOfLiteral(t: string, lang: Language) returns (p: Parts)
    requires Split(t, lang).Some?
    ensures p.Valid(lang) && t == p.Text() && Split(t, lang).value == Content(p.body, p.flavor)
  {
    ShapeOfLiteral(t, lang);
    var first := FirstQuote(t);
    var width := QuoteWidth(t, first, lang);
    var f := PrefixFlavor(t[..first], lang).value;
    PrefixExact(t[..first], f, lang);
    WidthOfQuotes(t, first, lang);
    SplitText(t, first, width);
    p := Parts(t[..first], t[first], width, t[first + width..|t| - width], f);
    assert IsQuote(t[first]);
    hide Split;
    hide PrefixFlavor;
    hide Prefixes;
    hide Quotes;
    hide AllAre;
    hide QuoteWidth;
    hide FirstQuote;
    assert t == p.Text();
  }

  /** The value that a literal's text has in its language. */
  function TrueText(text: string, lang: Language): Option<string> {
    var c := Split(text, lang);
    if c.None? then None else Representable(c.value, TrueBody(c.value.body, c.value.flavor))
  }

  lemma TrueTextExact(t: string, s: string, lang: Language)
    ensures TrueText(t, lang) == Some(s) <==> Spells(t, s, lang)
  {
    hide Split;
    hide TrueBody;
    hide SpellsBody;
    hide IsAscii;
    if TrueText(t, lang) == Some(s) {
      var p := PartsOfLiteral(t, lang);
      TrueBodyExact(p.body, p.flavor, s);
      assert SpelledBy(p, t, s, lang);
    }
    if Spells(t, s, lang) {
      var p :| SpelledBy(p, t, s, lang);
      SplitOfParts(p, lang);
      TrueBodyExact(p.body, p.flavor, s);
    }
  }

  /** How often a literal has an unescaped backslash before doubled braces only, where that matters. */
  function TextMisreadings(text: string, lang: Language): nat {
    var c := Split(text, lang);
    if c.Some? then BodyMisreadings(c.value.body, c.value.flavor) else 0
  }

  /** The same for a literal, adjacent ones included. */
  function NodeMisreadings(n: Node, lang: Language): nat
    decreases n, 1
  {
    if n.kind == ConcatenatedString then JoinMisreadings(n.children, lang) else TextMisreadings(n.text, lang)
  }

  function JoinMisreadings(ns: seq<Node>, lang: Language): nat
    decreases ns, 0
  {
    if ns == [] then 0
    else
      var head := if ns[0].named && ns[0].kind != Comment then NodeMisreadings(ns[0], lang) else 0;
      head + JoinMisreadings(ns[1..], lang)
  }

  function BodyMisreadings(body: string, f: Flavor): nat {
    if KeepsBraces(f) then Misreadings(body) else 0
  }

  lemma BodiesAgree(s: string, f: Flavor)
    ensures Agrees(Body(s, f), TrueBody(s, f), BodyMisreadings(s, f))
  {
    if KeepsBraces(f) { ReadingsAgree(s, f); } else { SameReading(s, f); }
    hide *;
  }

  /** A body decodes if and only if it spells a string, and to that string if and only if it has no
      unescaped backslash before doubled braces. */
  lemma BodyExact(t: string, f: Flavor, v: string)
    ensures Body(t, f) == Some(v) ==> (SpellsBody(t, v, f) <==> BodyMisreadings(t, f) == 0)
    ensures SpellsBody(t, v, f) ==> Body(t, f).Some? && |Body(t, f).value| == |v| + BodyMisreadings(t, f)
    ensures SpellsBody(t, v, f) && BodyMisreadings(t, f) == 0 ==> Body(t, f) == Some(v)
    ensures Body(t, f).Some? ==> exists w :: SpellsBody(t, w, f)
  {
    hide *;
    BodiesAgree(t, f);
    TrueBodyExact(t, f, v);
    AgreementMeans(Body(t, f), TrueBody(t, f), BodyMisreadings(t, f));
    if TrueBody(t, f).Some? { TrueBodyExact(t, f, TrueBody(t, f).value); }
  }

  lemma FormattedIsNotBytes(t: string, lang: Language)
    requires Split(t, lang).Some?
    ensures KeepsBraces(Split(t, lang).value.flavor) ==> !Split(t, lang).value.flavor.bytes
  {
    ShapeOfLiteral(t, lang);
    hide Split;
  }

  /** The decoder answers exactly where the literal has a value; its answer is longer by one brace
      for each misreading, and right if there is none. */
  lemma TextsAgree(t: string, lang: Language)
    ensures Agrees(LiteralText(t, lang), TrueText(t, lang), TextMisreadings(t, lang))
  {
    hide Split;
    hide Body;
    hide TrueBody;
    hide Misreadings;
    hide KeepsBraces;
    hide IsAscii;
    var c := Split(t, lang);
    if c.Some? {
      FormattedIsNotBytes(t, lang);
      BodiesAgree(c.value.body, c.value.flavor);
    }
  }

  /** The decoder is exact but for backslashes before doubled braces: it answers if and only if the
      text spells something, and its answer is what the text spells if and only if there is no such
      backslash. */
  lemma DecoderIsExact(t: string, s: string, lang: Language)
    ensures TextMisreadings(t, lang) == 0 ==> (LiteralText(t, lang) == Some(s) <==> Spells(t, s, lang))
    ensures LiteralText(t, lang) == Some(s) ==> (Spells(t, s, lang) <==> TextMisreadings(t, lang) == 0)
    ensures Spells(t, s, lang) ==>
              LiteralText(t, lang).Some? && |LiteralText(t, lang).value| == |s| + TextMisreadings(t, lang)
    ensures LiteralText(t, lang).Some? ==> exists v :: Spells(t, v, lang)
  {
    hide *;
    TextsAgree(t, lang);
    TrueTextExact(t, s, lang);
    if TrueText(t, lang).Some? { TrueTextExact(t, TrueText(t, lang).value, lang); }
    AgreementMeans(LiteralText(t, lang), TrueText(t, lang), TextMisreadings(t, lang));
  }

  lemma AgreementMeans(read: Option<string>, meant: Option<string>, misreadings: nat)
    requires Agrees(read, meant, misreadings)
    ensures read.Some? <==> meant.Some?
    ensures read == meant <==> read.None? || misreadings == 0
    ensures read.Some? ==> |read.value| == |meant.value| + misreadings
  {}

  /** The parts of a literal with the prefix `f` in single quotes. */
  function Formatted(body: string): Parts {
    Parts("f", '\'', 1, body, Flavor(true, false, true, false))
  }

  lemma FormattedText(body: string)
    requires |body| > 1 && body[0] != '\''
    ensures Formatted(body).Valid(Python) && Formatted(body).Text() == "f'" + (body + "'")
    ensures KeepsBraces(Formatted(body).flavor)
  {
    var q := Quotes('\'', 1);
    assert q == "'" && "f" + ("'" + (body + "'")) == "f'" + (body + "'");
    var after := Formatted(body).Text()[1..];
    assert after[1] == body[0];
    assert HasLetter("f", 'f') by { assert Lower("f"[0]) == 'f'; }
    assert forall c :: HasLetter("f", c) <==> c == 'f';
  }

  lemma TwoBraces(c: char, f: Flavor)
    requires IsBrace(c) && KeepsBraces(f)
    ensures Body("\\" + [c, c], f) == Some("\\" + [c, c]) && TrueBody("\\" + [c, c], f) == Some("\\" + [c])
  {
    var body := "\\" + [c, c];
    assert AtBrace(body, f) && Body([], f) == Some([]) && TrueBody([], f) == Some([]);
    hide Body;
    hide TrueBody;
    hide AtBrace;
    hide KeepsBraces;
    assert body[1..] == [c, c] && [c, c][1..] == [c] && [c][1..] == [] && body[3..] == [];
    assert RunOf([c, c], c) == 2;
    BackslashReads(body, f);
    assert Quotes(c, 1) == [c] && [c] + [] == [c];
    assert "\\" + [c] + [c] == body;
  }

  /** `f'\{{'` and `f'\}}'` are read with both braces, and mean one. */
  lemma BraceIsMisread(c: char)
    requires IsBrace(c)
    ensures var t := "f'" + ("\\" + [c, c] + "'");
            && LiteralText(t, Python) == Some("\\" + [c, c])
            && Spells(t, "\\" + [c], Python) && !Spells(t, "\\" + [c, c], Python)
  {
    var body := "\\" + [c, c];
    var p, t := Formatted(body), "f'" + (body + "'");
    FormattedText(body);
    SplitOfParts(p, Python);
    TwoBraces(c, p.flavor);
    TrueTextExact(t, "\\" + [c], Python);
    TrueTextExact(t, body, Python);
    assert |"\\" + [c]| != |body|;
    hide Body;
    hide TrueBody;
    hide Split;
    hide Spells;
  }

  // ------------------------------------------------- which literals are read

  predicate IsPart(d: Node) {
    d.kind in {Interpolation, FormatExpression, TemplateSubstitution}
  }

  /** A JavaScript template that is the argument of a call by itself, without parentheses. */
  predicate Handed(n: Node, parent: Option<Node>, lang: Language) {
    && lang == JavaScript && n.kind == TemplateString && parent.Some? && parent.value.kind == CallExpression
    && parent.value.Get(ArgumentsField).Some?
    && parent.value.Get(ArgumentsField).value.start == n.start && parent.value.Get(ArgumentsField).value.end == n.end
  }

  /** A string or template that spells something, with no part that is computed and handed to no tag;
      or adjacent such literals, at most 64 levels of them. */
  ghost predicate Readable(n: Node, parent: Option<Node>, lang: Language, depth: nat)
    decreases n
  {
    && depth < 64
    && if n.kind == ConcatenatedString then
         forall c :: c in n.children && c.named && c.kind != Comment ==> Readable(c, Some(n), lang, depth + 1)
       else
         && (n.kind == StringLiteral || n.kind == TemplateString)
         && (forall d :: d in [n] + Below(n) ==> !IsPart(d)) && !Handed(n, parent, lang)
         && exists s :: Spells(n.text, s, lang)
  }

  lemma InterpolatedMeans(n: Node)
    ensures Interpolated(n) <==> exists d :: d in [n] + Below(n) && IsPart(d)
  {
    hide Below;
    if n.IsInterpolation() { assert n in [n] + Below(n); }
    if d :| d in Below(n) && d.IsInterpolation() { assert d in [n] + Below(n) && IsPart(d); }
  }

  lemma LeafReads(n: Node, parent: Option<Node>, lang: Language, depth: nat)
    requires n.kind != ConcatenatedString
    ensures StaticLiteral(n, parent, lang, depth).Some? <==> Readable(n, parent, lang, depth)
    ensures StaticLiteral(n, parent, lang, depth).Some? ==>
              StaticLiteral(n, parent, lang, depth) == LiteralText(n.text, lang)
  {
    hide LiteralText;
    hide Spells;
    hide Interpolated;
    hide Below;
    InterpolatedMeans(n);
    if LiteralText(n.text, lang).Some? { DecoderIsExact(n.text, LiteralText(n.text, lang).value, lang); }
    if s :| Spells(n.text, s, lang) { DecoderIsExact(n.text, s, lang); }
  }

  lemma JoinStep(ns: seq<Node>, parent: Node, lang: Language, depth: nat)
    requires ns != []
    ensures JoinLiterals(ns, parent, lang, depth).Some? <==>
              && (ns[0].named && ns[0].kind != Comment ==> StaticLiteral(ns[0], Some(parent), lang, depth + 1).Some?)
              && JoinLiterals(ns[1..], parent, lang, depth).Some?
  {
    hide StaticLiteral;
  }

  lemma {:induction false} JoinReads(ns: seq<Node>, parent: Node, lang: Language, depth: nat)
    ensures JoinLiterals(ns, parent, lang, depth).Some? <==>
              forall c :: c in ns && c.named && c.kind != Comment ==> Readable(c, Some(parent), lang, depth + 1)
    decreases ns, 0
  {
    hide Readable;
    if ns != [] {
      JoinStep(ns, parent, lang, depth);
      JoinReads(ns[1..], parent, lang, depth);
      LiteralReads(ns[0], Some(parent), lang, depth + 1);
      hide *;
      assert forall c :: c in ns <==> c == ns[0] || c in ns[1..];
    }
  }

  /** A literal is read if and only if it is of this form. */
  lemma {:induction false} LiteralReads(n: Node, parent: Option<Node>, lang: Language, depth: nat)
    ensures StaticLiteral(n, parent, lang, depth).Some? <==> Readable(n, parent, lang, depth)
    decreases n, 1
  {
    if n.kind == ConcatenatedString {
      if depth < 64 { JoinReads(n.children, n, lang, depth); }
      ConcatenationReads(n, parent, lang, depth);
      hide JoinLiterals;
      hide StaticLiteral;
    } else {
      LeafReads(n, parent, lang, depth);
    }
  }

  lemma ConcatenationReads(n: Node, parent: Option<Node>, lang: Language, depth: nat)
    requires n.kind == ConcatenatedString
    ensures StaticLiteral(n, parent, lang, depth)
            == if depth >= 64 then None else JoinLiterals(n.children, n, lang, depth)
  {
    hide JoinLiterals;
  }
}
