/** Decoding complete Python and JavaScript string literals (src/ast_matcher.rs): the loops, and
    printing as their inverse. */
module Literals {
  import opened Decoding
  import opened Seqs
  import opened Spelling
  import opened Syntax
  import opened Wrappers

  lemma {:induction false} ValueGrows(s: string, n: nat)
    requires n <= |s| && Digits(s, 16)
    ensures Digits(s[..n], 16) && Value(s[..n], 16) <= Value(s, 16)
    decreases |s|
  {
    if n == |s| {
      assert s[..n] == s;
    } else {
      ValueGrows(s[..|s| - 1], n);
      assert s[..|s| - 1][..n] == s[..n];
    }
  }

  lemma ValueSnoc(s: string, c: char)
    requires Digits(s, 16) && IsDigit(c, 16)
    ensures Digits(s + [c], 16) && Value(s + [c], 16) == Value(s, 16) * 16 + DigitValue(c).value
  {
    assert (s + [c])[..|s|] == s;
  }

  /** `interpreter_hex_escape`: the accumulator is 32 bits wide, and an overflow is no character. */
  method InterpreterHexEscape(s: string, at: nat, count: nat) returns (r: Option<char>, i: nat)
    requires at <= |s|
    ensures r == HexEscape(s[at..], count)
    ensures r.Some? ==> i == at + count <= |s|
  {
    hide HexEscape;
    ghost var t := s[at..];
    var value := 0;
    i := at;
    while i < at + count
      invariant at <= i <= at + count && i <= |s|
      invariant Digits(t[..i - at], 16) && value == Value(t[..i - at], 16)
    {
      ghost var n := i - at;
      if i >= |s| || DigitValue(s[i]).None? {
        ShortRun(t, n, count);
        return None, i;
      }
      assert t[..n + 1] == t[..n] + [s[i]];
      ValueSnoc(t[..n], s[i]);
      value := value * 16 + DigitValue(s[i]).value;
      i := i + 1;
      if value > 0xFFFF_FFFF {
        HexOverflow(t, n + 1, count);
        return None, i;
      }
    }
    FullHex(t, count);
    r := Scalar(value);
  }

  lemma ShortRun(s: string, n: nat, count: nat)
    requires n < count && n <= |s| && (n == |s| || DigitValue(s[n]).None?)
    ensures HexEscape(s, count) == None
  {
    RunIsDigits(s, 16, n, count);
  }

  lemma HexOverflow(s: string, n: nat, count: nat)
    requires n <= count && n <= |s| && Digits(s[..n], 16) && Value(s[..n], 16) > 0xFFFF_FFFF
    ensures HexEscape(s, count) == None
  {
    if DigitRun(s, 16, count) == count {
      ValueGrows(s[..count], n);
      assert s[..count][..n] == s[..n];
    }
  }

  // ------------------------------------------------------------- the loop

  /** Up to two more octal digits after the first. */
  method OctalEscape(s: string, at: nat) returns (c: Option<char>, i: nat)
    requires at < |s| && IsDigit(s[at], 8)
    ensures var n := DigitRun(s[at..], 8, 3);
            c == Scalar(Value(s[at..][..n], 8)) && i == at + n
  {
    var value := DigitValue(s[at]).value;
    i := at + 1;
    assert s[at..i][..0] == [];
    while i < at + 3
      invariant at < i <= at + 3 && i <= |s|
      invariant Digits(s[at..i], 8) && value == Value(s[at..i], 8)
    {
      if i >= |s| || DigitValue(s[i]).None? || DigitValue(s[i]).value >= 8 {
        break;
      }
      assert s[at..i + 1] == s[at..i] + [s[i]];
      assert (s[at..i] + [s[i]])[..i - at] == s[at..i];
      value := value * 8 + DigitValue(s[i]).value;
      i := i + 1;
    }
    assert s[at..][..i - at] == s[at..i];
    ExactRun(s[at..], 8, i - at, 3);
    c := Scalar(value);
  }

  /** `\u{...}`, from just after the opening brace. */
  method BracedDigits(s: string, at: nat) returns (u: Option<Unit>)
    requires at <= |s|
    ensures u == BracedEscape(s[at..])
  {
    var value := 0;
    var digits := 0;
    var i := at;
    ghost var t := s[at..];
    while true
      invariant at <= i <= |s| && digits == i - at <= 6
      invariant Digits(t[..digits], 16) && value == Value(t[..digits], 16)
      decreases |s| - i
    {
      if i >= |s| {
        ExactRun(t, 16, digits, 6);
        return None;
      }
      var next := s[i];
      assert next == t[digits];
      if next == '}' {
        ExactRun(t, 16, digits, 6);
        break;
      }
      digits := digits + 1;
      if digits > 6 {
        ExactRun(t, 16, 6, 6);
        return None;
      }
      if DigitValue(next).None? {
        ExactRun(t, 16, digits - 1, 6);
        return None;
      }
      assert t[..digits] == t[..digits - 1] + [next];
      ValueSnoc(t[..digits - 1], next);
      value := value * 16 + DigitValue(next).value;
      i := i + 1;
    }
    if digits == 0 {
      return None;
    }
    var c := Scalar(value);
    return Spelled(c, digits + 1);
  }

  /** What stands after a backslash, and how much of the text it takes; nothing if and only if no
      escape of the language stands there. */
  method DecodeEscape(s: string, at: nat, f: Flavor) returns (u: Option<Unit>)
    requires at < |s|
    ensures u == Escape(s[at..], f)
    ensures forall w, v :: 1 <= w <= |s[at..]| ==>
              (u == Some(Unit(v, w)) <==> Escaped(s[at..][..w], v, s[at..][w..], f))
    ensures u.Some? ==> 1 <= u.value.width <= |s[at..]|
  {
    u := ReadEscape(s, at, f);
    forall w, v | 1 <= w <= |s[at..]| ensures u == Some(Unit(v, w)) <==> Escaped(s[at..][..w], v, s[at..][w..], f) {
      EscapeExact(s[at..], f, w, v);
    }
    if u.Some? { EscapeWidth(s[at..], f); }
  }

  /** The table of escapes, arm by arm. */
  method ReadEscape(s: string, at: nat, f: Flavor) returns (u: Option<Unit>)
    requires at < |s|
    ensures u == Escape(s[at..], f)
  {
    ghost var t := s[at..];
    assert |t| > 1 ==> t[1] == s[at + 1];
    assert |t| > 1 ==> t[1..] == s[at + 1..] && t[2..] == s[at + 2..];
    var e := s[at];
    if e == '\\' || e == '\'' || e == '"' {
      return Some(Unit([e], 1));
    } else if e == 'n' {
      return Some(Unit(['\n'], 1));
    } else if e == 'r' {
      return Some(Unit(['\r'], 1));
    } else if e == 't' {
      return Some(Unit(['\t'], 1));
    } else if e == 'b' {
      return Some(Unit(['\U{0008}'], 1));
    } else if e == 'f' {
      return Some(Unit(['\U{000C}'], 1));
    } else if e == 'v' {
      return Some(Unit(['\U{000B}'], 1));
    } else if e == 'a' && f.python {
      return Some(Unit(['\U{0007}'], 1));
    } else if e == '\n' || (!f.python && (e == '\U{2028}' || e == '\U{2029}')) {
      return Some(Unit([], 1));
    } else if e == '\r' {
      return Some(Unit([], if at + 1 < |s| && s[at + 1] == '\n' then 2 else 1));
    } else if '0' <= e <= '7' && f.python {
      var c, i := OctalEscape(s, at);
      return Spelled(c, i - at);
    } else if e == 'x' {
      assert t[1..] == s[at + 1..];
      var c, _ := InterpreterHexEscape(s, at + 1, 2);
      return Spelled(c, 3);
    } else if (e == 'u' || e == 'U') && f.python && !f.bytes {
      assert t[1..] == s[at + 1..];
      var count := if e == 'u' then 4 else 8;
      var c, _ := InterpreterHexEscape(s, at + 1, count);
      return Spelled(c, count + 1);
    } else if e == 'u' && !f.python {
      if at + 1 < |s| && s[at + 1] == '{' {
        var b := BracedDigits(s, at + 2);
        return if b.Some? then Some(Unit(b.value.out, b.value.width + 2)) else None;
      } else {
        assert t[1..] == s[at + 1..];
        var c, _ := InterpreterHexEscape(s, at + 1, 4);
        return Spelled(c, 5);
      }
    } else if e == 'N' && f.python && !f.bytes {
      return None;
    } else if e == '0' && !f.python && !(at + 1 < |s| && '0' <= s[at + 1] <= '9') {
      return Some(Unit(['\0'], 1));
    } else if '0' <= e <= '9' && !f.python {
      return None;
    } else if f.python {
      // Python keeps the backslash of an escape it does not know.
      return Some(Unit(['\\', e], 1));
    } else {
      return Some(Unit([e], 1));
    }
  }

  lemma BodyStep(out: string, s: string, i: nat, f: Flavor)
    requires i < |s|
    ensures var u := Head(s[i..], f);
            Ahead(out, Body(s[i..], f)) ==
            if u.None? then None else Ahead(out + u.value.out, Body(s[i + u.value.width..], f))
  {
    var u := Head(s[i..], f);
    if u.Some? {
      assert s[i..][u.value.width..] == s[i + u.value.width..];
      var rest := Body(s[i + u.value.width..], f);
      if rest.Some? { Associative(out, u.value.out, rest.value); }
    }
  }

  lemma BodyStart(s: string, f: Flavor)
    ensures Ahead([], Body(s[0..], f)) == Body(s, f)
  {
    assert s[0..] == s;
    if Body(s, f).Some? { Nothing(Body(s, f).value); }
  }

  lemma BodyEnd(out: string, s: string, f: Flavor)
    ensures Ahead(out, Body(s[|s|..], f)) == Some(out)
  {
    assert s[|s|..] == [] && out + [] == out;
  }

  /** The string a body spells, if it spells one; but for backslashes before doubled braces. */
  method DecodeBody(body: string, f: Flavor) returns (r: Option<string>)
    ensures r == Body(body, f)
    ensures r.Some? <==> exists v :: SpellsBody(body, v, f)
    ensures r.Some? ==> (SpellsBody(body, r.value, f) <==> BodyMisreadings(body, f) == 0)
  {
    r := ReadBody(body, f);
    forall v ensures SpellsBody(body, v, f) ==> r.Some? { BodyExact(body, f, v); }
    if r.Some? { BodyExact(body, f, r.value); }
  }

  /** The decoding loop: a buffer that every unit is appended to. */
  method ReadBody(body: string, f: Flavor) returns (r: Option<string>)
    ensures r == Body(body, f)
  {
    hide Escaped;
    hide Body;
    hide Escape;
    var result: string := [];
    var i := 0;
    BodyStart(body, f);
    while i < |body|
      invariant 0 <= i <= |body|
      invariant Body(body, f) == Ahead(result, Body(body[i..], f))
    {
      BodyStep(result, body, i, f);
      assert i + 1 < |body| ==> body[i..][1] == body[i + 1];
      var ch := body[i];
      if ch == '\r' {
        i := i + 1;
        if i < |body| && body[i] == '\n' {
          i := i + 1;
        }
        result := result + ['\n'];
      } else if f.formatted && (ch == '{' || ch == '}') && i + 1 < |body| && body[i + 1] == ch {
        i := i + 2;
        result := result + [ch];
      } else if ch != '\\' || f.raw {
        i := i + 1;
        result := result + [ch];
      } else if i + 1 == |body| {
        return None;
      } else {
        assert body[i..][1..] == body[i + 1..];
        var u := ReadEscape(body, i + 1, f);
        if u.None? {
          return None;
        }
        result := result + u.value.out;
        i := i + 1 + u.value.width;
      }
    }
    BodyEnd(result, body, f);
    return Some(result);
  }

  // ------------------------------------------------------- printing and back

  /** The ways to write one character of a literal. */
  datatype Form = Verbatim | Doubled | Simple | Hex2 | Octal3 | Unicode4 | Unicode8 | Braced(width: nat) | Identity

  function HexDigit(v: nat): (c: char)
    requires v < 16
    ensures DigitValue(c) == Some(v)
  {
    if v < 10 then ('0' as int + v) as char else ('a' as int + v - 10) as char
  }

  function Pow(radix: nat, w: nat): nat {
    if w == 0 then 1 else radix * Pow(radix, w - 1)
  }

  /** `v` in exactly `w` digits. */
  function Pad(v: nat, radix: nat, w: nat): (s: string)
    requires 2 <= radix <= 16
    ensures |s| == w
  {
    if w == 0 then [] else Pad(v / radix, radix, w - 1) + [HexDigit(v % radix)]
  }

  lemma {:induction false} PadValue(v: nat, radix: nat, w: nat)
    requires (radix == 8 || radix == 16) && v < Pow(radix, w)
    ensures Digits(Pad(v, radix, w), radix) && Value(Pad(v, radix, w), radix) == v
    decreases w
  {
    if w > 0 {
      PadQuotient(v, radix, w);
      PadValue(v / radix, radix, w - 1);
      ValueOfLast(Pad(v / radix, radix, w - 1), v % radix, radix);
      assert v == v / radix * radix + v % radix;
    }
  }

  lemma PadQuotient(v: nat, radix: nat, w: nat)
    requires (radix == 8 || radix == 16) && w > 0 && v < Pow(radix, w)
    ensures v / radix < Pow(radix, w - 1)
  {
    if radix == 8 { assert Pow(8, w) == 8 * Pow(8, w - 1); } else { assert Pow(16, w) == 16 * Pow(16, w - 1); }
  }

  lemma ValueOfLast(head: string, d: nat, radix: nat)
    requires d < radix <= 16 && Digits(head, radix)
    ensures Digits(head + [HexDigit(d)], radix) && Value(head + [HexDigit(d)], radix) == Value(head, radix) * radix + d
  {
    assert (head + [HexDigit(d)])[..|head|] == head;
    assert DigitValue(HexDigit(d)) == Some(d);
  }

  /** The letter a simple escape uses for `c`. */
  function SimpleLetter(c: char, f: Flavor): Option<char> {
    if c == '\\' || c == '\'' || c == '"' then Some(c)
    else if c == '\n' then Some('n')
    else if c == '\r' then Some('r')
    else if c == '\t' then Some('t')
    else if c == '\U{0008}' then Some('b')
    else if c == '\U{000C}' then Some('f')
    else if c == '\U{000B}' then Some('v')
    else if c == '\U{0007}' && f.python then Some('a')
    else None
  }

  /** JavaScript reads a backslash before these as something other than the character itself. */
  predicate Meaningful(c: char) {
    || c in "nrtbfvxu" || '0' <= c <= '9'
    || c == '\n' || c == '\r' || c == '\U{2028}' || c == '\U{2029}'
  }

  /** `closing` is the quote that ends the literal by itself, if one does: a tripled quote does not. */
  predicate CanPrint(c: char, form: Form, f: Flavor, closing: Option<char>) {
    var v := c as int;
    && !f.raw && (f.bytes ==> v < 128)
    && match form
       case Verbatim => c != '\\' && closing != Some(c) && c != '\r' && (f.formatted ==> c != '{' && c != '}')
       case Doubled => f.formatted && (c == '{' || c == '}')
       case Simple => SimpleLetter(c, f).Some?
       case Hex2 => v < Pow(16, 2)
       case Octal3 => f.python && v < Pow(8, 3)
       case Unicode4 => (f.python ==> !f.bytes) && v < Pow(16, 4)
       case Unicode8 => f.python && !f.bytes
       case Braced(w) => !f.python && 1 <= w <= 6 && v < Pow(16, w)
       case Identity => !f.python && !Meaningful(c)
  }

  function PrintChar(c: char, form: Form, f: Flavor): string {
    match form
    case Verbatim => [c]
    case Doubled => [c, c]
    case Simple => if SimpleLetter(c, f).Some? then ['\\', SimpleLetter(c, f).value] else []
    case Hex2 => "\\" + ("x" + Pad(c as int, 16, 2))
    case Octal3 => "\\" + Pad(c as int, 8, 3)
    case Unicode4 => "\\" + ("u" + Pad(c as int, 16, 4))
    case Unicode8 => "\\" + ("U" + Pad(c as int, 16, 8))
    case Braced(w) => "\\" + ("u{" + (Pad(c as int, 16, w) + "}"))
    case Identity => ['\\', c]
  }

  function PrintBody(s: string, forms: seq<Form>, f: Flavor): string
    requires |forms| == |s|
  {
    if s == [] then [] else PrintChar(s[0], forms[0], f) + PrintBody(s[1..], forms[1..], f)
  }

  predicate Printable(s: string, forms: seq<Form>, f: Flavor, closing: Option<char>) {
    |forms| == |s| && forall k :: 0 <= k < |s| ==> CanPrint(s[k], forms[k], f, closing)
  }

  lemma ScalarOfChar(c: char)
    ensures Scalar(c as int) == Some(c)
  {}

  lemma PowBounds()
    ensures Pow(16, 2) == 256 && Pow(8, 3) == 512 && Pow(16, 4) == 0x1_0000 && Pow(16, 8) == 0x1_0000_0000
  {
    assert Pow(16, 2) == 16 * Pow(16, 1) && Pow(16, 1) == 16;
    assert Pow(8, 3) == 8 * Pow(8, 2) && Pow(8, 2) == 8 * Pow(8, 1);
    assert Pow(16, 4) == 16 * Pow(16, 3) && Pow(16, 3) == 16 * Pow(16, 2);
    assert Pow(16, 8) == 16 * Pow(16, 7) && Pow(16, 7) == 16 * Pow(16, 6) && Pow(16, 6) == 16 * Pow(16, 5)
      && Pow(16, 5) == 16 * Pow(16, 4);
  }

  /** Padded digits in front of any text are read back as their number. */
  lemma PaddedHex(c: char, w: nat, rest: string)
    requires c as int < Pow(16, w)
    ensures HexEscape(Pad(c as int, 16, w) + rest, w) == Some(c)
  {
    var d := Pad(c as int, 16, w);
    PadValue(c as int, 16, w);
    assert (d + rest)[..w] == d;
    FullRun(d + rest, 16, w);
    ScalarOfChar(c);
  }

  lemma PaddedOctal(c: char, rest: string)
    requires c as int < Pow(8, 3)
    ensures var s := Pad(c as int, 8, 3) + rest;
            DigitRun(s, 8, 3) == 3 && Scalar(Value(s[..3], 8)) == Some(c) && '0' <= s[0] <= '7'
  {
    var d := Pad(c as int, 8, 3);
    PadValue(c as int, 8, 3);
    assert (d + rest)[..3] == d;
    FullRun(d + rest, 8, 3);
    ScalarOfChar(c);
    assert IsDigit(d[0], 8);
  }

  lemma PaddedBraces(c: char, w: nat, rest: string)
    requires 1 <= w <= 6 && c as int < Pow(16, w)
    ensures BracedEscape(Pad(c as int, 16, w) + "}" + rest) == Some(Unit([c], w + 1))
  {
    var d := Pad(c as int, 16, w);
    var s := d + "}" + rest;
    PadValue(c as int, 16, w);
    assert s[..w] == d && s[w] == '}';
    ExactRun(s, 16, w, 6);
    ScalarOfChar(c);
  }

  /** The letter and digit count of the fixed-width escapes a flavor has. */
  predicate HexLetter(letter: char, w: nat, f: Flavor) {
    || (letter == 'x' && w == 2)
    || (letter == 'u' && w == 4 && (f.python ==> !f.bytes))
    || (letter == 'U' && w == 8 && f.python && !f.bytes)
  }

  lemma EscapeHex(t: string, letter: char, w: nat, f: Flavor, c: char)
    requires HexLetter(letter, w, f) && |t| > 1 && t[0] == letter && t[1] != '{'
    requires HexEscape(t[1..], w) == Some(c)
    ensures Escape(t, f) == Some(Unit([c], w + 1))
  {
    hide HexEscape;
  }

  lemma PrintedHex(c: char, letter: char, w: nat, f: Flavor, rest: string)
    requires !f.raw && c as int < Pow(16, w) && HexLetter(letter, w, f)
    ensures Head("\\" + ([letter] + Pad(c as int, 16, w)) + rest, f) == Some(Unit([c], w + 2))
  {
    var d := Pad(c as int, 16, w);
    var t := [letter] + (d + rest);
    PaddedHex(c, w, rest);
    PadValue(c as int, 16, w);
    assert IsDigit(d[0], 16) && t[1] == d[0];
    DropConcat([letter], d + rest, 1);
    EscapeHex(t, letter, w, f, c);
    Associative([letter], d, rest);
    HeadEscape([letter] + d, rest, f, Unit([c], w + 1));
  }

  lemma EscapeOctal(t: string, f: Flavor, c: char)
    requires f.python && |t| >= 3 && '0' <= t[0] <= '7'
    requires DigitRun(t, 8, 3) == 3 && Scalar(Value(t[..3], 8)) == Some(c)
    ensures Escape(t, f) == Some(Unit([c], 3))
  {
    hide DigitRun;
    hide Value;
  }

  lemma EscapeBraces(t: string, f: Flavor, u: Unit)
    requires !f.python && |t| > 2 && t[0] == 'u' && t[1] == '{' && BracedEscape(t[2..]) == Some(u)
    ensures Escape(t, f) == Some(Unit(u.out, u.width + 2))
  {
    hide BracedEscape;
  }

  /** A backslash and an escape make one unit. */
  lemma HeadEscape(q: string, rest: string, f: Flavor, u: Unit)
    requires !f.raw && q != [] && Escape(q + rest, f) == Some(u)
    ensures Head("\\" + q + rest, f) == Some(Unit(u.out, u.width + 1))
  {
    Associative("\\", q, rest);
    DropConcat("\\", q + rest, 1);
    hide Escape;
  }

  lemma PrintedOctal(c: char, f: Flavor, rest: string)
    requires CanPrint(c, Octal3, f, None)
    ensures Head("\\" + Pad(c as int, 8, 3) + rest, f) == Some(Unit([c], 4))
  {
    PaddedOctal(c, rest);
    EscapeOctal(Pad(c as int, 8, 3) + rest, f, c);
    HeadEscape(Pad(c as int, 8, 3), rest, f, Unit([c], 3));
  }

  lemma PrintedBraces(c: char, w: nat, f: Flavor, rest: string)
    requires CanPrint(c, Braced(w), f, None)
    ensures Head("\\" + ("u{" + (Pad(c as int, 16, w) + "}")) + rest, f) == Some(Unit([c], w + 4))
  {
    var d := Pad(c as int, 16, w) + "}";
    var t := "u{" + (d + rest);
    PaddedBraces(c, w, rest);
    DropConcat("u{", d + rest, 2);
    EscapeBraces(t, f, Unit([c], w + 1));
    Associative("u{", d, rest);
    HeadEscape("u{" + d, rest, f, Unit([c], w + 3));
  }

  /** Every form is one unit that yields the character. */
  lemma PrintedUnit(c: char, form: Form, f: Flavor, closing: Option<char>, rest: string)
    requires CanPrint(c, form, f, closing)
    ensures PrintChar(c, form, f) != []
    ensures Head(PrintChar(c, form, f) + rest, f) == Some(Unit([c], |PrintChar(c, form, f)|))
  {
    var p := PrintChar(c, form, f);
    var s := p + rest;
    hide Pad;
    hide HexEscape;
    hide DigitRun;
    match form
    case Verbatim =>
    case Doubled =>
    case Simple => assert s[1..] == [SimpleLetter(c, f).value] + rest;
    case Identity => assert s[1..] == [c] + rest;
    case Hex2 => PrintedHex(c, 'x', 2, f, rest);
    case Unicode4 => PrintedHex(c, 'u', 4, f, rest);
    case Unicode8 =>
      PowBounds();
      PrintedHex(c, 'U', 8, f, rest);
    case Octal3 => PrintedOctal(c, f, rest);
    case Braced(w) => PrintedBraces(c, w, f, rest);
  }

  lemma {:induction false} BodyRoundTrip(s: string, forms: seq<Form>, f: Flavor, closing: Option<char>)
    requires Printable(s, forms, f, closing)
    ensures Body(PrintBody(s, forms, f), f) == Some(s)
    decreases |s|
  {
    hide CanPrint;
    hide PrintChar;
    hide Body;
    if s == [] {
      BodyOfNothing(f);
    } else {
      var p, rest := PrintChar(s[0], forms[0], f), PrintBody(s[1..], forms[1..], f);
      PrintedUnit(s[0], forms[0], f, closing, rest);
      BodyRoundTrip(s[1..], forms[1..], f, closing);
      BodyOfUnit(p, rest, f, [s[0]], s[1..]);
      assert [s[0]] + s[1..] == s;
    }
  }

  lemma BodyOfNothing(f: Flavor)
    ensures Body([], f) == Some([])
  {}

  lemma BodyOfUnit(p: string, rest: string, f: Flavor, v: string, w: string)
    requires p != [] && Head(p + rest, f) == Some(Unit(v, |p|)) && Body(rest, f) == Some(w)
    ensures Body(p + rest, f) == Some(v + w)
  {
    hide Head;
    assert (p + rest)[|p|..] == rest;
  }

  /** One quote must not be followed by another at once unless the literal is empty. */
  predicate Delimits(quote: char, width: nat, body: string, lang: Language) {
    && (quote == '\'' || quote == '"' || (quote == '`' && lang == JavaScript))
    && (width == 1 || (width == 3 && lang == Python))
    && (width == 1 && body != [] ==> body[0] != quote)
  }

  function PrintLiteral(prefix: string, quote: char, width: nat, body: string, f: Flavor): string {
    Parts(prefix, quote, width, body, f).Text()
  }

  lemma DelimitedParts(prefix: string, quote: char, width: nat, body: string, lang: Language, f: Flavor)
    requires PrefixFlavor(prefix, lang) == Some(f) && Delimits(quote, width, body, lang)
    ensures Parts(prefix, quote, width, body, f).Valid(lang)
  {
    PrefixExact(prefix, f, lang);
    var p := Parts(prefix, quote, width, body, f);
    var after := p.Text()[|prefix|..];
    assert after == Quotes(quote, width) + (body + Quotes(quote, width));
    assert width == 1 && |body| > 0 ==> after[1] == body[0];
    assert width == 1 && body == [] ==> |after| == 2;
  }

  /** What a literal built from its parts decodes to. */
  lemma DelimitedLiteral(prefix: string, quote: char, width: nat, body: string, lang: Language, f: Flavor)
    requires PrefixFlavor(prefix, lang) == Some(f) && Delimits(quote, width, body, lang)
    requires f.bytes ==> IsAscii(body)
    ensures LiteralText(PrintLiteral(prefix, quote, width, body, f), lang)
            == Representable(Content(body, f), Body(body, f))
  {
    DelimitedParts(prefix, quote, width, body, lang, f);
    SplitOfParts(Parts(prefix, quote, width, body, f), lang);
    hide Split;
  }

  /** No printed character starts with the closing quote. */
  lemma PrintedHead(s: string, forms: seq<Form>, f: Flavor, quote: char)
    requires Printable(s, forms, f, Some(quote)) && IsQuote(quote)
    ensures PrintBody(s, forms, f) != [] ==> PrintBody(s, forms, f)[0] != quote
  {
    if s != [] {
      assert CanPrint(s[0], forms[0], f, Some(quote));
      PrintedUnit(s[0], forms[0], f, Some(quote), []);
    }
  }

  lemma AsciiForm(c: char, form: Form, f: Flavor, closing: Option<char>)
    requires CanPrint(c, form, f, closing) && f.bytes && f.python
    ensures IsAscii(PrintChar(c, form, f))
  {
    match form
    case Verbatim =>
    case Doubled =>
    case Simple =>
    case Hex2 => AsciiDigits(c as int, 16, 2);
    case Octal3 => AsciiDigits(c as int, 8, 3);
  }

  lemma {:induction false} AsciiDigits(v: nat, radix: nat, w: nat)
    requires 2 <= radix <= 16
    ensures IsAscii(Pad(v, radix, w))
  {
    if w > 0 { AsciiDigits(v / radix, radix, w - 1); }
  }

  lemma {:induction false} AsciiBody(s: string, forms: seq<Form>, f: Flavor, closing: Option<char>)
    requires Printable(s, forms, f, closing) && f.bytes && f.python
    ensures IsAscii(PrintBody(s, forms, f))
    decreases |s|
  {
    if s != [] {
      assert CanPrint(s[0], forms[0], f, closing);
      AsciiForm(s[0], forms[0], f, closing);
      AsciiBody(s[1..], forms[1..], f, closing);
    }
  }

  /** Printing and decoding undo each other: any string, under any prefix that is not raw, in
      any quotes, with any permitted choice of escape for each character. Between tripled quotes
      a quote may stand for itself. */
  lemma LiteralRoundTrip(s: string, forms: seq<Form>, prefix: string, quote: char, width: nat, lang: Language,
                         f: Flavor)
    requires PrefixFlavor(prefix, lang) == Some(f) && Printable(s, forms, f, if width == 1 then Some(quote) else None)
    requires Delimits(quote, width, [], lang)
    ensures LiteralText(PrintLiteral(prefix, quote, width, PrintBody(s, forms, f), f), lang) == Some(s)
  {
    var closing := if width == 1 then Some(quote) else None;
    PrefixHasNoQuote(prefix, lang);
    BodyRoundTrip(s, forms, f, closing);
    if width == 1 { PrintedHead(s, forms, f, quote); }
    if f.bytes {
      AsciiBody(s, forms, f, closing);
      forall k | 0 <= k < |s| ensures s[k] as int < 128 { assert CanPrint(s[k], forms[k], f, closing); }
    }
    DelimitedLiteral(prefix, quote, width, PrintBody(s, forms, f), lang, f);
  }

  /** Every string has such a spelling: the long escapes alone are enough. */
  lemma EveryStringPrints(s: string, lang: Language, closing: Option<char>) returns (forms: seq<Form>)
    ensures Printable(s, forms, Flavor(lang == Python, false, false, false), closing)
  {
    PowBounds();
    assert Pow(16, 6) == 16 * Pow(16, 5) && Pow(16, 5) == 16 * Pow(16, 4);
    forms := seq(|s|, _ => if lang == Python then Unicode8 else Braced(6));
  }

  /** CR and CR LF become LF. */
  function NormalizeNewlines(s: string): (r: string)
    ensures '\r' !in r
    ensures '\r' !in s ==> r == s
    decreases |s|
  {
    if s == [] then []
    else if s[0] == '\r' then "\n" + NormalizeNewlines(s[LineEnd(s)..])
    else [s[0]] + NormalizeNewlines(s[1..])
  }

  lemma {:induction false} RawBody(s: string, f: Flavor)
    requires f.raw && !f.formatted
    ensures Body(s, f) == Some(NormalizeNewlines(s))
    decreases |s|
  {
    if s != [] {
      RawBody(s[Head(s, f).value.width..], f);
    }
  }

  /** A raw literal that is not an f-string only has its line ends normalised. */
  lemma RawLiteral(prefix: string, quote: char, width: nat, body: string, f: Flavor)
    requires PrefixFlavor(prefix, Python) == Some(f) && f.raw && !f.formatted
    requires Delimits(quote, width, body, Python) && (f.bytes ==> IsAscii(body))
    ensures LiteralText(PrintLiteral(prefix, quote, width, body, f), Python) == Some(NormalizeNewlines(body))
  {
    RawBody(body, f);
    if f.bytes { AsciiNewlines(body); }
    DelimitedLiteral(prefix, quote, width, body, Python, f);
  }

  lemma {:induction false} AsciiNewlines(s: string)
    requires IsAscii(s)
    ensures IsAscii(NormalizeNewlines(s))
    decreases |s|
  {
    if s != [] {
      var n := if s[0] == '\r' then LineEnd(s) else 1;
      AsciiNewlines(s[n..]);
    }
  }

  /** `ns` are leaf literals with these values, and possibly comments and punctuation between them. */
  predicate LeafLiterals(ns: seq<Node>, lang: Language, values: seq<string>) {
    if ns == [] then values == []
    else if !ns[0].named || ns[0].kind == Comment then LeafLiterals(ns[1..], lang, values)
    else
      && ns[0].kind == StringLiteral && ns[0].children == []
      && values != [] && LiteralText(ns[0].text, lang) == Some(values[0])
      && LeafLiterals(ns[1..], lang, values[1..])
  }

  function Concat(parts: seq<string>): string {
    if parts == [] then [] else parts[0] + Concat(parts[1..])
  }

  /** Adjacent literals are one value. */
  lemma {:induction false} AdjacentLiterals(ns: seq<Node>, parent: Node, lang: Language, depth: nat,
          values: seq<string>)
    requires depth + 1 < 64 && parent.kind == ConcatenatedString
    requires LeafLiterals(ns, lang, values)
    ensures JoinLiterals(ns, parent, lang, depth) == Some(Concat(values))
    decreases |ns|
  {
    hide LiteralText;
    if ns != [] {
      if !ns[0].named || ns[0].kind == Comment {
        AdjacentLiterals(ns[1..], parent, lang, depth, values);
      } else {
        assert Below(ns[0]) == [];
        AdjacentLiterals(ns[1..], parent, lang, depth, values[1..]);
      }
    }
  }
}
