/** What Python and JavaScript string literals mean, as their grammars have it: which texts spell
    which strings. Nothing here decodes; a text is related to a string by the units it is made of. */
module Spelling {
  import opened Syntax
  import opened Wrappers

  // --------------------------------------------------------------- numerals

  function DigitValue(c: char): (v: Option<nat>)
    ensures v.Some? ==> v.value < 16
  {
    if '0' <= c <= '9' then Some(c as int - '0' as int)
    else if 'a' <= c <= 'f' then Some(c as int - 'a' as int + 10)
    else if 'A' <= c <= 'F' then Some(c as int - 'A' as int + 10)
    else None
  }

  predicate IsDigit(c: char, radix: nat) {
    DigitValue(c).Some? && DigitValue(c).value < radix
  }

  predicate Digits(s: string, radix: nat) {
    forall k :: 0 <= k < |s| ==> IsDigit(s[k], radix)
  }

  /** The number a digit string denotes. */
  function Value(s: string, radix: nat): nat
    requires Digits(s, radix)
  {
    if s == [] then 0 else Value(s[..|s| - 1], radix) * radix + DigitValue(s[|s| - 1]).value
  }

  predicate IsAscii(s: string) {
    forall k :: 0 <= k < |s| ==> s[k] as int < 128
  }

  // ------------------------------------------------------------------ units

  /** How the body of a literal is read. */
  datatype Flavor = Flavor(python: bool, raw: bool, formatted: bool, bytes: bool)

  predicate StartsWith(s: string, c: char) {
    s != [] && s[0] == c
  }

  /** The escapes of one letter. */
  function Letters(f: Flavor): map<char, char> {
    map['\\' := '\\', '\'' := '\'', '"' := '"', 'n' := '\n', 'r' := '\r', 't' := '\t',
        'b' := '\U{0008}', 'f' := '\U{000C}', 'v' := '\U{000B}']
    + if f.python then map['a' := '\U{0007}'] else map[]
  }

  predicate LetterEscape(t: string, v: string, f: Flavor) {
    |t| == 1 && t[0] in Letters(f) && v == [Letters(f)[t[0]]]
  }

  predicate IsLineEnd(c: char, f: Flavor) {
    c == '\n' || c == '\r' || (!f.python && (c == '\U{2028}' || c == '\U{2029}'))
  }

  /** A backslash before a line end joins the lines; CR LF is one line end. */
  predicate Continuation(t: string, v: string, rest: string, f: Flavor) {
    && v == []
    && (t == "\r\n" || (|t| == 1 && IsLineEnd(t[0], f) && (t[0] == '\r' ==> !StartsWith(rest, '\n'))))
  }

  /** `v` is the one character with number `n`. */
  predicate Numbered(n: nat, v: string) {
    |v| == 1 && v[0] as int == n
  }

  /** Python: one to three octal digits, as many as follow. */
  predicate OctalRun(t: string, v: string, rest: string, f: Flavor) {
    && f.python && 1 <= |t| <= 3 && Digits(t, 8)
    && (|t| == 3 || rest == [] || !IsDigit(rest[0], 8))
    && Numbered(Value(t, 8), v)
  }

  /** How many hexadecimal digits have to follow a letter. */
  function HexWidth(letter: char, f: Flavor): nat {
    if letter == 'x' then 2
    else if letter == 'u' && (f.python ==> !f.bytes) then 4
    else if letter == 'U' && f.python && !f.bytes then 8
    else 0
  }

  predicate HexDigits(t: string, v: string, f: Flavor) {
    && t != [] && HexWidth(t[0], f) > 0 && |t| == HexWidth(t[0], f) + 1
    && Digits(t[1..], 16) && Numbered(Value(t[1..], 16), v)
  }

  /** JavaScript: one to six hexadecimal digits in braces. */
  predicate BracedHex(t: string, v: string, f: Flavor) {
    && !f.python && 4 <= |t| <= 9 && t[0] == 'u' && t[1] == '{' && t[|t| - 1] == '}'
    && Digits(t[2..|t| - 1], 16) && Numbered(Value(t[2..|t| - 1], 16), v)
  }

  /** JavaScript: `\0` is NUL unless another decimal digit follows. */
  predicate Nul(t: string, v: string, rest: string, f: Flavor) {
    !f.python && t == "0" && v == "\0" && (rest == [] || !IsDigit(rest[0], 10))
  }

  /** The characters after which a backslash is the start of some other escape, or of an error. */
  predicate IsSpecial(c: char, f: Flavor) {
    || c in Letters(f) || IsLineEnd(c, f) || c == 'x'
    || (if f.python then IsDigit(c, 8) || (!f.bytes && (c == 'u' || c == 'U' || c == 'N'))
        else IsDigit(c, 10) || c == 'u')
  }

  /** Python keeps the backslash of an escape it does not know; JavaScript drops it. */
  predicate Unrecognized(t: string, v: string, f: Flavor) {
    |t| == 1 && !IsSpecial(t[0], f) && v == (if f.python then "\\" + t else t)
  }

  /** After a backslash, and before `rest`, the text `t` stands for `v`. */
  predicate Escaped(t: string, v: string, rest: string, f: Flavor) {
    || LetterEscape(t, v, f)
    || Continuation(t, v, rest, f)
    || OctalRun(t, v, rest, f)
    || HexDigits(t, v, f)
    || BracedHex(t, v, f)
    || Nul(t, v, rest, f)
    || Unrecognized(t, v, f)
  }

  /** A line end in the source is a line feed. */
  predicate LineFeed(t: string, v: string, rest: string) {
    v == "\n" && (t == "\r\n" || (t == "\r" && !StartsWith(rest, '\n')))
  }

  predicate IsBrace(c: char) { c == '{' || c == '}' }

  predicate DoubledBrace(t: string, v: string, f: Flavor) {
    f.formatted && |t| == 2 && IsBrace(t[0]) && t[1] == t[0] && v == t[..1]
  }

  predicate Itself(t: string, v: string, rest: string, f: Flavor) {
    && |t| == 1 && v == t && t[0] != '\r' && (t[0] == '\\' ==> f.raw)
    && (f.formatted && IsBrace(t[0]) ==> !StartsWith(rest, t[0]))
  }

  /** Where braces stand for interpolations, no escape takes one. */
  predicate KeepsBraces(f: Flavor) { f.python && f.formatted && !f.raw }

  /** There a backslash before a brace stands for itself, and the brace belongs to what follows. */
  predicate BeforeBrace(t: string, v: string, rest: string, f: Flavor) {
    KeepsBraces(f) && t == "\\" && v == t && rest != [] && IsBrace(rest[0])
  }

  /** An escape, backslash included. */
  predicate Backslashed(t: string, v: string, rest: string, f: Flavor) {
    !f.raw && |t| > 1 && t[0] == '\\' && !(KeepsBraces(f) && IsBrace(t[1])) && Escaped(t[1..], v, rest, f)
  }

  /** In a body, and before `rest`, the text `t` stands for `v`. */
  predicate Means(t: string, v: string, rest: string, f: Flavor) {
    || LineFeed(t, v, rest)
    || DoubledBrace(t, v, f)
    || Itself(t, v, rest, f)
    || BeforeBrace(t, v, rest, f)
    || Backslashed(t, v, rest, f)
  }

  /** The body `t` spells `v`, unit by unit. */
  predicate SpellsBody(t: string, v: string, f: Flavor)
    decreases |t|
  {
    if t == [] then v == []
    else exists i, j ::
        1 <= i <= |t| && 0 <= j <= |v| && Means(t[..i], v[..j], t[i..], f) && SpellsBody(t[i..], v[j..], f)
  }

  // -------------------------------------------------------------- literals

  function Lower(c: char): char {
    if 'A' <= c <= 'Z' then (c as int + 32) as char else c
  }

  predicate HasLetter(prefix: string, c: char) {
    exists k :: 0 <= k < |prefix| && Lower(prefix[k]) == c
  }

  /** The prefixes: in Python any of `r`, `u`, `b` and `f` in either case, and `r` with one of `b`
      and `f` in either order; in JavaScript none. */
  predicate Prefixes(prefix: string, f: Flavor, lang: Language) {
    if lang == JavaScript then prefix == [] && f == Flavor(false, false, false, false)
    else
      && (|prefix| == 0
          || (|prefix| == 1 && Lower(prefix[0]) in {'r', 'u', 'b', 'f'})
          || (|prefix| == 2 && HasLetter(prefix, 'r') && (HasLetter(prefix, 'b') || HasLetter(prefix, 'f'))))
      && f == Flavor(true, HasLetter(prefix, 'r'), HasLetter(prefix, 'f'), HasLetter(prefix, 'b'))
  }

  /** A run of quotes. */
  function Quotes(quote: char, width: nat): (q: string)
    ensures |q| == width && forall k :: 0 <= k < width ==> q[k] == quote
  {
    seq(width, _ => quote)
  }

  /** The parts of a literal's text. */
  datatype Parts = Parts(prefix: string, quote: char, width: nat, body: string, flavor: Flavor) {
    function Text(): string {
      prefix + (Quotes(quote, width) + (body + Quotes(quote, width)))
    }

    /** A quote of the language, tripled only in Python, where three quotes in a row always are
        the triple one. That the body ends where the text does is up to the parser. */
    predicate Valid(lang: Language) {
      && Prefixes(prefix, flavor, lang)
      && (quote == '\'' || quote == '"' || (quote == '`' && lang == JavaScript))
      && (width == 1 || (width == 3 && lang == Python))
      && (width == 1 && lang == Python ==> !(Quotes(quote, 3) <= Text()[|prefix|..]))
    }
  }

  /** `t` is made of these parts, and they spell `s`; a bytes literal is ASCII on both sides. */
  predicate SpelledBy(p: Parts, t: string, s: string, lang: Language) {
    && p.Valid(lang) && t == p.Text() && SpellsBody(p.body, s, p.flavor)
    && (p.flavor.bytes ==> IsAscii(p.body) && IsAscii(s))
  }

  /** The literal with text `t` has the value `s`. */
  ghost predicate Spells(t: string, s: string, lang: Language) {
    exists p :: SpelledBy(p, t, s, lang)
  }
}
