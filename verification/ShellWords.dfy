/** The quote-aware command tokenizer and the command-prefix guard (src/allowlist.rs).
    The specification reads a command as a sequence of events, one per shell unit, under the
    single quote, double quote and backslash contexts of section 2.2 (Quoting) of the Shell
    Command Language in POSIX.1-2017, plus the `$'...'` form. */
module ShellWords {
  import opened Seqs
  import opened Wrappers

  /** Unicode White_Space. */
  predicate IsWhitespace(c: char) {
    || '\t' <= c <= '\r' || c == ' ' || c == '\U{0085}' || c == '\U{00A0}' || c == '\U{1680}'
    || '\U{2000}' <= c <= '\U{200A}' || c == '\U{2028}' || c == '\U{2029}' || c == '\U{202F}'
    || c == '\U{205F}' || c == '\U{3000}'
  }

  /** The characters with the property White_Space in the Unicode Character Database. */
  const WHITE_SPACE: set<char> := {
    '\U{0009}', '\U{000A}', '\U{000B}', '\U{000C}', '\U{000D}', '\U{0020}', '\U{0085}', '\U{00A0}', '\U{1680}',
    '\U{2000}', '\U{2001}', '\U{2002}', '\U{2003}', '\U{2004}', '\U{2005}', '\U{2006}', '\U{2007}', '\U{2008}',
    '\U{2009}', '\U{200A}', '\U{2028}', '\U{2029}', '\U{202F}', '\U{205F}', '\U{3000}' }

  lemma WhitespaceExact(c: char)
    ensures IsWhitespace(c) <==> c in WHITE_SPACE
  {}

  predicate IsAsciiWhitespace(c: char) {
    c == ' ' || c == '\t' || c == '\n' || c == '\U{000C}' || c == '\r'
  }

  predicate IsOperator(c: char) {
    c == '<' || c == '>' || c == ';' || c == '|' || c == '&' || c == '`' || c == '(' || c == ')'
  }

  /** What a backslash still escapes inside double quotes. */
  predicate IsDoubleEscape(c: char) {
    c == '"' || c == '\\' || c == '$' || c == '`'
  }

  datatype Mode = Plain | Single | Double | Ansi

  /** What one unit of the command means: a word boundary, an active operator, a quote
      delimiter, or one character of data. */
  datatype Event = Gap | Active | Mark | Take(c: char)

  datatype Reading = Reading(event: Event, mode: Mode, width: nat)

  /** The unit at the head of `s`. */
  function Read(m: Mode, s: string): (r: Reading)
    requires s != []
    ensures 1 <= r.width <= |s|
  {
    var two := |s| > 1;
    match m
    case Plain =>
      if IsWhitespace(s[0]) then Reading(Gap, Plain, 1)
      else if s[0] == '\'' then Reading(Mark, Single, 1)
      else if s[0] == '"' then Reading(Mark, Double, 1)
      else if s[0] == '$' && two && s[1] == '\'' then Reading(Mark, Ansi, 2)
      else if s[0] == '$' && two && s[1] == '(' then Reading(Active, Plain, 2)
      else if s[0] == '\\' then
        // A backslash that ends the command escapes nothing and starts no word.
        if two then Reading(Take(s[1]), Plain, 2) else Reading(Gap, Plain, 1)
      else if IsOperator(s[0]) then Reading(Active, Plain, 1)
      else Reading(Take(s[0]), Plain, 1)
    case Single =>
      if s[0] == '\'' then Reading(Mark, Plain, 1) else Reading(Take(s[0]), Single, 1)
    case Double =>
      if s[0] == '\\' then
        if two && IsDoubleEscape(s[1]) then Reading(Take(s[1]), Double, 2) else Reading(Take('\\'), Double, 1)
      else if s[0] == '"' then Reading(Mark, Plain, 1)
      else Reading(Take(s[0]), Double, 1)
    case Ansi =>
      if s[0] == '\\' then
        if two then Reading(Take(s[1]), Ansi, 2) else Reading(Mark, Ansi, 1)
      else if s[0] == '\'' then Reading(Mark, Plain, 1)
      else Reading(Take(s[0]), Ansi, 1)
  }

  function Events(m: Mode, s: string): seq<Event>
    decreases |s|
  {
    if s == [] then [] else
    var r := Read(m, s);
    [r.event] + Events(r.mode, s[r.width..])
  }

  /** The data of a word. */
  function Text(ev: seq<Event>): string {
    if ev == [] then [] else (if ev[0].Take? then [ev[0].c] else []) + Text(ev[1..])
  }

  /** The first boundary in `ev`, or its length. */
  function Run(ev: seq<Event>): (n: nat)
    ensures n <= |ev|
    ensures Gap !in ev[..n]
    ensures n < |ev| ==> ev[n] == Gap
  {
    if ev == [] || ev[0] == Gap then 0
    else
      var n := 1 + Run(ev[1..]);
      assert ev[..n] == [ev[0]] + ev[1..][..n - 1];
      n
  }

  /** The words are the maximal runs between boundaries. */
  function Words(ev: seq<Event>): seq<string>
    decreases |ev|
  {
    if ev == [] then []
    else if ev[0] == Gap then Words(ev[1..])
    else [Text(ev[..Run(ev)])] + Words(ev[Run(ev)..])
  }

  /** The argv of a simple command; nothing when an operator is active or there is no word. */
  function Argv(s: string): Option<seq<string>> {
    var ev := Events(Plain, s);
    if Active in ev || Words(ev) == [] then None else Some(Words(ev))
  }

  // ----------------------------------------------------------- event algebra

  lemma {:induction false} TextConcat(a: seq<Event>, b: seq<Event>)
    ensures Text(a + b) == Text(a) + Text(b)
  {
    if a == [] {
      assert a + b == b;
    } else {
      var head := if a[0].Take? then [a[0].c] else [];
      assert (a + b)[0] == a[0] && (a + b)[1..] == a[1..] + b;
      TextConcat(a[1..], b);
      assert head + (Text(a[1..]) + Text(b)) == (head + Text(a[1..])) + Text(b);
    }
  }

  lemma {:induction false} RunConcat(run: seq<Event>, rest: seq<Event>)
    requires Gap !in run && (rest == [] || rest[0] == Gap)
    ensures Run(run + rest) == |run|
  {
    if run == [] {
      assert run + rest == rest;
    } else {
      assert (run + rest)[1..] == run[1..] + rest;
      RunConcat(run[1..], rest);
    }
  }

  /** A run that meets a boundary, or the end, is one word. */
  lemma WordsClose(run: seq<Event>, rest: seq<Event>)
    requires Gap !in run && (rest == [] || rest[0] == Gap)
    ensures Words(run + rest) == (if run == [] then [] else [Text(run)]) + Words(if rest == [] then [] else rest[1..])
  {
    if run == [] {
      assert run + rest == rest;
    } else {
      RunConcat(run, rest);
      assert (run + rest)[0] == run[0] && run[0] in run;
      assert (run + rest)[..|run|] == run && (run + rest)[|run|..] == rest;
    }
  }

  lemma {:induction false} WordsConcat(a: seq<Event>, b: seq<Event>)
    requires b == [] || b[0] == Gap
    ensures Words(a + b) == Words(a) + Words(b)
    decreases |a|
  {
    if a == [] {
      Nothing(b);
      Nothing(Words(b));
    } else if a[0] == Gap {
      DropConcat(a, b, 1);
      WordsConcat(a[1..], b);
    } else {
      var n := Run(a);
      var run, rest := a[..n], a[n..];
      assert a == run + rest && run[0] == a[0];
      WordsConcat(rest, b);
      Associative(run, rest, b);
      WordsClose(run, rest + b);
      assert rest != [] ==> (rest + b)[0] == rest[0];
      assert rest + b != [] ==> Words(rest + b) == Words((rest + b)[1..]);
      Associative([Text(run)], Words(rest), Words(b));
    }
  }

  // ------------------------------------------------------------ the tokenizer

  /** What the scan knows between two units: `words` and the run of the word under way
      account for everything it has passed. */
  ghost predicate Scanned(s: string, i: nat, m: Mode, words: seq<string>, cur: string, started: bool, run: seq<Event>)
    requires i <= |s|
  {
    var all, rest := Events(Plain, s), Events(m, s[i..]);
    && Words(all) == words + Words(run + rest)
    && (Active in all <==> Active in rest)
    && Gap !in run && Text(run) == cur && (started <==> run != [])
  }

  lemma ScanWord(s: string, i: nat, m: Mode, words: seq<string>, cur: string, started: bool, run: seq<Event>)
    requires i < |s| && Scanned(s, i, m, words, cur, started, run)
    requires Read(m, s[i..]).event.Mark? || Read(m, s[i..]).event.Take?
    ensures var r := Read(m, s[i..]);
            Scanned(s, i + r.width, r.mode, words, if r.event.Take? then cur + [r.event.c] else cur, true,
                    run + [r.event])
  {
    hide Read;
    var r := Read(m, s[i..]);
    var after := Events(r.mode, s[i + r.width..]);
    NextUnit(m, s, i);
    UnitText(r.event);
    TextConcat(run, [r.event]);
    hide Events;
    hide Words;
    hide Text;
    Associative(run, [r.event], after);
    assert run + [r.event] != [];
    assert Gap !in [r.event] && (Active in [r.event] + after <==> Active in after);
  }

  /** The reading, one unit on. */
  lemma NextUnit(m: Mode, s: string, i: nat)
    requires i < |s|
    ensures var r := Read(m, s[i..]);
            i + r.width <= |s| && Events(m, s[i..]) == [r.event] + Events(r.mode, s[i + r.width..])
  {
    hide Read;
    var r := Read(m, s[i..]);
    assert s[i..][r.width..] == s[i + r.width..];
  }

  lemma ScanGap(s: string, i: nat, words: seq<string>, cur: string, started: bool, run: seq<Event>)
    requires i < |s| && Scanned(s, i, Plain, words, cur, started, run)
    requires IsWhitespace(s[i])
    ensures Scanned(s, i + 1, Plain, if started then words + [cur] else words, "", false, [])
    ensures !started ==> cur == ""
  {
    hide Events;
    hide Words;
    hide Text;
    hide IsWhitespace;
    var after := Events(Plain, s[i + 1..]);
    GapEvent(s[i..]);
    assert s[i..][1..] == s[i + 1..];
    WordsClose(run, [Gap] + after);
    NoText();
    Nothing(after);
    assert ([Gap] + after)[1..] == after;
    var open := if run == [] then [] else [Text(run)];
    Associative(words, open, Words(after));
    Nothing(words);
  }

  lemma GapEvent(t: string)
    requires t != [] && IsWhitespace(t[0])
    ensures Events(Plain, t) == [Gap] + Events(Plain, t[1..])
  {}

  lemma NoText()
    ensures Text([]) == "" && Words([]) == []
  {}

  lemma ScanActive(s: string, i: nat, words: seq<string>, cur: string, started: bool, run: seq<Event>)
    requires i < |s| && Scanned(s, i, Plain, words, cur, started, run)
    requires Read(Plain, s[i..]).event.Active?
    ensures Argv(s) == None
  {}

  lemma ScanTrailingBackslash(s: string, i: nat, words: seq<string>, cur: string, started: bool, run: seq<Event>)
    requires i + 1 == |s| && s[i] == '\\' && Scanned(s, i, Plain, words, cur, started, run)
    ensures Scanned(s, i + 1, Plain, words, cur, started, run)
  {
    assert s[i..] == ['\\'] && s[i..][1..] == [] && s[i + 1..] == [];
    assert Events(Plain, s[i..]) == [Gap] + [];
    WordsClose(run, [Gap]);
    assert [Gap][1..] == [] && [Gap] + [] == [Gap];
    WordsClose(run, []);
    assert Words(run + Events(Plain, s[i..])) == Words(run + []);
  }

  lemma ScanEnd(s: string, words: seq<string>, cur: string, started: bool, run: seq<Event>)
    requires Scanned(s, |s|, Plain, words, cur, started, run)
    ensures Active !in Events(Plain, s)
    ensures Words(Events(Plain, s)) == if started then words + [cur] else words
  {
    assert Words([]) == [];
    hide Words;
    assert s[|s|..] == [];
    WordsClose(run, []);
    assert words + ([] + []) == words && words + ([cur] + []) == words + [cur];
  }

  lemma ScanStart(s: string)
    ensures Scanned(s, 0, Plain, [], "", false, [])
  {
    assert s[0..] == s && [] + Events(Plain, s) == Events(Plain, s);
  }

  /** A quote still open at the end of the command closes there. */
  lemma ScanUnclosed(s: string, m: Mode, words: seq<string>, cur: string, started: bool, run: seq<Event>)
    requires Scanned(s, |s|, m, words, cur, started, run)
    ensures Scanned(s, |s|, Plain, words, cur, started, run)
  {
    assert s[|s|..] == [];
  }

  /** Data up to the closing quote, or to the end of the command. */
  method SingleQuoted(s: string, start: nat, ghost words: seq<string>, cur0: string, ghost run0: seq<Event>)
    returns (i: nat, cur: string, ghost run: seq<Event>)
    requires start <= |s| && Scanned(s, start, Single, words, cur0, true, run0)
    ensures start <= i <= |s| && Scanned(s, i, Plain, words, cur, true, run)
  {
    hide Scanned;
    i, cur, run := start, cur0, run0;
    while i < |s|
      invariant start <= i <= |s|
      invariant Scanned(s, i, Single, words, cur, true, run)
    {
      ghost var r := Read(Single, s[i..]);
      ScanWord(s, i, Single, words, cur, true, run);
      run := run + [r.event];
      var q := s[i];
      i := i + 1;
      if q == '\'' {
        return;
      }
      cur := cur + [q];
    }
    ScanUnclosed(s, Single, words, cur, true, run);
  }

  method DoubleQuoted(s: string, start: nat, ghost words: seq<string>, cur0: string, ghost run0: seq<Event>)
    returns (i: nat, cur: string, ghost run: seq<Event>)
    requires start <= |s| && Scanned(s, start, Double, words, cur0, true, run0)
    ensures start <= i <= |s| && Scanned(s, i, Plain, words, cur, true, run)
  {
    hide Scanned;
    i, cur, run := start, cur0, run0;
    while i < |s|
      invariant start <= i <= |s|
      invariant Scanned(s, i, Double, words, cur, true, run)
    {
      ghost var r := Read(Double, s[i..]);
      ScanWord(s, i, Double, words, cur, true, run);
      run := run + [r.event];
      var q := s[i];
      i := i + 1;
      if q == '\\' {
        if i < |s| && IsDoubleEscape(s[i]) {
          cur := cur + [s[i]];
          i := i + 1;
        } else {
          cur := cur + ['\\'];
        }
      } else if q == '"' {
        return;
      } else {
        cur := cur + [q];
      }
    }
    ScanUnclosed(s, Double, words, cur, true, run);
  }

  method AnsiQuoted(s: string, start: nat, ghost words: seq<string>, cur0: string, ghost run0: seq<Event>)
    returns (i: nat, cur: string, ghost run: seq<Event>)
    requires start <= |s| && Scanned(s, start, Ansi, words, cur0, true, run0)
    ensures start <= i <= |s| && Scanned(s, i, Plain, words, cur, true, run)
  {
    hide Scanned;
    i, cur, run := start, cur0, run0;
    while i < |s|
      invariant start <= i <= |s|
      invariant Scanned(s, i, Ansi, words, cur, true, run)
    {
      ghost var r := Read(Ansi, s[i..]);
      ScanWord(s, i, Ansi, words, cur, true, run);
      run := run + [r.event];
      var q := s[i];
      i := i + 1;
      if q == '\\' {
        if i < |s| {
          cur := cur + [s[i]];
          i := i + 1;
        }
      } else if q == '\'' {
        return;
      } else {
        cur := cur + [q];
      }
    }
    ScanUnclosed(s, Ansi, words, cur, true, run);
  }

  /** The reading outside quotes, by position. */
  lemma PlainUnit(s: string, i: nat)
    requires i < |s|
    ensures var c, next := s[i], if i + 1 < |s| then s[i + 1] else ' ';
            Read(Plain, s[i..]) ==
            if IsWhitespace(c) then Reading(Gap, Plain, 1)
            else if c == '\'' then Reading(Mark, Single, 1)
            else if c == '"' then Reading(Mark, Double, 1)
            else if c == '$' && next == '\'' then Reading(Mark, Ansi, 2)
            else if c == '$' && next == '(' then Reading(Active, Plain, 2)
            else if c == '\\' then if i + 1 < |s| then Reading(Take(next), Plain, 2) else Reading(Gap, Plain, 1)
            else if IsOperator(c) then Reading(Active, Plain, 1)
            else Reading(Take(c), Plain, 1)
  {}

  /** `parse_simple_command_argv`. */
  method ParseSimpleCommandArgv(segment: string) returns (argv: Option<seq<string>>)
    ensures argv == Argv(segment)
  {
    var words: seq<string> := [];
    var cur: string := [];
    var started := false;
    var i := 0;
    ghost var run: seq<Event> := [];
    ScanStart(segment);
    hide Scanned;
    while i < |segment|
      invariant 0 <= i <= |segment|
      invariant Scanned(segment, i, Plain, words, cur, started, run)
    {
      var c := segment[i];
      ghost var r := Read(Plain, segment[i..]);
      PlainUnit(segment, i);
      hide Read;
      hide IsWhitespace;
      hide IsOperator;
      if r.event.Mark? || r.event.Take? {
        ScanWord(segment, i, Plain, words, cur, started, run);
        run := run + [r.event];
      } else if IsWhitespace(c) {
        ScanGap(segment, i, words, cur, started, run);
        run := [];
      } else if c == '\\' {
        ScanTrailingBackslash(segment, i, words, cur, started, run);
      } else {
        ScanActive(segment, i, words, cur, started, run);
      }
      if IsWhitespace(c) {
        if started {
          words := words + [cur];
          cur := [];
          started := false;
        }
        i := i + 1;
      } else if c == '\'' {
        started := true;
        i := i + 1;
        i, cur, run := SingleQuoted(segment, i, words, cur, run);
      } else if c == '"' {
        started := true;
        i := i + 1;
        i, cur, run := DoubleQuoted(segment, i, words, cur, run);
      } else if c == '$' && i + 1 < |segment| && segment[i + 1] == '\'' {
        started := true;
        i := i + 2;
        i, cur, run := AnsiQuoted(segment, i, words, cur, run);
      } else if c == '$' && i + 1 < |segment| && segment[i + 1] == '(' {
        return None;
      } else if c == '\\' {
        i := i + 1;
        if i < |segment| {
          started := true;
          cur := cur + [segment[i]];
          i := i + 1;
        }
      } else if IsOperator(c) {
        return None;
      } else {
        started := true;
        cur := cur + [c];
        i := i + 1;
      }
    }
    ScanEnd(segment, words, cur, started, run);
    if started {
      words := words + [cur];
    }
    return if words == [] then None else Some(words);
  }

  // ------------------------------------------------------ printing and back

  /** The ways to write a piece of a word so that the shell reads it back as data. */
  datatype Style = Bare | Escaped | SingleQuotes | DoubleQuotes | AnsiQuotes

  datatype Piece = Piece(style: Style, text: string) {
    predicate Valid() {
      // Unquoted text has to contain something, and bare text nothing the shell reacts to.
      && (style.Bare? || style.Escaped? ==> text != [])
      && (style.Bare? ==> forall c :: c in text ==>
           !IsWhitespace(c) && !IsOperator(c) && c != '\'' && c != '"' && c != '$' && c != '\\')
    }

    function Print(): string {
      match style
      case Bare => text
      case Escaped => Spell(style, text)
      case SingleQuotes => "'" + Spell(style, text) + "'"
      case DoubleQuotes => "\"" + Spell(style, text) + "\""
      case AnsiQuotes => "$'" + Spell(style, text) + "'"
    }
  }

  /** One character inside a piece: `'\''` for a single quote, the four double-quote escapes,
      `\\` and `\'` in `$'...'`, and a backslash before everything outside quotes. */
  function SpellChar(style: Style, c: char): string {
    match style
    case Bare => [c]
    case Escaped => ['\\', c]
    case SingleQuotes => if c == '\'' then "'\\''" else [c]
    case DoubleQuotes => if IsDoubleEscape(c) then ['\\', c] else [c]
    case AnsiQuotes => if c == '\\' || c == '\'' then ['\\', c] else [c]
  }

  function Spell(style: Style, w: string): string {
    if w == [] then [] else SpellChar(style, w[0]) + Spell(style, w[1..])
  }

  /** The mode the characters of a piece are read in. */
  function Inside(style: Style): Mode {
    match style
    case Bare => Plain
    case Escaped => Plain
    case SingleQuotes => Single
    case DoubleQuotes => Double
    case AnsiQuotes => Ansi
  }

  /** `ev` is data only and spells `w`. */
  predicate DataEvents(ev: seq<Event>, w: string) {
    Gap !in ev && Active !in ev && Text(ev) == w
  }

  lemma DataConcat(a: seq<Event>, v: string, b: seq<Event>, w: string)
    requires DataEvents(a, v) && DataEvents(b, w)
    ensures DataEvents(a + b, v + w)
  {
    TextConcat(a, b);
  }

  lemma UnitText(e: Event)
    ensures Text([e]) == if e.Take? then [e.c] else []
  {
    assert [e][1..] == [];
  }

  /** `ev` is what reading `s` from mode `m` yields before `rest` is read from mode `m'`. */
  ghost predicate Reads(m: Mode, s: string, ev: seq<Event>, m': Mode, rest: string) {
    Events(m, s) == ev + Events(m', rest)
  }

  lemma ReadsUnit(m: Mode, s: string, r: Reading, rest: string)
    requires s != [] && Read(m, s) == r && s[r.width..] == rest
    ensures Reads(m, s, [r.event], r.mode, rest)
  {}

  lemma ReadsNothing(m: Mode, s: string)
    ensures Reads(m, s, [], m, s)
  {
    assert [] + Events(m, s) == Events(m, s);
  }

  lemma ReadsOn(m: Mode, s: string, a: seq<Event>, m1: Mode, s1: string, b: seq<Event>, m2: Mode, s2: string)
    requires Reads(m, s, a, m1, s1) && Reads(m1, s1, b, m2, s2)
    ensures Reads(m, s, a + b, m2, s2)
  {
    Associative(a, b, Events(m2, s2));
  }

  lemma SpelledChar(style: Style, c: char, rest: string) returns (ev: seq<Event>)
    requires style.Bare? ==> Piece(Bare, [c]).Valid()
    ensures Reads(Inside(style), SpellChar(style, c) + rest, ev, Inside(style), rest)
    ensures DataEvents(ev, [c]) && ev != []
  {
    hide Reads;
    hide Events;
    UnitText(Take(c));
    var m, s := Inside(style), SpellChar(style, c) + rest;
    if style == SingleQuotes && c == '\'' {
      var s1, s2 := "\\''" + rest, "'" + rest;
      ReadsUnit(Single, s, Reading(Mark, Plain, 1), s1);
      ReadsUnit(Plain, s1, Reading(Take('\''), Plain, 2), s2);
      ReadsUnit(Plain, s2, Reading(Mark, Single, 1), rest);
      ReadsOn(Single, s, [Mark], Plain, s1, [Take(c)], Plain, s2);
      ReadsOn(Single, s, [Mark] + [Take(c)], Plain, s2, [Mark], Single, rest);
      ev := [Mark] + [Take(c)] + [Mark];
      assert [] + [c] + [] == [c];
      UnitText(Mark);
      DataConcat([Mark], [], [Take(c)], [c]);
      DataConcat([Mark] + [Take(c)], [] + [c], [Mark], []);
    } else {
      ev := [Take(c)];
      assert c in [c];
      ReadsUnit(m, s, Reading(Take(c), m, |SpellChar(style, c)|), rest);
    }
  }

  lemma BareParts(w: string)
    requires w != [] && Piece(Bare, w).Valid()
    ensures Piece(Bare, [w[0]]).Valid() && (w[1..] != [] ==> Piece(Bare, w[1..]).Valid())
  {
    assert w[0] in w && forall c :: c in w[1..] ==> c in w;
  }

  lemma NoData()
    ensures DataEvents([], [])
  {}

  lemma {:induction false} SpelledText(style: Style, w: string, rest: string) returns (ev: seq<Event>)
    requires style.Bare? && w != [] ==> Piece(Bare, w).Valid()
    ensures Reads(Inside(style), Spell(style, w) + rest, ev, Inside(style), rest)
    ensures DataEvents(ev, w) && (w != [] ==> ev != [])
    decreases |w|
  {
    hide Reads;
    hide SpellChar;
    hide Piece.Valid;
    hide DataEvents;
    var m := Inside(style);
    if w == [] {
      ev := [];
      Nothing(rest);
      ReadsNothing(m, rest);
      NoData();
    } else {
      var tail := Spell(style, w[1..]) + rest;
      if style.Bare? { BareParts(w); }
      var head := SpelledChar(style, w[0], tail);
      var more := SpelledText(style, w[1..], rest);
      ev := head + more;
      Associative(SpellChar(style, w[0]), Spell(style, w[1..]), rest);
      ReadsOn(m, SpellChar(style, w[0]) + tail, head, m, tail, more, m, rest);
      DataConcat(head, [w[0]], more, w[1..]);
      assert [w[0]] + w[1..] == w;
    }
  }

  lemma {:induction false} BareSpell(w: string)
    ensures Spell(Bare, w) == w
  {
    if w != [] { BareSpell(w[1..]); }
  }

  /** The text that opens and closes a quoted style. */
  lemma QuotedPiece(p: Piece, open: string, close: string, rest: string) returns (ev: seq<Event>)
    requires p.style.SingleQuotes? || p.style.DoubleQuotes? || p.style.AnsiQuotes?
    requires p.Print() == open + Spell(p.style, p.text) + close
    requires open == (if p.style.AnsiQuotes? then "$'" else close)
    requires close == (if p.style.DoubleQuotes? then "\"" else "'")
    ensures Reads(Plain, p.Print() + rest, ev, Plain, rest)
    ensures DataEvents(ev, p.text) && ev != []
  {
    hide Reads;
    hide Spell;
    var m, body := Inside(p.style), Spell(p.style, p.text);
    var s, s1, s2 := p.Print() + rest, body + (close + rest), close + rest;
    ReadsUnit(Plain, s, Reading(Mark, m, |open|), s1);
    var inner := SpelledText(p.style, p.text, s2);
    ReadsUnit(m, s2, Reading(Mark, Plain, 1), rest);
    ReadsOn(Plain, s, [Mark], m, s1, inner, m, s2);
    ReadsOn(Plain, s, [Mark] + inner, m, s2, [Mark], Plain, rest);
    ev := [Mark] + inner + [Mark];
    assert [Mark][1..] == [] && DataEvents([Mark], []);
    DataConcat([Mark], [], inner, p.text);
    DataConcat([Mark] + inner, [] + p.text, [Mark], []);
    assert [] + p.text + [] == p.text;
  }

  lemma PrintedPiece(p: Piece, rest: string) returns (ev: seq<Event>)
    requires p.Valid()
    ensures Reads(Plain, p.Print() + rest, ev, Plain, rest)
    ensures DataEvents(ev, p.text) && ev != []
  {
    hide Reads;
    match p.style
    case Bare =>
      BareSpell(p.text);
      ev := SpelledText(Bare, p.text, rest);
    case Escaped => ev := SpelledText(Escaped, p.text, rest);
    case SingleQuotes => ev := QuotedPiece(p, "'", "'", rest);
    case DoubleQuotes => ev := QuotedPiece(p, "\"", "\"", rest);
    case AnsiQuotes => ev := QuotedPiece(p, "$'", "'", rest);
  }

  function PrintWord(w: seq<Piece>): string {
    if w == [] then [] else w[0].Print() + PrintWord(w[1..])
  }

  function WordText(w: seq<Piece>): string {
    if w == [] then [] else w[0].text + WordText(w[1..])
  }

  predicate PrintableWord(w: seq<Piece>) {
    w != [] && forall k :: 0 <= k < |w| ==> w[k].Valid()
  }

  lemma {:induction false} PrintedWord(w: seq<Piece>, rest: string) returns (ev: seq<Event>)
    requires forall k :: 0 <= k < |w| ==> w[k].Valid()
    ensures Reads(Plain, PrintWord(w) + rest, ev, Plain, rest)
    ensures DataEvents(ev, WordText(w)) && (w != [] ==> ev != [])
    decreases |w|
  {
    hide Reads;
    hide Piece.Print;
    if w == [] {
      ev := [];
      assert PrintWord(w) + rest == rest;
      ReadsNothing(Plain, rest);
    } else {
      var tail := PrintWord(w[1..]) + rest;
      var head := PrintedPiece(w[0], tail);
      var more := PrintedWord(w[1..], rest);
      ev := head + more;
      Associative(w[0].Print(), PrintWord(w[1..]), rest);
      ReadsOn(Plain, w[0].Print() + tail, head, Plain, tail, more, Plain, rest);
      DataConcat(head, w[0].text, more, WordText(w[1..]));
    }
  }

  /** Words joined by single spaces. */
  function PrintWords(ws: seq<seq<Piece>>): string {
    if ws == [] then []
    else if |ws| == 1 then PrintWord(ws[0])
    else PrintWord(ws[0]) + (" " + PrintWords(ws[1..]))
  }

  function WordTexts(ws: seq<seq<Piece>>): seq<string> {
    if ws == [] then [] else [WordText(ws[0])] + WordTexts(ws[1..])
  }

  lemma {:induction false} PrintedWords(ws: seq<seq<Piece>>)
    requires forall k :: 0 <= k < |ws| ==> PrintableWord(ws[k])
    ensures Active !in Events(Plain, PrintWords(ws))
    ensures Words(Events(Plain, PrintWords(ws))) == WordTexts(ws)
    decreases |ws|
  {
    if ws != [] {
      var rest := if |ws| == 1 then [] else " " + PrintWords(ws[1..]);
      assert PrintWord(ws[0]) + [] == PrintWord(ws[0]);
      var ev := PrintedWord(ws[0], rest);
      if |ws| == 1 {
        assert ws[1..] == [];
      } else {
        PrintedWords(ws[1..]);
        ReadsUnit(Plain, rest, Reading(Gap, Plain, 1), PrintWords(ws[1..]));
      }
      WordsClose(ev, Events(Plain, rest));
    }
  }

  /** Quoting and tokenizing undo each other, for every nonempty list of words written in
      any mixture of styles. */
  lemma QuotingRoundTrip(ws: seq<seq<Piece>>)
    requires ws != [] && forall k :: 0 <= k < |ws| ==> PrintableWord(ws[k])
    ensures Argv(PrintWords(ws)) == Some(WordTexts(ws))
  {
    PrintedWords(ws);
  }

  /** Every list of strings, empty ones included, can be written in any one of the quoted styles. */
  lemma QuotedListsRoundTrip(words: seq<string>, style: Style) returns (ws: seq<seq<Piece>>)
    requires words != [] && (style.SingleQuotes? || style.DoubleQuotes? || style.AnsiQuotes?)
    ensures ws == seq(|words|, i requires 0 <= i < |words| => [Piece(style, words[i])])
    ensures Argv(PrintWords(ws)) == Some(words)
  {
    ws := seq(|words|, i requires 0 <= i < |words| => [Piece(style, words[i])]);
    QuotingRoundTrip(ws);
    QuotedTexts(words, style);
  }

  lemma {:induction false} QuotedTexts(words: seq<string>, style: Style)
    ensures WordTexts(seq(|words|, i requires 0 <= i < |words| => [Piece(style, words[i])])) == words
    decreases |words|
  {
    if words != [] {
      var ws := seq(|words|, i requires 0 <= i < |words| => [Piece(style, words[i])]);
      var tail := words[1..];
      assert ws[1..] == seq(|tail|, i requires 0 <= i < |tail| => [Piece(style, tail[i])]);
      QuotedTexts(tail, style);
      assert ws[0][1..] == [] && WordText(ws[0]) == words[0] + [] && words[0] + [] == words[0];
      assert words == [words[0]] + tail;
    }
  }

  // ---------------------------------------------------- the command-prefix guard

  /** A character, or the two that open a command substitution, at which the guard gives up. */
  predicate ChainAt(tail: string, i: nat)
    requires i < |tail|
  {
    || tail[i] == '\0' || tail[i] == '\n' || tail[i] == '\r'
    || tail[i] == ';' || tail[i] == '&' || tail[i] == '|' || tail[i] == '`' || tail[i] == '<' || tail[i] == '>'
    || (tail[i] == '$' && i + 1 < |tail| && tail[i + 1] == '(')
  }

  ghost predicate Chains(tail: string) {
    exists i :: 0 <= i < |tail| && ChainAt(tail, i)
  }

  /** `tail_has_shell_chain_metachars`. */
  method TailHasShellChainMetachars(tail: string) returns (r: bool)
    ensures r <==> Chains(tail)
  {
    if '\0' in tail {
      var k :| 0 <= k < |tail| && tail[k] == '\0';
      assert ChainAt(tail, k);
      return true;
    }
    if '\n' in tail || '\r' in tail {
      var k :| 0 <= k < |tail| && (tail[k] == '\n' || tail[k] == '\r');
      assert ChainAt(tail, k);
      return true;
    }
    var i := 0;
    while i < |tail|
      invariant 0 <= i <= |tail|
      invariant forall k :: 0 <= k < i ==> !ChainAt(tail, k)
    {
      var b := tail[i];
      if b == ';' || b == '&' || b == '|' || b == '`' {
        assert ChainAt(tail, i);
        return true;
      } else if b == '$' && i + 1 < |tail| && tail[i + 1] == '(' {
        assert ChainAt(tail, i);
        return true;
      } else if (b == '<' || b == '>') && i + 1 < |tail| && tail[i + 1] == '(' {
        assert ChainAt(tail, i);
        return true;
      } else if b == '<' || b == '>' {
        assert ChainAt(tail, i);
        return true;
      }
      i := i + 1;
    }
    return false;
  }

  /** `command_prefix_safely_matches`. */
  ghost predicate PrefixSafelyMatches(command: string, prefix: string) {
    && prefix <= command
    && var tail := command[|prefix|..];
       && (tail != [] ==> IsAsciiWhitespace(tail[0]))
       && !Chains(tail)
  }

  method CommandPrefixSafelyMatches(command: string, prefix: string) returns (r: bool)
    ensures r <==> PrefixSafelyMatches(command, prefix)
  {
    if !(prefix <= command) {
      return false;
    }
    var tail := command[|prefix|..];
    if tail != [] && !IsAsciiWhitespace(tail[0]) {
      return false;
    }
    var chained := TailHasShellChainMetachars(tail);
    return !chained;
  }

  /** The guard with its characters written out: what follows the prefix starts with white space and has
      none of the characters, and nowhere the two, with which a shell goes on to something else. */
  lemma GuardIsExact(command: string, prefix: string)
    ensures PrefixSafelyMatches(command, prefix) <==>
              exists tail ::
                && command == prefix + tail && (tail != [] ==> tail[0] in {' ', '\t', '\n', '\U{000C}', '\r'})
                && forall i :: 0 <= i < |tail| ==>
                     tail[i] !in {'\0', '\n', '\r', ';', '&', '|', '`', '<', '>'} && !("$(" <= tail[i..])
  {
    if prefix <= command {
      var tail := command[|prefix|..];
      assert command == prefix + tail;
      ChainsExact(tail);
    }
    forall tail | command == prefix + tail ensures prefix <= command && tail == command[|prefix|..] {}
    hide Chains;
  }

  lemma ChainsExact(tail: string)
    ensures !Chains(tail) <==>
              forall i :: 0 <= i < |tail| ==>
                tail[i] !in {'\0', '\n', '\r', ';', '&', '|', '`', '<', '>'} && !("$(" <= tail[i..])
  {
    forall i | 0 <= i < |tail|
      ensures ChainAt(tail, i) <==>
                tail[i] in {'\0', '\n', '\r', ';', '&', '|', '`', '<', '>'} || "$(" <= tail[i..]
    {
      if tail[i] == '$' && i + 1 < |tail| && tail[i + 1] == '(' {
        assert tail[i..][0] == '$' && tail[i..][1] == '(';
      }
      if "$(" <= tail[i..] {
        assert tail[i] == "$("[0] && tail[i + 1] == "$("[1];
      }
    }
  }

  /** Reading `s` from mode `m` ends outside quotes, with no escape left open. */
  predicate Closed(m: Mode, s: string)
    decreases |s|
  {
    if s == [] then m == Plain
    else !(|s| == 1 && s[0] == '\\') && var r := Read(m, s); Closed(r.mode, s[r.width..])
  }

  lemma ReadLooksNoFurther(m: Mode, a: string, b: string)
    requires a != [] && !(|a| == 1 && a[0] == '\\')
    requires b == [] || (b[0] != '\'' && b[0] != '(')
    ensures Read(m, a + b) == Read(m, a)
  {
    var s := a + b;
    assert s[0] == a[0];
    if |a| > 1 {
      assert s[1] == a[1];
    } else {
      assert a == [a[0]];
      assert |s| > 1 ==> s[1] == b[0];
    }
  }

  /** What follows a closed text is read afresh, unless it completes a final `$`. */
  lemma {:induction false} ReadAfterClosed(m: Mode, a: string, b: string)
    requires Closed(m, a)
    requires b == [] || (b[0] != '\'' && b[0] != '(')
    ensures Reads(m, a + b, Events(m, a), Plain, b)
    decreases |a|
  {
    if a == [] {
      Nothing(b);
      ReadsNothing(Plain, b);
    } else {
      hide Read;
      hide Reads;
      var r := Read(m, a);
      ReadLooksNoFurther(m, a, b);
      ReadAfterClosed(r.mode, a[r.width..], b);
      DropConcat(a, b, r.width);
      ReadsUnit(m, a + b, r, a[r.width..] + b);
      ReadsOn(m, a + b, [r.event], r.mode, a[r.width..] + b, Events(r.mode, a[r.width..]), Plain, b);
    }
  }

  // ------------------------------------------------------ when there is an argv

  /** At position `i` of `s` stands one of the shell's operators, or the start of a substitution. */
  predicate OperatorAt(s: string, i: nat)
    requires i < |s|
  {
    || s[i] in {'<', '>', ';', '|', '&', '`', '(', ')'}
    || (s[i] == '$' && i + 1 < |s| && s[i + 1] == '(')
  }

  /** Position `i` is outside quotes, and no backslash stands before it that escapes it. */
  predicate Unquoted(s: string, i: nat)
    requires i < |s|
  {
    Closed(Plain, s[..i])
  }

  /** An unquoted operator, wherever it stands. */
  ghost predicate HasOperator(s: string) {
    exists i :: 0 <= i < |s| && Unquoted(s, i) && OperatorAt(s, i)
  }

  /** Something other than white space and a backslash at the very end. */
  ghost predicate HasWord(s: string) {
    exists i :: 0 <= i < |s| && !IsWhitespace(s[i]) && !(s[i] == '\\' && i + 1 == |s|)
  }

  /** A unit that does not end with what it looks at is read alike with anything behind it. */
  lemma ReadCut(m: Mode, s: string, n: nat)
    requires s != [] && Read(m, s).width <= n <= |s|
    requires n > 1 || |s| == 1 || (s[0] != '\\' && Read(m, s).width == 1)
    ensures Read(m, s[..n]) == Read(m, s)
  {
    hide IsWhitespace;
    hide IsOperator;
    hide IsDoubleEscape;
    assert s[..n][0] == s[0] && (n > 1 ==> s[..n][1] == s[1]);
  }

  lemma PlainAfterBackslash(m: Mode, s: string)
    requires s != [] && s[0] == '\\' && |s| > 1 && Read(m, s).mode == Plain
    ensures Read(m, s).width == 2
  {}

  /** The text up to an unquoted position of the rest is closed. */
  lemma ClosedCons(m: Mode, s: string, i: nat)
    requires s != [] && Read(m, s).width + i < |s|
    requires var r := Read(m, s); Closed(r.mode, s[r.width..][..i])
    ensures Closed(m, s[..Read(m, s).width + i])
  {
    hide Read;
    var r := Read(m, s);
    var n := r.width + i;
    if i == 0 {
      assert s[r.width..][..0] == [];
      if s[0] == '\\' { PlainAfterBackslash(m, s); }
    }
    ReadCut(m, s, n);
    assert s[..n][r.width..] == s[r.width..][..i];
  }

  lemma ActiveUnit(m: Mode, s: string)
    requires s != [] && Read(m, s).event == Active
    ensures m == Plain && OperatorAt(s, 0)
  {}

  /** An active operator stands at an unquoted position. */
  lemma {:induction false} ActiveStands(m: Mode, s: string) returns (i: nat)
    requires Active in Events(m, s)
    ensures i < |s| && Closed(m, s[..i]) && OperatorAt(s, i)
    decreases |s|
  {
    hide Read;
    hide OperatorAt;
    var r := Read(m, s);
    if r.event == Active {
      ActiveUnit(m, s);
      i := 0;
      assert s[..0] == [];
    } else {
      var rest := s[r.width..];
      assert Events(m, s)[1..] == Events(r.mode, rest);
      var j := ActiveStands(r.mode, rest);
      i := r.width + j;
      ClosedCons(m, s, j);
      OperatorShifts(s, r.width, j);
    }
  }

  lemma OperatorShifts(s: string, n: nat, j: nat)
    requires n <= |s| && j < |s[n..]|
    ensures OperatorAt(s[n..], j) <==> OperatorAt(s, n + j)
  {}

  lemma OperatorUnit(s: string)
    requires s != [] && OperatorAt(s, 0)
    ensures Read(Plain, s).event == Active
  {}

  lemma ReadPast(m: Mode, a: string, b: string)
    requires a != [] && !(|a| == 1 && a[0] == '\\') && b != [] && b[0] != '\''
    requires !(m == Plain && a == "$" && b[0] == '(')
    ensures Read(m, a + b) == Read(m, a)
  {
    hide IsWhitespace;
    hide IsOperator;
    var s := a + b;
    assert s[0] == a[0] && s[1] == if |a| > 1 then a[1] else b[0];
  }

  /** An operator after a closed text is active. */
  lemma {:induction false} OperatorActs(m: Mode, a: string, b: string)
    requires Closed(m, a) && b != [] && OperatorAt(b, 0)
    ensures Active in Events(m, a + b)
    decreases |a|
  {
    hide Read;
    if a == [] {
      assert a + b == b;
      OperatorUnit(b);
    } else if m == Plain && a == "$" && b[0] == '(' {
      assert (a + b)[0] == '$' && (a + b)[1] == '(';
      OperatorUnit(a + b);
    } else {
      var r := Read(m, a);
      ReadPast(m, a, b);
      OperatorActs(r.mode, a[r.width..], b);
      DropConcat(a, b, r.width);
    }
  }

  /** No words: nothing but white space, and perhaps a last backslash. */
  lemma {:induction false} NoWords(s: string)
    ensures Words(Events(Plain, s)) == [] <==> !HasWord(s)
    decreases |s|
  {
    hide Words;
    hide IsWhitespace;
    NoText();
    if s != [] {
      hide IsOperator;
      var r := Read(Plain, s);
      var rest := Events(r.mode, s[r.width..]);
      WordsOfHead(r.event, rest);
      if r.event == Gap {
        assert r.width == 1 && r.mode == Plain;
        NoWords(s[1..]);
        WordShifts(s);
      } else {
        assert !IsWhitespace(s[0]) && !(s[0] == '\\' && 0 + 1 == |s|);
      }
    }
  }

  lemma WordsOfHead(e: Event, rest: seq<Event>)
    ensures Words([e] + rest) == [] <==> e == Gap && Words(rest) == []
  {
    assert ([e] + rest)[0] == e && ([e] + rest)[1..] == rest;
  }

  lemma WordShifts(s: string)
    requires s != [] && (IsWhitespace(s[0]) || s == "\\")
    ensures HasWord(s) <==> HasWord(s[1..])
  {
    hide IsWhitespace;
    var t := s[1..];
    if HasWord(s) {
      var i :| 0 <= i < |s| && !IsWhitespace(s[i]) && !(s[i] == '\\' && i + 1 == |s|);
      assert t[i - 1] == s[i];
    }
    if HasWord(t) {
      var i :| 0 <= i < |t| && !IsWhitespace(t[i]) && !(t[i] == '\\' && i + 1 == |t|);
      assert s[i + 1] == t[i];
    }
  }

  /** There is an argv if and only if there is a word, and no operator outside quotes and escapes. */
  lemma ArgvExists(s: string)
    ensures Argv(s).Some? <==> HasWord(s) && !HasOperator(s)
  {
    hide Events;
    hide Words;
    hide HasWord;
    hide OperatorAt;
    NoWords(s);
    if Active in Events(Plain, s) {
      var i := ActiveStands(Plain, s);
      assert Unquoted(s, i);
    }
    if HasOperator(s) {
      var i :| 0 <= i < |s| && Unquoted(s, i) && OperatorAt(s, i);
      OperatorShifts(s, i, 0);
      OperatorActs(Plain, s[..i], s[i..]);
      assert s[..i] + s[i..] == s;
    }
  }

  /** Each operator after a closed text refuses the whole command, whatever follows. */
  lemma OperatorRefuses(a: string, c: char, b: string)
    requires Closed(Plain, a)
    ensures c in {'<', '>', ';', '|', '&', '`', '(', ')'} ==> Argv(a + ([c] + b)) == None
    ensures Argv(a + ("$(" + b)) == None
  {
    hide Closed;
    hide Events;
    if c in {'<', '>', ';', '|', '&', '`', '(', ')'} {
      assert ([c] + b)[0] == c;
      OperatorActs(Plain, a, [c] + b);
    }
    assert ("$(" + b)[0] == '$' && ("$(" + b)[1] == '(';
    OperatorActs(Plain, a, "$(" + b);
  }

  /** The guard composes with the tokenizer. If the prefix is itself a simple command that
      ends outside quotes and escapes, the whole command is a simple command exactly when the
      tail has no parenthesis outside quotes and escapes, and then its argv starts with the
      prefix's argv. */
  lemma PrefixGuardComposes(command: string, prefix: string)
    requires PrefixSafelyMatches(command, prefix)
    requires Argv(prefix).Some? && Closed(Plain, prefix)
    ensures var tail := command[|prefix|..];
            && (Argv(command).Some? <==>
                  forall i :: 0 <= i < |tail| && Unquoted(tail, i) ==> tail[i] != '(' && tail[i] != ')')
            && ('(' !in tail && ')' !in tail ==> Argv(command).Some?)
            && (Argv(command).Some? ==> Argv(command).value == Argv(prefix).value + Words(Events(Plain, tail)))
  {
    hide Words;
    hide Chains;
    var tail := command[|prefix|..];
    assert command == prefix + tail;
    ReadAfterClosed(Plain, prefix, tail);
    var a, b := Events(Plain, prefix), Events(Plain, tail);
    assert tail != [] ==> b[0] == Gap;
    WordsConcat(a, b);
    TailParenthesis(tail);
  }

  /** In a tail that the guard accepts, the only operators are parentheses. */
  lemma TailParenthesis(tail: string)
    requires !Chains(tail)
    ensures Active !in Events(Plain, tail) <==>
              forall i :: 0 <= i < |tail| && Unquoted(tail, i) ==> tail[i] != '(' && tail[i] != ')'
  {
    hide Events;
    hide Unquoted;
    if Active in Events(Plain, tail) {
      var i := ActiveStands(Plain, tail);
      assert Unquoted(tail, i) by { IsUnquoted(tail, i); }
      assert !ChainAt(tail, i);
    }
    forall i | 0 <= i < |tail| && Unquoted(tail, i) && (tail[i] == '(' || tail[i] == ')')
      ensures Active in Events(Plain, tail)
    {
      IsUnquoted(tail, i);
      OperatorShifts(tail, i, 0);
      OperatorActs(Plain, tail[..i], tail[i..]);
      assert tail[..i] + tail[i..] == tail;
    }
  }

  lemma IsUnquoted(s: string, i: nat)
    requires i < |s|
    ensures Unquoted(s, i) <==> Closed(Plain, s[..i])
  {}

  lemma OneWord(ev: seq<Event>, w: string)
    requires DataEvents(ev, w) && ev != []
    ensures Words(ev) == [w]
  {
    WordsClose(ev, []);
    assert ev + [] == ev;
  }

  /** A parenthesis outside quotes passes the guard but is no simple command. */
  lemma GuardAcceptsParenthesis()
    ensures PrefixSafelyMatches("a (", "a") && Argv("a") == Some(["a"]) && Closed(Plain, "a") && Argv("a (") == None
  {
    var t := " (";
    assert "a"[1..] == [] && "a ("[1..] == t && t[1..] == "(" && "("[1..] == [];
    UnitText(Take('a'));
    OneWord([Take('a')], "a");
    assert Events(Plain, "a") == [Take('a')];
    assert Events(Plain, "(") == [Active];
    assert Events(Plain, t) == [Gap, Active];
    assert Events(Plain, "a (") == [Take('a'), Gap, Active];
    assert !Chains(t);
  }

  /** What a backslash makes of one character: outside quotes and in `$'...'` the character; in double
      quotes only of the four that the shell gives a meaning there; in single quotes nothing. */
  lemma BackslashesExact(c: char)
    ensures Argv("\\" + [c]) == Some([[c]])
    ensures Argv("$'\\" + ([c] + "'")) == Some([[c]])
    ensures Argv("\"\\" + ([c] + "\"")) == Some([if c in {'"', '\\', '$', '`'} then [c] else "\\" + [c]])
    ensures c != '\'' ==> Argv("'\\" + ([c] + "'")) == Some(["\\" + [c]])
  {
    UnitText(Take(c));
    PlainBackslash(c);
    AnsiBackslash(c);
    DoubleBackslash(c);
    if c != '\'' { SingleQuotedWord("\\" + [c]); assert "'" + ("\\" + [c]) + "'" == "'\\" + ([c] + "'"); }
  }

  lemma PlainBackslash(c: char)
    ensures Argv("\\" + [c]) == Some([[c]])
  {
    var s := "\\" + [c];
    UnitText(Take(c));
    assert s[2..] == [];
    assert Events(Plain, s) == [Take(c)];
    OneWord([Take(c)], [c]);
  }

  lemma AnsiBackslash(c: char)
    ensures Argv("$'\\" + ([c] + "'")) == Some([[c]])
  {
    var s := "$'\\" + ([c] + "'");
    assert s[2..] == "\\" + ([c] + "'") && s[2..][2..] == "'" && "'"[1..] == [];
    assert Events(Ansi, "'") == [Mark];
    assert Events(Ansi, s[2..]) == [Take(c), Mark];
    assert Events(Plain, s) == [Mark, Take(c), Mark];
    MarkedWord([Take(c)], [c]);
  }

  lemma DoubleBackslash(c: char)
    ensures Argv("\"\\" + ([c] + "\"")) == Some([if c in {'"', '\\', '$', '`'} then [c] else "\\" + [c]])
  {
    var s := "\"\\" + ([c] + "\"");
    if c in {'"', '\\', '$', '`'} { EscapedInDouble(c); } else { KeptInDouble(c); }
    assert s[0] == '"' && s[1..] == "\\" + ([c] + "\"");
    MarkOpens(s);
    hide Events;
    UnitText(Take(c));
    UnitText(Take('\\'));
    assert [Take('\\'), Take(c)] == [Take('\\')] + [Take(c)];
    TextConcat([Take('\\')], [Take(c)]);
    if c in {'"', '\\', '$', '`'} {
      MarkedWord([Take(c)], [c]);
    } else {
      MarkedWord([Take('\\'), Take(c)], "\\" + [c]);
    }
  }

  lemma MarkOpens(s: string)
    requires s != [] && s[0] == '"'
    ensures Events(Plain, s) == [Mark] + Events(Double, s[1..])
  {}

  lemma LastMark()
    ensures Events(Double, "\"") == [Mark]
  {
    assert "\""[1..] == [];
  }

  lemma EscapedInDouble(c: char)
    requires c in {'"', '\\', '$', '`'}
    ensures Events(Double, "\\" + ([c] + "\"")) == [Take(c)] + [Mark]
  {
    var s := "\\" + ([c] + "\"");
    LastMark();
    assert s[0] == '\\' && s[1] == c && s[2..] == "\"";
  }

  lemma KeptInDouble(c: char)
    requires c !in {'"', '\\', '$', '`'}
    ensures Events(Double, "\\" + ([c] + "\"")) == [Take('\\'), Take(c)] + [Mark]
  {
    var s, t := "\\" + ([c] + "\""), [c] + "\"";
    LastMark();
    assert t[0] == c && t[1..] == "\"";
    assert Events(Double, t) == [Take(c)] + [Mark];
    assert s[0] == '\\' && s[1] == c && s[1..] == t;
  }

  /** Data between two quote marks. */
  lemma MarkedWord(ev: seq<Event>, w: string)
    requires Text(ev) == w && forall k :: 0 <= k < |ev| ==> ev[k].Take?
    ensures Words([Mark] + (ev + [Mark])) == [w]
  {
    TextConcat(ev, [Mark]);
    var all := [Mark] + (ev + [Mark]);
    TextConcat([Mark], ev + [Mark]);
    UnitText(Mark);
    assert [] + (w + []) == w;
    WordsClose(all, []);
    assert all + [] == all;
  }

  /** A single-quoted text without a quote in it is one word. */
  lemma SingleQuotedWord(w: string)
    requires '\'' !in w
    ensures Argv("'" + w + "'") == Some([w])
  {
    var p := Piece(SingleQuotes, w);
    SpelledPlain(w);
    var ev := PrintedPiece(p, []);
    assert p.Print() + [] == p.Print() && ev + [] == ev;
    OneWord(ev, w);
  }

  /** So is one whose closing quote is missing. */
  lemma UnclosedQuotedWord(w: string)
    requires '\'' !in w
    ensures Argv("'" + w) == Some([w])
  {
    SpelledPlain(w);
    var ev := SpelledText(SingleQuotes, w, []);
    assert w + [] == w && ev + [] == ev;
    ReadsUnit(Plain, "'" + w, Reading(Mark, Single, 1), w);
    ReadsOn(Plain, "'" + w, [Mark], Single, w, ev, Single, []);
    UnitText(Mark);
    DataConcat([Mark], [], ev, w);
    assert [] + w == w && [Mark] + ev + [] == [Mark] + ev;
    OneWord([Mark] + ev, w);
  }

  /** A prefix that ends inside quotes lends its last word to the tail, so closing it is needed. */
  lemma GuardAcceptsOpenQuote(u: string, v: string)
    requires '\'' !in u && '\'' !in v
    requires !Chains(" " + v + "'")
    ensures var prefix, command := "'" + u, "'" + (u + (" " + v)) + "'";
            PrefixSafelyMatches(command, prefix) && Argv(prefix) == Some([u]) && Argv(command) == Some([u + (" " + v)])
  {
    var prefix, command := "'" + u, "'" + (u + (" " + v)) + "'";
    assert command == prefix + (" " + v + "'");
    UnclosedQuotedWord(u);
    SingleQuotedWord(u + (" " + v));
  }

  lemma {:induction false} SpelledPlain(w: string)
    requires '\'' !in w
    ensures Spell(SingleQuotes, w) == w
  {
    if w != [] { SpelledPlain(w[1..]); }
  }
}
