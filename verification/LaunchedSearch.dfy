/** The search provider starts the window with its search terms: what arrives there through the command
    line, and which rows the window then shows.

    The command line is expanded and split by GLib, which is not part of this repository: field codes are
    those of the Desktop Entry Specification, replaced between quotes too, and quoting is that of the POSIX
    shell.  The field code for files that GLib adds at the end is replaced by nothing and is left out. */
module LaunchedSearch {
  import opened Text
  import opened SearchMatch
  import Navigation
  import NavigationEnds

  // ---- the command line ----

  const PROGRAM: string := "gnome-control-center"
  const OPTION: string := "-s"
  const APP_NAME: string := "gnome-control-center.desktop"

  function CommandLine(text: string): string { PROGRAM + " " + (OPTION + " " + ("'" + (text + "'"))) }

  /** What replaces a field code: a per cent sign, the quoted name of the application, or nothing, for there
      are no files, no icon and no desktop file. */
  function Field(c: char): string {
    if c == '%' then [c] else if c == 'c' then "'" + APP_NAME + "'" else []
  }

  /** The command line with its field codes replaced. */
  function Expand(line: string): string {
    if line == [] then []
    else if line[0] == '%' && |line| >= 2 then Field(line[1]) + Expand(line[2..])
    else [line[0]] + Expand(line[1..])
  }

  datatype Mode = Plain | Escaped | Single | Double | DoubleEscaped | Comment

  /** The words read so far, the one being read, and the character read last. */
  datatype Reader = Reader(mode: Mode, word: Option<string>, words: seq<string>, last: char)

  function Put(r: Reader, s: string): Reader {
    r.(word := Some((if r.word.Some? then r.word.value else []) + s))
  }

  function EndWord(r: Reader): Reader {
    if r.word == None then r else r.(word := None, words := r.words + [r.word.value])
  }

  predicate Blank(c: char) { c == ' ' || c == '\t' || c == '\n' }

  /** A character that stands for itself outside quotes. */
  predicate Ordinary(c: char) { !Blank(c) && c != '\'' && c != '"' && c != '\\' && c != '#' }

  function StepPlain(r: Reader, c: char): Reader {
    if Blank(c) then EndWord(r)
    else if c == '\'' then Put(r, []).(mode := Single)
    else if c == '"' then Put(r, []).(mode := Double)
    else if c == '\\' then r.(mode := Escaped)
    else if c == '#' && (r.last == ' ' || r.last == '\n') then r.(mode := Comment)
    else Put(r, [c])
  }

  function Step(r: Reader, c: char): Reader {
    (match r.mode
     case Plain => StepPlain(r, c)
     case Escaped => (if c == '\n' then r else Put(r, [c])).(mode := Plain)
     case Single => if c == '\'' then r.(mode := Plain) else Put(r, [c])
     case Double => if c == '"' then r.(mode := Plain) else if c == '\\' then r.(mode := DoubleEscaped) else Put(r, [c])
     case DoubleEscaped =>
       Put(r, if c == '"' || c == '\\' || c == '`' || c == '$' || c == '\n' then [c] else ['\\', c]).(mode := Double)
     case Comment => if c == '\n' then r.(mode := Plain) else r).(last := c)
  }

  function Read(r: Reader, s: string): Reader
    decreases |s|
  {
    if s == [] then r else Read(Step(r, s[0]), s[1..])
  }

  const START: Reader := Reader(Plain, None, [], ' ')

  /** The words of a line; None when a quote is not closed, or there is no word. */
  function Words(line: string): Option<seq<string>> {
    var r := Read(START, line);
    if (r.mode == Plain || r.mode == Comment) && EndWord(r).words != [] then Some(EndWord(r).words) else None
  }

  /** The search text that the window is started with; None when starting it fails. */
  function LaunchedText(text: string): Option<string> {
    var words := Words(Expand(CommandLine(text)));
    if words.Some? && |words.value| > 2 then Some(words.value[2]) else None
  }

  // ---- the part before the text ----

  lemma ExpandOther(c: char, rest: string)
    requires c != '%'
    ensures Expand([c] + rest) == [c] + Expand(rest)
  {
    assert ([c] + rest)[1..] == rest;
  }

  lemma Prepended(c: char, s: string, b: string)
    ensures [c] + (s + b) == ([c] + s) + b
  {
  }

  lemma {:induction false} ExpandNothing(a: string, b: string)
    requires '%' !in a
    ensures Expand(a + b) == a + Expand(b)
    decreases |a|
  {
    if a == [] {
      assert a + b == b && a + Expand(b) == Expand(b);
    } else {
      var tail := a[1..];
      assert a == [a[0]] + tail;
      ExpandNothing(tail, b);
      ExpandOther(a[0], tail + b);
      Prepended(a[0], tail, b);
      Prepended(a[0], tail, Expand(b));
    }
  }

  lemma {:induction false} ReadAppend(r: Reader, a: string, b: string)
    ensures Read(r, a + b) == Read(Read(r, a), b)
    decreases |a|
  {
    if a == [] {
      assert a + b == b;
    } else {
      assert (a + b)[1..] == a[1..] + b;
      ReadAppend(Step(r, a[0]), a[1..], b);
    }
  }

  lemma {:induction false} ReadOrdinary(r: Reader, w: string)
    requires r.mode == Plain && w != [] && forall i :: 0 <= i < |w| ==> Ordinary(w[i])
    ensures Read(r, w) == Reader(Plain, Some((if r.word.Some? then r.word.value else []) + w), r.words, w[|w| - 1])
    decreases |w|
  {
    var r1 := Step(r, w[0]);
    var u := if r.word.Some? then r.word.value else [];
    assert r1 == Reader(Plain, Some(u + [w[0]]), r.words, w[0]);
    if |w| == 1 {
      assert w == [w[0]] && w[1..] == [];
    } else {
      ReadOrdinary(r1, w[1..]);
      assert u + [w[0]] + w[1..] == u + w;
    }
  }

  /** A word and the blank behind it. */
  lemma ReadWord(words: seq<string>, last: char, w: string)
    requires w != [] && forall i :: 0 <= i < |w| ==> Ordinary(w[i])
    ensures Read(Reader(Plain, None, words, last), w + " ") == Reader(Plain, None, words + [w], ' ')
  {
    var r := Reader(Plain, None, words, last);
    ReadAppend(r, w, " ");
    ReadOrdinary(r, w);
    assert [] + w == w;
    assert Read(Step(Read(r, w), ' '), []) == Step(Read(r, w), ' ');
  }

  lemma OrdinaryProgram()
    ensures forall i :: 0 <= i < |PROGRAM| ==> Ordinary(PROGRAM[i])
    ensures forall i :: 0 <= i < |OPTION| ==> Ordinary(OPTION[i])
    ensures '%' !in PROGRAM && '%' !in OPTION && '%' !in APP_NAME
  {
  }

  /** The reader in front of the text. */
  function AtText(): Reader { Reader(Single, Some([]), [PROGRAM, OPTION], '\'') }

  /** What is left of the text and the closing quote is read after the opening quote. */
  lemma ReadsText(text: string)
    ensures Read(START, Expand(CommandLine(text))) == Read(AtText(), Expand(text + "'"))
  {
    OrdinaryProgram();
    var rest := Expand(text + "'");
    ExpandNothing("'", text + "'");
    ExpandNothing(OPTION + " ", "'" + (text + "'"));
    ExpandNothing(PROGRAM + " ", OPTION + " " + ("'" + (text + "'")));
    assert Expand(CommandLine(text)) == PROGRAM + " " + (OPTION + " " + ("'" + rest));
    ReadAppend(START, PROGRAM + " ", OPTION + " " + ("'" + rest));
    ReadWord([], ' ', PROGRAM);
    assert [] + [PROGRAM] == [PROGRAM];
    var r1 := Reader(Plain, None, [PROGRAM], ' ');
    ReadAppend(r1, OPTION + " ", "'" + rest);
    ReadWord([PROGRAM], ' ', OPTION);
    assert [PROGRAM] + [OPTION] == [PROGRAM, OPTION];
    var r2 := Reader(Plain, None, [PROGRAM, OPTION], ' ');
    assert ("'" + rest)[0] == '\'' && ("'" + rest)[1..] == rest;
    var nothing: string := [];
    assert nothing + nothing == nothing;
    assert Step(r2, '\'') == AtText();
  }

  // ---- a text without quotes and per cent signs arrives ----

  lemma {:induction false} ReadQuoted(r: Reader, s: string)
    requires r.mode == Single && r.word.Some? && '\'' !in s
    ensures var q := Read(r, s); q.mode == Single && q.word == Some(r.word.value + s) && q.words == r.words
    decreases |s|
  {
    if s == [] {
      assert r.word.value + s == r.word.value;
    } else {
      assert s[0] in s && forall x :: x in s[1..] ==> x in s;
      ReadQuoted(Step(r, s[0]), s[1..]);
      assert r.word.value + [s[0]] + s[1..] == r.word.value + s;
    }
  }

  /** The closing quote ends the text. */
  lemma ReadClosing(words: seq<string>, last: char, s: string)
    requires '\'' !in s
    ensures Read(Reader(Single, Some([]), words, last), s + "'") == Reader(Plain, Some(s), words, '\'')
  {
    var r := Reader(Single, Some([]), words, last);
    ReadAppend(r, s, "'");
    ReadQuoted(r, s);
    assert [] + s == s;
    ReadOne(Read(r, s), '\'');
  }

  lemma ReadOne(r: Reader, c: char)
    ensures Read(r, [c]) == Step(r, c)
  {
    assert [c][1..] == [];
  }

  lemma ThirdIsReceived(text: string, r: Reader)
    requires Read(START, Expand(CommandLine(text))) == r
    requires r.mode == Plain && r.word.Some? && |r.words| == 2
    ensures LaunchedText(text) == r.word
  {
  }

  /** The text without its field codes, in front of the closing quote, is what arrives. */
  lemma QuotedArrives(text: string, s: string)
    requires Expand(text + "'") == s + "'" && '\'' !in s
    ensures LaunchedText(text) == Some(s)
  {
    ReadsText(text);
    ReadClosing(AtText().words, AtText().last, s);
    ThirdIsReceived(text, Reader(Plain, Some(s), AtText().words, '\''));
  }

  lemma ExpandQuote()
    ensures Expand("'") == "'"
  {
    assert "'"[1..] == [];
    assert Expand("'") == ['\''] + Expand([]);
  }

  lemma PlainTextArrives(text: string)
    requires '\'' !in text && '%' !in text
    ensures LaunchedText(text) == Some(text)
  {
    ExpandNothing(text, "'");
    ExpandQuote();
    QuotedArrives(text, text);
  }

  // ---- and no other text does ----

  /** How many characters of s count: all of them, or the per cent signs. */
  function Count(all: bool, s: string): nat {
    if s == [] then 0 else Bit(all || s[0] == '%') + Count(all, s[1..])
  }

  lemma {:induction false} CountAppend(all: bool, a: string, b: string)
    ensures Count(all, a + b) == Count(all, a) + Count(all, b)
    decreases |a|
  {
    if a == [] {
      assert a + b == b;
    } else {
      assert (a + b)[1..] == a[1..] + b;
      CountAppend(all, a[1..], b);
    }
  }

  lemma {:induction false} CountNone(s: string)
    requires '%' !in s
    ensures Count(false, s) == 0
    decreases |s|
  {
    if s != [] {
      assert s[0] in s && forall x :: x in s[1..] ==> x in s;
      CountNone(s[1..]);
    }
  }

  lemma FieldHasFewer(c: char)
    ensures Count(false, Field(c)) <= Bit(c == '%')
  {
    OrdinaryProgram();
    if c == '%' {
      assert [c][1..] == [];
    } else if c == 'c' {
      CountNone("'" + APP_NAME + "'");
    }
  }

  lemma CountFirst(all: bool, c: char, s: string)
    ensures Count(all, [c] + s) == Bit(all || c == '%') + Count(all, s)
  {
    assert ([c] + s)[1..] == s;
  }

  lemma CountField(c: char, d: char, rest: string, expanded: string)
    requires c == '%' && Count(false, expanded) <= Count(false, rest)
    ensures Count(false, Field(d) + expanded) < Count(false, [c] + ([d] + rest))
  {
    CountAppend(false, Field(d), expanded);
    FieldHasFewer(d);
    CountFirst(false, c, [d] + rest);
    CountFirst(false, d, rest);
  }

  /** Expanding loses a per cent sign whenever there is one, other than at the very end. */
  lemma {:induction false} ExpandLosesPercent(s: string)
    ensures Count(false, Expand(s)) <= Count(false, s)
    ensures s != [] && s[|s| - 1] != '%' && '%' in s ==> Count(false, Expand(s)) < Count(false, s)
    decreases |s|
  {
    if s != [] {
      var c, tail := s[0], s[1..];
      assert s == [c] + tail;
      if c == '%' && tail != [] {
        var rest := tail[1..];
        assert tail == [tail[0]] + rest && rest == s[2..];
        ExpandLosesPercent(rest);
        CountField(c, tail[0], rest, Expand(rest));
      } else {
        ExpandLosesPercent(tail);
        CountFirst(false, c, Expand(tail));
        CountFirst(false, c, tail);
      }
    }
  }

  /** The third word, as far as it has been read. */
  function Third(r: Reader): string {
    if |r.words| > 2 then r.words[2] else if r.word.Some? then r.word.value else []
  }

  /** A backslash between double quotes that may still be written. */
  function Pending(all: bool, r: Reader): nat { Bit(all && r.mode == DoubleEscaped) }

  lemma PutCount(all: bool, r: Reader, s: string)
    requires |r.words| >= 2
    ensures Count(all, Third(Put(r, s))) <= Count(all, Third(r)) + Count(all, s)
    ensures |Put(r, s).words| >= 2
  {
    CountAppend(all, if r.word.Some? then r.word.value else [], s);
  }

  lemma CountFew(all: bool, c: char)
    ensures Count(all, [c]) == Bit(all || c == '%') && Count(all, ['\\', c]) == Bit(all) + Bit(all || c == '%')
    ensures Count(all, []) == 0
  {
    assert [c][1..] == [] && ['\\', c][1..] == [c];
  }

  lemma StepPlainCount(all: bool, r: Reader, c: char)
    requires |r.words| >= 2 && r.mode == Plain
    ensures var q := StepPlain(r, c);
      && |q.words| >= 2 && q.mode != DoubleEscaped
      && Count(all, Third(q)) <= Count(all, Third(r)) + Bit(all || c == '%')
      && (q.mode != Plain ==> Count(all, Third(q)) <= Count(all, Third(r)))
  {
    CountFew(all, c);
    PutCount(all, r, []);
    PutCount(all, r, [c]);
  }

  lemma StepQuotedCount(all: bool, r: Reader, c: char)
    requires |r.words| >= 2 && r.mode != Plain
    ensures var q := Step(r, c);
      && |q.words| >= 2
      && Count(all, Third(q)) + Pending(all, q) <= Count(all, Third(r)) + Pending(all, r) + Bit(all || c == '%')
  {
    CountFew(all, c);
    if r.mode == DoubleEscaped {
      PutCount(all, r, [c]);
      PutCount(all, r, ['\\', c]);
    } else {
      PutCount(all, r, [c]);
    }
  }

  /** Reading a character adds at most that character to the third word, and none where, outside quotes, it
      does not stand for itself. */
  lemma StepCount(all: bool, r: Reader, c: char)
    requires |r.words| >= 2
    ensures var q := Step(r, c);
      && |q.words| >= 2
      && Count(all, Third(q)) + Pending(all, q) <= Count(all, Third(r)) + Pending(all, r) + Bit(all || c == '%')
      && (r.mode == Plain && q.mode != Plain ==> Count(all, Third(q)) + Pending(all, q) <= Count(all, Third(r)))
  {
    if r.mode == Plain {
      StepPlainCount(all, r, c);
      assert Step(r, c) == StepPlain(r, c).(last := c);
    } else {
      StepQuotedCount(all, r, c);
    }
  }

  lemma {:induction false} ReadCount(all: bool, r: Reader, s: string)
    requires |r.words| >= 2
    ensures var q := Read(r, s);
      && |q.words| >= 2
      && Count(all, Third(q)) + Pending(all, q) <= Count(all, Third(r)) + Pending(all, r) + Count(all, s)
    decreases |s|
  {
    if s != [] {
      StepCount(all, r, s[0]);
      ReadCount(all, Step(r, s[0]), s[1..]);
    }
  }

  /** Outside quotes, a last quote is lost, or something before it is. */
  lemma {:induction false} ReadLosesQuote(r: Reader, s: string)
    requires |r.words| >= 2 && r.mode == Plain && s != [] && s[|s| - 1] == '\''
    ensures var q := Read(r, s); |q.words| >= 2 && Count(true, Third(q)) < Count(true, Third(r)) + Count(true, s)
    decreases |s|
  {
    var q := Step(r, s[0]);
    StepCount(true, r, s[0]);
    if q.mode == Plain && |s| > 1 {
      ReadLosesQuote(q, s[1..]);
    } else {
      ReadCount(true, q, s[1..]);
    }
  }

  /** The third word, once reading is over. */
  lemma ReceivedIsThird(text: string)
    requires LaunchedText(text).Some?
    ensures LaunchedText(text).value == Third(Read(AtText(), Expand(text + "'")))
  {
    ReadsText(text);
  }

  lemma {:induction false} FirstQuote(s: string) returns (a: string, b: string)
    requires '\'' in s
    ensures s == a + ("'" + b) && '\'' !in a
  {
    if s[0] == '\'' {
      a, b := [], s[1..];
    } else {
      assert s == [s[0]] + s[1..];
      a, b := FirstQuote(s[1..]);
      a := [s[0]] + a;
    }
  }

  /** Reading on after the first quote of the text. */
  lemma ReadPastQuote(a: string, b: string)
    requires '\'' !in a
    ensures Read(AtText(), a + ("'" + b)) == Read(Reader(Plain, Some(a), [PROGRAM, OPTION], '\''), b)
  {
    ReadAppend(AtText(), a, "'" + b);
    ReadQuoted(AtText(), a);
    assert [] + a == a;
    assert ("'" + b)[0] == '\'' && ("'" + b)[1..] == b;
  }

  lemma QuoteIsLost(text: string)
    requires '\'' in text && '%' !in text
    ensures LaunchedText(text) != Some(text)
  {
    if LaunchedText(text).Some? {
      var a, b := FirstQuote(text);
      ReceivedIsThird(text);
      ExpandNothing(text, "'");
      ExpandQuote();
      assert text + "'" == a + ("'" + (b + "'"));
      ReadPastQuote(a, b + "'");
      ReadLosesQuote(Reader(Plain, Some(a), [PROGRAM, OPTION], '\''), b + "'");
      CountAppend(true, a, "'" + b);
      CountAppend(true, "'", b);
      CountAppend(true, b, "'");
    }
  }

  lemma PercentIsLost(text: string)
    requires '%' in text
    ensures LaunchedText(text) != Some(text)
  {
    if LaunchedText(text).Some? {
      var line := text + "'";
      ReceivedIsThird(text);
      ReadCount(false, AtText(), Expand(line));
      assert line[|line| - 1] == '\'' && '%' in line;
      ExpandLosesPercent(line);
      CountAppend(false, text, "'");
      CountNone("'");
    }
  }

  /** The search text arrives as it was sent if and only if it contains no single quote and no per cent
      sign. */
  lemma ArrivesIff(text: string)
    ensures LaunchedText(text) == Some(text) <==> '\'' !in text && '%' !in text
  {
    if '%' in text {
      PercentIsLost(text);
    } else if '\'' in text {
      QuoteIsLost(text);
    } else {
      PlainTextArrives(text);
    }
  }

  /** An apostrophe with letters behind it, as in "don't": the window is not started. */
  lemma ApostropheFails(a: string, b: string)
    requires '\'' !in a && '%' !in a && b != [] && '%' !in b && forall i :: 0 <= i < |b| ==> Ordinary(b[i])
    ensures LaunchedText(a + ("'" + b)) == None
  {
    var text := a + ("'" + b);
    ReadsText(text);
    ExpandNothing(text, "'");
    ExpandQuote();
    assert text + "'" == a + ("'" + (b + "'"));
    ReadPastQuote(a, b + "'");
    var r := Reader(Plain, Some(a), [PROGRAM, OPTION], '\'');
    ReadAppend(r, b, "'");
    ReadOrdinary(r, b);
    var q := Read(r, b);
    assert "'"[1..] == [] && Read(q, "'") == Step(q, '\'');
  }

  lemma ExpandField(c: char, rest: string)
    ensures Expand(['%', c] + rest) == Field(c) + Expand(rest)
  {
    assert (['%', c] + rest)[2..] == rest;
  }

  lemma Regroup(a: string, m: string, b: string, z: string)
    ensures (a + (m + b)) + z == a + (m + (b + z)) && (a + b) + z == a + (b + z)
  {
  }

  /** A per cent sign and the character behind it usually vanish, as in "10%25". */
  lemma FieldVanishes(a: string, c: char, b: string)
    requires '\'' !in a && '%' !in a && '\'' !in b && '%' !in b && c != '%' && c != 'c'
    ensures LaunchedText(a + (['%', c] + b)) == Some(a + b)
  {
    var close := "'";
    Regroup(a, ['%', c], b, close);
    ExpandNothing(a, ['%', c] + (b + close));
    ExpandField(c, b + close);
    ExpandNothing(b, close);
    ExpandQuote();
    assert [] + (b + close) == b + close;
    QuotedArrives(a + (['%', c] + b), a + b);
  }

  /** Two of them become one. */
  lemma TwoPercentsBecomeOne(a: string, b: string)
    requires '\'' !in a && '%' !in a && '\'' !in b && '%' !in b
    ensures LaunchedText(a + (['%', '%'] + b)) == Some(a + (['%'] + b))
  {
    var close, one: string := "'", ['%'];
    Regroup(a, ['%', '%'], b, close);
    ExpandNothing(a, ['%', '%'] + (b + close));
    ExpandField('%', b + close);
    ExpandNothing(b, close);
    ExpandQuote();
    Regroup(a, one, b, close);
    QuotedArrives(a + (['%', '%'] + b), a + (one + b));
  }

  // ---- texts that use the quoting ----

  lemma ReadOpening(r: Reader, s: string)
    requires r.mode == Plain
    ensures Read(r, "'" + s)
            == Read(Reader(Single, Some(if r.word.Some? then r.word.value else []), r.words, '\''), s)
  {
    assert ("'" + s)[0] == '\'' && ("'" + s)[1..] == s;
    var u: string := if r.word.Some? then r.word.value else [];
    assert u + [] == u;
  }

  /** A quote is opened again, and closed at the end of the line. */
  lemma ReadReopened(r: Reader, b: string)
    requires r.mode == Plain && '\'' !in b
    ensures Read(r, "'" + (b + "'"))
            == Reader(Plain, Some((if r.word.Some? then r.word.value else []) + b), r.words, '\'')
  {
    var q := Reader(Single, Some(if r.word.Some? then r.word.value else []), r.words, '\'');
    ReadOpening(r, b + "'");
    ReadAppend(q, b, "'");
    ReadQuoted(q, b);
    ReadOne(Read(q, b), '\'');
  }

  /** The text closes the quote, has something unquoted in the middle, and opens it again. */
  lemma MiddleArrives(text: string, a: string, m: string, b: string, v: string, last: char)
    requires '\'' !in a && '\'' !in b && Expand(text + "'") == a + ("'" + (m + ("'" + (b + "'"))))
    requires Read(Reader(Plain, Some(a), AtText().words, '\''), m) == Reader(Plain, Some(v), AtText().words, last)
    ensures LaunchedText(text) == Some(v + b)
  {
    ReadsText(text);
    ReadPastQuote(a, m + ("'" + (b + "'")));
    ReadAppend(Reader(Plain, Some(a), AtText().words, '\''), m, "'" + (b + "'"));
    ReadReopened(Reader(Plain, Some(v), AtText().words, last), b);
    ThirdIsReceived(text, Reader(Plain, Some(v + b), AtText().words, '\''));
  }

  lemma ExpandMiddle(a: string, m: string, b: string)
    requires '%' !in a && '%' !in m && '%' !in b
    ensures Expand((a + ("'" + (m + ("'" + b)))) + "'") == a + ("'" + (m + ("'" + (b + "'"))))
  {
    var text := a + ("'" + (m + ("'" + b)));
    ExpandNothing(text, "'");
    ExpandQuote();
    Regroup(a, "'", m + ("'" + b), "'");
    Regroup(m, "'", b, "'");
  }

  /** The usual way to write a quote between quotes arrives as that quote. */
  lemma EscapedQuoteArrives(a: string, b: string)
    requires '\'' !in a && '%' !in a && '\'' !in b && '%' !in b
    ensures LaunchedText(a + ("'" + (['\\', '\''] + ("'" + b)))) == Some((a + ['\'']) + b)
  {
    EscapedArrives(a, '\'', b);
  }

  /** A line end written that way vanishes, and any other character arrives. */
  lemma EscapedArrives(a: string, c: char, b: string)
    requires '\'' !in a && '%' !in a && '\'' !in b && '%' !in b && c != '%'
    ensures LaunchedText(a + ("'" + (['\\', c] + ("'" + b)))) == Some((a + if c == '\n' then [] else [c]) + b)
  {
    var m: string := ['\\', c];
    var r := Reader(Plain, Some(a), AtText().words, '\'');
    var v: string := a + if c == '\n' then [] else [c];
    assert a + [] == a;
    assert m[1..] == [c];
    assert Read(r, m) == Read(Step(r, '\\'), [c]);
    ReadOne(Step(r, '\\'), c);
    ExpandMiddle(a, m, b);
    MiddleArrives(a + ("'" + (m + ("'" + b))), a, m, b, v, c);
  }

  lemma {:induction false} ReadDoubled(r: Reader, s: string)
    requires r.mode == Double && r.word.Some? && '"' !in s && '\\' !in s
    ensures var q := Read(r, s); q.mode == Double && q.word == Some(r.word.value + s) && q.words == r.words
    decreases |s|
  {
    if s == [] {
      assert r.word.value + s == r.word.value;
    } else {
      assert s[0] in s && forall x :: x in s[1..] ==> x in s;
      ReadDoubled(Step(r, s[0]), s[1..]);
      assert r.word.value + [s[0]] + s[1..] == r.word.value + s;
    }
  }

  /** Text between double quotes arrives without them. */
  lemma DoubleQuotedArrives(a: string, w: string, b: string)
    requires '\'' !in a && '%' !in a && '\'' !in b && '%' !in b && '"' !in w && '\\' !in w && '%' !in w
    ensures LaunchedText(a + ("'" + ((['"'] + (w + ['"'])) + ("'" + b)))) == Some((a + w) + b)
  {
    var m: string := ['"'] + (w + ['"']);
    var r := Reader(Plain, Some(a), AtText().words, '\'');
    assert m[0] == '"' && m[1..] == w + ['"'];
    var q := Step(r, '"');
    assert a + [] == a;
    assert q == Reader(Double, Some(a), AtText().words, '"');
    ReadAppend(q, w, ['"']);
    ReadDoubled(q, w);
    ReadOne(Read(q, w), '"');
    ExpandMiddle(a, m, b);
    MiddleArrives(a + ("'" + (m + ("'" + b))), a, m, b, a + w, '"');
  }

  lemma ReadFour(r: Reader, c: char, d: char, e: char, f: char)
    ensures Read(r, [c, d, e, f]) == Step(Step(Step(Step(r, c), d), e), f)
  {
    assert [c, d, e, f][1..] == [d, e, f] && [d, e, f][1..] == [e, f] && [e, f][1..] == [f];
    assert Read(r, [c, d, e, f]) == Read(Step(r, c), [d, e, f]);
    assert Read(Step(r, c), [d, e, f]) == Read(Step(Step(r, c), d), [e, f]);
    assert Read(Step(Step(r, c), d), [e, f]) == Read(Step(Step(Step(r, c), d), e), [f]);
    ReadOne(Step(Step(Step(r, c), d), e), f);
  }

  /** There a backslash protects a quote, a backslash, a backquote, a dollar sign or a line end, and stands for
      itself otherwise. */
  lemma EscapedInDoubleArrives(a: string, c: char, b: string)
    requires '\'' !in a && '%' !in a && '\'' !in b && '%' !in b && c != '%'
    ensures var shown := if c == '"' || c == '\\' || c == '`' || c == '$' || c == '\n' then [c] else ['\\', c];
      LaunchedText(a + ("'" + (['"', '\\', c, '"'] + ("'" + b)))) == Some((a + shown) + b)
  {
    var m: string := ['"', '\\', c, '"'];
    var r := Reader(Plain, Some(a), AtText().words, '\'');
    var shown := if c == '"' || c == '\\' || c == '`' || c == '$' || c == '\n' then [c] else ['\\', c];
    var v: string := a + shown;
    assert a + [] == a;
    ReadFour(r, '"', '\\', c, '"');
    ExpandMiddle(a, m, b);
    MiddleArrives(a + ("'" + (m + ("'" + b))), a, m, b, v, '"');
  }

  /** The field code for the application's name arrives as that name. */
  lemma NameFieldArrives(a: string, b: string)
    requires '\'' !in a && '%' !in a && '\'' !in b && '%' !in b
    ensures LaunchedText(a + (['%', 'c'] + b)) == Some((a + APP_NAME) + b)
  {
    var close: string := "'";
    Regroup(a, ['%', 'c'], b, close);
    ExpandNothing(a, ['%', 'c'] + (b + close));
    ExpandField('c', b + close);
    ExpandNothing(b, close);
    ExpandQuote();
    QuotedName(b + close);
    OrdinaryAppName();
    ReadOrdinary(Reader(Plain, Some(a), AtText().words, '\''), APP_NAME);
    MiddleArrives(a + (['%', 'c'] + b), a, APP_NAME, b, a + APP_NAME, APP_NAME[|APP_NAME| - 1]);
  }

  lemma QuotedName(rest: string)
    ensures Field('c') + rest == "'" + (APP_NAME + ("'" + rest))
  {
    Wrapped("'", APP_NAME, rest);
  }

  lemma Wrapped(q: string, name: string, rest: string)
    ensures (q + name + q) + rest == q + (name + (q + rest))
  {
  }

  lemma OrdinaryAppName()
    ensures |APP_NAME| > 0 && forall i :: 0 <= i < |APP_NAME| ==> Ordinary(APP_NAME[i])
  {
  }

  /** What stands behind an unquoted blank is not part of the text. */
  lemma BlankEndsText(a: string, b: string)
    requires '\'' !in a && '%' !in a && '\'' !in b && '%' !in b
    ensures LaunchedText(a + ("'" + (" " + ("'" + b)))) == Some(a)
  {
    var text := a + ("'" + (" " + ("'" + b)));
    var r := Reader(Plain, Some(a), AtText().words, '\'');
    var q := Reader(Plain, None, AtText().words + [a], ' ');
    ReadsText(text);
    ExpandMiddle(a, " ", b);
    ReadPastQuote(a, " " + ("'" + (b + "'")));
    ReadAppend(r, " ", "'" + (b + "'"));
    ReadOne(r, ' ');
    ReadReopened(q, b);
    ThirdIsDone(text, Reader(Plain, Some([] + b), AtText().words + [a], '\''), a);
  }

  lemma ThirdIsDone(text: string, r: Reader, a: string)
    requires Read(START, Expand(CommandLine(text))) == r && r.words == AtText().words + [a]
    requires r.mode == Plain || r.mode == Comment
    ensures LaunchedText(text) == Some(a)
  {
    assert |AtText().words| == 2;
  }

  lemma {:induction false} ReadComment(r: Reader, s: string)
    requires r.mode == Comment && '\n' !in s
    ensures var q := Read(r, s); q.mode == Comment && q.word == r.word && q.words == r.words
    decreases |s|
  {
    if s != [] {
      assert s[0] in s && forall x :: x in s[1..] ==> x in s;
      ReadComment(Step(r, s[0]), s[1..]);
    }
  }

  lemma ReadBlankHash(a: string, words: seq<string>)
    ensures Read(Reader(Plain, Some(a), words, '\''), " #") == Reader(Comment, None, words + [a], '#')
  {
    var r := Reader(Plain, Some(a), words, '\'');
    assert " #"[1..] == "#" && "#"[1..] == "";
    assert Read(r, " #") == Read(Step(Step(r, ' '), '#'), "");
  }

  /** Nor is a comment, which swallows even the closing quote. */
  lemma CommentEndsText(a: string, b: string)
    requires '\'' !in a && '%' !in a && '\n' !in b && '%' !in b
    ensures LaunchedText(a + ("'" + (" #" + b))) == Some(a)
  {
    var text := a + ("'" + (" #" + b));
    var r := Reader(Plain, Some(a), AtText().words, '\'');
    var q := Reader(Comment, None, AtText().words + [a], '#');
    ReadsText(text);
    ExpandNothing(text, "'");
    ExpandQuote();
    Regroup(a, "'", " #" + b, "'");
    assert (" #" + b) + "'" == " #" + (b + "'");
    ReadPastQuote(a, " #" + (b + "'"));
    ReadAppend(r, " #", b + "'");
    ReadBlankHash(a, AtText().words);
    ReadComment(q, b + "'");
    ThirdIsDone(text, Read(q, b + "'"), a);
  }

  lemma ApostropheWitness()
    ensures LaunchedText("don't") == None
  {
    ApostropheFails("don", "t");
    assert "don" + ("'" + "t") == "don't";
  }

  lemma PercentWitness()
    ensures LaunchedText("10%25") == Some("105")
  {
    FieldVanishes("10", '2', "5");
    assert "10" + (['%', '2'] + "5") == "10%25" && "10" + "5" == "105";
  }

  // ---- the rows that the window shows ----

  /** A row of the search list is visible in a new window unless the panel is hidden in the model, or is one
      that the window hides. */
  predicate InSearchList(id: string, store: Navigation.Visibility) {
    store != Navigation.Hidden && id !in NavigationEnds.HIDDEN_PANELS
  }

  /** Those are six. */
  lemma HiddenPanelsAre(id: string, store: Navigation.Visibility)
    ensures InSearchList(id, store) <==>
      store != Navigation.Hidden && id != "display" && id != "power" && id != "applications"
      && id != "search" && id != "sharing" && id != "color"
  {
  }

  /** The window that was started for a search text shows this row in its search list. */
  predicate Shown(fold: string -> string, text: string, r: Row, store: Navigation.Visibility) {
    && InSearchList(r.id, store)
    && LaunchedText(text).Some?
    && Accepts(r, Some(SearchWords(fold, LaunchedText(text).value)))
  }

  /** Folding treats the terms separately and leaves no white space in them. */
  predicate FoldsTerms(fold: string -> string, terms: seq<string>) {
    && fold(Join(terms)) == Join(FoldAll(fold, terms))
    && forall i :: 0 <= i < |terms| ==> NoSpace(fold(terms[i]))
  }

  predicate Harmless(s: string) { '\'' !in s && '%' !in s }

  lemma {:induction false} JoinHarmless(terms: seq<string>)
    ensures Harmless(Join(terms)) <==> forall i :: 0 <= i < |terms| ==> Harmless(terms[i])
    decreases |terms|
  {
    if |terms| > 1 {
      JoinHarmless(terms[1..]);
      assert forall i :: 1 <= i < |terms| ==> terms[i] == terms[1..][i - 1];
      var s := terms[0] + [' '] + Join(terms[1..]);
      assert forall c :: c in s <==> c in terms[0] || c == ' ' || c in Join(terms[1..]);
    }
  }

  /** The terms arrive as they were sent if and only if none contains a single quote or a per cent sign. */
  lemma TermsArriveIff(terms: seq<string>)
    ensures LaunchedText(Join(terms)) == Some(Join(terms)) <==> forall i :: 0 <= i < |terms| ==> Harmless(terms[i])
  {
    ArrivesIff(Join(terms));
    JoinHarmless(terms);
  }

  /** When they arrive, the window shows a row exactly when the search provider lists it and it is not
      hidden from the window's search list. */
  lemma LaunchedSearchShows(fold: string -> string, terms: seq<string>, r: Row, store: Navigation.Visibility)
    requires FoldsTerms(fold, terms) && forall i :: 0 <= i < |terms| ==> Harmless(terms[i])
    ensures Shown(fold, Join(terms), r, store) <==> Matches(r, FoldAll(fold, terms)) && InSearchList(r.id, store)
  {
    TermsArriveIff(terms);
    FoldedSearchAgrees(fold, r, terms);
  }

  /** So the window shows exactly the provider's results if and only if none of them is hidden there. */
  lemma ShowsResultsIff(fold: string -> string, terms: seq<string>, rows: seq<Row>,
                        store: string -> Navigation.Visibility)
    requires FoldsTerms(fold, terms) && forall i :: 0 <= i < |terms| ==> Harmless(terms[i])
    ensures (forall k :: 0 <= k < |rows| ==>
               (Shown(fold, Join(terms), rows[k], store(rows[k].id)) <==> Matches(rows[k], FoldAll(fold, terms))))
       <==> (forall k :: 0 <= k < |rows| && Matches(rows[k], FoldAll(fold, terms)) ==>
               InSearchList(rows[k].id, store(rows[k].id)))
  {
    forall k | 0 <= k < |rows|
      ensures Shown(fold, Join(terms), rows[k], store(rows[k].id)) <==>
              Matches(rows[k], FoldAll(fold, terms)) && InSearchList(rows[k].id, store(rows[k].id))
    {
      LaunchedSearchShows(fold, terms, rows[k], store(rows[k].id));
    }
  }

  /** One can be hidden: a search that the provider answers with Displays, one of the panels that the window
      hides. */
  lemma HiddenResultWitness(word: string, store: Navigation.Visibility)
    requires NoSpace(word) && Harmless(word)
    ensures var r := Row("display", word, None, None, []); var same := (s: string) => s;
      && FoldsTerms(same, [word]) && (forall i :: 0 <= i < |[word]| ==> Harmless([word][i]))
      && Matches(r, FoldAll(same, [word])) && !Shown(same, Join([word]), r, store)
  {
    var r := Row("display", word, None, None, []);
    var same := (s: string) => s;
    assert FoldAll(same, [word]) == [word];
    assert Contains(word, word);
    assert MatchesTerm(r, word);
    assert r.id in NavigationEnds.HIDDEN_PANELS;
  }
}
