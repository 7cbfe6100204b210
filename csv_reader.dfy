/**
 * The CSV line parser used to read the price and quantity tables, and the
 * reader's line bookkeeping.
 *
 * `Step` is one iteration of the parser's character loop over its state
 * (fields so far, the field being collected and three flags); `Parse` is the
 * whole loop followed by the final `result.add`. `ParseLine` is the loop
 * itself, proved to compute `Parse`, and the lemmas say what `Parse` does.
 */
module CsvParsing {
  import opened JavaLang

  const DefaultSeparator: char := ','
  const DefaultQuote: char := '"'

  /** The separator and quote in effect (a blank argument selects the default) and the line's first character. */
  datatype Config = Config(sep: char, quote: char, first: char)

  datatype ParseState = ParseState(
    fields: seq<string>,
    cur: string,
    inQuotes: bool,
    startCollectChar: bool,
    doubleQuotesInColumn: bool,
    stopped: bool)

  const Start: ParseState := ParseState([], "", false, false, false, false)

  function ConfigFor(line: string, separators: char, customQuote: char): Config
  {
    Config(if separators == ' ' then DefaultSeparator else separators,
           if customQuote == ' ' then DefaultQuote else customQuote,
           if |line| > 0 then line[0] else ' ')
  }

  /** One iteration of the loop over the line's characters. */
  function Step(st: ParseState, ch: char, c: Config): ParseState
  {
    if st.stopped then st
    else if st.inQuotes then
      if ch == c.quote then
        st.(startCollectChar := true, inQuotes := false, doubleQuotesInColumn := false)
      else if ch == '"' then
        if !st.doubleQuotesInColumn then
          st.(startCollectChar := true, cur := st.cur + ['"'], doubleQuotesInColumn := true)
        else
          st.(startCollectChar := true)
      else
        st.(startCollectChar := true, cur := st.cur + [ch])
    else if ch == c.quote then
      var c1 := if c.first != '"' && c.quote == '"' then st.cur + ['"'] else st.cur;
      var c2 := if st.startCollectChar then c1 + ['"'] else c1;
      st.(inQuotes := true, cur := c2)
    else if ch == c.sep then
      st.(fields := st.fields + [st.cur], cur := "", startCollectChar := false)
    else if ch == '\r' then st
    else if ch == '\n' then st.(stopped := true)
    else st.(cur := st.cur + [ch])
  }

  /** The loop run over the characters of `s`, starting from `st`. */
  function Run(st: ParseState, s: string, c: Config): ParseState
    decreases |s|
  {
    if s == [] then st else Step(Run(st, s[..|s| - 1], c), s[|s| - 1], c)
  }

  function Finish(st: ParseState): seq<string> { st.fields + [st.cur] }

  /** `parseLine(cvsLine, separators, customQuote)` for a non-null line. */
  function Parse(line: string, separators: char, customQuote: char): seq<string>
  {
    Finish(Run(Start, line, ConfigFor(line, separators, customQuote)))
  }

  /** The parser's loop, as `parseLine` runs it over the characters of `cvsLine`. */
  method ParseLine(cvsLine: string, separators: char, customQuote: char) returns (result: seq<string>)
    ensures result == Parse(cvsLine, separators, customQuote)
    ensures |result| >= 1
  {
    var quote := if customQuote == ' ' then DefaultQuote else customQuote;
    var sep := if separators == ' ' then DefaultSeparator else separators;
    ghost var c := ConfigFor(cvsLine, separators, customQuote);
    result := [];
    var curVal := "";
    var inQuotes := false;
    var startCollectChar := false;
    var doubleQuotesInColumn := false;
    for i := 0 to |cvsLine|
      invariant ParseState(result, curVal, inQuotes, startCollectChar, doubleQuotesInColumn, false)
             == Run(Start, cvsLine[..i], c)
    {
      var ch := cvsLine[i];
      assert cvsLine[..i + 1] == cvsLine[..i] + [ch];
      RunSnoc(Start, cvsLine[..i], ch, c);
      if inQuotes {
        startCollectChar := true;
        if ch == quote {
          inQuotes := false;
          doubleQuotesInColumn := false;
        } else {
          if ch == '"' {
            if !doubleQuotesInColumn {
              curVal := curVal + ['"'];
              doubleQuotesInColumn := true;
            }
          } else {
            curVal := curVal + [ch];
          }
        }
      } else {
        if ch == quote {
          inQuotes := true;
          if cvsLine[0] != '"' && quote == '"' {
            curVal := curVal + ['"'];
          }
          if startCollectChar {
            curVal := curVal + ['"'];
          }
        } else if ch == sep {
          result := result + [curVal];
          curVal := "";
          startCollectChar := false;
        } else if ch == '\r' {
          continue;
        } else if ch == '\n' {
          RunAppend(Start, cvsLine[..i + 1], cvsLine[i + 1..], c);
          assert cvsLine[..i + 1] + cvsLine[i + 1..] == cvsLine;
          RunStopped(Run(Start, cvsLine[..i + 1], c), cvsLine[i + 1..], c);
          break;
        } else {
          curVal := curVal + [ch];
        }
      }
    }
    assert cvsLine[..|cvsLine|] == cvsLine;
    result := result + [curVal];
  }

  /** `parseLine(cvsLine)`: the default separator and quote. */
  method ParseDefault(cvsLine: string) returns (result: seq<string>)
    ensures result == Parse(cvsLine, DefaultSeparator, DefaultQuote)
    ensures |result| >= 1
  {
    result := ParseLine(cvsLine, DefaultSeparator, DefaultQuote);
  }

  // ---------------------------------------------------------------------------
  // Properties of the loop

  lemma {:induction false} RunAppend(st: ParseState, a: string, b: string, c: Config)
    ensures Run(st, a + b, c) == Run(Run(st, a, c), b, c)
    decreases |b|
  {
    if b == [] {
      assert a + b == a;
    } else {
      assert (a + b)[..|a + b| - 1] == a + b[..|b| - 1];
      RunAppend(st, a, b[..|b| - 1], c);
    }
  }

  /** After a line feed outside quotes nothing changes any more. */
  lemma {:induction false} RunStopped(st: ParseState, s: string, c: Config)
    requires st.stopped
    ensures Run(st, s, c) == st
    decreases |s|
  {
    if s != [] {
      RunStopped(st, s[..|s| - 1], c);
    }
  }

  /** `s` holds neither the quote character, nor CR, nor LF. */
  predicate NoSpecial(s: string, c: Config)
  {
    forall i :: 0 <= i < |s| ==> s[i] != c.quote && s[i] != '\r' && s[i] != '\n'
  }

  /**
   * Outside quotes, a stretch without the quote character, CR or LF is cut
   * at each separator, the first piece continuing the field in progress.
   */
  lemma {:induction false} RunPlain(st: ParseState, s: string, c: Config)
    requires !st.inQuotes && !st.stopped && c.sep !in st.cur
    requires NoSpecial(s, c)
    ensures !Run(st, s, c).inQuotes && !Run(st, s, c).stopped
    ensures Finish(Run(st, s, c)) == st.fields + SplitAll(st.cur + s, c.sep)
    decreases |s|
  {
    if s == [] {
      assert st.cur + s == st.cur;
      SplitAllNoSeparator(st.cur, c.sep);
    } else {
      var p := s[..|s| - 1];
      var ch := s[|s| - 1];
      assert NoSpecial(p, c) by { forall i | 0 <= i < |p| ensures p[i] == s[i] { } }
      RunPlain(st, p, c);
      var r := Run(st, p, c);
      var q := SplitAll(st.cur + p, c.sep);
      LastField(r, st.fields, q);
      assert ch != c.quote && ch != '\r' && ch != '\n';
      assert st.cur + s == (st.cur + p) + [ch];
      SplitAllSnoc(st.cur + p, ch, c.sep);
      if ch == c.sep {
        assert Finish(Step(r, ch, c)) == (st.fields + q) + [""];
      } else {
        assert Finish(Step(r, ch, c)) == st.fields + (q[..|q| - 1] + [q[|q| - 1] + [ch]]);
      }
    }
  }

  /** Reading the fields so far and the current field back from a finished result. */
  lemma LastField(r: ParseState, done: seq<string>, q: seq<string>)
    requires |q| > 0 && Finish(r) == done + q
    ensures r.fields == done + q[..|q| - 1] && r.cur == q[|q| - 1]
  {
    var whole := Finish(r);
    assert whole[..|whole| - 1] == r.fields;
    assert (done + q)[..|whole| - 1] == done + q[..|q| - 1];
    assert whole[|whole| - 1] == r.cur;
  }

  /** Outside quotes, a stretch without the quote character, CR, LF or separator is added to the current field. */
  lemma {:induction false} RunLiteral(st: ParseState, s: string, c: Config)
    requires !st.inQuotes && !st.stopped
    requires NoSpecial(s, c) && c.sep !in s
    ensures Run(st, s, c) == st.(cur := st.cur + s)
    decreases |s|
  {
    if s == [] {
      assert st.cur + s == st.cur;
    } else {
      var p := s[..|s| - 1];
      assert NoSpecial(p, c) && c.sep !in p by { forall i | 0 <= i < |p| ensures p[i] == s[i] { } }
      RunLiteral(st, p, c);
      assert s[|s| - 1] != c.sep;
      assert st.cur + s == (st.cur + p) + [s[|s| - 1]];
    }
  }

  /**
   * Inside quotes, a stretch without the quote character and without '"' is
   * added to the current field unchanged: separators, CR and LF included.
   */
  lemma {:induction false} RunQuoted(st: ParseState, s: string, c: Config)
    requires st.inQuotes && !st.stopped
    requires forall i :: 0 <= i < |s| ==> s[i] != c.quote && s[i] != '"'
    ensures Run(st, s, c).inQuotes && !Run(st, s, c).stopped
    ensures Run(st, s, c).fields == st.fields
    ensures Run(st, s, c).cur == st.cur + s
    ensures Run(st, s, c).doubleQuotesInColumn == st.doubleQuotesInColumn
    ensures |s| > 0 ==> Run(st, s, c).startCollectChar
    ensures |s| == 0 ==> Run(st, s, c) == st
    decreases |s|
  {
    if s == [] {
      assert st.cur + s == st.cur;
    } else {
      var p := s[..|s| - 1];
      RunQuoted(st, p, c);
      assert s == p + [s[|s| - 1]];
    }
  }

  /**
   * A line without the quote character, CR or LF is cut at every separator,
   * and joining the fields with the separator gives the line back.
   */
  lemma PlainLine(line: string, separators: char, customQuote: char)
    requires NoSpecial(line, ConfigFor(line, separators, customQuote))
    ensures Parse(line, separators, customQuote) == SplitAll(line, ConfigFor(line, separators, customQuote).sep)
    ensures Join(Parse(line, separators, customQuote), [ConfigFor(line, separators, customQuote).sep]) == line
  {
    var c := ConfigFor(line, separators, customQuote);
    RunPlain(Start, line, c);
    assert "" + line == line;
    JoinSplitAll(line, c.sep);
  }

  /** With the default separator and quote. */
  lemma PlainDefaultLine(line: string)
    requires forall i :: 0 <= i < |line| ==> line[i] != '"' && line[i] != '\r' && line[i] != '\n'
    ensures Parse(line, DefaultSeparator, DefaultQuote) == SplitAll(line, ',')
    ensures Join(Parse(line, DefaultSeparator, DefaultQuote), [',']) == line
  {
    PlainLine(line, DefaultSeparator, DefaultQuote);
  }

  /** The position after `prefix` is outside quotes and before any line feed. */
  predicate OutsideQuotes(prefix: string, c: Config)
  {
    var st := Run(Start, prefix, c);
    !st.inQuotes && !st.stopped
  }

  /** A separator at index `i` that counts: not the quote character, outside quotes, before any LF. */
  predicate SeparatorOutside(line: string, c: Config, i: nat)
    requires i < |line|
  {
    line[i] == c.sep && line[i] != c.quote && OutsideQuotes(line[..i], c)
  }

  /** The number of counting separators among the first `n` characters. */
  function SeparatorsOutside(line: string, c: Config, n: nat): nat
    requires n <= |line|
  {
    if n == 0 then 0
    else SeparatorsOutside(line, c, n - 1) + (if SeparatorOutside(line, c, n - 1) then 1 else 0)
  }

  lemma {:induction false} FieldsCountSeparators(line: string, c: Config, n: nat)
    requires n <= |line|
    ensures |Run(Start, line[..n], c).fields| == SeparatorsOutside(line, c, n)
  {
    if n > 0 {
      FieldsCountSeparators(line, c, n - 1);
      assert line[..n][..n - 1] == line[..n - 1];
    }
  }

  /** The result has one field more than the separators met outside quotes before any LF. */
  lemma FieldCount(line: string, separators: char, customQuote: char)
    ensures |Parse(line, separators, customQuote)|
         == 1 + SeparatorsOutside(line, ConfigFor(line, separators, customQuote), |line|)
  {
    FieldsCountSeparators(line, ConfigFor(line, separators, customQuote), |line|);
    assert line[..|line|] == line;
  }

  /** An empty line gives one empty field. */
  lemma EmptyLine(separators: char, customQuote: char)
    ensures Parse("", separators, customQuote) == [""]
  {
  }

  /** Outside quotes a CR is dropped. */
  lemma CarriageReturnDropped(a: string, b: string, separators: char, customQuote: char)
    requires |a| > 0
    requires OutsideQuotes(a, ConfigFor(a, separators, customQuote))
    requires ConfigFor(a, separators, customQuote).quote != '\r'
    requires ConfigFor(a, separators, customQuote).sep != '\r'
    ensures Parse(a + ['\r'] + b, separators, customQuote) == Parse(a + b, separators, customQuote)
  {
    var c := ConfigFor(a, separators, customQuote);
    assert ConfigFor(a + ['\r'] + b, separators, customQuote) == c;
    assert ConfigFor(a + b, separators, customQuote) == c;
    RunAppend(Start, a + ['\r'], b, c);
    RunAppend(Start, a, ['\r'], c);
    assert ['\r'][..0] == [];
    RunAppend(Start, a, b, c);
  }

  /** Outside quotes an LF ends the line: whatever follows it is ignored. */
  lemma NewlineStops(a: string, b: string, separators: char, customQuote: char)
    requires OutsideQuotes(a, ConfigFor(a + ['\n'] + b, separators, customQuote))
    requires ConfigFor(a, separators, customQuote).quote != '\n'
    requires ConfigFor(a, separators, customQuote).sep != '\n'
    ensures Parse(a + ['\n'] + b, separators, customQuote) == Parse(a, separators, customQuote)
  {
    var c := ConfigFor(a + ['\n'] + b, separators, customQuote);
    assert |a| > 0 ==> ConfigFor(a, separators, customQuote) == c;
    RunAppend(Start, a + ['\n'], b, c);
    RunAppend(Start, a, ['\n'], c);
    assert ['\n'][..0] == [];
    RunStopped(Run(Start, a + ['\n'], c), b, c);
  }

  /**
   * A line that starts with the quote '"': the enclosing quotes of the first
   * field are not part of its value, and separators, CR and LF inside them
   * are ordinary characters of the field; the rest of the line is cut at the
   * separators.
   */
  lemma QuotedFirstField(x: string, y: string, separators: char, customQuote: char)
    requires customQuote == '"' || customQuote == ' '
    requires separators != '"' && separators != '\r' && separators != '\n'
    requires forall i :: 0 <= i < |x| ==> x[i] != '"'
    requires NoSpecial(y, Config(separators, '"', '"'))
    ensures (var sep := ConfigFor(y, separators, customQuote).sep;
             Parse(['"'] + x + ['"', sep] + y, separators, customQuote) == [x] + SplitAll(y, sep))
  {
    var line := ['"'] + x + ['"', ConfigFor(y, separators, customQuote).sep] + y;
    var c := ConfigFor(line, separators, customQuote);
    assert c == Config(ConfigFor(y, separators, customQuote).sep, '"', '"');
    QuotedPrefix(x, c);
    RunSnoc(Start, ['"'] + x + ['"'], c.sep, c);
    assert ['"'] + x + ['"', c.sep] == (['"'] + x + ['"']) + [c.sep];
    var s4 := Run(Start, ['"'] + x + ['"', c.sep], c);
    assert s4 == ParseState([x], "", false, false, false, false);
    assert NoSpecial(y, c);
    RunPlain(s4, y, c);
    RunAppend(Start, ['"'] + x + ['"', c.sep], y, c);
    assert "" + y == y;
  }

  /** The quoted first field of `QuotedFirstField`, up to its closing quote. */
  lemma QuotedPrefix(x: string, c: Config)
    requires c.quote == '"' && c.first == '"' && c.sep != '"'
    requires forall i :: 0 <= i < |x| ==> x[i] != '"'
    ensures Run(Start, ['"'] + x + ['"'], c) == ParseState([], x, false, true, false, false)
  {
    RunSnoc(Start, [], '"', c);
    assert [] + ['"'] == ['"'];
    var s1 := Run(Start, ['"'], c);
    assert s1 == Start.(inQuotes := true);
    RunQuoted(s1, x, c);
    RunAppend(Start, ['"'], x, c);
    var s2 := Run(Start, ['"'] + x, c);
    assert s2.fields == [] && s2.cur == x by { assert "" + x == x; }
    RunSnoc(Start, ['"'] + x, '"', c);
  }

  /** The example `"a,b",c`. */
  lemma QuotedFieldExample()
    ensures Parse("\"a,b\",c", ',', '"') == ["a,b", "c"]
  {
    QuotedFirstField("a,b", "c", ',', '"');
    assert ['"'] + "a,b" + ['"', ','] + "c" == "\"a,b\",c";
    assert SplitAll("c", ',') == ["c"] by { SplitAllNoSeparator("c", ','); }
  }

  /**
   * A line that does not start with '"': an opening quote '"' is kept as a
   * literal '"' in the field, a separator inside the quotes is an ordinary
   * character, and the closing quote is dropped.
   */
  lemma OpeningQuoteKept(x: string, y: string, z: string, separators: char, customQuote: char)
    requires customQuote == '"' || customQuote == ' '
    requires separators != '"'
    requires |x| > 0 && x[0] != '"'
    requires NoSpecial(x, Config(separators, '"', x[0])) && ConfigFor(x, separators, customQuote).sep !in x
    requires forall i :: 0 <= i < |y| ==> y[i] != '"'
    requires NoSpecial(z, Config(separators, '"', x[0])) && ConfigFor(x, separators, customQuote).sep !in z
    ensures Parse(x + ['"'] + y + ['"'] + z, separators, customQuote) == [x + ['"'] + y + z]
  {
    var line := x + ['"'] + y + ['"'] + z;
    var c := ConfigFor(line, separators, customQuote);
    assert c == ConfigFor(x, separators, customQuote) && c == Config(c.sep, '"', x[0]);
    QuoteOpened(x, y, c);
    var s3 := Run(Start, x + ['"'] + y, c);
    // the closing quote
    RunSnoc(Start, x + ['"'] + y, '"', c);
    var s4 := Run(Start, x + ['"'] + y + ['"'], c);
    assert s4 == ParseState([], x + ['"'] + y, false, true, false, false);
    RunLiteral(s4, z, c);
    RunAppend(Start, x + ['"'] + y + ['"'], z, c);
  }

  /** One more character is one more step. */
  lemma RunSnoc(st: ParseState, s: string, ch: char, c: Config)
    ensures Run(st, s + [ch], c) == Step(Run(st, s, c), ch, c)
  {
    assert (s + [ch])[..|s|] == s;
  }

  /** Before the closing quote of `OpeningQuoteKept`: the opening quote is kept and the quoted text added. */
  lemma QuoteOpened(x: string, y: string, c: Config)
    requires c.quote == '"' && |x| > 0 && c.first == x[0] && x[0] != '"'
    requires NoSpecial(x, c) && c.sep !in x
    requires forall i :: 0 <= i < |y| ==> y[i] != '"'
    ensures var st := Run(Start, x + ['"'] + y, c);
      st.fields == [] && st.cur == x + ['"'] + y && st.inQuotes && !st.stopped && !st.doubleQuotesInColumn
  {
    RunLiteral(Start, x, c);
    assert Run(Start, x, c) == Start.(cur := x) by { assert "" + x == x; }
    // the opening quote: kept as '"' because the line does not start with '"'
    RunSnoc(Start, x, '"', c);
    var s2 := Run(Start, x + ['"'], c);
    assert s2 == ParseState([], x + ['"'], true, false, false, false);
    RunQuoted(s2, y, c);
    RunAppend(Start, x + ['"'], y, c);
  }

  /** The example `a"b,c"d`: one field, the opening quote kept and the separator inside the quotes literal. */
  lemma OpeningQuoteExample()
    ensures Parse("a\"b,c\"d", ',', '"') == ["a\"b,cd"]
  {
    OpeningQuoteKept("a", "b,c", "d", ',', '"');
    assert "a" + ['"'] + "b,c" + ['"'] + "d" == "a\"b,c\"d";
    assert "a" + ['"'] + "b,c" + "d" == "a\"b,cd";
  }

  // ---------------------------------------------------------------------------
  // The reader

  /**
   * A reader over the lines of one file: `hasNextLine` fetches the next line
   * (null at the end), `readLine` counts it and parses it.
   */
  class CsvReader {
    /** The file's lines, as the buffered reader delivers them. */
    const lines: seq<string>
    /** How many lines have been fetched. */
    var position: nat
    /** The line fetched by the last `hasNextLine`; None stands for null. */
    var currentLine: Option<string>
    var currentLineIndex: int

    constructor (fileLines: seq<string>)
      ensures lines == fileLines && position == 0
      ensures currentLine == None && currentLineIndex == 0
    {
      lines := fileLines;
      position := 0;
      currentLine := None;
      currentLineIndex := 0;
    }

    method HasNextLine() returns (more: bool)
      requires position <= |lines|
      modifies this`position, this`currentLine
      ensures position <= |lines|
      ensures more <==> old(position) < |lines|
      ensures more ==> currentLine == Some(lines[old(position)]) && position == old(position) + 1
      ensures !more ==> currentLine == None && position == old(position)
    {
      if position < |lines| {
        currentLine := Some(lines[position]);
        position := position + 1;
        more := true;
      } else {
        currentLine := None;
        more := false;
      }
    }

    /** `readLine`: parsing a null line throws, so a line must have been fetched. */
    method ReadLine() returns (fields: seq<string>)
      requires currentLine.Some?
      modifies this`currentLineIndex
      ensures currentLineIndex == old(currentLineIndex) + 1
      ensures fields == Parse(currentLine.value, DefaultSeparator, DefaultQuote)
    {
      currentLineIndex := currentLineIndex + 1;
      fields := ParseDefault(currentLine.value);
    }

    /** `getCurrentLineIndex`: how many lines `readLine` has parsed. */
    function CurrentLineIndex(): (n: int)
      reads this
      ensures n == currentLineIndex
    {
      currentLineIndex
    }
  }
}
