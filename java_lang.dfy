/**
 * The few behaviours of the Java runtime that the trading system's core relies
 * on: 32-bit `int` arithmetic, `String.valueOf(int)` / `Integer.parseInt`,
 * `String.trim`, `String.split` with a one-character pattern, `startsWith`,
 * and the truncating `(int)` cast of a quotient.
 */
module JavaLang {

  datatype Option<+T> = None | Some(value: T)

  // ---------------------------------------------------------------------------
  // 32-bit two's-complement `int`

  const MinInt: int := -0x8000_0000
  const MaxInt: int := 0x7fff_ffff

  type Int32 = x: int | MinInt <= x <= MaxInt

  /** The value Java's `int` arithmetic produces for the mathematical result `x`. */
  function Wrap(x: int): (r: Int32)
    ensures MinInt <= x <= MaxInt ==> r == x
    ensures (r - x) % 0x1_0000_0000 == 0
  {
    (x - MinInt) % 0x1_0000_0000 + MinInt
  }

  /** `a / b` on Java `int`s (and the `(int)` cast of a real quotient): rounds toward zero. */
  function JavaDiv(a: int, b: int): (q: int)
    requires b > 0
    ensures a >= 0 ==> q == a / b
    ensures a < 0 ==> q == -((-a) / b)
  {
    if a >= 0 then a / b else -((-a) / b)
  }

  // ---------------------------------------------------------------------------
  // Decimal text of an int: String.valueOf(int) and Integer.parseInt

  predicate IsDigit(c: char) { '0' <= c <= '9' }

  function DigitChar(d: nat): (c: char)
    requires d < 10
    ensures IsDigit(c) && c as int - '0' as int == d
  {
    ('0' as int + d) as char
  }

  /** Base-10 digits of `n` without leading zeros ("0" for zero). */
  function Digits(n: nat): (s: string)
    ensures |s| > 0
    ensures forall i :: 0 <= i < |s| ==> IsDigit(s[i])
    decreases n
  {
    if n < 10 then [DigitChar(n)] else Digits(n / 10) + [DigitChar(n % 10)]
  }

  /** `String.valueOf(n)`: an optional minus sign followed by the digits. */
  function Decimal(n: int): (s: string)
  {
    if n < 0 then "-" + Digits(-n) else Digits(n)
  }

  /** The value of a non-empty run of decimal digits. */
  function DigitsValue(s: string): (v: nat)
    requires forall i :: 0 <= i < |s| ==> IsDigit(s[i])
    decreases |s|
  {
    if s == [] then 0
    else
      assert IsDigit(s[|s| - 1]);
      10 * DigitsValue(s[..|s| - 1]) + (s[|s| - 1] as int - '0' as int)
  }

  predicate AllDigits(s: string) {
    |s| > 0 && forall i :: 0 <= i < |s| ==> IsDigit(s[i])
  }

  /**
   * `Integer.parseInt(s)`: an optional '+' or '-' followed by at least one
   * digit, whose value fits in an `int`; anything else throws
   * NumberFormatException, modelled as None.
   */
  function ParseInt(s: string): (r: Option<int>)
    ensures r.Some? ==> MinInt <= r.value <= MaxInt
  {
    if |s| > 0 && (s[0] == '-' || s[0] == '+') then
      if AllDigits(s[1..]) then
        var d: int := DigitsValue(s[1..]);
        var v := if s[0] == '-' then -d else d;
        if MinInt <= v <= MaxInt then Some(v) else None
      else None
    else if AllDigits(s) && DigitsValue(s) <= MaxInt then Some(DigitsValue(s))
    else None
  }

  lemma {:induction false} DigitsRoundTrip(n: nat)
    ensures DigitsValue(Digits(n)) == n
    decreases n
  {
    if n >= 10 {
      var s := Digits(n);
      assert s[..|s| - 1] == Digits(n / 10);
      DigitsRoundTrip(n / 10);
    }
  }

  /** Printing an `int` and parsing it back gives the same `int`. */
  lemma DecimalRoundTrip(n: int)
    requires MinInt <= n <= MaxInt
    ensures ParseInt(Decimal(n)) == Some(n)
  {
    var s := Decimal(n);
    if n < 0 {
      var d := Digits(-n);
      assert s == "-" + d && s[1..] == d;
      DigitsRoundTrip(-n);
      assert AllDigits(s[1..]);
    } else {
      assert s == Digits(n) && IsDigit(s[0]);
      DigitsRoundTrip(n);
    }
  }

  // ---------------------------------------------------------------------------
  // Strings

  function StartsWith(s: string, prefix: string): (b: bool)
    ensures b <==> exists t :: s == prefix + t
  {
    if |prefix| <= |s| && s[..|prefix|] == prefix then
      assert s == prefix + s[|prefix|..];
      true
    else
      false
  }

  /** `String.trim`: drops leading and trailing characters up to U+0020. */
  function Trim(s: string): string
  {
    TrimEnd(TrimStart(s))
  }

  function TrimStart(s: string): string
    decreases |s|
  {
    if |s| > 0 && s[0] <= ' ' then TrimStart(s[1..]) else s
  }

  function TrimEnd(s: string): string
    decreases |s|
  {
    if |s| > 0 && s[|s| - 1] <= ' ' then TrimEnd(s[..|s| - 1]) else s
  }

  /** Leading blanks go, the rest is a suffix; a string starting with a non-blank is kept. */
  lemma {:induction false} TrimStartSuffix(s: string)
    ensures var t := TrimStart(s);
      |t| <= |s| && t == s[|s| - |t|..]
      && (|t| > 0 ==> t[0] > ' ')
      && (|s| > 0 && s[0] > ' ' ==> t == s)
    decreases |s|
  {
    if |s| > 0 && s[0] <= ' ' {
      TrimStartSuffix(s[1..]);
    }
  }

  /** Trailing blanks go, the rest is a prefix; a string ending with a non-blank is kept. */
  lemma {:induction false} TrimEndPrefix(s: string)
    ensures var t := TrimEnd(s);
      |t| <= |s| && t == s[..|t|]
      && (|t| > 0 ==> t[|t| - 1] > ' ')
      && (|s| > 0 && s[|s| - 1] > ' ' ==> t == s)
      && (|s| > 0 && s[0] > ' ' && |t| > 0 ==> t[0] == s[0])
    decreases |s|
  {
    if |s| > 0 && s[|s| - 1] <= ' ' {
      TrimEndPrefix(s[..|s| - 1]);
    }
  }

  /** A trimmed string is no longer, has no blank at either end, and a string without one is kept. */
  lemma TrimBounds(s: string)
    ensures var t := Trim(s);
      |t| <= |s|
      && (|t| > 0 ==> t[0] > ' ' && t[|t| - 1] > ' ')
      && ((|s| > 0 && s[0] > ' ' && s[|s| - 1] > ' ') ==> t == s)
  {
    TrimStartSuffix(s);
    TrimEndPrefix(TrimStart(s));
  }

  /** All the pieces of `s` around every occurrence of `c`, empty pieces included. */
  function SplitAll(s: string, c: char): (parts: seq<string>)
    ensures |parts| > 0
    ensures forall i :: 0 <= i < |parts| ==> c !in parts[i]
    decreases |s|
  {
    if s == [] then [""]
    else
      var p := SplitAll(s[..|s| - 1], c);
      var ch := s[|s| - 1];
      if ch == c then p + [""] else p[..|p| - 1] + [p[|p| - 1] + [ch]]
  }

  function DropTrailingEmpty(parts: seq<string>): seq<string>
  {
    if |parts| > 0 && parts[|parts| - 1] == "" then DropTrailingEmpty(parts[..|parts| - 1])
    else parts
  }

  /**
   * `s.split(String.valueOf(c))` for a character that is not a regular
   * expression metacharacter: when `c` does not occur the result is `[s]`;
   * otherwise the pieces around each `c`, with trailing empty pieces removed.
   */
  function JavaSplit(s: string, c: char): (parts: seq<string>)
    ensures c !in s ==> parts == [s]
  {
    if c !in s then [s] else DropTrailingEmpty(SplitAll(s, c))
  }

  /** Joins `parts` with the separator `sep` between consecutive pieces. */
  function Join(parts: seq<string>, sep: string): string
    decreases |parts|
  {
    if |parts| == 0 then ""
    else if |parts| == 1 then parts[0]
    else Join(parts[..|parts| - 1], sep) + sep + parts[|parts| - 1]
  }

  /** Appending one character extends the last piece or, for the separator, starts a new one. */
  lemma SplitAllSnoc(s: string, ch: char, c: char)
    ensures ch == c ==> SplitAll(s + [ch], c) == SplitAll(s, c) + [""]
    ensures ch != c ==> (var p := SplitAll(s, c);
                         SplitAll(s + [ch], c) == p[..|p| - 1] + [p[|p| - 1] + [ch]])
  {
    assert (s + [ch])[..|s + [ch]| - 1] == s;
  }

  /** Appending text without the separator extends the last piece. */
  lemma {:induction false} SplitAllAppendPlain(s: string, t: string, c: char)
    requires c !in t
    ensures (var p := SplitAll(s, c);
             SplitAll(s + t, c) == p[..|p| - 1] + [p[|p| - 1] + t])
    decreases |t|
  {
    var p := SplitAll(s, c);
    if t == [] {
      assert s + t == s;
      assert p[|p| - 1] + t == p[|p| - 1];
      assert p == p[..|p| - 1] + [p[|p| - 1]];
    } else {
      var t' := t[..|t| - 1];
      var ch := t[|t| - 1];
      assert c !in t' by { forall i | 0 <= i < |t'| ensures t'[i] != c { assert t'[i] == t[i]; } }
      SplitAllAppendPlain(s, t', c);
      assert ch != c by { assert t[|t| - 1] == ch; }
      AppendLast(s, t);
      SplitAllSnoc(s + t', ch, c);
      var q := SplitAll(s + t', c);
      assert q[..|q| - 1] == p[..|p| - 1] && q[|q| - 1] == p[|p| - 1] + t';
      AppendLast(p[|p| - 1], t);
    }
  }

  /** Appending `t` is appending all of it but its last character, then that character. */
  lemma AppendLast(a: string, t: string)
    requires |t| > 0
    ensures a + t == (a + t[..|t| - 1]) + [t[|t| - 1]]
  {
    assert t == t[..|t| - 1] + [t[|t| - 1]];
  }

  /** Text without the separator is one piece. */
  lemma SplitAllNoSeparator(s: string, c: char)
    requires c !in s
    ensures SplitAll(s, c) == [s]
  {
    SplitAllAppendPlain("", s, c);
    assert "" + s == s;
  }

  /** Joining the pieces with the separator gives the text back. */
  lemma {:induction false} JoinSplitAll(s: string, c: char)
    ensures Join(SplitAll(s, c), [c]) == s
    decreases |s|
  {
    if s != [] {
      var s' := s[..|s| - 1];
      var ch := s[|s| - 1];
      var p := SplitAll(s', c);
      JoinSplitAll(s', c);
      assert s == s' + [ch];
      SplitAllSnoc(s', ch, c);
      if ch == c {
        JoinSnoc(p, "", c);
        assert s' + [c] + "" == s;
      } else {
        var init, last := p[..|p| - 1], p[|p| - 1];
        assert p == init + [last];
        if |p| == 1 {
          assert SplitAll(s, c) == [last + [ch]];
        } else {
          JoinSnoc(init, last, c);
          JoinSnoc(init, last + [ch], c);
          assert Join(init, [c]) + [c] + (last + [ch]) == (Join(init, [c]) + [c] + last) + [ch];
        }
      }
    }
  }

  /** Joining one more piece puts the separator before it. */
  lemma JoinSnoc(parts: seq<string>, last: string, c: char)
    requires |parts| > 0
    ensures Join(parts + [last], [c]) == Join(parts, [c]) + [c] + last
  {
    assert (parts + [last])[..|parts|] == parts;
  }

  /** Splitting a join on a separator that no piece contains gives the pieces back. */
  lemma {:induction false} SplitAllJoin(parts: seq<string>, c: char)
    requires |parts| > 0
    requires forall i :: 0 <= i < |parts| ==> c !in parts[i]
    ensures SplitAll(Join(parts, [c]), c) == parts
    decreases |parts|
  {
    if |parts| == 1 {
      SplitAllNoSeparator(parts[0], c);
    } else {
      var init := parts[..|parts| - 1];
      var last := parts[|parts| - 1];
      SplitAllJoin(init, c);
      var j := Join(init, [c]);
      SplitAllSnoc(j, c, c);
      assert Join(parts, [c]) == (j + [c]) + last;
      SplitAllAppendPlain(j + [c], last, c);
      var p := SplitAll(j + [c], c);
      assert p == init + [""];
      assert p[..|p| - 1] == init;
      assert "" + last == last;
      assert parts == init + [last];
    }
  }
}
