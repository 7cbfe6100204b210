/**
 * The exchange's log: after every change of quantities the whole stock table
 * is printed with `Hashtable.toString`, one line `{name=qty, name=qty}` in the
 * table's iteration order. On restart the last line is parsed back and each
 * quantity it lists is added to the (freshly loaded, zero) stock.
 */
module Snapshots {
  import opened JavaLang

  // ---------------------------------------------------------------------------
  // Writing a snapshot

  /** One entry of `Hashtable.toString`: the key, '=', and the value's `toString`. */
  function Entry(name: string, qty: int): string
  {
    name + "=" + Decimal(qty)
  }

  function Entries(order: seq<string>, q: map<string, int>): (es: seq<string>)
    requires forall i :: 0 <= i < |order| ==> order[i] in q
    ensures |es| == |order|
    decreases |order|
  {
    if order == [] then []
    else Entries(order[..|order| - 1], q) + [Entry(order[|order| - 1], q[order[|order| - 1]])]
  }

  /** The log line for the quantities `q` of the stocks listed, in this order, in `order`. */
  function SnapshotLine(order: seq<string>, q: map<string, int>): string
    requires forall i :: 0 <= i < |order| ==> order[i] in q
  {
    "{" + Join(Entries(order, q), ", ") + "}"
  }

  // ---------------------------------------------------------------------------
  // Reading one back

  /**
   * One `name=qty` piece: split at '=' and trim the name and the value. A
   * piece without a value and a value that is not an `int` throw (None).
   */
  function ParsePair(pair: string): Option<(string, int)>
  {
    var entry := JavaSplit(pair, '=');
    if |entry| < 2 then None
    else
      match ParseInt(Trim(entry[1]))
      case None => None
      case Some(v) => Some((Trim(entry[0]), v))
  }

  /** Adds a parsed piece's value to the named stock; an unknown name throws (None). */
  function ApplyPair(q: map<string, int>, pair: string): (r: Option<map<string, int>>)
    ensures r.Some? ==> r.value.Keys == q.Keys
  {
    match ParsePair(pair)
    case None => None
    case Some((name, v)) => if name in q then Some(q[name := Wrap(q[name] + v)]) else None
  }

  function ApplyPairs(q: map<string, int>, pairs: seq<string>): (r: Option<map<string, int>>)
    ensures r.Some? ==> r.value.Keys == q.Keys
    decreases |pairs|
  {
    if pairs == [] then Some(q)
    else
      match ApplyPairs(q, pairs[..|pairs| - 1])
      case None => None
      case Some(q1) => ApplyPair(q1, pairs[|pairs| - 1])
  }

  /**
   * Recovery from the last log line: an empty line changes nothing; otherwise
   * the first and last characters are cut off (a one-character line makes
   * `substring` throw) and the rest is split at ',' into pieces.
   */
  function Recover(q: map<string, int>, lastLine: string): (r: Option<map<string, int>>)
    ensures r.Some? ==> r.value.Keys == q.Keys
    ensures lastLine == "" ==> r == Some(q)
  {
    if |lastLine| == 0 then Some(q)
    else if |lastLine| == 1 then None
    else ApplyPairs(q, JavaSplit(lastLine[1..|lastLine| - 1], ','))
  }

  // ---------------------------------------------------------------------------
  // Round trip

  /** Stock names as the loader keeps them: letters only. */
  predicate PlainName(n: string)
  {
    |n| > 0 && forall i :: 0 <= i < |n| ==> 'A' <= n[i] <= 'Z' || 'a' <= n[i] <= 'z'
  }

  /** The pieces `split(",")` makes of entries joined by ", ": all but the first keep the blank. */
  function Padded(es: seq<string>): (ps: seq<string>)
    ensures |ps| == |es|
  {
    seq(|es|, i requires 0 <= i < |es| => if i == 0 then es[i] else " " + es[i])
  }

  lemma {:induction false} JoinPadded(es: seq<string>)
    requires |es| > 0
    ensures Join(es, ", ") == Join(Padded(es), [','])
    decreases |es|
  {
    if |es| > 1 {
      var init := es[..|es| - 1];
      JoinPadded(init);
      assert Padded(es)[..|es| - 1] == Padded(init);
      assert Join(es, ", ") == Join(init, ", ") + ", " + es[|es| - 1];
      assert Join(Padded(es), [',']) == Join(Padded(init), [',']) + [','] + (" " + es[|es| - 1]);
    }
  }

  lemma DecimalChars(n: int)
    ensures |Decimal(n)| > 0
    ensures forall i :: 0 <= i < |Decimal(n)| ==> IsDigit(Decimal(n)[i]) || (i == 0 && Decimal(n)[i] == '-')
    ensures IsDigit(Decimal(n)[|Decimal(n)| - 1])
  {
    if n < 0 {
      var d := Digits(-n);
      assert Decimal(n) == "-" + d;
      assert forall i :: 1 <= i < |Decimal(n)| ==> Decimal(n)[i] == d[i - 1];
    }
  }

  /** One padded entry splits at '=' into the padded name and the value's text. */
  lemma SplitEntry(pre: string, name: string, v: int)
    requires pre == "" || pre == " "
    requires PlainName(name)
    ensures JavaSplit(pre + Entry(name, v), '=') == [pre + name, Decimal(v)]
  {
    var s := pre + Entry(name, v);
    var d := Decimal(v);
    DecimalChars(v);
    assert '=' !in pre + name by {
      forall i | 0 <= i < |pre + name| ensures (pre + name)[i] != '=' {
        if i >= |pre| { assert (pre + name)[i] == name[i - |pre|]; }
      }
    }
    assert '=' !in d by {
      forall i | 0 <= i < |d| ensures d[i] != '=' { }
    }
    assert Join([pre + name, d], "=") == Join([pre + name], "=") + "=" + d;
    assert [pre + name, d][..1] == [pre + name];
    assert s == Join([pre + name, d], "=");
    SplitAllJoin([pre + name, d], '=');
    assert s[|pre + name|] == '=';
  }

  /** Trimming recovers the name, with or without the blank before it. */
  lemma TrimName(pre: string, name: string)
    requires pre == "" || pre == " "
    requires PlainName(name)
    ensures Trim(pre + name) == name
  {
    if pre == " " {
      assert (pre + name)[1..] == name;
      assert TrimStart(pre + name) == TrimStart(name);
    } else {
      assert pre + name == name;
    }
    assert name[0] > ' ' && name[|name| - 1] > ' ';
    TrimBounds(name);
  }

  /** Trimming leaves a value's text alone. */
  lemma TrimDecimal(v: int)
    ensures Trim(Decimal(v)) == Decimal(v)
  {
    var d := Decimal(v);
    DecimalChars(v);
    assert d[0] > ' ' && d[|d| - 1] > ' ';
    TrimBounds(d);
  }

  /** A piece that splits into a known name and an `int` sets that stock, held at 0, to the value. */
  lemma ApplyPairParts(q: map<string, int>, pair: string, a: string, b: string, v: int)
    requires JavaSplit(pair, '=') == [a, b]
    requires Trim(a) in q && q[Trim(a)] == 0 && ParseInt(Trim(b)) == Some(v)
    ensures ApplyPair(q, pair) == Some(q[Trim(a) := v])
  {
  }

  /** Applying one logged entry to a quantity of 0 sets it to the logged value. */
  lemma ApplyEntry(q: map<string, int>, pre: string, name: string, v: int)
    requires pre == "" || pre == " "
    requires PlainName(name) && name in q && q[name] == 0 && MinInt <= v <= MaxInt
    ensures ApplyPair(q, pre + Entry(name, v)) == Some(q[name := v])
  {
    var pair := pre + Entry(name, v);
    assert JavaSplit(pair, '=') == [pre + name, Decimal(v)] by { SplitEntry(pre, name, v); }
    assert Trim(pre + name) == name by { TrimName(pre, name); }
    assert ParseInt(Trim(Decimal(v))) == Some(v) by { TrimDecimal(v); DecimalRoundTrip(v); }
    ApplyPairParts(q, pair, pre + name, Decimal(v), v);
  }

  /** The state after the first `k` pieces: the first `k` listed stocks hold their logged quantities. */
  function Restored(zero: map<string, int>, order: seq<string>, q: map<string, int>, k: nat): map<string, int>
    requires k <= |order|
    requires forall i :: 0 <= i < |order| ==> order[i] in q
  {
    map n | n in zero :: if n in order[..k] then q[n] else zero[n]
  }

  lemma RestoredStep(zero: map<string, int>, order: seq<string>, q: map<string, int>, k: nat)
    requires 0 < k <= |order|
    requires forall i :: 0 <= i < |order| ==> order[i] in q
    requires order[k - 1] in zero
    ensures Restored(zero, order, q, k) == Restored(zero, order, q, k - 1)[order[k - 1] := q[order[k - 1]]]
  {
    assert order[..k] == order[..k - 1] + [order[k - 1]];
  }

  /** The `i`-th entry of a snapshot is the `i`-th stock's. */
  lemma {:induction false} EntriesAt(order: seq<string>, q: map<string, int>)
    requires forall i :: 0 <= i < |order| ==> order[i] in q
    ensures forall i :: 0 <= i < |order| ==> Entries(order, q)[i] == Entry(order[i], q[order[i]])
    decreases |order|
  {
    if order != [] {
      EntriesAt(order[..|order| - 1], q);
    }
  }

  /** The `k`-th piece of a snapshot's body, as `split(",")` leaves it. */
  lemma PaddedEntry(order: seq<string>, q: map<string, int>, k: nat)
    requires k < |order|
    requires forall i :: 0 <= i < |order| ==> order[i] in q
    ensures Padded(Entries(order, q))[k] == (if k == 0 then "" else " ") + Entry(order[k], q[order[k]])
  {
    EntriesAt(order, q);
  }

  /** The `k`-th piece of a snapshot sets its stock, held at 0, to the logged value. */
  lemma ApplyPaddedEntry(prev: map<string, int>, order: seq<string>, q: map<string, int>, k: nat)
    requires k < |order|
    requires forall i :: 0 <= i < |order| ==> order[i] in q
    requires PlainName(order[k]) && MinInt <= q[order[k]] <= MaxInt
    requires order[k] in prev && prev[order[k]] == 0
    ensures ApplyPair(prev, Padded(Entries(order, q))[k]) == Some(prev[order[k] := q[order[k]]])
  {
    PaddedEntry(order, q, k);
    ApplyEntry(prev, if k == 0 then "" else " ", order[k], q[order[k]]);
  }

  /** Reading `k` pieces when the first `k - 1` left `prev`. */
  lemma ApplyPairsSnoc(q: map<string, int>, ps: seq<string>, k: nat, prev: map<string, int>, next: map<string, int>)
    requires 0 < k <= |ps|
    requires ApplyPairs(q, ps[..k - 1]) == Some(prev)
    requires ApplyPair(prev, ps[k - 1]) == Some(next)
    ensures ApplyPairs(q, ps[..k]) == Some(next)
  {
    assert ps[..k][..k - 1] == ps[..k - 1];
  }

  lemma {:induction false} ApplyEntries(zero: map<string, int>, order: seq<string>, q: map<string, int>, k: nat)
    requires k <= |order|
    requires forall i, j :: 0 <= i < j < |order| ==> order[i] != order[j]
    requires forall i :: 0 <= i < |order| ==>
      PlainName(order[i]) && order[i] in q && MinInt <= q[order[i]] <= MaxInt && order[i] in zero && zero[order[i]] == 0
    ensures ApplyPairs(zero, Padded(Entries(order, q))[..k]) == Some(Restored(zero, order, q, k))
    decreases k
  {
    if k == 0 {
      assert Padded(Entries(order, q))[..0] == [];
      assert Restored(zero, order, q, 0) == zero;
    } else {
      ApplyEntries(zero, order, q, k - 1);
      var prev := Restored(zero, order, q, k - 1);
      var name := order[k - 1];
      assert prev[name] == 0 by {
        forall i | 0 <= i < k - 1 ensures order[i] != name { }
        assert name !in order[..k - 1];
      }
      ApplyPaddedEntry(prev, order, q, k - 1);
      ApplyPairsSnoc(zero, Padded(Entries(order, q)), k, prev, prev[name := q[name]]);
      RestoredStep(zero, order, q, k);
    }
  }

  /** A padded entry holds no ','. */
  lemma EntryNoComma(pre: string, name: string, v: int)
    requires pre == "" || pre == " "
    requires PlainName(name)
    ensures ',' !in pre + Entry(name, v)
  {
    var d := Decimal(v);
    DecimalChars(v);
    var e := pre + Entry(name, v);
    assert e == (pre + name) + ("=" + d);
    assert ',' !in pre + name by {
      forall j | 0 <= j < |pre + name| ensures (pre + name)[j] != ',' {
        if j >= |pre| { assert (pre + name)[j] == name[j - |pre|]; }
      }
    }
    assert ',' !in "=" + d by {
      forall j | 0 <= j < |"=" + d| ensures ("=" + d)[j] != ',' {
        if j > 0 { assert ("=" + d)[j] == d[j - 1]; }
      }
    }
  }

  /** No piece of a snapshot's inner text holds ','. */
  lemma NoCommaInPieces(order: seq<string>, q: map<string, int>)
    requires forall i :: 0 <= i < |order| ==> PlainName(order[i]) && order[i] in q
    ensures forall i :: 0 <= i < |order| ==> ',' !in Padded(Entries(order, q))[i]
  {
    var ps := Padded(Entries(order, q));
    EntriesAt(order, q);
    forall i | 0 <= i < |ps| ensures ',' !in ps[i] {
      var pre := if i == 0 then "" else " ";
      EntryNoComma(pre, order[i], q[order[i]]);
    }
  }

  /** Splitting a snapshot's inner text at ',' gives the padded entries. */
  lemma SplitSnapshot(order: seq<string>, q: map<string, int>)
    requires |order| > 0
    requires forall i :: 0 <= i < |order| ==> PlainName(order[i]) && order[i] in q
    ensures JavaSplit(Join(Entries(order, q), ", "), ',') == Padded(Entries(order, q))
  {
    var es := Entries(order, q);
    var ps := Padded(es);
    var inner := Join(es, ", ");
    JoinPadded(es);
    NoCommaInPieces(order, q);
    SplitAllJoin(ps, ',');
    assert ps[|ps| - 1] != "" by {
      assert |Entry(order[|ps| - 1], q[order[|ps| - 1]])| > 0;
    }
    if ',' !in inner {
      SplitAllNoSeparator(inner, ',');
    }
  }

  /**
   * Starting from zero quantities, recovering from a snapshot of `q` gives
   * every listed stock its logged quantity and leaves the others at zero:
   * the log line round-trips through the parse.
   */
  lemma SnapshotRoundTrip(order: seq<string>, q: map<string, int>, zero: map<string, int>)
    requires |order| > 0
    requires forall i, j :: 0 <= i < j < |order| ==> order[i] != order[j]
    requires forall i :: 0 <= i < |order| ==>
      PlainName(order[i]) && order[i] in q && MinInt <= q[order[i]] <= MaxInt && order[i] in zero && zero[order[i]] == 0
    ensures var r := Recover(zero, SnapshotLine(order, q));
      r.Some? && r.value.Keys == zero.Keys
      && forall n :: n in zero ==> r.value[n] == if n in order then q[n] else zero[n]
  {
    var line := SnapshotLine(order, q);
    assert line[1..|line| - 1] == Join(Entries(order, q), ", ");
    SplitSnapshot(order, q);
    ApplyEntries(zero, order, q, |order|);
    assert Padded(Entries(order, q))[..|order|] == Padded(Entries(order, q));
    assert order[..|order|] == order;
  }

  /** An empty table's snapshot `{}` cannot be read back: its only piece has no '='. */
  lemma EmptySnapshotFails(q: map<string, int>)
    ensures SnapshotLine([], q) == "{}"
    ensures Recover(q, "{}") == None
  {
    assert "{}"[1..1] == "";
    assert JavaSplit("", ',') == [""];
    assert JavaSplit("", '=') == [""];
  }
}
