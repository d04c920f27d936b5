/**
 * The instance reader of the EVRPTW package (EVRPTW/read_data.py): routing
 * the node rows of an instance file by their type token, reading the vehicle
 * values, and `append_data`, which flattens node rows into the six parallel
 * node arrays in place.
 */
module ReadData {
  import opened Results

  /** Number of fields `append_data` reads from a row: x, y, demand,
      window start, window end, service time. */
  const RowFields := 6

  /** A node row: the numeric values that follow the id and type tokens. */
  type Row = seq<real>

  /** Every row has the six fields `append_data` reads. */
  predicate HasFields(rows: seq<Row>)
  {
    forall i :: 0 <= i < |rows| ==> |rows[i]| >= RowFields
  }

  /** Concatenated row lists keep the six fields. */
  lemma HasFieldsAppend(a: seq<Row>, b: seq<Row>)
    requires HasFields(a) && HasFields(b)
    ensures HasFields(a + b)
  {
    forall i | 0 <= i < |a + b| ensures |(a + b)[i]| >= RowFields {
      if i >= |a| {
        assert (a + b)[i] == b[i - |a|];
      }
    }
  }

  // ------------------------------------------------------------------
  // append_data
  // ------------------------------------------------------------------

  /** The rows appended by `repeat` whole passes over `source`
      (`for _ in range(repeat): for row in source`); a repeat of zero or
      less makes no pass. */
  function Passes(source: seq<Row>, repeat: int): (p: seq<Row>)
    ensures HasFields(source) ==> HasFields(p)
    decreases repeat
  {
    if repeat <= 0 then [] else Passes(source, repeat - 1) + source
  }

  /** Field `k` of each row, in row order: what one of the six lists receives. */
  function Column(rows: seq<Row>, k: nat): (c: seq<real>)
    requires k < RowFields && HasFields(rows)
    ensures |c| == |rows|
  {
    seq(|rows|, i requires 0 <= i < |rows| => rows[i][k])
  }

  /** Entry `i` of column `k` is field `k` of row `i`. */
  lemma ColumnAt(rows: seq<Row>, k: nat, i: nat)
    requires k < RowFields && HasFields(rows) && i < |rows|
    ensures Column(rows, k)[i] == rows[i][k]
  {
  }

  /** Entry `i` of the six columns, read across, is the first six fields
      of row `i`. */
  lemma ColumnsRow(rows: seq<Row>, i: nat)
    requires HasFields(rows) && i < |rows|
    ensures [Column(rows, 0)[i], Column(rows, 1)[i], Column(rows, 2)[i],
             Column(rows, 3)[i], Column(rows, 4)[i], Column(rows, 5)[i]] == rows[i][..RowFields]
  {
    var r := rows[i];
    assert r[..RowFields] == [r[0], r[1], r[2], r[3], r[4], r[5]];
  }

  /** Concatenating rows concatenates each of the six columns. */
  lemma ColumnsAppend(a: seq<Row>, b: seq<Row>)
    requires HasFields(a) && HasFields(b)
    ensures HasFields(a + b)
    ensures forall k :: 0 <= k < RowFields ==> Column(a + b, k) == Column(a, k) + Column(b, k)
  {
    forall k | 0 <= k < RowFields ensures Column(a + b, k) == Column(a, k) + Column(b, k) {
      var c := Column(a, k) + Column(b, k);
      forall i | 0 <= i < |a + b| ensures Column(a + b, k)[i] == c[i] {
        if i >= |a| {
          assert (a + b)[i] == b[i - |a|];
        }
      }
    }
  }

  lemma AppendAssoc(a: seq<real>, b: seq<real>, c: seq<real>)
    ensures (a + b) + c == a + (b + c)
  {
  }

  /** `repeat` passes append exactly `repeat * len(source)` rows. */
  lemma {:induction false} PassesLength(source: seq<Row>, repeat: int)
    ensures |Passes(source, repeat)| == if repeat <= 0 then 0 else repeat * |source|
    decreases repeat
  {
    if repeat > 0 {
      PassesLength(source, repeat - 1);
      assert (repeat - 1) * |source| + |source| == repeat * |source|;
    }
  }

  /** A positive multiple of `n` is at least `n`. */
  lemma {:induction false} MultipleAtLeast(c: int, n: nat)
    requires c >= 1
    ensures c * n >= n
    decreases c
  {
    if c > 1 {
      MultipleAtLeast(c - 1, n);
      assert c * n == (c - 1) * n + n;
    }
  }

  /** Remainder of an offset inside the next block of `n`. */
  lemma ModOfOffset(q: nat, n: nat, m: nat)
    requires m < n
    ensures (q * n + m) % n == m
  {
    var a := q * n + m;
    var d, r := a / n, a % n;
    assert a == d * n + r && 0 <= r < n;
    assert (d - q) * n == d * n - q * n;
    assert (q - d) * n == q * n - d * n;
    if d > q {
      MultipleAtLeast(d - q, n);
    } else if d < q {
      MultipleAtLeast(q - d, n);
    }
  }

  /** The k-th appended row is `source[k mod len(source)]`: repetition is
      whole passes over the source, not per row. */
  lemma {:induction false} PassesAt(source: seq<Row>, repeat: int, k: int)
    requires 0 <= k < |Passes(source, repeat)|
    ensures |source| > 0 && Passes(source, repeat)[k] == source[k % |source|]
    decreases repeat
  {
    var prev := Passes(source, repeat - 1);
    PassesLength(source, repeat - 1);
    if k < |prev| {
      PassesAt(source, repeat - 1, k);
    } else {
      ModOfOffset(repeat - 1, |source|, k - |prev|);
    }
  }

  /** With `repeat <= 0` or an empty source nothing is appended. */
  lemma {:induction false} NoPassAppendsNothing(source: seq<Row>, repeat: int)
    requires repeat <= 0 || source == []
    ensures Passes(source, repeat) == []
    decreases repeat
  {
    if repeat > 0 {
      NoPassAppendsNothing(source, repeat - 1);
    }
  }

  /** The six node arrays a formulation builds (`x_c, y_c, q, e, l, s`),
      grown in place by `append_data`. */
  class NodeTable {
    var xc: seq<real>
    var yc: seq<real>
    var q: seq<real>
    var e: seq<real>
    var l: seq<real>
    var s: seq<real>

    /** `x_c, y_c, q, e, l, s = [], [], [], [], [], []`. */
    constructor ()
      ensures xc == [] && yc == [] && q == [] && e == [] && l == [] && s == []
    {
      xc, yc, q, e, l, s := [], [], [], [], [], [];
    }

    /** `append_data(source, x_c, y_c, q, e, l, s, repeat)`: `repeat` whole
        passes over `source`, each row sending field 0 to `x_c`, 1 to `y_c`,
        2 to `q`, 3 to `e`, 4 to `l` and 5 to `s`. Old entries stay a prefix. */
    method AppendData(source: seq<Row>, repeat: int)
      requires HasFields(source)
      modifies this
      ensures xc == old(xc) + Column(Passes(source, repeat), 0)
      ensures yc == old(yc) + Column(Passes(source, repeat), 1)
      ensures q == old(q) + Column(Passes(source, repeat), 2)
      ensures e == old(e) + Column(Passes(source, repeat), 3)
      ensures l == old(l) + Column(Passes(source, repeat), 4)
      ensures s == old(s) + Column(Passes(source, repeat), 5)
    {
      var pass := 0;
      while pass < repeat
        invariant 0 <= pass <= (if repeat > 0 then repeat else 0)
        invariant HasFields(Passes(source, pass))
        invariant xc == old(xc) + Column(Passes(source, pass), 0)
        invariant yc == old(yc) + Column(Passes(source, pass), 1)
        invariant q == old(q) + Column(Passes(source, pass), 2)
        invariant e == old(e) + Column(Passes(source, pass), 3)
        invariant l == old(l) + Column(Passes(source, pass), 4)
        invariant s == old(s) + Column(Passes(source, pass), 5)
        decreases repeat - pass
      {
        ghost var done := Passes(source, pass);
        assert Passes(source, pass + 1) == done + source;
        ColumnsAppend(done, source);
        AppendPass(source);
        AppendAssoc(old(xc), Column(done, 0), Column(source, 0));
        AppendAssoc(old(yc), Column(done, 1), Column(source, 1));
        AppendAssoc(old(q), Column(done, 2), Column(source, 2));
        AppendAssoc(old(e), Column(done, 3), Column(source, 3));
        AppendAssoc(old(l), Column(done, 4), Column(source, 4));
        AppendAssoc(old(s), Column(done, 5), Column(source, 5));
        pass := pass + 1;
      }
      assert Passes(source, pass) == Passes(source, repeat);
    }

    /** One pass of the outer loop: `for row in source`, in order. */
    method AppendPass(source: seq<Row>)
      requires HasFields(source)
      modifies this
      ensures xc == old(xc) + Column(source, 0) && yc == old(yc) + Column(source, 1)
      ensures q == old(q) + Column(source, 2) && e == old(e) + Column(source, 3)
      ensures l == old(l) + Column(source, 4) && s == old(s) + Column(source, 5)
    {
      for j := 0 to |source|
        invariant HasFields(source[..j])
        invariant xc == old(xc) + Column(source[..j], 0)
        invariant yc == old(yc) + Column(source[..j], 1)
        invariant q == old(q) + Column(source[..j], 2)
        invariant e == old(e) + Column(source[..j], 3)
        invariant l == old(l) + Column(source[..j], 4)
        invariant s == old(s) + Column(source[..j], 5)
      {
        var row := source[j];
        assert source[..j + 1] == source[..j] + [row];
        ColumnsAppend(source[..j], [row]);
        AppendRow(row);
      }
      assert source[..|source|] == source;
    }

    /** One step of the inner loop: field `k` of `row` goes to list `k`. */
    method AppendRow(row: Row)
      requires |row| >= RowFields
      modifies this
      ensures xc == old(xc) + [row[0]] && yc == old(yc) + [row[1]]
      ensures q == old(q) + [row[2]] && e == old(e) + [row[3]]
      ensures l == old(l) + [row[4]] && s == old(s) + [row[5]]
    {
      xc := xc + [row[0]];
      yc := yc + [row[1]];
      q := q + [row[2]];
      e := e + [row[3]];
      l := l + [row[4]];
      s := s + [row[5]];
    }
  }

  // ------------------------------------------------------------------
  // read_instance
  // ------------------------------------------------------------------

  /** The characters Python's `str.split()` treats as whitespace. */
  predicate IsSpace(c: char)
  {
    c == ' ' || c == '\t' || c == '\n' || c == '\r' || c == '\U{B}' || c == '\U{C}'
    || ('\U{1C}' <= c <= '\U{1F}') || c == '\U{85}' || c == '\U{A0}' || c == '\U{1680}'
    || ('\U{2000}' <= c <= '\U{200A}') || c == '\U{2028}' || c == '\U{2029}'
    || c == '\U{202F}' || c == '\U{205F}' || c == '\U{3000}'
  }

  /** A token of `str.split()`: non-empty and free of whitespace. */
  predicate Word(w: string)
  {
    |w| > 0 && forall i :: 0 <= i < |w| ==> !IsSpace(w[i])
  }

  /** Length of the leading run of non-whitespace characters. */
  function RunLength(s: string): (n: nat)
    ensures n <= |s|
    ensures forall i :: 0 <= i < n ==> !IsSpace(s[i])
    ensures n < |s| ==> IsSpace(s[n])
  {
    if s == [] || IsSpace(s[0]) then 0 else 1 + RunLength(s[1..])
  }

  /** `s.split()` (and `s.strip().split()`): the maximal runs of
      non-whitespace characters, in order. */
  function Words(s: string): seq<string>
    decreases |s|
  {
    if s == [] then []
    else if IsSpace(s[0]) then Words(s[1..])
    else
      var n := RunLength(s);
      [s[..n]] + Words(s[n..])
  }

  /** Every token is non-empty and free of whitespace. */
  lemma {:induction false} WordsAreWords(s: string)
    ensures forall w :: w in Words(s) ==> Word(w)
    decreases |s|
  {
    if s != [] {
      if IsSpace(s[0]) {
        WordsAreWords(s[1..]);
      } else {
        var n := RunLength(s);
        WordsAreWords(s[n..]);
        assert Word(s[..n]);
      }
    }
  }

  /** The tokens written back with one blank between them. */
  function Unwords(ws: seq<string>): string
  {
    if ws == [] then [] else if |ws| == 1 then ws[0] else ws[0] + " " + Unwords(ws[1..])
  }

  lemma {:induction false} RunLengthOfWord(w: string, tail: string)
    requires Word(w)
    requires tail == [] || IsSpace(tail[0])
    ensures RunLength(w + tail) == |w|
    decreases |w|
  {
    if |w| > 1 {
      assert (w + tail)[1..] == w[1..] + tail;
      RunLengthOfWord(w[1..], tail);
    } else {
      assert (w + tail)[1..] == tail;
    }
  }

  /** Splitting tokens joined by blanks gives the tokens back. */
  lemma {:induction false} WordsOfUnwords(ws: seq<string>)
    requires forall w :: w in ws ==> Word(w)
    ensures Words(Unwords(ws)) == ws
    decreases |ws|
  {
    if ws != [] {
      var w := ws[0];
      if |ws| == 1 {
        RunLengthOfWord(w, []);
        assert w[..|w|] == w && w[|w|..] == [];
      } else {
        var rest := Unwords(ws[1..]);
        var tail := " " + rest;
        var s := w + tail;
        assert Unwords(ws) == s;
        RunLengthOfWord(w, tail);
        assert s[..|w|] == w && s[|w|..] == tail;
        assert tail[1..] == rest;
        WordsOfUnwords(ws[1..]);
        assert ws == [w] + ws[1..];
      }
    }
  }

  /** `s.replace(c, '')`: every occurrence of `c` removed. */
  function Without(s: string, c: char): string
  {
    if s == [] then [] else (if s[0] == c then [] else [s[0]]) + Without(s[1..], c)
  }

  /** No `c` is left, and a string without `c` is unchanged. */
  lemma {:induction false} WithoutRemoves(s: string, c: char)
    ensures c !in Without(s, c)
    ensures c !in s ==> Without(s, c) == s
    decreases |s|
  {
    if s != [] {
      WithoutRemoves(s[1..], c);
      assert s == [s[0]] + s[1..];
    }
  }

  /** Removing a character distributes over concatenation. */
  lemma {:induction false} WithoutAppend(a: string, b: string, c: char)
    ensures Without(a + b, c) == Without(a, c) + Without(b, c)
    decreases |a|
  {
    if a != [] {
      assert (a + b)[1..] == a[1..] + b;
      WithoutAppend(a[1..], b, c);
    } else {
      assert a + b == b;
    }
  }

  /** The lines of a block after its first line (`block[1:]`). */
  function Body(block: seq<string>): seq<string>
  {
    if |block| == 0 then [] else block[1..]
  }

  /** `row.strip().split()` for each line, in order. */
  function Tokens(lines: seq<string>): (t: seq<seq<string>>)
    ensures |t| == |lines|
    ensures forall i :: 0 <= i < |lines| ==> t[i] == Words(lines[i])
  {
    seq(|lines|, i requires 0 <= i < |lines| => Words(lines[i]))
  }

  /** Every line has at least `min` tokens. */
  predicate AllLong(toks: seq<seq<string>>, min: nat)
  {
    forall i :: 0 <= i < |toks| ==> |toks[i]| >= min
  }

  /** Index of the first line with fewer than `min` tokens: where Python's
      indexing of the token list raises. */
  function FirstShort(toks: seq<seq<string>>, min: nat): (k: nat)
    requires !AllLong(toks, min)
    ensures k < |toks| && |toks[k]| < min
    ensures AllLong(toks[..k], min)
  {
    if |toks[0]| < min then 0
    else
      var k := FirstShort(toks[1..], min);
      assert toks[..k + 1] == [toks[0]] + toks[1..][..k];
      1 + k
  }

  /** The first short line is the only line that is short with every
      line before it long enough. */
  lemma FirstShortUnique(toks: seq<seq<string>>, min: nat, k: nat)
    requires k < |toks| && |toks[k]| < min && AllLong(toks[..k], min)
    ensures FirstShort(toks, min) == k
  {
    var f := FirstShort(toks, min);
    forall i | 0 <= i < k ensures |toks[i]| >= min {
      assert toks[..k][i] == toks[i];
    }
    forall i | 0 <= i < f ensures |toks[i]| >= min {
      assert toks[..f][i] == toks[i];
    }
  }

  /** `[float(i) for i in values[2:]]`: the values after id and type. */
  function NodeValues(tokens: seq<string>, parse: string -> real): (r: Row)
    requires |tokens| >= 2
    ensures |r| == |tokens| - 2
    ensures forall i :: 0 <= i < |r| ==> r[i] == parse(tokens[i + 2])
  {
    seq(|tokens| - 2, i requires 0 <= i < |tokens| - 2 => parse(tokens[i + 2]))
  }

  /** What one node row contributes to the role list for `kind`: its
      values when its type token (the second) is `kind`, nothing
      otherwise. */
  function Routed(values: seq<string>, kind: string, parse: string -> real): seq<Row>
    requires |values| >= 2
  {
    if values[1] == kind then [NodeValues(values, parse)] else []
  }

  /** The node rows whose type token is `kind`, each reduced to its values,
      in file order. */
  function Route(toks: seq<seq<string>>, kind: string, parse: string -> real): seq<Row>
    requires AllLong(toks, 2)
  {
    if toks == [] then [] else Routed(toks[0], kind, parse) + Route(toks[1..], kind, parse)
  }

  /** Routing keeps file order: the rows of a longer file come after those
      of its prefix. */
  lemma {:induction false} RouteAppend(a: seq<seq<string>>, b: seq<seq<string>>, kind: string, parse: string -> real)
    requires AllLong(a, 2) && AllLong(b, 2)
    ensures AllLong(a + b, 2)
    ensures Route(a + b, kind, parse) == Route(a, kind, parse) + Route(b, kind, parse)
    decreases |a|
  {
    if a == [] {
      assert a + b == b;
    } else {
      assert (a + b)[1..] == a[1..] + b;
      RouteAppend(a[1..], b, kind, parse);
    }
  }

  /** One more node row extends the role list it names, and no other. */
  lemma RouteStep(toks: seq<seq<string>>, k: nat, kind: string, parse: string -> real)
    requires k < |toks| && AllLong(toks[..k], 2) && |toks[k]| >= 2
    ensures AllLong(toks[..k + 1], 2)
    ensures Route(toks[..k + 1], kind, parse) == Route(toks[..k], kind, parse) + Routed(toks[k], kind, parse)
  {
    assert toks[..k + 1] == toks[..k] + [toks[k]];
    RouteAppend(toks[..k], [toks[k]], kind, parse);
    assert [toks[k]][1..] == [];
  }

  /** The `j`-th of `rows` is the values of node line `idx[j]`, whose type
      token is `kind`. */
  ghost predicate RowsFrom(toks: seq<seq<string>>, kind: string, parse: string -> real, rows: seq<Row>, idx: seq<nat>)
    requires AllLong(toks, 2)
  {
    && |idx| == |rows|
    && forall j :: 0 <= j < |idx| ==>
         idx[j] < |toks| && toks[idx[j]][1] == kind && rows[j] == NodeValues(toks[idx[j]], parse)
  }

  /** Line numbers in file order. */
  ghost predicate Increasing(idx: seq<nat>)
  {
    forall j, j' :: 0 <= j < j' < |idx| ==> idx[j] < idx[j']
  }

  /** Every node line of type `kind` is among `idx`. */
  ghost predicate Covers(toks: seq<seq<string>>, kind: string, idx: seq<nat>)
    requires AllLong(toks, 2)
  {
    forall i :: 0 <= i < |toks| && toks[i][1] == kind ==> i in idx
  }

  /** `rows` came from the node lines `idx` of type `kind`: each row is the
      values of its line, the lines are taken in file order, and every line
      of that type is taken. */
  ghost predicate LinesOf(toks: seq<seq<string>>, kind: string, parse: string -> real, rows: seq<Row>, idx: seq<nat>)
    requires AllLong(toks, 2)
  {
    RowsFrom(toks, kind, parse, rows, idx) && Increasing(idx) && Covers(toks, kind, idx)
  }

  /** Line numbers counted from the second line, counted again from the
      first. */
  function Shift(rest: seq<nat>): (r: seq<nat>)
  {
    seq(|rest|, j requires 0 <= j < |rest| => rest[j] + 1)
  }

  /** Shifted line numbers name the same lines, now past the first. */
  lemma ShiftRows(toks: seq<seq<string>>, kind: string, parse: string -> real, later: seq<Row>, rest: seq<nat>)
    requires |toks| >= 1 && AllLong(toks, 2) && AllLong(toks[1..], 2)
    requires RowsFrom(toks[1..], kind, parse, later, rest)
    ensures RowsFrom(toks, kind, parse, later, Shift(rest))
  {
    forall j | 0 <= j < |rest|
      ensures Shift(rest)[j] < |toks| && toks[Shift(rest)[j]][1] == kind && later[j] == NodeValues(toks[Shift(rest)[j]], parse)
    {
      assert toks[Shift(rest)[j]] == toks[1..][rest[j]];
    }
  }

  /** Shifting keeps line numbers in order. */
  lemma ShiftIncreasing(rest: seq<nat>)
    requires Increasing(rest)
    ensures Increasing(Shift(rest))
  {
  }

  /** Every line past the first of type `kind` is among the shifted
      line numbers. */
  lemma ShiftCovers(toks: seq<seq<string>>, kind: string, rest: seq<nat>)
    requires |toks| >= 1 && AllLong(toks, 2) && AllLong(toks[1..], 2)
    requires Covers(toks[1..], kind, rest)
    ensures forall i :: 1 <= i < |toks| && toks[i][1] == kind ==> i in Shift(rest)
  {
    forall i | 1 <= i < |toks| && toks[i][1] == kind ensures i in Shift(rest) {
      assert toks[1..][i - 1] == toks[i];
      var j :| 0 <= j < |rest| && rest[j] == i - 1;
      assert Shift(rest)[j] == i;
    }
  }

  /** Line 0, of type `kind`, taken in front of the shifted lines. */
  lemma TakenRows(toks: seq<seq<string>>, kind: string, parse: string -> real, later: seq<Row>, rest: seq<nat>)
    requires |toks| >= 1 && AllLong(toks, 2) && toks[0][1] == kind
    requires RowsFrom(toks, kind, parse, later, Shift(rest))
    ensures RowsFrom(toks, kind, parse, [NodeValues(toks[0], parse)] + later, [0] + Shift(rest))
  {
    var idx, rows := [0] + Shift(rest), [NodeValues(toks[0], parse)] + later;
    forall j | 0 <= j < |idx|
      ensures idx[j] < |toks| && toks[idx[j]][1] == kind && rows[j] == NodeValues(toks[idx[j]], parse)
    {
      if j > 0 {
        assert idx[j] == Shift(rest)[j - 1] && rows[j] == later[j - 1];
      }
    }
  }

  /** Line 0 comes before every shifted line. */
  lemma TakenIncreasing(rest: seq<nat>)
    requires Increasing(Shift(rest))
    ensures Increasing([0] + Shift(rest))
  {
    var idx := [0] + Shift(rest);
    forall j, j' | 0 <= j < j' < |idx| ensures idx[j] < idx[j'] {
      assert idx[j'] == Shift(rest)[j' - 1];
      if j > 0 {
        assert idx[j] == Shift(rest)[j - 1];
      }
    }
  }

  /** With line 0 taken, every line of type `kind` is. */
  lemma TakenCovers(toks: seq<seq<string>>, kind: string, rest: seq<nat>)
    requires |toks| >= 1 && AllLong(toks, 2)
    requires forall i :: 1 <= i < |toks| && toks[i][1] == kind ==> i in Shift(rest)
    ensures Covers(toks, kind, [0] + Shift(rest))
  {
    forall i | 0 <= i < |toks| && toks[i][1] == kind ensures i in [0] + Shift(rest) {
      if i > 0 {
        assert i in Shift(rest);
      }
    }
  }

  /** With line 0 of another type, the shifted lines are all of type
      `kind`. */
  lemma SkippedCovers(toks: seq<seq<string>>, kind: string, rest: seq<nat>)
    requires |toks| >= 1 && AllLong(toks, 2) && toks[0][1] != kind
    requires forall i :: 1 <= i < |toks| && toks[i][1] == kind ==> i in Shift(rest)
    ensures Covers(toks, kind, Shift(rest))
  {
  }

  /** One more line in front: the new line is taken when its type is
      `kind`, and skipped otherwise. */
  lemma LinesCons(toks: seq<seq<string>>, kind: string, parse: string -> real, later: seq<Row>, rest: seq<nat>)
    returns (idx: seq<nat>)
    requires |toks| >= 1 && AllLong(toks, 2) && AllLong(toks[1..], 2)
    requires LinesOf(toks[1..], kind, parse, later, rest)
    ensures LinesOf(toks, kind, parse, Routed(toks[0], kind, parse) + later, idx)
  {
    ShiftRows(toks, kind, parse, later, rest);
    ShiftIncreasing(rest);
    ShiftCovers(toks, kind, rest);
    if toks[0][1] == kind {
      TakenRows(toks, kind, parse, later, rest);
      TakenIncreasing(rest);
      TakenCovers(toks, kind, rest);
      idx := [0] + Shift(rest);
    } else {
      SkippedCovers(toks, kind, rest);
      idx := Shift(rest);
      assert Routed(toks[0], kind, parse) + later == later;
    }
  }

  /** Where the rows of a role list come from: each is the values of a node
      line whose type token is `kind`, in file order, and no such line is
      missed. */
  lemma {:induction false} RouteLines(toks: seq<seq<string>>, kind: string, parse: string -> real)
    returns (idx: seq<nat>)
    requires AllLong(toks, 2)
    ensures LinesOf(toks, kind, parse, Route(toks, kind, parse), idx)
    decreases |toks|
  {
    if toks == [] {
      idx := [];
    } else {
      var rest := RouteLines(toks[1..], kind, parse);
      idx := LinesCons(toks, kind, parse, Route(toks[1..], kind, parse), rest);
    }
  }

  /** Number of node rows whose type token is none of `d`, `f`, `c`. */
  function Dropped(toks: seq<seq<string>>): (n: nat)
    requires AllLong(toks, 2)
    ensures n == 0 <==> forall i :: 0 <= i < |toks| ==> toks[i][1] in {"d", "f", "c"}
  {
    if toks == [] then 0
    else
      var rest := Dropped(toks[1..]);
      assert forall i :: 1 <= i < |toks| ==> toks[i] == toks[1..][i - 1];
      (if toks[0][1] in {"d", "f", "c"} then 0 else 1) + rest
  }

  /** Every node row lands in exactly one of the three role lists, or is
      dropped. */
  lemma {:induction false} RouteSizes(toks: seq<seq<string>>, parse: string -> real)
    requires AllLong(toks, 2)
    ensures |Route(toks, "d", parse)| + |Route(toks, "f", parse)| + |Route(toks, "c", parse)|
            + Dropped(toks) == |toks|
    decreases |toks|
  {
    if toks != [] {
      RouteSizes(toks[1..], parse);
    }
  }

  /** `float(row.split()[-1].replace('/', ''))`: the last token of a vehicle
      line without its slashes. */
  function VehicleValue(tokens: seq<string>, parse: string -> real): real
    requires |tokens| >= 1
  {
    parse(Without(tokens[|tokens| - 1], '/'))
  }

  /** One vehicle value per line of the vehicle block. */
  function VehicleValues(toks: seq<seq<string>>, parse: string -> real): (v: seq<real>)
    requires AllLong(toks, 1)
    ensures |v| == |toks|
    ensures forall i :: 0 <= i < |toks| ==> v[i] == VehicleValue(toks[i], parse)
  {
    seq(|toks|, i requires 0 <= i < |toks| => VehicleValue(toks[i], parse))
  }

  /** A trailing slash on a token is dropped, the rest kept. */
  lemma TrailingSlashDropped(w: string)
    requires '/' !in w
    ensures Without(w + "/", '/') == w
  {
    WithoutRemoves(w, '/');
    WithoutAppend(w, "/", '/');
    assert Without("/", '/') == [] + Without([], '/');
  }

  /** A trailing slash on the last token of a vehicle line is ignored. */
  lemma TrailingSlashIgnored(tokens: seq<string>, w: string, parse: string -> real)
    requires |tokens| >= 1 && tokens[|tokens| - 1] == w + "/"
    requires '/' !in w
    ensures VehicleValue(tokens, parse) == parse(w)
  {
    TrailingSlashDropped(w);
  }

  /** A parsed instance: the three role lists and the vehicle values. */
  datatype Instance = Instance(depot: seq<Row>, stations: seq<Row>, clients: seq<Row>, vehicle: seq<real>)

  /** The exceptions `read_instance` raises on a malformed block structure. */
  datatype ReadError =
    | ShortNodeRow(line: nat)       // a node line with fewer than two tokens, by index in block 0
    | MissingVehicleBlock           // the file has no second block
    | EmptyVehicleRow(line: nat)    // a vehicle line without tokens, by index in block 1

  /** `read_instance` on a file already split into blocks of lines: the
      header line of block 0 is skipped, each other line is routed by its
      second token (`d` depot, `f` recharge station, `c` client, anything
      else dropped), and block 1 gives one vehicle value per line. */
  method ReadInstance(blocks: seq<seq<string>>, parse: string -> real) returns (r: Result<Instance, ReadError>)
    requires |blocks| >= 1
    ensures var toks := Tokens(Body(blocks[0]));
      if !AllLong(toks, 2) then r == Err(ShortNodeRow(FirstShort(toks, 2) + 1))
      else if |blocks| < 2 then r == Err(MissingVehicleBlock)
      else if !AllLong(Tokens(blocks[1]), 1) then r == Err(EmptyVehicleRow(FirstShort(Tokens(blocks[1]), 1)))
      else r == Ok(Instance(Route(toks, "d", parse), Route(toks, "f", parse),
                            Route(toks, "c", parse), VehicleValues(Tokens(blocks[1]), parse)))
  {
    var rows := Body(blocks[0]);
    ghost var toks := Tokens(rows);
    var depot, stations, clients := [], [], [];
    for k := 0 to |rows|
      invariant AllLong(toks[..k], 2)
      invariant depot == Route(toks[..k], "d", parse)
      invariant stations == Route(toks[..k], "f", parse)
      invariant clients == Route(toks[..k], "c", parse)
    {
      var values := Words(rows[k]);
      assert values == toks[k];
      if |values| < 2 {
        FirstShortUnique(toks, 2, k);
        return Err(ShortNodeRow(k + 1));
      }
      RouteStep(toks, k, "d", parse);
      RouteStep(toks, k, "f", parse);
      RouteStep(toks, k, "c", parse);
      if values[1] == "d" {
        depot := depot + [NodeValues(values, parse)];
      } else if values[1] == "f" {
        stations := stations + [NodeValues(values, parse)];
      } else if values[1] == "c" {
        clients := clients + [NodeValues(values, parse)];
      }
    }
    assert toks[..|rows|] == toks;
    if |blocks| < 2 {
      return Err(MissingVehicleBlock);
    }
    var vehicleTokens := Tokens(blocks[1]);
    if !AllLong(vehicleTokens, 1) {
      return Err(EmptyVehicleRow(FirstShort(vehicleTokens, 1)));
    }
    r := Ok(Instance(depot, stations, clients, VehicleValues(vehicleTokens, parse)));
  }

}
