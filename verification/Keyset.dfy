/**
 Keyset order: a list of columns with mixed directions, the SQL predicate for
 "strictly after the cursor", and the key vectors of runs that may lack a key.
 */
module Keyset {
  import opened Wrappers

  /** A non-null database value; numbers sort before text, text sorts by code unit. */
  datatype Value = Num(n: real) | Text(s: string)

  type Key = seq<Value>

  predicate TextLess(a: string, b: string)
    decreases |a|
  {
    b != "" && (a == "" || a[0] < b[0] || (a[0] == b[0] && TextLess(a[1..], b[1..])))
  }

  predicate Less(a: Value, b: Value) {
    match (a, b)
    case (Num(x), Num(y)) => x < y
    case (Num(_), Text(_)) => true
    case (Text(_), Num(_)) => false
    case (Text(x), Text(y)) => TextLess(x, y)
  }

  lemma {:induction false} TextLessTotal(a: string, b: string)
    ensures a == b ==> !TextLess(a, b)
    ensures a != b ==> (TextLess(a, b) <==> !TextLess(b, a))
    decreases |a|
  {
    if a != "" && b != "" {
      TextLessTotal(a[1..], b[1..]);
      assert a == [a[0]] + a[1..] && b == [b[0]] + b[1..];
    }
  }

  lemma {:induction false} TextLessTransitive(a: string, b: string, c: string)
    requires TextLess(a, b) && TextLess(b, c)
    ensures TextLess(a, c)
    decreases |a|
  {
    if a != "" && a[0] == b[0] == c[0] {
      TextLessTransitive(a[1..], b[1..], c[1..]);
    }
  }

  /** The texts agree up to k, where the first ends or has the smaller character. */
  predicate FirstDiffersAt(a: string, b: string, k: nat) {
    k <= |a| && k < |b| && a[..k] == b[..k] && (k == |a| || a[k] < b[k])
  }

  lemma {:induction false} SameFirst(a: string, b: string, k: nat)
    requires FirstDiffersAt(a, b, k) && k > 0
    ensures a != "" && b != "" && a[0] == b[0]
  {
    assert a[..k][0] == b[..k][0];
  }

  /** Text order is decided where two texts first differ; a prefix comes first. */
  lemma {:induction false} TextLessAt(a: string, b: string)
    ensures TextLess(a, b) <==> exists k: nat :: FirstDiffersAt(a, b, k)
    decreases |a|
  {
    if a == "" || b == "" || a[0] != b[0] {
      assert FirstDiffersAt(a, b, 0) <==> b != "" && (a == "" || a[0] < b[0]);
      forall k: nat | FirstDiffersAt(a, b, k) ensures k == 0 {
        if k > 0 {
          SameFirst(a, b, k);
        }
      }
    } else {
      var x, y := a[1..], b[1..];
      TextLessAt(x, y);
      forall k: nat | FirstDiffersAt(x, y, k) ensures FirstDiffersAt(a, b, k + 1) {
        assert a[..k + 1] == [a[0]] + x[..k] && b[..k + 1] == [b[0]] + y[..k];
      }
      forall k: nat | FirstDiffersAt(a, b, k) ensures k > 0 && FirstDiffersAt(x, y, k - 1) {
        assert x[..k - 1] == a[..k][1..] && y[..k - 1] == b[..k][1..];
      }
    }
  }

  /** Does x come strictly before y in a column? */
  predicate ColBefore(desc: bool, x: Value, y: Value) {
    if desc then Less(y, x) else Less(x, y)
  }

  lemma {:induction false} ColBeforeTotal(desc: bool, x: Value, y: Value)
    ensures x == y ==> !ColBefore(desc, x, y)
    ensures x != y ==> (ColBefore(desc, x, y) <==> !ColBefore(desc, y, x))
  {
    if x.Text? && y.Text? {
      TextLessTotal(x.s, y.s);
    }
  }

  lemma {:induction false} ColBeforeTransitive(desc: bool, x: Value, y: Value, z: Value)
    requires ColBefore(desc, x, y) && ColBefore(desc, y, z)
    ensures ColBefore(desc, x, z)
  {
    if x.Text? && y.Text? && z.Text? {
      if desc {
        TextLessTransitive(z.s, y.s, x.s);
      } else {
        TextLessTransitive(x.s, y.s, z.s);
      }
    }
  }

  /** ORDER BY: the lexicographic order of key vectors. */
  predicate KeyBefore(desc: seq<bool>, a: Key, b: Key)
    requires |a| == |b| == |desc|
    decreases |desc|
  {
    desc != [] &&
    (ColBefore(desc[0], a[0], b[0]) || (a[0] == b[0] && KeyBefore(desc[1..], a[1..], b[1..])))
  }

  /** A strict total order: exactly one of before, equal, after. */
  lemma {:induction false} KeyBeforeTotal(desc: seq<bool>, a: Key, b: Key)
    requires |a| == |b| == |desc|
    ensures a == b ==> !KeyBefore(desc, a, b)
    ensures a != b ==> (KeyBefore(desc, a, b) <==> !KeyBefore(desc, b, a))
    decreases |desc|
  {
    if desc != [] {
      ColBeforeTotal(desc[0], a[0], b[0]);
      KeyBeforeTotal(desc[1..], a[1..], b[1..]);
      assert a == [a[0]] + a[1..] && b == [b[0]] + b[1..];
    }
  }

  lemma {:induction false} KeyBeforeTransitive(desc: seq<bool>, a: Key, b: Key, c: Key)
    requires |a| == |b| == |c| == |desc| && KeyBefore(desc, a, b) && KeyBefore(desc, b, c)
    ensures KeyBefore(desc, a, c)
    decreases |desc|
  {
    if ColBefore(desc[0], a[0], b[0]) && ColBefore(desc[0], b[0], c[0]) {
      ColBeforeTransitive(desc[0], a[0], b[0], c[0]);
    } else if a[0] == b[0] == c[0] && !ColBefore(desc[0], a[0], c[0]) {
      ColBeforeTotal(desc[0], a[0], a[0]);
      KeyBeforeTransitive(desc[1..], a[1..], b[1..], c[1..]);
    }
  }

  // ----- the predicate as SQL -----

  datatype CmpOp = Eq | Gt | Lt

  /** `column op ?`; the placeholder is bound by position. */
  datatype Cmp = Cmp(column: nat, op: CmpOp)

  predicate CmpHolds(op: CmpOp, x: Value, y: Value) {
    match op
    case Eq => x == y
    case Gt => Less(y, x)
    case Lt => Less(x, y)
  }

  predicate EvalAnds(ands: seq<Cmp>, args: seq<Value>, row: Key)
    requires |ands| == |args|
  {
    forall k | 0 <= k < |ands| :: ands[k].column < |row| && CmpHolds(ands[k].op, row[ands[k].column], args[k])
  }

  function Placeholders(ors: seq<seq<Cmp>>): nat {
    if ors == [] then 0 else Placeholders(ors[..|ors| - 1]) + |ors[|ors| - 1]|
  }

  /** A disjunction of conjunctions, its placeholders filled from left to right. */
  predicate EvalOrs(ors: seq<seq<Cmp>>, args: seq<Value>, row: Key)
    requires Placeholders(ors) == |args|
    decreases |ors|
  {
    if ors == [] then false
    else
      var init, last := ors[..|ors| - 1], ors[|ors| - 1];
      var cut := |args| - |last|;
      EvalOrs(init, args[..cut], row) || EvalAnds(last, args[cut..], row)
  }

  /** The row first differs from the cursor in column i, and lies after it there. */
  ghost predicate AfterAt(desc: seq<bool>, cur: Key, row: Key, i: nat)
    requires |cur| == |row| == |desc| && i < |desc|
  {
    (forall j | 0 <= j < i :: row[j] == cur[j]) && ColBefore(desc[i], cur[i], row[i])
  }

  lemma {:induction false} AfterAtSomewhere(desc: seq<bool>, cur: Key, row: Key)
    requires |cur| == |row| == |desc|
    ensures KeyBefore(desc, cur, row) <==> exists i | 0 <= i < |desc| :: AfterAt(desc, cur, row, i)
    decreases |desc|
  {
    if desc != [] {
      AfterAtSomewhere(desc[1..], cur[1..], row[1..]);
      forall i | 0 <= i < |desc[1..]|
        ensures cur[0] == row[0] ==>
                  (AfterAt(desc[1..], cur[1..], row[1..], i) <==> AfterAt(desc, cur, row, i + 1))
      {
        if cur[0] == row[0] && AfterAt(desc[1..], cur[1..], row[1..], i) {
          forall j | 0 <= j < i + 1 ensures row[j] == cur[j] {
            assert j > 0 ==> row[1..][j - 1] == cur[1..][j - 1];
          }
        }
        if cur[0] == row[0] && AfterAt(desc, cur, row, i + 1) {
          forall j | 0 <= j < i ensures row[1..][j] == cur[1..][j] {
            assert row[j + 1] == cur[j + 1];
          }
        }
      }
      if KeyBefore(desc, cur, row) {
        if ColBefore(desc[0], cur[0], row[0]) {
          assert AfterAt(desc, cur, row, 0);
        } else {
          var i :| 0 <= i < |desc[1..]| && AfterAt(desc[1..], cur[1..], row[1..], i);
          assert AfterAt(desc, cur, row, i + 1);
        }
      }
      if i :| 0 <= i < |desc| && AfterAt(desc, cur, row, i) {
        if i > 0 {
          assert row[0] == cur[0];
          assert AfterAt(desc[1..], cur[1..], row[1..], i - 1);
        }
      }
    }
  }

  /** The i-th disjunct: equal in the first i columns, past the cursor in the next. */
  method Conjunct(desc: seq<bool>, cur: Key, i: nat) returns (ands: seq<Cmp>, args: seq<Value>)
    requires |cur| == |desc| && i < |desc|
    ensures |ands| == |args| == i + 1
    ensures forall row: Key | |row| == |desc| :: EvalAnds(ands, args, row) <==> AfterAt(desc, cur, row, i)
  {
    ands, args := [], [];
    for j := 0 to i
      invariant |ands| == |args| == j
      invariant forall k | 0 <= k < j :: ands[k] == Cmp(k, Eq) && args[k] == cur[k]
    {
      ands, args := ands + [Cmp(j, Eq)], args + [cur[j]];
    }
    ands, args := ands + [Cmp(i, if desc[i] then Lt else Gt)], args + [cur[i]];
    forall row: Key | |row| == |desc|
      ensures EvalAnds(ands, args, row) <==> AfterAt(desc, cur, row, i)
    {
      if AfterAt(desc, cur, row, i) {
        forall k | 0 <= k < |ands|
          ensures ands[k].column < |row| && CmpHolds(ands[k].op, row[ands[k].column], args[k])
        {
          assert k < i ==> row[k] == cur[k];
        }
      }
      if EvalAnds(ands, args, row) {
        assert CmpHolds(ands[i].op, row[ands[i].column], args[i]);
        forall j | 0 <= j < i ensures row[j] == cur[j] {
          assert CmpHolds(ands[j].op, row[ands[j].column], args[j]);
        }
      }
    }
  }

  lemma {:induction false} EvalPush(ors: seq<seq<Cmp>>, args: seq<Value>, ands: seq<Cmp>, more: seq<Value>)
    requires Placeholders(ors) == |args| && |ands| == |more|
    ensures Placeholders(ors + [ands]) == |args + more|
    ensures forall row: Key ::
              EvalOrs(ors + [ands], args + more, row) <==> EvalOrs(ors, args, row) || EvalAnds(ands, more, row)
  {
  }

  /** The built clause, with its arguments bound by position, means "strictly after the cursor". */
  method KeysetPredicate(desc: seq<bool>, cur: Key) returns (ors: seq<seq<Cmp>>, args: seq<Value>)
    requires |cur| == |desc|
    ensures Placeholders(ors) == |args|
    ensures forall row: Key | |row| == |desc| :: EvalOrs(ors, args, row) <==> KeyBefore(desc, cur, row)
  {
    ors, args := [], [];
    for i := 0 to |desc|
      invariant Placeholders(ors) == |args|
      invariant forall row: Key | |row| == |desc| ::
                  EvalOrs(ors, args, row) <==> exists k | 0 <= k < i :: AfterAt(desc, cur, row, k)
    {
      var ands, more := Conjunct(desc, cur, i);
      EvalPush(ors, args, ands, more);
      ors, args := ors + [ands], args + more;
    }
    forall row: Key | |row| == |desc|
      ensures EvalOrs(ors, args, row) <==> KeyBefore(desc, cur, row)
    {
      AfterAtSomewhere(desc, cur, row);
    }
  }

  // ----- runs -----

  datatype RunRow = RunRow(
    id: string, startTime: int, endTime: Option<int>, status: string, name: string,
    metrics: map<string, real>, params: map<string, string>, tags: map<string, string>)

  datatype Column =
    | StartTime | EndTime | Status | Name | RunId
    | Metric(key: string) | Param(key: string) | TagValue(key: string)

  datatype OrderTerm = OrderTerm(column: Column, desc: bool)

  predicate Computed(c: Column) {
    c.Metric? || c.Param? || c.TagValue?
  }

  /** The value a run has in an order column; only computed columns can be missing. */
  function Cell(row: RunRow, c: Column): (v: Option<Value>)
    ensures v.None? ==> Computed(c)
  {
    match c
    case StartTime => Some(Num(row.startTime as real))
    case EndTime => Some(Num(if row.endTime.Some? then row.endTime.value as real else -1.0))
    case Status => Some(Text(row.status))
    case Name => Some(Text(row.name))
    case RunId => Some(Text(row.id))
    case Metric(key) => if key in row.metrics then Some(Num(row.metrics[key])) else None
    case Param(key) => if key in row.params then Some(Text(row.params[key])) else None
    case TagValue(key) => if key in row.tags then Some(Text(row.tags[key])) else None
  }

  /** The value COALESCE puts in place of a missing one. */
  function Sentinel(c: Column): Value {
    if c.Param? || c.TagValue? then Text("") else Num(0.0)
  }

  /** A computed column contributes a null rank and a coalesced value, any other column its value. */
  function TermKey(row: RunRow, t: OrderTerm): Key {
    var cell := Cell(row, t.column);
    if !Computed(t.column) then [cell.value]
    else if cell.None? then [Num(1.0), Sentinel(t.column)]
    else [Num(0.0), cell.value]
  }

  function TermDirs(t: OrderTerm): seq<bool> {
    if Computed(t.column) then [false, t.desc] else [t.desc]
  }

  /** The key vector of a run, ending with its id. */
  function RunKey(terms: seq<OrderTerm>, row: RunRow): Key {
    if terms == [] then [Text(row.id)] else TermKey(row, terms[0]) + RunKey(terms[1..], row)
  }

  function RunDirs(terms: seq<OrderTerm>): seq<bool> {
    if terms == [] then [false] else TermDirs(terms[0]) + RunDirs(terms[1..])
  }

  lemma {:induction false} KeyWidth(terms: seq<OrderTerm>, row: RunRow)
    ensures |RunKey(terms, row)| == |RunDirs(terms)|
  {
    if terms != [] {
      KeyWidth(terms[1..], row);
    }
  }

  /** The order a caller asks for: term by term, a missing value last in either direction, then by id. */
  predicate RowBefore(terms: seq<OrderTerm>, a: RunRow, b: RunRow) {
    if terms == [] then TextLess(a.id, b.id)
    else
      var x, y := Cell(a, terms[0].column), Cell(b, terms[0].column);
      || (x.Some? && (y.None? || ColBefore(terms[0].desc, x.value, y.value)))
      || (x == y && RowBefore(terms[1..], a, b))
  }

  // ----- the order on the fields of a run -----

  /** Down or up, by number. */
  predicate NumPrecedes(desc: bool, x: real, y: real) {
    if desc then x > y else x < y
  }

  predicate TextPrecedes(desc: bool, x: string, y: string) {
    if desc then TextLess(y, x) else TextLess(x, y)
  }

  /** A run without an end time sorts as if it had ended at -1. */
  function EndOrMinusOne(row: RunRow): int {
    match row.endTime
    case Some(t) => t
    case None => -1
  }

  /** By one term alone the first run comes before the second; a missing value is last in both directions. */
  predicate Precedes(t: OrderTerm, a: RunRow, b: RunRow) {
    match t.column
    case StartTime => if t.desc then a.startTime > b.startTime else a.startTime < b.startTime
    case EndTime =>
      if t.desc then EndOrMinusOne(a) > EndOrMinusOne(b) else EndOrMinusOne(a) < EndOrMinusOne(b)
    case Status => TextPrecedes(t.desc, a.status, b.status)
    case Name => TextPrecedes(t.desc, a.name, b.name)
    case RunId => TextPrecedes(t.desc, a.id, b.id)
    case Metric(k) => k in a.metrics && (k in b.metrics ==> NumPrecedes(t.desc, a.metrics[k], b.metrics[k]))
    case Param(k) => k in a.params && (k in b.params ==> TextPrecedes(t.desc, a.params[k], b.params[k]))
    case TagValue(k) => k in a.tags && (k in b.tags ==> TextPrecedes(t.desc, a.tags[k], b.tags[k]))
  }

  /** The term does not tell the two runs apart. */
  predicate Ties(t: OrderTerm, a: RunRow, b: RunRow) {
    match t.column
    case StartTime => a.startTime == b.startTime
    case EndTime => EndOrMinusOne(a) == EndOrMinusOne(b)
    case Status => a.status == b.status
    case Name => a.name == b.name
    case RunId => a.id == b.id
    case Metric(k) => (k in a.metrics <==> k in b.metrics) && (k in a.metrics ==> a.metrics[k] == b.metrics[k])
    case Param(k) => (k in a.params <==> k in b.params) && (k in a.params ==> a.params[k] == b.params[k])
    case TagValue(k) => (k in a.tags <==> k in b.tags) && (k in a.tags ==> a.tags[k] == b.tags[k])
  }

  /** Decided by term i: all terms before it tie. With i past the terms, decided by the id. */
  predicate DecidedBy(terms: seq<OrderTerm>, a: RunRow, b: RunRow, i: nat)
    requires i <= |terms|
  {
    && (forall j | 0 <= j < i :: Ties(terms[j], a, b))
    && if i < |terms| then Precedes(terms[i], a, b) else TextLess(a.id, b.id)
  }

  /** The first term that tells two runs apart decides, then the id. */
  ghost predicate FieldsBefore(terms: seq<OrderTerm>, a: RunRow, b: RunRow) {
    exists i: nat | i <= |terms| :: DecidedBy(terms, a, b, i)
  }

  lemma {:induction false} PrecedesInCells(t: OrderTerm, a: RunRow, b: RunRow)
    ensures var x, y := Cell(a, t.column), Cell(b, t.column);
            Precedes(t, a, b) <==> x.Some? && (y.None? || ColBefore(t.desc, x.value, y.value))
  {
  }

  lemma {:induction false} TiesInCells(t: OrderTerm, a: RunRow, b: RunRow)
    ensures Ties(t, a, b) <==> Cell(a, t.column) == Cell(b, t.column)
  {
  }

  lemma {:induction false} DecidedLater(terms: seq<OrderTerm>, a: RunRow, b: RunRow, i: nat)
    requires i < |terms|
    ensures DecidedBy(terms, a, b, i + 1) <==> Ties(terms[0], a, b) && DecidedBy(terms[1..], a, b, i)
  {
    assert forall j | 0 <= j < i :: terms[1..][j] == terms[j + 1];
    if Ties(terms[0], a, b) && DecidedBy(terms[1..], a, b, i) {
      forall j | 0 <= j < i + 1 ensures Ties(terms[j], a, b) {
        assert j > 0 ==> terms[j] == terms[1..][j - 1];
      }
    }
  }

  /** The order of rows, read off the fields. */
  lemma {:induction false} RowBeforeOnFields(terms: seq<OrderTerm>, a: RunRow, b: RunRow)
    ensures RowBefore(terms, a, b) <==> FieldsBefore(terms, a, b)
    decreases |terms|
  {
    if terms == [] {
      assert DecidedBy(terms, a, b, 0) <==> TextLess(a.id, b.id);
    } else {
      var rest := terms[1..];
      PrecedesInCells(terms[0], a, b);
      TiesInCells(terms[0], a, b);
      RowBeforeOnFields(rest, a, b);
      assert DecidedBy(terms, a, b, 0) <==> Precedes(terms[0], a, b);
      forall i: nat | i <= |rest|
        ensures DecidedBy(terms, a, b, i + 1) <==> Ties(terms[0], a, b) && DecidedBy(rest, a, b, i)
      {
        DecidedLater(terms, a, b, i);
      }
      if i: nat :| i <= |terms| && DecidedBy(terms, a, b, i) && i > 0 {
        assert DecidedBy(rest, a, b, i - 1);
      }
    }
  }

  lemma {:induction false} KeyBeforeCons(d: bool, desc: seq<bool>, x: Value, a: Key, y: Value, b: Key)
    requires |a| == |b| == |desc|
    ensures KeyBefore([d] + desc, [x] + a, [y] + b) <==> ColBefore(d, x, y) || (x == y && KeyBefore(desc, a, b))
  {
  }

  /** A null rank followed by a coalesced value. */
  lemma {:induction false} RankedPair(d: bool, desc: seq<bool>, x: Option<Value>, a: Key, y: Option<Value>, b: Key,
                                      s: Value)
    requires |a| == |b| == |desc|
    ensures var ka := if x.None? then [Num(1.0), s] else [Num(0.0), x.value];
            var kb := if y.None? then [Num(1.0), s] else [Num(0.0), y.value];
            KeyBefore([false, d] + desc, ka + a, kb + b)
            <==> || (x.Some? && (y.None? || ColBefore(d, x.value, y.value)))
                 || (x == y && KeyBefore(desc, a, b))
  {
    var ka := if x.None? then [Num(1.0), s] else [Num(0.0), x.value];
    var kb := if y.None? then [Num(1.0), s] else [Num(0.0), y.value];
    KeyBeforeCons(d, desc, ka[1], a, kb[1], b);
    KeyBeforeCons(false, [d] + desc, ka[0], [ka[1]] + a, kb[0], [kb[1]] + b);
    assert [false, d] + desc == [false] + ([d] + desc);
    assert ka + a == [ka[0]] + ([ka[1]] + a) && kb + b == [kb[0]] + ([kb[1]] + b);
    ColBeforeTotal(d, s, s);
  }

  /** Sorting by key vectors is the order the caller asks for. */
  lemma {:induction false} KeysRefineRows(terms: seq<OrderTerm>, a: RunRow, b: RunRow)
    ensures |RunKey(terms, a)| == |RunKey(terms, b)| == |RunDirs(terms)|
    ensures KeyBefore(RunDirs(terms), RunKey(terms, a), RunKey(terms, b)) <==> RowBefore(terms, a, b)
  {
    KeyWidth(terms, a);
    KeyWidth(terms, b);
    if terms == [] {
      KeyBeforeCons(false, [], Text(a.id), [], Text(b.id), []);
    } else {
      var t, dirs, ka, kb := terms[0], RunDirs(terms[1..]), RunKey(terms[1..], a), RunKey(terms[1..], b);
      KeysRefineRows(terms[1..], a, b);
      if Computed(t.column) {
        RankedPair(t.desc, dirs, Cell(a, t.column), ka, Cell(b, t.column), kb, Sentinel(t.column));
      } else {
        KeyBeforeCons(t.desc, dirs, Cell(a, t.column).value, ka, Cell(b, t.column).value, kb);
      }
    }
  }

  /** Distinct ids give distinct key vectors, so the order never ties. */
  lemma {:induction false} KeysSeparateIds(terms: seq<OrderTerm>, row: RunRow)
    ensures var k := RunKey(terms, row); |k| > 0 && k[|k| - 1] == Text(row.id)
  {
    if terms != [] {
      KeysSeparateIds(terms[1..], row);
    }
  }

  lemma {:induction false} RunKeyFrom(terms: seq<OrderTerm>, row: RunRow, i: nat, prefix: Key)
    requires i < |terms|
    ensures prefix + RunKey(terms[i..], row) == (prefix + TermKey(row, terms[i])) + RunKey(terms[i + 1..], row)
  {
  }

  /** The cursor emitted for a row is the row's key vector. */
  method EmitCursor(terms: seq<OrderTerm>, last: RunRow) returns (cursor: Key)
    ensures cursor == RunKey(terms, last)
  {
    cursor := [];
    for i := 0 to |terms|
      invariant cursor + RunKey(terms[i..], last) == RunKey(terms, last)
    {
      var t := terms[i];
      var v := Cell(last, t.column);
      RunKeyFrom(terms, last, i, cursor);
      if Computed(t.column) {
        cursor := cursor + [if v.None? then Num(1.0) else Num(0.0), if v.None? then Sentinel(t.column) else v.value];
      } else {
        cursor := cursor + [v.value];
      }
    }
    assert terms[|terms|..] == [];
    cursor := cursor + [Text(last.id)];
  }
}
