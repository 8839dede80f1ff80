/** Splitting a run filter on its top-level ANDs. Text is ASCII. */
module RunFilter {

  function Upper(c: char): char {
    if 'a' <= c <= 'z' then (c as int - 32) as char else c
  }

  /** The word stands at `i`, in either case. */
  predicate Has(s: string, i: nat, word: string) {
    i + |word| <= |s| && forall k | 0 <= k < |word| :: Upper(s[i + k]) == word[k]
  }

  const AND: string := " AND "
  const BETWEEN: string := " BETWEEN "

  /** In quotes, or nested in parentheses. */
  datatype Nesting = Nesting(quoted: bool, depth: int) {
    predicate Top() { !quoted && depth == 0 }
  }

  function Enter(n: Nesting, c: char): Nesting {
    match c
    case '\'' => n.(quoted := !n.quoted)
    case '(' => if n.quoted then n else n.(depth := n.depth + 1)
    case ')' => if n.quoted then n else n.(depth := n.depth - 1)
    case _ => n
  }

  /** What the scan does at one character: go on, cut here, or pass over the AND of a BETWEEN. */
  datatype Move = Go(between: bool) | Cut | Pass

  function MoveAt(s: string, i: nat, n: Nesting, between: bool): Move {
    if !n.Top() then Go(between)
    else
      var b := between || Has(s, i, BETWEEN);
      if !Has(s, i, AND) then Go(b) else if b then Pass else Cut
  }

  /** The pieces from `last` on, when the scan has come to `i`. */
  function Scan(s: string, i: nat, last: nat, n: Nesting, between: bool): seq<string>
    requires last <= i <= |s|
    decreases |s| - i
  {
    if i == |s| then [s[last..]]
    else
      var m := Enter(n, s[i]);
      match MoveAt(s, i, m, between)
      case Go(b) => Scan(s, i + 1, last, m, b)
      case Cut => [s[last..i]] + Scan(s, i + 5, i + 5, m, false)
      case Pass => Scan(s, i + 5, last, m, false)
  }

  function Pieces(s: string): seq<string> {
    Scan(s, 0, 0, Nesting(false, 0), false)
  }

  method SplitOnAnd(s: string) returns (out: seq<string>)
    ensures out == Pieces(s)
  {
    out := [];
    var i, last, nesting, between := 0, 0, Nesting(false, 0), false;
    while i < |s|
      invariant last <= i <= |s|
      invariant out + Scan(s, i, last, nesting, between) == Pieces(s)
      decreases |s| - i
    {
      nesting := Enter(nesting, s[i]);
      if nesting.Top() && Has(s, i, BETWEEN) {
        between := true;
      }
      if nesting.Top() && Has(s, i, AND) {
        if between {
          between := false;
        } else {
          out := out + [s[last..i]];
          last := i + 5;
        }
        i := i + 4;
      }
      i := i + 1;
    }
    out := out + [s[last..]];
  }

  // ----- well-formed predicates -----

  /** The nesting after the first `i` characters. */
  function NestingAt(p: string, i: nat): Nesting
    requires i <= |p|
  {
    if i == 0 then Nesting(false, 0) else Enter(NestingAt(p, i - 1), p[i - 1])
  }

  /** How often a quote stands in the first `i` characters. */
  function Quotes(p: string, i: nat): nat
    requires i <= |p|
  {
    if i == 0 then 0 else Quotes(p, i - 1) + if p[i - 1] == '\'' then 1 else 0
  }

  /** How often `c` stands there after an even number of quotes. */
  function Unquoted(p: string, i: nat, c: char): nat
    requires i <= |p|
  {
    if i == 0 then 0 else Unquoted(p, i - 1, c) + if p[i - 1] == c && Quotes(p, i - 1) % 2 == 0 then 1 else 0
  }

  /** The nesting by counting: in quotes after an odd number of them, as deep as parentheses are open. */
  lemma {:induction false} NestingCounts(p: string, i: nat)
    requires i <= |p|
    ensures NestingAt(p, i) == Nesting(Quotes(p, i) % 2 == 1, Unquoted(p, i, '(') - Unquoted(p, i, ')'))
  {
    if i > 0 {
      NestingCounts(p, i - 1);
    }
  }

  /** Outside quotes and parentheses the word stands at `i` of the predicate, or runs up to the blank after it. */
  ghost predicate TopWord(p: string, i: nat, word: string) {
    i < |p| && NestingAt(p, i + 1).Top() && Has(p + " ", i, word)
  }

  /** Quotes closed, parentheses balanced, and either no BETWEEN and no AND, or one AND with a BETWEEN before it. */
  ghost predicate WellFormed(p: string) {
    && NestingAt(p, |p|).Top()
    && (Plain(p) || exists a: nat :: Ranged(p, a))
  }

  ghost predicate Plain(p: string) {
    forall i: nat :: !TopWord(p, i, AND) && !TopWord(p, i, BETWEEN)
  }

  ghost predicate Ranged(p: string, a: nat) {
    && TopWord(p, a, AND) && a + 5 <= |p|
    && (exists b: nat :: b < a && TopWord(p, b, BETWEEN))
    && (forall i: nat | TopWord(p, i, AND) :: i == a)
    && (forall i: nat | TopWord(p, i, BETWEEN) :: i < a)
  }

  /** The word AND between two blanks, in any mix of upper and lower case. */
  predicate AnyCaseAnd(sep: string) {
    && |sep| == 5 && sep[0] == ' ' && sep[4] == ' '
    && (sep[1] == 'A' || sep[1] == 'a') && (sep[2] == 'N' || sep[2] == 'n') && (sep[3] == 'D' || sep[3] == 'd')
  }

  function Joined(ps: seq<string>, seps: seq<string>): string
    requires |ps| == |seps| + 1
  {
    if seps == [] then ps[0] else ps[0] + seps[0] + Joined(ps[1..], seps[1..])
  }

  lemma {:induction false} MoveShifted(pre: string, s: string, i: nat, n: Nesting, between: bool)
    ensures MoveAt(pre + s, |pre| + i, n, between) == MoveAt(s, i, n, between)
  {
  }

  lemma {:induction false} SliceShifted(pre: string, s: string, i: nat, j: nat)
    requires i <= j <= |s|
    ensures (pre + s)[|pre| + i..|pre| + j] == s[i..j]
    ensures (pre + s)[|pre| + i..] == s[i..]
    ensures i < |s| ==> (pre + s)[|pre| + i] == s[i]
  {
  }

  /** A scan that starts inside the text is a scan of the rest. */
  lemma {:induction false} ScanShifted(pre: string, s: string, i: nat, last: nat, n: Nesting, between: bool)
    requires last <= i <= |s|
    ensures Scan(pre + s, |pre| + i, |pre| + last, n, between) == Scan(s, i, last, n, between)
    decreases |s| - i
  {
    SliceShifted(pre, s, last, i);
    SliceShifted(pre, s, i, i);
    if i < |s| {
      var m := Enter(n, s[i]);
      MoveShifted(pre, s, i, m, between);
      match MoveAt(s, i, m, between)
      case Go(b) => ScanShifted(pre, s, i + 1, last, m, b);
      case Cut => ScanShifted(pre, s, i + 5, i + 5, m, false);
      case Pass => ScanShifted(pre, s, i + 5, last, m, false);
    }
  }

  // ----- what any split keeps -----

  /** The text is the pieces in order, with an AND in either case between each two. */
  ghost predicate Rebuilds(s: string, ps: seq<string>) {
    ps != [] && ps[0] <= s && (
      if |ps| == 1 then s == ps[0]
      else Has(s, |ps[0]|, AND) && Rebuilds(s[|ps[0]| + 5..], ps[1..]))
  }

  lemma {:induction false} ScanRebuilds(s: string, i: nat, last: nat, n: Nesting, between: bool)
    requires last <= i <= |s|
    ensures Rebuilds(s[last..], Scan(s, i, last, n, between))
    decreases |s| - i
  {
    if i < |s| {
      var m := Enter(n, s[i]);
      match MoveAt(s, i, m, between)
      case Go(b) => ScanRebuilds(s, i + 1, last, m, b);
      case Pass => ScanRebuilds(s, i + 5, last, m, false);
      case Cut =>
        ScanRebuilds(s, i + 5, i + 5, m, false);
        CutRebuilds(s, last, i, Scan(s, i + 5, i + 5, m, false));
    }
  }

  lemma {:induction false} CutRebuilds(s: string, last: nat, i: nat, rest: seq<string>)
    requires last <= i <= |s| && Has(s, i, AND) && Rebuilds(s[i + 5..], rest)
    ensures Rebuilds(s[last..], [s[last..i]] + rest)
  {
  }

  /** Splitting loses no text, whatever the filter is. */
  lemma {:induction false} SplitRebuilds(s: string)
    ensures Rebuilds(s, Pieces(s))
  {
    ScanRebuilds(s, 0, 0, Nesting(false, 0), false);
    assert s[0..] == s;
  }

  /** Blanks only at the ends. */
  ghost predicate Word(word: string) {
    |word| >= 2 && forall k | 0 < k < |word| - 1 :: word[k] != ' '
  }

  /** What follows a predicate in a filter: nothing, or a blank and more. */
  ghost predicate Follows(tail: string) {
    tail == "" || tail[0] == ' '
  }

  /** A word that starts in the predicate does not reach past the blank after it. */
  lemma {:induction false} WordStaysInside(p: string, tail: string, i: nat, word: string)
    requires i < |p| && Word(word) && Follows(tail)
    ensures Has(p + tail, i, word) ==> Has(p + " ", i, word)
    ensures (tail != "" || i + |word| <= |p|) && Has(p + " ", i, word) ==> Has(p + tail, i, word)
  {
    var s := p + tail;
    if tail != "" && i + |word| > |p| + 1 {
      var k := |p| - i;
      assert s[i + k] == ' ' != word[k];
      assert !Has(s, i, word);
    }
    assert forall k | 0 <= k < |p| :: s[k] == p[k] == (p + " ")[k];
  }

  /** No top-level word at `k` or after. */
  ghost predicate QuietFrom(p: string, k: nat) {
    forall i: nat | i >= k :: !TopWord(p, i, AND) && !TopWord(p, i, BETWEEN)
  }

  lemma {:induction false} QuietMove(p: string, tail: string, k: nat)
    requires k < |p| && QuietFrom(p, k) && Follows(tail)
    ensures MoveAt(p + tail, k, NestingAt(p, k + 1), false) == Go(false)
  {
    WordStaysInside(p, tail, k, AND);
    WordStaysInside(p, tail, k, BETWEEN);
    assert !TopWord(p, k, AND) && !TopWord(p, k, BETWEEN);
  }

  lemma {:induction false} ScanQuiet(p: string, tail: string, k: nat)
    requires k <= |p| && QuietFrom(p, k) && Follows(tail)
    ensures Scan(p + tail, k, 0, NestingAt(p, k), false) == Scan(p + tail, |p|, 0, NestingAt(p, |p|), false)
    decreases |p| - k
  {
    if k < |p| {
      assert (p + tail)[k] == p[k];
      QuietMove(p, tail, k);
      ScanQuiet(p, tail, k + 1);
    }
  }

  /** A BETWEEN was met before `k`. */
  ghost predicate Open(p: string, tail: string, k: nat) {
    exists b: nat :: b < k && BetweenAt(p, tail, b)
  }

  ghost predicate BetweenAt(p: string, tail: string, b: nat) {
    b < |p| && NestingAt(p, b + 1).Top() && Has(p + tail, b, BETWEEN)
  }

  lemma {:induction false} OpenStep(p: string, tail: string, k: nat)
    ensures Open(p, tail, k + 1) == (Open(p, tail, k) || BetweenAt(p, tail, k))
  {
  }

  lemma {:induction false} ScanToAnd(p: string, tail: string, a: nat, k: nat)
    requires Ranged(p, a) && k <= a && Follows(tail)
    ensures Scan(p + tail, k, 0, NestingAt(p, k), Open(p, tail, k)) ==
            Scan(p + tail, a, 0, NestingAt(p, a), Open(p, tail, a))
    decreases a - k
  {
    if k < a {
      assert (p + tail)[k] == p[k];
      WordStaysInside(p, tail, k, AND);
      assert !TopWord(p, k, AND);
      OpenStep(p, tail, k);
      assert MoveAt(p + tail, k, NestingAt(p, k + 1), Open(p, tail, k)) == Go(Open(p, tail, k + 1));
      ScanToAnd(p, tail, a, k + 1);
    }
  }

  lemma {:induction false} LetterIsNotBlank(q: string, b: nat, k: nat)
    requires Has(q, b, BETWEEN) && 0 < k < 8
    ensures q[b + k] != ' '
  {
    assert Upper(q[b + k]) == BETWEEN[k];
  }

  /** The words do not overlap but for a blank. */
  lemma {:induction false} BetweenEndsBefore(p: string, a: nat, b: nat)
    requires TopWord(p, a, AND) && TopWord(p, b, BETWEEN) && b < a
    ensures b + 8 <= a
  {
    var q := p + " ";
    assert Upper(q[a + 0]) == AND[0];
    assert q[a] == ' ';
    forall j | b < j < b + 8 ensures q[j] != ' ' {
      LetterIsNotBlank(q, b, j - b);
    }
  }

  lemma {:induction false} LetterKeepsNesting(p: string, a: nat, k: nat)
    requires Has(p, a, AND) && k < 5
    ensures NestingAt(p, a + k + 1) == NestingAt(p, a + k)
  {
    assert Upper(p[a + k]) == AND[k];
  }

  lemma {:induction false} AndKeepsNesting(p: string, a: nat)
    requires Has(p, a, AND)
    ensures NestingAt(p, a + 5) == NestingAt(p, a + 1)
  {
    LetterKeepsNesting(p, a, 1);
    LetterKeepsNesting(p, a, 2);
    LetterKeepsNesting(p, a, 3);
    LetterKeepsNesting(p, a, 4);
  }

  lemma {:induction false} AndIsPassed(p: string, tail: string, a: nat)
    requires Ranged(p, a) && Follows(tail)
    ensures MoveAt(p + tail, a, NestingAt(p, a + 1), Open(p, tail, a)) == Pass
    ensures NestingAt(p, a + 5) == NestingAt(p, a + 1)
  {
    var b: nat :| b < a && TopWord(p, b, BETWEEN);
    BetweenEndsBefore(p, a, b);
    WordStaysInside(p, tail, b, BETWEEN);
    assert BetweenAt(p, tail, b);
    WordStaysInside(p, tail, a, AND);
    WordStaysInside(p, "", a, AND);
    assert p + "" == p;
    AndKeepsNesting(p, a);
  }

  /** Scanning a well-formed predicate cuts nothing and ends as it began. */
  lemma {:induction false} ScanPredicate(p: string, tail: string)
    requires WellFormed(p) && Follows(tail)
    ensures Pieces(p + tail) == Scan(p + tail, |p|, 0, Nesting(false, 0), false)
  {
    if Plain(p) {
      ScanQuiet(p, tail, 0);
    } else {
      var a: nat :| Ranged(p, a);
      ScanToAnd(p, tail, a, 0);
      AndIsPassed(p, tail, a);
      assert (p + tail)[a] == p[a];
      assert QuietFrom(p, a + 5);
      ScanQuiet(p, tail, a + 5);
    }
  }

  lemma {:induction false} PiecesOne(p: string)
    requires WellFormed(p)
    ensures Pieces(p) == [p]
  {
    ScanPredicate(p, "");
    assert p + "" == p;
  }

  lemma {:induction false} PiecesCons(p: string, sep: string, rest: string)
    requires WellFormed(p) && AnyCaseAnd(sep)
    ensures Pieces(p + sep + rest) == [p] + Pieces(rest)
  {
    var tail := sep + rest;
    var s := p + tail;
    assert s == p + sep + rest;
    ScanPredicate(p, tail);
    CutAfter(p, sep, rest);
    ScanShifted(p + sep, rest, 0, 0, Nesting(false, 0), false);
  }

  lemma {:induction false} CutAfter(p: string, sep: string, rest: string)
    requires AnyCaseAnd(sep)
    ensures var s := p + sep + rest;
      Scan(s, |p|, 0, Nesting(false, 0), false) == [p] + Scan(s, |p| + 5, |p| + 5, Nesting(false, 0), false)
  {
    var s := p + sep + rest;
    assert forall k | 0 <= k < 5 :: s[|p| + k] == sep[k];
    assert s[|p|] == ' ' && Upper(s[|p| + 1]) == 'A' && Upper(s[|p| + 2]) == 'N' && Upper(s[|p| + 3]) == 'D';
    assert Has(s, |p|, AND);
    assert Upper(s[|p| + 1]) != BETWEEN[1];
    assert s[..|p|] == p;
  }

  /** Joining well-formed predicates with AND, in any case, and splitting the text gives the predicates back. */
  lemma {:induction false} SplitJoined(ps: seq<string>, seps: seq<string>)
    requires |ps| == |seps| + 1 && forall i | 0 <= i < |ps| :: WellFormed(ps[i])
    requires forall i | 0 <= i < |seps| :: AnyCaseAnd(seps[i])
    ensures Pieces(Joined(ps, seps)) == ps
  {
    if seps == [] {
      PiecesOne(ps[0]);
    } else {
      PiecesCons(ps[0], seps[0], Joined(ps[1..], seps[1..]));
      SplitJoined(ps[1..], seps[1..]);
    }
  }
}
