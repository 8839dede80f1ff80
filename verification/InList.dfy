/** The values between the parentheses of an IN predicate. Text is ASCII. */
module InList {
  import opened Names
  import opened Wrappers

  /** Drop commas and blanks. */
  function SkipSeparators(s: string): string {
    if s != "" && (s[0] == ',' || s[0] == ' ') then SkipSeparators(s[1..]) else s
  }

  function Cons(v: string, rest: Option<seq<string>>): Option<seq<string>> {
    match rest
    case None => None
    case Some(vs) => Some([v] + vs)
  }

  /** The values still to come, with `cur` read of the next one; nothing if a quote is left open. */
  function Values(s: string, quoted: bool, cur: string): Option<seq<string>>
    decreases |s|
  {
    if s == "" then
      if quoted then None else if Trim(cur) != "" then Some([Trim(cur)]) else Some([])
    else if s[0] == '\'' then
      if !quoted then Values(s[1..], true, cur)
      else if |s| > 1 && s[1] == '\'' then Values(s[2..], true, cur + ['\''])
      else
        SkipShortens(s[1..]);
        Cons(cur, Values(SkipSeparators(s[1..]), false, ""))
    else if s[0] == ',' && !quoted then Cons(Trim(cur), Values(s[1..], false, ""))
    else if s[0] == ' ' && !quoted then Values(s[1..], quoted, cur)
    else Values(s[1..], quoted, cur + [s[0]])
  }

  lemma {:induction false} SkipShortens(s: string)
    ensures |SkipSeparators(s)| <= |s|
    ensures exists k | 0 <= k <= |s| :: SkipSeparators(s) == s[k..]
  {
    if s != "" && (s[0] == ',' || s[0] == ' ') {
      SkipShortens(s[1..]);
      var k :| 0 <= k <= |s[1..]| && SkipSeparators(s[1..]) == s[1..][k..];
      assert s[1..][k..] == s[k + 1..];
    } else {
      assert s[0..] == s;
    }
  }

  function InValues(s: string): Option<seq<string>> {
    Values(Trim(s), false, "")
  }

  ghost function Append(done: seq<string>, rest: Option<seq<string>>): Option<seq<string>> {
    match rest
    case None => None
    case Some(vs) => Some(done + vs)
  }

  lemma {:induction false} AppendEnds(done: seq<string>, rest: Option<seq<string>>)
    ensures Append([], rest) == rest && Append(done, Some([])) == Some(done)
  {
    assert done + [] == done;
    if rest.Some? {
      assert [] + rest.value == rest.value;
    }
  }

  lemma {:induction false} AppendOne(done: seq<string>, v: string, rest: Option<seq<string>>)
    ensures Append(done, Cons(v, rest)) == Append(done + [v], rest)
  {
    if rest.Some? {
      assert done + ([v] + rest.value) == done + [v] + rest.value;
    }
  }

  method ParseInValues(text: string) returns (r: Option<seq<string>>)
    ensures r == InValues(text)
  {
    var s := Trim(text);
    if s == "" {
      return Some([]);
    }
    var vals, quoted, cur := [], false, "";
    var i := 0;
    assert s[0..] == s;
    AppendEnds([], Values(s, false, ""));
    while i < |s|
      invariant 0 <= i <= |s|
      invariant Append(vals, Values(s[i..], quoted, cur)) == InValues(text)
      decreases |s| - i
    {
      var ch := s[i];
      assert s[i..][0] == ch && s[i..][1..] == s[i + 1..];
      if ch == '\'' && !quoted {
        quoted := true;
      } else if ch == '\'' && quoted {
        if i + 1 < |s| && s[i + 1] == '\'' {
          assert s[i..][2..] == s[i + 2..];
          cur := cur + ['\''];
          i := i + 1;
        } else {
          AppendOne(vals, cur, Values(SkipSeparators(s[i + 1..]), false, ""));
          quoted := false;
          vals := vals + [cur];
          cur := "";
          i := SkipFrom(s, i);
        }
      } else if ch == ',' && !quoted {
        AppendOne(vals, Trim(cur), Values(s[i + 1..], false, ""));
        vals := vals + [Trim(cur)];
        cur := "";
      } else if quoted || ch != ' ' {
        cur := cur + [ch];
      }
      i := i + 1;
    }
    assert s[|s|..] == "";
    AppendEnds(vals, None);
    if quoted {
      return None;
    }
    if Trim(cur) != "" {
      vals := vals + [Trim(cur)];
    }
    return Some(vals);
  }

  /** The last index before something other than a comma or a blank. */
  method SkipFrom(s: string, start: nat) returns (i: nat)
    requires start < |s|
    ensures start <= i < |s| && s[i + 1..] == SkipSeparators(s[start + 1..])
  {
    i := start;
    while i + 1 < |s| && (s[i + 1] == ',' || s[i + 1] == ' ')
      invariant start <= i < |s|
      invariant SkipSeparators(s[i + 1..]) == SkipSeparators(s[start + 1..])
    {
      assert s[i + 1..][1..] == s[i + 2..];
      i := i + 1;
    }
  }

  // ----- quoting -----

  /** A quote inside a value is doubled. */
  function Escape(v: string): string {
    if v == "" then "" else (if v[0] == '\'' then "''" else [v[0]]) + Escape(v[1..])
  }

  function Text(vs: seq<string>): string {
    if vs == [] then ""
    else if |vs| == 1 then "'" + Escape(vs[0]) + "'"
    else "'" + Escape(vs[0]) + "'" + "," + Text(vs[1..])
  }

  /** Inside quotes an escaped value is read back up to its closing quote. */
  lemma {:induction false} InsideQuotes(v: string, tail: string, cur: string)
    requires tail == "" || tail[0] != '\''
    ensures Values(Escape(v) + "'" + tail, true, cur) == Cons(cur + v, Values(SkipSeparators(tail), false, ""))
    decreases |v|
  {
    var s := Escape(v) + "'" + tail;
    if v == "" {
      assert s == "'" + tail && s[1..] == tail;
      assert cur + v == cur;
    } else {
      var rest := Escape(v[1..]) + "'" + tail;
      InsideQuotes(v[1..], tail, cur + [v[0]]);
      assert cur + [v[0]] + v[1..] == cur + v;
      if v[0] == '\'' {
        assert s == "''" + rest && s[2..] == rest;
      } else {
        assert s == [v[0]] + rest && s[1..] == rest;
      }
    }
  }

  lemma {:induction false} ReadsBack(vs: seq<string>)
    ensures Values(Text(vs), false, "") == Some(vs)
  {
    if vs != [] {
      var tail := if |vs| == 1 then "" else "," + Text(vs[1..]);
      var s := Text(vs);
      assert s == "'" + (Escape(vs[0]) + "'" + tail);
      assert s[1..] == Escape(vs[0]) + "'" + tail;
      InsideQuotes(vs[0], tail, "");
      assert "" + vs[0] == vs[0];
      ReadsBack(vs[1..]);
      if |vs| > 1 {
        assert tail[1..] == Text(vs[1..]);
        assert Text(vs[1..])[0] == '\'';
      }
      assert [vs[0]] + vs[1..] == vs;
    }
  }

  lemma {:induction false} TextIsTrimmed(vs: seq<string>)
    ensures vs != [] ==> Text(vs) != "" && Text(vs)[0] == '\'' && Text(vs)[|Text(vs)| - 1] == '\''
    ensures Trim(Text(vs)) == Text(vs)
  {
    if |vs| > 1 {
      TextIsTrimmed(vs[1..]);
    }
  }

  /** Quoting any strings, joining them with commas and parsing the list gives the strings back. */
  lemma {:induction false} QuotedListReadsBack(vs: seq<string>)
    ensures InValues(Text(vs)) == Some(vs)
  {
    TextIsTrimmed(vs);
    ReadsBack(vs);
  }

  // ----- values without quotes -----

  /** Something to read, without quotes, commas and blanks, and no white space at either end. */
  ghost predicate PlainValue(v: string) {
    && v != "" && !IsSpace(v[0]) && !IsSpace(v[|v| - 1])
    && (forall i | 0 <= i < |v| :: v[i] != '\'' && v[i] != ',' && v[i] != ' ')
  }

  ghost predicate White(s: string) {
    forall i | 0 <= i < |s| :: IsSpace(s[i])
  }

  /** A comma with any white space around it. */
  datatype Comma = Comma(before: string, after: string)

  function PlainText(vs: seq<string>, commas: seq<Comma>): string
    requires |vs| == |commas| + 1
  {
    if commas == [] then vs[0]
    else vs[0] + commas[0].before + "," + commas[0].after + PlainText(vs[1..], commas[1..])
  }

  function NoBlanks(s: string): string {
    if s == "" then "" else (if s[0] == ' ' then "" else [s[0]]) + NoBlanks(s[1..])
  }

  /** Outside quotes everything but blanks is kept, up to the next comma. */
  lemma {:induction false} ReadPlain(s: string, tail: string, cur: string)
    requires forall i | 0 <= i < |s| :: s[i] != '\'' && s[i] != ','
    ensures Values(s + tail, false, cur) == Values(tail, false, cur + NoBlanks(s))
    decreases |s|
  {
    if s == "" {
      assert s + tail == tail && cur + NoBlanks(s) == cur;
    } else {
      assert (s + tail)[1..] == s[1..] + tail;
      var next := if s[0] == ' ' then cur else cur + [s[0]];
      ReadPlain(s[1..], tail, next);
      assert cur + NoBlanks(s) == next + NoBlanks(s[1..]);
    }
  }

  lemma {:induction false} NoBlanksOfWhite(s: string)
    requires White(s)
    ensures White(NoBlanks(s))
  {
    if s != "" {
      NoBlanksOfWhite(s[1..]);
    }
  }

  lemma {:induction false} NoBlanksOfPlain(s: string)
    requires forall i | 0 <= i < |s| :: s[i] != ' '
    ensures NoBlanks(s) == s
  {
    if s != "" {
      NoBlanksOfPlain(s[1..]);
      assert [s[0]] + s[1..] == s;
    }
  }

  lemma {:induction false} NoBlanksJoin(a: string, b: string)
    ensures NoBlanks(a + b) == NoBlanks(a) + NoBlanks(b)
  {
    if a == "" {
      assert a + b == b && NoBlanks(a) + NoBlanks(b) == NoBlanks(b);
    } else {
      assert (a + b)[1..] == a[1..] + b;
      NoBlanksJoin(a[1..], b);
    }
  }

  lemma {:induction false} TrimLeftWhite(a: string, s: string)
    requires White(a) && s != "" && !IsSpace(s[0])
    ensures TrimLeft(a + s) == s
  {
    if a == "" {
      assert a + s == s;
    } else {
      assert (a + s)[1..] == a[1..] + s;
      TrimLeftWhite(a[1..], s);
    }
  }

  lemma {:induction false} TrimRightWhite(s: string, b: string)
    requires White(b) && s != "" && !IsSpace(s[|s| - 1])
    ensures TrimRight(s + b) == s
    decreases |b|
  {
    if b == "" {
      assert s + b == s;
    } else {
      assert (s + b)[..|s + b| - 1] == s + b[..|b| - 1];
      TrimRightWhite(s, b[..|b| - 1]);
    }
  }

  lemma {:induction false} TrimBetween(a: string, v: string, b: string)
    requires White(a) && White(b) && v != "" && !IsSpace(v[0]) && !IsSpace(v[|v| - 1])
    ensures Trim(a + v + b) == v
  {
    assert a + v + b == a + (v + b) && (v + b)[0] == v[0];
    TrimLeftWhite(a, v + b);
    TrimRightWhite(v, b);
  }

  /** White space around a value is trimmed off what was read. */
  lemma {:induction false} TrimAround(a: string, v: string, b: string)
    requires White(a) && White(b) && PlainValue(v)
    ensures Trim(NoBlanks(a + v + b)) == v
  {
    NoBlanksJoin(a + v, b);
    NoBlanksJoin(a, v);
    NoBlanksOfPlain(v);
    NoBlanksOfWhite(a);
    NoBlanksOfWhite(b);
    TrimBetween(NoBlanks(a), v, NoBlanks(b));
  }

  lemma {:induction false} WhiteIsPlain(s: string)
    requires White(s)
    ensures forall i | 0 <= i < |s| :: s[i] != '\'' && s[i] != ','
  {
  }

  /** The rest of a list, from the white space after a comma on. */
  lemma {:induction false} PlainReadsBack(pad: string, vs: seq<string>, commas: seq<Comma>)
    requires White(pad) && |vs| == |commas| + 1 && forall v <- vs :: PlainValue(v)
    requires forall c <- commas :: White(c.before) && White(c.after)
    ensures Values(pad + PlainText(vs, commas), false, "") == Some(vs)
    decreases |vs|
  {
    var v := vs[0];
    assert v in vs;
    WhiteIsPlain(pad);
    if commas == [] {
      TrimAround(pad, v, "");
      assert pad + v + "" == pad + v && pad + v == (pad + v) + "";
      ReadPlain(pad + v, "", "");
      assert "" + NoBlanks(pad + v) == NoBlanks(pad + v);
      assert vs == [v];
    } else {
      var c := commas[0];
      assert c in commas;
      WhiteIsPlain(c.before);
      var head, rest := pad + v + c.before, c.after + PlainText(vs[1..], commas[1..]);
      TrimAround(pad, v, c.before);
      assert pad + PlainText(vs, commas) == head + ("," + rest);
      ReadPlain(head, "," + rest, "");
      assert "" + NoBlanks(head) == NoBlanks(head) && ("," + rest)[1..] == rest;
      PlainReadsBack(c.after, vs[1..], commas[1..]);
      assert [v] + vs[1..] == vs;
    }
  }

  lemma {:induction false} PlainTextEnds(vs: seq<string>, commas: seq<Comma>)
    requires |vs| == |commas| + 1 && forall v <- vs :: PlainValue(v)
    ensures var s := PlainText(vs, commas); s != "" && !IsSpace(s[0]) && !IsSpace(s[|s| - 1])
  {
    assert vs[0] in vs;
    if commas != [] {
      PlainTextEnds(vs[1..], commas[1..]);
    }
  }

  /** Values without quotes, with any white space around the commas between them, are read back. */
  lemma {:induction false} PlainListReadsBack(vs: seq<string>, commas: seq<Comma>)
    requires |vs| == |commas| + 1 && forall v <- vs :: PlainValue(v)
    requires forall c <- commas :: White(c.before) && White(c.after)
    ensures InValues(PlainText(vs, commas)) == Some(vs)
  {
    PlainTextEnds(vs, commas);
    PlainReadsBack("", vs, commas);
    assert "" + PlainText(vs, commas) == PlainText(vs, commas);
  }

  // ----- when a list is refused -----

  function Quotes(s: string): nat {
    if s == "" then 0 else (if s[0] == '\'' then 1 else 0) + Quotes(s[1..])
  }

  predicate Odd(s: string) {
    s != "" && (s[0] == '\'') != Odd(s[1..])
  }

  lemma {:induction false} OddIsCounted(s: string)
    ensures Odd(s) <==> Quotes(s) % 2 == 1
  {
    if s != "" {
      OddIsCounted(s[1..]);
    }
  }

  lemma {:induction false} SkipKeepsOdd(s: string)
    ensures Odd(SkipSeparators(s)) == Odd(s)
  {
    if s != "" && (s[0] == ',' || s[0] == ' ') {
      SkipKeepsOdd(s[1..]);
    }
  }

  lemma {:induction false} OpenQuote(s: string, quoted: bool, cur: string)
    ensures Values(s, quoted, cur).None? <==> Odd(s) != quoted
    decreases |s|
  {
    if s != "" {
      if s[0] == '\'' && quoted && |s| > 1 && s[1] == '\'' {
        assert s[1..][1..] == s[2..];
        OpenQuote(s[2..], true, cur + ['\'']);
      } else if s[0] == '\'' && quoted {
        SkipShortens(s[1..]);
        SkipKeepsOdd(s[1..]);
        OpenQuote(SkipSeparators(s[1..]), false, "");
      } else if s[0] == '\'' {
        OpenQuote(s[1..], true, cur);
      } else if s[0] == ',' && !quoted {
        OpenQuote(s[1..], false, "");
      } else {
        OpenQuote(s[1..], quoted, if s[0] == ' ' && !quoted then cur else cur + [s[0]]);
      }
    }
  }

  lemma {:induction false} QuotesPush(s: string, c: char)
    ensures Quotes(s + [c]) == Quotes(s) + if c == '\'' then 1 else 0
  {
    if s != "" {
      assert (s + [c])[1..] == s[1..] + [c];
      QuotesPush(s[1..], c);
    }
  }

  lemma {:induction false} TrimLeftKeepsQuotes(s: string)
    ensures Quotes(TrimLeft(s)) == Quotes(s)
  {
    if s != "" && IsSpace(s[0]) {
      TrimLeftKeepsQuotes(s[1..]);
    }
  }

  lemma {:induction false} TrimRightKeepsQuotes(s: string)
    ensures Quotes(TrimRight(s)) == Quotes(s)
  {
    if s != "" && IsSpace(s[|s| - 1]) {
      assert s == s[..|s| - 1] + [s[|s| - 1]];
      QuotesPush(s[..|s| - 1], s[|s| - 1]);
      TrimRightKeepsQuotes(s[..|s| - 1]);
    }
  }

  /** A list is refused exactly when its number of quotes is odd. */
  lemma {:induction false} RefusedIffOddQuotes(s: string)
    ensures InValues(s).None? <==> Quotes(s) % 2 == 1
  {
    TrimLeftKeepsQuotes(s);
    TrimRightKeepsQuotes(TrimLeft(s));
    OddIsCounted(Trim(s));
    OpenQuote(Trim(s), false, "");
  }
}
