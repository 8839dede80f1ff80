/** Label sets of the metrics registry: their keys, and how they are written out. */
module MetricLabels {
  import opened Strings

  const NUL: char := 0 as char

  function Part(keys: seq<string>, values: seq<string>, i: nat): string
    requires i < |keys|
  {
    keys[i] + "=" + if i < |values| then values[i] else ""
  }

  /** One part for each of the first `n` labels. */
  function Parts(keys: seq<string>, values: seq<string>, n: nat): (ps: seq<string>)
    requires n <= |keys|
    ensures |ps| == n && forall i | 0 <= i < n :: ps[i] == Part(keys, values, i)
  {
    if n == 0 then [] else Parts(keys, values, n - 1) + [Part(keys, values, n - 1)]
  }

  /** The key of a label set. */
  function SetKey(keys: seq<string>, values: seq<string>): string {
    Join(Parts(keys, values, |keys|), NUL)
  }

  method LabelSetKey(keys: seq<string>, values: seq<string>) returns (r: string)
    ensures r == SetKey(keys, values)
  {
    r := "";
    for i := 0 to |keys|
      invariant r == Join(Parts(keys, values, i), NUL)
    {
      KeyStep(keys, values, i);
      if i > 0 {
        r := r + [NUL];
      }
      r := r + keys[i] + "=";
      if i < |values| {
        r := r + values[i];
      }
    }
  }

  lemma {:induction false} KeyStep(keys: seq<string>, values: seq<string>, i: nat)
    requires i < |keys|
    ensures var r := Join(Parts(keys, values, i), NUL); var s := if i > 0 then r + [NUL] else r;
      Join(Parts(keys, values, i + 1), NUL) == if i < |values| then s + keys[i] + "=" + values[i] else s + keys[i] + "="
  {
    JoinPush(Parts(keys, values, i), NUL, Part(keys, values, i));
    var r := Join(Parts(keys, values, i), NUL);
    var s := if i > 0 then r + [NUL] else r;
    assert s + Part(keys, values, i) == if i < |values| then s + keys[i] + "=" + values[i] else s + keys[i] + "=";
  }

  // ----- different label sets get different keys -----

  lemma {:induction false} PartInjective(k: string, u: string, v: string)
    requires k + "=" + u == k + "=" + v
    ensures u == v
  {
    assert u == (k + "=" + u)[|k| + 1..];
    assert v == (k + "=" + v)[|k| + 1..];
  }

  lemma {:induction false} PartPlain(keys: seq<string>, values: seq<string>, i: nat)
    requires i < |keys| && Free(keys, NUL) && Free(values, NUL)
    ensures NUL !in Part(keys, values, i)
  {
    var v := if i < |values| then values[i] else "";
    forall c | c in keys[i] + "=" + v ensures c != NUL {
      assert c in keys[i] || c == '=' || c in v;
    }
  }

  /** Splitting a key gives its parts. */
  lemma {:induction false} SplitKey(keys: seq<string>, values: seq<string>)
    requires keys != [] && Free(keys, NUL) && Free(values, NUL)
    ensures Split(SetKey(keys, values), NUL) == Parts(keys, values, |keys|)
  {
    var ps := Parts(keys, values, |keys|);
    forall i | 0 <= i < |ps| ensures NUL !in ps[i] {
      PartPlain(keys, values, i);
    }
    SplitJoin(ps, NUL);
  }

  /** Two full label sets without NUL characters have the same key only if they are the same. */
  lemma {:induction false} KeysDiffer(keys: seq<string>, u: seq<string>, v: seq<string>)
    requires |keys| == |u| == |v| && Free(keys, NUL) && Free(u, NUL) && Free(v, NUL)
    requires SetKey(keys, u) == SetKey(keys, v)
    ensures u == v
  {
    if keys != [] {
      SplitKey(keys, u);
      SplitKey(keys, v);
      forall i | 0 <= i < |u| ensures u[i] == v[i] {
        assert Part(keys, u, i) == Parts(keys, u, |keys|)[i] == Parts(keys, v, |keys|)[i] == Part(keys, v, i);
        PartInjective(keys[i], u[i], v[i]);
      }
    }
  }

  // ----- escaping -----

  /** Every occurrence of a character replaced by a string. */
  function Replace(s: string, c: char, with: string): string {
    if s == "" then "" else (if s[0] == c then with else [s[0]]) + Replace(s[1..], c, with)
  }

  /** Backslash, then double quote, then newline, one pass each. */
  function Escape(s: string): string {
    Replace(Replace(Replace(s, '\\', "\\\\"), '"', "\\\""), '\n', "\\n")
  }

  function EscapeChar(c: char): string {
    match c
    case '\\' => "\\\\"
    case '"' => "\\\""
    case '\n' => "\\n"
    case _ => [c]
  }

  function EscapeEach(s: string): string {
    if s == "" then "" else EscapeChar(s[0]) + EscapeEach(s[1..])
  }

  function Unescape(s: string): string {
    if s == "" then ""
    else if s[0] != '\\' || |s| == 1 then [s[0]] + Unescape(s[1..])
    else [if s[1] == 'n' then '\n' else s[1]] + Unescape(s[2..])
  }

  lemma {:induction false} ReplaceOver(s: string, t: string, c: char, with: string)
    ensures Replace(s + t, c, with) == Replace(s, c, with) + Replace(t, c, with)
  {
    if s == "" {
      assert s + t == t;
    } else {
      assert (s + t)[1..] == s[1..] + t;
      ReplaceOver(s[1..], t, c, with);
    }
  }

  lemma {:induction false} ReplaceOne(x: char, c: char, with: string)
    ensures Replace([x], c, with) == if x == c then with else [x]
  {
  }

  lemma {:induction false} ReplaceTwo(x: char, y: char, c: char, with: string)
    requires x != c
    ensures Replace([x, y], c, with) == [x] + if y == c then with else [y]
  {
    assert [x, y] == [x] + [y];
    ReplaceOver([x], [y], c, with);
    ReplaceOne(x, c, with);
    ReplaceOne(y, c, with);
  }

  lemma {:induction false} EscapeOne(x: char)
    ensures Escape([x]) == EscapeChar(x)
  {
    ReplaceOne(x, '\\', "\\\\");
    ReplaceOne(x, '"', "\\\"");
    ReplaceOne(x, '\n', "\\n");
    ReplaceTwo('\\', '\\', '"', "\\\"");
    ReplaceTwo('\\', '\\', '\n', "\\n");
    ReplaceTwo('\\', '"', '\n', "\\n");
  }

  lemma {:induction false} EscapeOver(s: string, t: string)
    ensures Escape(s + t) == Escape(s) + Escape(t)
  {
    ReplaceOver(s, t, '\\', "\\\\");
    ReplaceOver(Replace(s, '\\', "\\\\"), Replace(t, '\\', "\\\\"), '"', "\\\"");
    ReplaceOver(Replace(Replace(s, '\\', "\\\\"), '"', "\\\""),
                Replace(Replace(t, '\\', "\\\\"), '"', "\\\""), '\n', "\\n");
  }

  /** The three passes do not disturb each other: they escape each character once. */
  lemma {:induction false} EscapeIsEach(s: string)
    ensures Escape(s) == EscapeEach(s)
  {
    if s != "" {
      assert s == [s[0]] + s[1..];
      EscapeOver([s[0]], s[1..]);
      EscapeOne(s[0]);
      EscapeIsEach(s[1..]);
    }
  }

  lemma {:induction false} UnescapeEach(s: string)
    ensures Unescape(EscapeEach(s)) == s
  {
    if s != "" {
      var e, rest := EscapeEach(s), EscapeEach(s[1..]);
      UnescapeEach(s[1..]);
      if |EscapeChar(s[0])| == 1 {
        assert e[1..] == rest;
      } else {
        assert e[2..] == rest;
      }
    }
  }

  /** What was escaped can be read back, so no two values are written alike. */
  lemma {:induction false} EscapeReadsBack(s: string)
    ensures Unescape(Escape(s)) == s
  {
    EscapeIsEach(s);
    UnescapeEach(s);
  }

  // ----- writing a label set out -----

  function Write(part: string): string {
    var i := FirstOf(part, '=');
    if i == |part| then part else part[..i] + "=\"" + Escape(part[i + 1..]) + "\""
  }

  function Written(parts: seq<string>): (ws: seq<string>)
    ensures |ws| == |parts| && forall i | 0 <= i < |parts| :: ws[i] == Write(parts[i])
  {
    if parts == [] then [] else Written(parts[..|parts| - 1]) + [Write(parts[|parts| - 1])]
  }

  method FormatLabels(keys: seq<string>, setKey: string) returns (r: string)
    ensures r == if keys == [] || setKey == "" then "" else "{" + Join(Written(Split(setKey, NUL)), ',') + "}"
  {
    if keys == [] || setKey == "" {
      return "";
    }
    var parts := Split(setKey, NUL);
    ghost var ws := Written(parts);
    r := "{";
    for i := 0 to |parts|
      invariant r == "{" + Join(ws[..i], ',')
    {
      FormatStep(ws, i);
      if i > 0 {
        r := r + ",";
      }
      r := r + Write(parts[i]);
    }
    assert ws[..|parts|] == ws;
    r := r + "}";
  }

  lemma {:induction false} FormatStep(ws: seq<string>, i: nat)
    requires i < |ws|
    ensures i == 0 ==> "{" + Join(ws[..i], ',') + ws[i] == "{" + Join(ws[..i + 1], ',')
    ensures i > 0 ==> "{" + Join(ws[..i], ',') + "," + ws[i] == "{" + Join(ws[..i + 1], ',')
  {
    assert ws[..i + 1] == ws[..i] + [ws[i]];
    JoinPush(ws[..i], ',', ws[i]);
    Reassociate("{", Join(ws[..i], ','), ",", ws[i]);
  }

  lemma {:induction false} Reassociate(a: string, b: string, c: string, d: string)
    ensures a + b + c + d == a + (b + c + d)
    ensures a + "" + d == a + d
  {
  }

  /** A label as it should read: name="escaped value". */
  function Label(name: string, value: string): string {
    name + "=\"" + EscapeEach(value) + "\""
  }

  function Labels(keys: seq<string>, values: seq<string>): (ls: seq<string>)
    requires |keys| == |values|
    ensures |ls| == |keys| && forall i | 0 <= i < |keys| :: ls[i] == Label(keys[i], values[i])
  {
    if keys == [] then []
    else Labels(keys[..|keys| - 1], values[..|keys| - 1]) + [Label(keys[|keys| - 1], values[|keys| - 1])]
  }

  lemma {:induction false} WritePart(k: string, v: string)
    requires '=' !in k
    ensures Write(k + "=" + v) == Label(k, v)
  {
    var s := k + "=" + v;
    FirstOfAfter(k, '=', v);
    assert s[..|k|] == k && s[|k| + 1..] == v;
    EscapeIsEach(v);
  }

  /** Formatting the key of a label set writes the labels it was made from, separated by commas. */
  lemma {:induction false} KeyFormatsToLabels(keys: seq<string>, values: seq<string>)
    requires keys != [] && |keys| == |values| && Free(keys, NUL) && Free(values, NUL) && Free(keys, '=')
    ensures Written(Split(SetKey(keys, values), NUL)) == Labels(keys, values)
  {
    SplitKey(keys, values);
    var ps := Parts(keys, values, |keys|);
    forall i | 0 <= i < |keys| ensures Written(ps)[i] == Labels(keys, values)[i] {
      assert Part(keys, values, i) == keys[i] + "=" + values[i];
      WritePart(keys[i], values[i]);
    }
  }
}
