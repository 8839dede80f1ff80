/** Splitting a text at a character and joining the parts again. */
module Strings {

  /** The index of the first `c`, or the length. */
  function FirstOf(s: string, c: char): (i: nat)
    ensures i <= |s|
  {
    if s == "" || s[0] == c then 0 else 1 + FirstOf(s[1..], c)
  }

  lemma {:induction false} FirstOfAfter(p: string, c: char, q: string)
    requires c !in p
    ensures FirstOf(p + [c] + q, c) == |p|
  {
    var s := p + [c] + q;
    if p != "" {
      assert s[0] == p[0] && s[1..] == p[1..] + [c] + q;
      FirstOfAfter(p[1..], c, q);
    }
  }

  /** The pieces between the separators; the empty text is one empty piece. */
  function Split(s: string, c: char): (pieces: seq<string>)
    ensures pieces != []
  {
    if s == "" then [""]
    else
      var rest, last := Split(s[..|s| - 1], c), s[|s| - 1];
      if last == c then rest + [""] else rest[..|rest| - 1] + [rest[|rest| - 1] + [last]]
  }

  lemma {:induction false} SplitPlain(p: string, c: char)
    requires c !in p
    ensures Split(p, c) == [p]
  {
    if p != "" {
      SplitPlain(p[..|p| - 1], c);
      assert p == p[..|p| - 1] + [p[|p| - 1]];
    }
  }

  lemma {:induction false} SplitOver(s: string, c: char, p: string)
    requires c !in p
    ensures Split(s + [c] + p, c) == Split(s, c) + [p]
  {
    var t := s + [c] + p;
    if p == "" {
      assert t[..|t| - 1] == s;
    } else {
      assert t[..|t| - 1] == s + [c] + p[..|p| - 1];
      SplitOver(s, c, p[..|p| - 1]);
      assert p == p[..|p| - 1] + [p[|p| - 1]];
    }
  }

  /** The pieces with a separator between each two; nothing for no pieces. */
  function Join(pieces: seq<string>, c: char): string {
    if pieces == [] then ""
    else if |pieces| == 1 then pieces[0]
    else Join(pieces[..|pieces| - 1], c) + [c] + pieces[|pieces| - 1]
  }

  lemma {:induction false} JoinPush(pieces: seq<string>, c: char, p: string)
    ensures Join(pieces + [p], c) == if pieces == [] then p else Join(pieces, c) + [c] + p
  {
    assert (pieces + [p])[..|pieces|] == pieces;
  }

  lemma {:induction false} JoinLonger(pieces: seq<string>, c: char, x: char)
    requires pieces != []
    ensures Join(pieces[..|pieces| - 1] + [pieces[|pieces| - 1] + [x]], c) == Join(pieces, c) + [x]
  {
    var init, last := pieces[..|pieces| - 1], pieces[|pieces| - 1];
    assert pieces == init + [last];
    JoinPush(init, c, last);
    JoinPush(init, c, last + [x]);
  }

  lemma {:induction false} JoinSplit(s: string, c: char)
    ensures Join(Split(s, c), c) == s
  {
    if s != "" {
      var rest, last := Split(s[..|s| - 1], c), s[|s| - 1];
      JoinSplit(s[..|s| - 1], c);
      assert s == s[..|s| - 1] + [last];
      if last == c {
        JoinPush(rest, c, "");
      } else {
        JoinLonger(rest, c, last);
      }
    }
  }

  ghost predicate Free(pieces: seq<string>, c: char) {
    forall i | 0 <= i < |pieces| :: c !in pieces[i]
  }

  lemma {:induction false} SplitJoin(pieces: seq<string>, c: char)
    requires pieces != [] && Free(pieces, c)
    ensures Split(Join(pieces, c), c) == pieces
  {
    var init, last := pieces[..|pieces| - 1], pieces[|pieces| - 1];
    assert pieces == init + [last];
    JoinPush(init, c, last);
    if init == [] {
      SplitPlain(last, c);
    } else {
      SplitJoin(init, c);
      SplitOver(Join(init, c), c, last);
    }
  }
}
