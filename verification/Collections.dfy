/** Sequences as sets, the sizes of sets, and taking one element out of a sequence. */
module Collections {
  import opened Wrappers

  function Elems<T(==)>(s: seq<T>): set<T> {
    set x | x in s
  }

  ghost predicate Distinct<T>(s: seq<T>) {
    forall i, j | 0 <= i < j < |s| :: s[i] != s[j]
  }

  lemma {:induction false} SubsetSize<T>(a: set<T>, b: set<T>)
    requires a <= b
    ensures |a| <= |b| && (a < b ==> |a| < |b|)
  {
    assert b == a + (b - a);
    if a < b {
      assert b - a != {};
    }
  }

  /** The sequence without its element `i`. */
  function Cut<T>(s: seq<T>, i: nat): seq<T>
    requires i < |s|
  {
    s[..i] + s[i + 1..]
  }

  lemma {:induction false} CutDistinct<T>(s: seq<T>, i: nat)
    requires i < |s| && Distinct(s)
    ensures Distinct(Cut(s, i))
  {
    forall a, b | 0 <= a < b < |s| - 1 ensures Cut(s, i)[a] != Cut(s, i)[b] {
      assert Cut(s, i)[a] == s[if a < i then a else a + 1];
      assert Cut(s, i)[b] == s[if b < i then b else b + 1];
    }
  }

  lemma {:induction false} CutMembers<T>(s: seq<T>, i: nat, x: T)
    requires i < |s| && Distinct(s)
    ensures x in Cut(s, i) <==> x in s && x != s[i]
  {
    if x in s && x != s[i] {
      var j :| 0 <= j < |s| && s[j] == x;
      assert Cut(s, i)[if j < i then j else j - 1] == x;
    }
    if x in Cut(s, i) {
      var j :| 0 <= j < |s| - 1 && Cut(s, i)[j] == x;
      assert x == s[if j < i then j else j + 1];
    }
  }

  // ----- what is written and what is held -----

  /** After step k is held what the step writes, or what was held before it. */
  predicate Holds<T(==)>(held: seq<Option<T>>, written: seq<Option<T>>, k: nat) {
    k < |written| < |held| && held[k + 1] == if written[k].Some? then written[k] else held[k]
  }

  lemma {:induction false} NothingWritten<T>(held: seq<Option<T>>, written: seq<Option<T>>, i: nat, n: nat)
    requires i <= n <= |written| < |held| && forall k: nat | k < |written| :: Holds(held, written, k)
    requires forall k | i <= k < n :: written[k].None?
    ensures held[n] == held[i]
    decreases n
  {
    if i < n {
      NothingWritten(held, written, i, n - 1);
      assert Holds(held, written, n - 1);
    }
  }

  lemma {:induction false} LastWritten<T>(held: seq<Option<T>>, written: seq<Option<T>>, i: nat)
    requires i < |written| < |held| && forall k: nat | k < |written| :: Holds(held, written, k)
    requires written[i].Some? && forall k | i < k < |written| :: written[k].None?
    ensures held[|written|] == written[i]
  {
    assert Holds(held, written, i);
    NothingWritten(held, written, i + 1, |written|);
  }
}
