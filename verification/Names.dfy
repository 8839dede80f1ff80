/** Which texts the store takes as names and keys. */
module Names {

  const MAX_NAME_BYTES: nat := 250

  /** A Unicode control character. */
  predicate IsControl(c: char) {
    c as int < 32 || 127 <= c as int < 160
  }

  /** A Unicode white space character. */
  predicate IsSpace(c: char) {
    || 9 <= c as int <= 13 || c as int in {0x20, 0x85, 0xa0, 0x1680, 0x2028, 0x2029, 0x202f, 0x205f, 0x3000}
    || 0x2000 <= c as int <= 0x200a
  }

  /** The bytes a character takes in UTF-8. */
  function Utf8Size(c: char): nat {
    if c as int < 0x80 then 1 else if c as int < 0x800 then 2 else if c as int < 0x10000 then 3 else 4
  }

  function Utf8Length(s: string): nat {
    if s == "" then 0 else Utf8Length(s[..|s| - 1]) + Utf8Size(s[|s| - 1])
  }

  predicate ValidName(s: string) {
    s != "" && Utf8Length(s) <= MAX_NAME_BYTES && forall i | 0 <= i < |s| :: !IsControl(s[i])
  }

  function TrimLeft(s: string): string {
    if s != "" && IsSpace(s[0]) then TrimLeft(s[1..]) else s
  }

  function TrimRight(s: string): string {
    if s != "" && IsSpace(s[|s| - 1]) then TrimRight(s[..|s| - 1]) else s
  }

  function Trim(s: string): string {
    TrimRight(TrimLeft(s))
  }

  /** A name that trimming leaves as it is. */
  predicate ValidKey(s: string) {
    ValidName(s) && Trim(s) == s
  }

  lemma {:induction false} TrimShortens(s: string)
    ensures |TrimLeft(s)| <= |s| && |TrimRight(s)| <= |s|
    ensures s != "" && IsSpace(s[0]) ==> |TrimLeft(s)| < |s|
    ensures s != "" && IsSpace(s[|s| - 1]) ==> |TrimRight(s)| < |s|
  {
    if s != "" {
      TrimShortens(s[1..]);
      TrimShortens(s[..|s| - 1]);
    }
  }

  /** A key is a name without white space at either end. */
  lemma {:induction false} KeyEnds(s: string)
    ensures ValidKey(s) <==> ValidName(s) && !IsSpace(s[0]) && !IsSpace(s[|s| - 1])
  {
    if s != "" {
      TrimShortens(s);
      TrimShortens(TrimLeft(s));
    }
  }

  /** A character takes one to four bytes. */
  lemma {:induction false} SizeBounds(s: string)
    ensures |s| <= Utf8Length(s) <= 4 * |s|
  {
    if s != "" {
      SizeBounds(s[..|s| - 1]);
    }
  }

  /** In ASCII a character is a byte. */
  lemma {:induction false} AsciiSize(s: string)
    requires forall i | 0 <= i < |s| :: s[i] as int < 128
    ensures Utf8Length(s) == |s|
  {
    if s != "" {
      AsciiSize(s[..|s| - 1]);
    }
  }
}
