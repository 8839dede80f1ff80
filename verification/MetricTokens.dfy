/** The page token of a metric history: a timestamp and a step in decimal. */
module MetricTokens {
  import opened Strings
  import opened Wrappers

  const MAX_INT64: int := 0x7fff_ffff_ffff_ffff

  predicate Int64(n: int) { -MAX_INT64 - 1 <= n <= MAX_INT64 }

  predicate Digit(c: char) { '0' <= c <= '9' }

  predicate AllDigits(s: string) {
    forall i | 0 <= i < |s| :: Digit(s[i])
  }

  function DigitValue(c: char): (d: nat)
    requires Digit(c)
    ensures d < 10
  {
    c as int - '0' as int
  }

  function Digits(n: nat): string {
    var last := [('0' as int + n % 10) as char];
    if n < 10 then last else Digits(n / 10) + last
  }

  function Format(n: int): string {
    if n < 0 then "-" + Digits(-n) else Digits(n)
  }

  function Value(s: string): nat
    requires AllDigits(s)
  {
    if s == "" then 0 else Value(s[..|s| - 1]) * 10 + DigitValue(s[|s| - 1])
  }

  /** A decimal number with an optional sign, within 64 bits. */
  function Parse(s: string): Option<int> {
    var digits := if s != "" && (s[0] == '-' || s[0] == '+') then s[1..] else s;
    if digits == "" || !AllDigits(digits) then None
    else
      var n := if s[0] == '-' then 0 - Value(digits) else Value(digits);
      if Int64(n) then Some(n) else None
  }

  datatype Cursor = Cursor(timestamp: int, step: int)

  function Encode(c: Cursor): string {
    Format(c.timestamp) + ":" + Format(c.step)
  }

  function Decode(token: string): Option<Cursor> {
    var n := FirstOf(token, ':');
    if n == |token| then None
    else
      var timestamp, step := Parse(token[..n]), Parse(token[n + 1..]);
      if timestamp.None? || step.None? then None else Some(Cursor(timestamp.value, step.value))
  }

  lemma {:induction false} DigitsRead(n: nat)
    ensures Digits(n) != "" && AllDigits(Digits(n)) && Value(Digits(n)) == n
  {
    if n >= 10 {
      DigitsRead(n / 10);
      assert Digits(n)[..|Digits(n)| - 1] == Digits(n / 10);
    }
  }

  lemma {:induction false} ParseDigits(digits: string)
    requires digits != "" && AllDigits(digits)
    ensures Int64(Value(digits)) ==> Parse(digits) == Some(Value(digits))
    ensures Int64(0 - Value(digits)) ==> Parse("-" + digits) == Some(0 - Value(digits))
  {
    assert Digit(digits[0]);
    assert ("-" + digits)[0] == '-' && ("-" + digits)[1..] == digits;
  }

  lemma {:induction false} ParseFormat(n: int)
    requires Int64(n)
    ensures Parse(Format(n)) == Some(n)
    ensures ':' !in Format(n)
  {
    var m := if n < 0 then 0 - n else n;
    DigitsRead(m);
    ParseDigits(Digits(m));
  }

  /** A page token gives back the position it was made from. */
  lemma {:induction false} TokenReadsBack(c: Cursor)
    requires Int64(c.timestamp) && Int64(c.step)
    ensures Decode(Encode(c)) == Some(c)
  {
    ParseFormat(c.timestamp);
    ParseFormat(c.step);
    FirstOfAfter(Format(c.timestamp), ':', Format(c.step));
    var s, n := Encode(c), |Format(c.timestamp)|;
    assert s[..n] == Format(c.timestamp) && s[n + 1..] == Format(c.step);
  }
}
