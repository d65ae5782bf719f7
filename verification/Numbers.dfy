/** Go's 64-bit int, and decimal text. */
module Numbers {
  import opened Wrappers

  // ---------- Go's 64-bit int ----------

  const INT_BOUND := 0x8000_0000_0000_0000

  /** What a 64-bit two's complement int holds after an operation whose exact result is n. */
  function WrapInt(n: int): (r: int)
    ensures -INT_BOUND <= r < INT_BOUND
    ensures (r - n) % (2 * INT_BOUND) == 0
    ensures -INT_BOUND <= n < INT_BOUND ==> r == n
  {
    (n + INT_BOUND) % (2 * INT_BOUND) - INT_BOUND
  }

  lemma WrapPeriodic(n: int, k: int)
    ensures WrapInt(n + 2 * INT_BOUND * k) == WrapInt(n)
  {
  }

  /** Wrapping early does not change a later wrap. */
  lemma WrapStep(n: int, d: int)
    ensures WrapInt(WrapInt(n) * 10 + d) == WrapInt(n * 10 + d)
  {
    var k := (n - WrapInt(n)) / (2 * INT_BOUND);
    assert n == WrapInt(n) + 2 * INT_BOUND * k;
    WrapPeriodic(WrapInt(n) * 10 + d, 10 * k);
  }

  // ---------- Decimal text ----------

  predicate IsDigit(c: char) {
    '0' <= c <= '9'
  }

  function DigitValue(c: char): (n: nat)
    requires IsDigit(c)
  {
    c as int - '0' as int
  }

  predicate AllDigits(s: string) {
    forall i :: 0 <= i < |s| ==> IsDigit(s[i])
  }

  /** The number a run of decimal digits denotes; the empty run denotes 0. */
  function Decimal(s: string): (n: nat)
    requires AllDigits(s)
  {
    if s == "" then 0 else Decimal(s[..|s| - 1]) * 10 + DigitValue(s[|s| - 1])
  }

  function DigitChar(d: nat): (c: char)
    requires d < 10
    ensures IsDigit(c) && DigitValue(c) == d
  {
    '0' + d as char
  }

  /** The decimal digits of n without leading zeros. */
  function Digits(n: nat): (s: string)
    ensures s != "" && AllDigits(s)
    ensures s[0] == '0' ==> n == 0
  {
    if n < 10 then [DigitChar(n)] else Digits(n / 10) + [DigitChar(n % 10)]
  }

  lemma {:induction false} DecimalOfDigits(n: nat)
    ensures Decimal(Digits(n)) == n
  {
    var s := Digits(n);
    if n < 10 {
      assert s[..0] == "";
    } else {
      DecimalOfDigits(n / 10);
      assert s[..|s| - 1] == Digits(n / 10);
    }
  }

  /** The number an optional sign and digits denote. */
  function Signed(s: string): (r: Option<int>) {
    var digits := if s != "" && (s[0] == '-' || s[0] == '+') then s[1..] else s;
    if digits == "" || !AllDigits(digits) then None
    else if s[0] == '-' then Some(0 - Decimal(digits)) else Some(Decimal(digits))
  }

  /** strconv.ParseInt(s, 10, 64). */
  function ParseInt(s: string): (r: Option<int>)
    ensures r.Some? ==> -INT_BOUND <= r.value < INT_BOUND
  {
    var n := Signed(s);
    if n.Some? && -INT_BOUND <= n.value < INT_BOUND then n else None
  }

  /** The number that ParseInt returns beside an error that is ignored: the nearest in range, or 0. */
  function ParseIntOrNearest(s: string): (r: int)
    ensures -INT_BOUND <= r < INT_BOUND
    ensures ParseInt(s).Some? ==> r == ParseInt(s).value
  {
    var n := Signed(s);
    if n.None? then 0 else if n.value < -INT_BOUND then -INT_BOUND
    else if n.value >= INT_BOUND then INT_BOUND - 1 else n.value
  }

  lemma ParseDigits(n: nat)
    ensures ParseInt(Digits(n)) == if n < INT_BOUND then Some(n) else None
  {
    DecimalOfDigits(n);
  }
}
