/** The decimal printer of internal/auth/session.go: digits written backwards into a
    buffer of 20 bytes. */
module Itoa {
  const MIN_INT: int := -0x8000_0000_0000_0000
  const MAX_INT: int := 0x7fff_ffff_ffff_ffff
  const BUFFER_SIZE: nat := 20

  /** Two's complement negation in 64 bits: the smallest integer is its own negative. */
  function Negate(i: int): int
    requires MIN_INT <= i <= MAX_INT
  {
    if i == MIN_INT then MIN_INT else -i
  }

  function Digit(d: nat): char
    requires d < 10
  {
    '0' + d as char
  }

  function Digits(n: nat): string {
    if n == 0 then "" else Digits(n / 10) + [Digit(n % 10)]
  }

  method Itoa(value: int) returns (s: string)
    requires MIN_INT <= value <= MAX_INT
    ensures value != MIN_INT ==> Parse(s) == Ok(value) && Canonical(s)
    ensures value == MIN_INT ==> s == "-" && Parse(s) == Malformed
    ensures |s| <= BUFFER_SIZE
  {
    if value == 0 {
      ParseZero();
      return "0";
    }
    var i := value;
    var neg := i < 0;
    if neg { i := Negate(i); }
    var b := new char[BUFFER_SIZE];
    var pos := WriteDigits(b, i);
    if neg {
      pos := pos - 1;
      ghost var digits := b[pos + 1..];
      b[pos] := '-';
      assert b[pos..] == "-" + digits;
    }
    s := b[pos..];
    if value != MIN_INT { Printed(value, s); } else { assert s == "-"; }
  }

  /** The loop over the digits, from the end of the buffer. It leaves a byte for the sign. */
  method WriteDigits(b: array<char>, value: int) returns (pos: nat)
    requires b.Length == BUFFER_SIZE && value <= MAX_INT
    modifies b
    ensures 1 <= pos <= BUFFER_SIZE
    ensures b[pos..] == if value > 0 then Digits(value) else ""
  {
    var i := value;
    pos := b.Length;
    if value > 0 { FitsBuffer(value); }
    while i > 0
      invariant pos <= BUFFER_SIZE
      invariant value > 0 ==> i >= 0 && Digits(i) + b[pos..] == Digits(value)
      invariant value <= 0 ==> i == value && pos == BUFFER_SIZE
    {
      ghost var done := b[pos..];
      assert |Digits(i) + done| == |Digits(value)|;
      pos := pos - 1;
      b[pos] := Digit(i % 10);
      assert b[pos..] == [Digit(i % 10)] + done;
      assert Digits(i / 10) + ([Digit(i % 10)] + done) == Digits(i) + done;
      i := i / 10;
    }
  }

  lemma ParseZero()
    ensures Parse("0") == Ok(0) && Canonical("0")
  {
    assert "0"[..0] == "" && Value("0") == Value("0"[..0]) * 10 + 0;
  }

  lemma Printed(value: int, s: string)
    requires MIN_INT < value <= MAX_INT && value != 0
    requires s == if value < 0 then "-" + Digits(-value) else Digits(value)
    ensures Parse(s) == Ok(value) && Canonical(s)
  {
    var n: nat := if value < 0 then -value else value;
    DigitsRoundTrip(n);
    DigitsLead(n);
    if value < 0 { assert s[1..] == Digits(n) && s[1] == Digits(n)[0]; }
  }

  // ---------------------------------------------------------------- reading it back

  datatype Parsed = Ok(value: int) | Malformed

  predicate IsDigit(c: char) { '0' <= c <= '9' }

  predicate AllDigits(s: string) { forall i | 0 <= i < |s| :: IsDigit(s[i]) }

  lemma DigitsInit(s: string)
    requires s != "" && AllDigits(s)
    ensures AllDigits(s[..|s| - 1]) && IsDigit(s[|s| - 1])
  {
  }

  function Value(s: string): nat
    requires AllDigits(s)
  {
    if s == "" then 0
    else
      DigitsInit(s);
      Value(s[..|s| - 1]) * 10 + (s[|s| - 1] - '0') as nat
  }

  /** A decimal integer, with an optional minus sign. */
  function Parse(s: string): Parsed {
    var body := if s != "" && s[0] == '-' then s[1..] else s;
    if body == "" || !AllDigits(body) then Malformed
    else
      var v: int := Value(body);
      Ok(if s[0] == '-' then -v else v)
  }

  /** No leading zeros, and no negative zero. */
  predicate Canonical(s: string) {
    s == "0" || (s != "" && s[0] != '0' && (s[0] == '-' ==> |s| > 1 && s[1] != '0'))
  }

  lemma {:induction false} DigitsRoundTrip(n: nat)
    ensures AllDigits(Digits(n)) && Value(Digits(n)) == n
  {
    if n > 0 {
      DigitsRoundTrip(n / 10);
      assert Digits(n)[..|Digits(n)| - 1] == Digits(n / 10);
    }
  }

  lemma {:induction false} DigitsLead(n: nat)
    requires n > 0
    ensures Digits(n) != "" && Digits(n)[0] != '0' && Digits(n)[0] != '-'
  {
    if n >= 10 { DigitsLead(n / 10); } else { assert Digits(n / 10) == ""; }
  }

  /** The printed form is the only canonical one: what parses to n, without leading
      zeros, is Digits(n). */
  lemma {:induction false} DigitsUnique(s: string)
    requires s != "" && AllDigits(s) && s[0] != '0'
    ensures Value(s) > 0 && Digits(Value(s)) == s
  {
    var init := s[..|s| - 1];
    DigitsInit(s);
    var d := (s[|s| - 1] - '0') as nat;
    assert s == init + [s[|s| - 1]];
    assert Value(s) == Value(init) * 10 + d && d < 10;
    if init != "" {
      DigitsUnique(init);
    } else {
      assert Value(init) == 0 && Digits(0) == "";
    }
    assert Value(s) / 10 == Value(init) && Value(s) % 10 == d;
    assert Digit(d) == s[|s| - 1];
  }

  function Pow10(k: nat): nat { if k == 0 then 1 else 10 * Pow10(k - 1) }

  lemma {:induction false} DigitsBound(n: nat, k: nat)
    requires n < Pow10(k)
    ensures |Digits(n)| <= k
  {
    if n > 0 { DigitsBound(n / 10, k - 1); }
  }

  /** 19 digits and a sign: the buffer is exactly large enough. */
  lemma FitsBuffer(n: nat)
    requires n <= MAX_INT
    ensures |Digits(n)| <= BUFFER_SIZE - 1
  {
    assert Pow10(5) == 100_000;
    assert Pow10(10) == 10_000_000_000;
    assert Pow10(15) == 1_000_000_000_000_000;
    assert Pow10(19) == 10_000_000_000_000_000_000;
    DigitsBound(n, 19);
  }
}
