/** LogStream::formatInteger of log/LogStream.cc: digits are produced from the low end into the
    buffer and then reversed in place. */
module LogStream {
  import opened FixedBuffers

  const MAX_NUMBER_SIZE: nat := 32

  /** The lookup table; entry 9 + r is the digit of the remainder r, which C++ makes negative for
      a negative number. */
  const DIGITS: string := "9876543210123456789"

  /** C++ division and remainder by ten, truncating toward zero. */
  function Quotient(n: int): int { if n >= 0 then n / 10 else -(-n / 10) }

  function Remainder(n: int): (r: int)
    ensures -9 <= r <= 9
  {
    n - 10 * Quotient(n)
  }

  function Magnitude(n: int): nat { if n >= 0 then n else -n }

  // ----- decimal text -----

  function Digit(d: nat): char
    requires d < 10
  {
    "0123456789"[d]
  }

  function Value(c: char): nat
    requires '0' <= c <= '9'
  {
    c as int - '0' as int
  }

  function Digits(n: nat): (s: string)
    ensures s != []
  {
    if n < 10 then [Digit(n)] else Digits(n / 10) + [Digit(n % 10)]
  }

  function Decimal(n: int): string { if n < 0 then ['-'] + Digits(-n) else Digits(n) }

  predicate AllDigits(s: string) { forall i :: 0 <= i < |s| ==> '0' <= s[i] <= '9' }

  function ParseDigits(s: string): nat
    requires AllDigits(s)
  {
    if s == [] then 0 else 10 * ParseDigits(s[..|s| - 1]) + Value(s[|s| - 1])
  }

  /** Digits without superfluous zeros, after a minus sign if the number is negative. */
  predicate Canonical(s: string) {
    if s != [] && s[0] == '-' then s[1..] != [] && AllDigits(s[1..]) && s[1] != '0'
    else s != [] && AllDigits(s) && (s[0] == '0' ==> |s| == 1)
  }

  function Parse(s: string): int
    requires Canonical(s)
  {
    if s[0] == '-' then 0 - ParseDigits(s[1..]) else ParseDigits(s)
  }

  lemma DigitValue(d: nat)
    requires d < 10
    ensures '0' <= Digit(d) <= '9' && Value(Digit(d)) == d && (Digit(d) == '0' <==> d == 0)
  {
  }

  lemma {:induction false} DigitsParse(n: nat)
    ensures AllDigits(Digits(n)) && ParseDigits(Digits(n)) == n && (Digits(n)[0] == '0' <==> n == 0)
    ensures n < 10 ==> |Digits(n)| == 1
  {
    DigitValue(n % 10);
    if n >= 10 {
      DigitsParse(n / 10);
      assert Digits(n)[..|Digits(n)| - 1] == Digits(n / 10);
    } else {
      assert Digits(n)[..0] == [];
    }
  }

  lemma AppendDigit(m: nat, d: nat)
    requires d < 10
    ensures (10 * m + d) / 10 == m && (10 * m + d) % 10 == d
  {
  }

  lemma DigitsSnoc(m: nat, d: nat)
    requires m > 0 && d < 10
    ensures Digits(10 * m + d) == Digits(m) + [Digit(d)]
  {
    AppendDigit(m, d);
  }

  lemma ParseSnoc(front: string, c: char)
    requires AllDigits(front) && '0' <= c <= '9'
    ensures AllDigits(front + [c]) && ParseDigits(front + [c]) == 10 * ParseDigits(front) + Value(c)
  {
    assert (front + [c])[..|front|] == front;
  }

  lemma DigitOf(c: char)
    requires '0' <= c <= '9'
    ensures Value(c) < 10 && Digit(Value(c)) == c
  {
  }

  lemma TextSnoc(front: string, c: char)
    requires AllDigits(front) && '0' <= c <= '9' && ParseDigits(front) > 0 && Digits(ParseDigits(front)) == front
    ensures ParseDigits(front + [c]) > 0 && Digits(ParseDigits(front + [c])) == front + [c]
  {
    DigitOf(c);
    DigitsSnoc(ParseDigits(front), Value(c));
    ParseSnoc(front, c);
  }

  lemma OneDigitText(c: char)
    requires '0' <= c <= '9'
    ensures ParseDigits([c]) == Value(c) && Digits(Value(c)) == [c]
  {
    DigitOf(c);
    assert [c][..0] == [];
  }

  lemma {:induction false} ParseDigitsText(s: string)
    requires AllDigits(s) && s != [] && (s[0] == '0' ==> |s| == 1)
    ensures Digits(ParseDigits(s)) == s && (ParseDigits(s) == 0 <==> s == ['0'])
  {
    var front, c := s[..|s| - 1], s[|s| - 1];
    assert s == front + [c];
    if front == [] {
      assert s == [c];
      OneDigitText(c);
    } else {
      ParseDigitsText(front);
      TextSnoc(front, c);
    }
  }

  /** The text formatInteger writes is canonical and parses back to the number ... */
  lemma DecimalParses(n: int)
    ensures Canonical(Decimal(n)) && Parse(Decimal(n)) == n
  {
    DigitsParse(Magnitude(n));
    if n < 0 { assert Decimal(n)[1..] == Digits(-n); }
  }

  /** ... and is the only canonical text that does. */
  lemma ParsesToDecimal(s: string)
    requires Canonical(s)
    ensures Decimal(Parse(s)) == s
  {
    if s[0] == '-' {
      ParseDigitsText(s[1..]);
      assert s == ['-'] + s[1..];
    } else {
      ParseDigitsText(s);
    }
  }

  function Pow10(k: nat): nat { if k == 0 then 1 else 10 * Pow10(k - 1) }

  lemma {:induction false} DigitsLength(n: nat, k: nat)
    requires k > 0 && n < Pow10(k)
    ensures |Digits(n)| <= k
  {
    if n >= 10 { DigitsLength(n / 10, k - 1); }
  }

  /** The number fits the widest integer types of the overloads of operator<<. */
  predicate Representable(n: int) { -0x8000_0000_0000_0000 <= n < 0x1_0000_0000_0000_0000 }

  /** Twenty characters are enough for every 64-bit type, the minimum included. */
  lemma DecimalLength(n: int)
    requires Representable(n)
    ensures |Decimal(n)| <= 20
  {
    assert Pow10(5) == 100_000;
    assert Pow10(10) == 10_000_000_000;
    assert Pow10(15) == 1_000_000_000_000_000;
    assert Pow10(19) == 10_000_000_000_000_000_000;
    assert Pow10(20) == 100_000_000_000_000_000_000;
    if n < 0 { DigitsLength(-n, 19); } else { DigitsLength(n, 20); }
  }

  // ----- the code -----

  function Reversed(s: string): (r: string)
    ensures |r| == |s| && forall i :: 0 <= i < |s| ==> r[i] == s[|s| - 1 - i]
  {
    seq(|s|, i requires 0 <= i < |s| => s[|s| - 1 - i])
  }

  lemma ReversedSnoc(s: string, c: char)
    ensures Reversed(s + [c]) == [c] + Reversed(s)
  {
  }

  /** std::reverse on a stretch of the buffer. */
  method Reverse(a: array<char>, lo: nat, hi: nat)
    requires lo <= hi <= a.Length
    modifies a
    ensures a[lo..hi] == Reversed(old(a[lo..hi]))
    ensures a[..lo] == old(a[..lo]) && a[hi..] == old(a[hi..])
  {
    var i, j := lo, hi;
    while i + 1 < j
      invariant lo <= i <= hi && i + j == lo + hi && i <= j + 1
      invariant forall k :: lo <= k < i || j <= k < hi ==> a[k] == old(a[lo + hi - 1 - k])
      invariant forall k :: 0 <= k < lo || i <= k < j || hi <= k < a.Length ==> a[k] == old(a[k])
    {
      j := j - 1;
      a[i], a[j] := a[j], a[i];
      i := i + 1;
    }
  }

  lemma QuotientMagnitude(n: int)
    ensures Magnitude(Quotient(n)) == Magnitude(n) / 10
    ensures Magnitude(Remainder(n)) == Magnitude(n) % 10
    ensures DIGITS[9 + Remainder(n)] == Digit(Magnitude(n) % 10)
  {
  }

  /** What is still to be produced once the low digits are in the buffer. */
  function Rest(n: int): string { if n == 0 then [] else Digits(Magnitude(n)) }

  lemma NextDigit(n: int, done: string)
    requires n != 0 || done == []
    ensures var d := Digit(Magnitude(n) % 10);
            Digits(Magnitude(n)) + Reversed(done) == Rest(Quotient(n)) + Reversed(done + [d])
  {
    QuotientMagnitude(n);
    ReversedSnoc(done, Digit(Magnitude(n) % 10));
  }

  /** The do-while loop: emits the digits of `n`, lowest first, from offset `start`. */
  method EmitDigits(a: array<char>, start: nat, n: int) returns (cur: nat)
    requires start + |Digits(Magnitude(n))| <= a.Length
    modifies a
    ensures cur == start + |Digits(Magnitude(n))| && Reversed(a[start..cur]) == Digits(Magnitude(n))
    ensures a[..start] == old(a[..start])
  {
    cur := start;
    var num, more := n, true;
    while more
      invariant start <= cur <= a.Length && (num != 0 || cur == start || !more) && (!more ==> num == 0)
      invariant (if more then Digits(Magnitude(num)) else []) + Reversed(a[start..cur]) == Digits(Magnitude(n))
      invariant a[..start] == old(a[..start])
      decreases more, Magnitude(num)
    {
      ghost var done := a[start..cur];
      NextDigit(num, done);
      QuotientMagnitude(num);
      assert |Digits(Magnitude(num))| + |done| == |Digits(Magnitude(n))|;
      a[cur] := DIGITS[9 + Remainder(num)];
      cur, num := cur + 1, Quotient(num);
      more := num != 0;
      assert a[start..cur] == done + [a[cur - 1]];
    }
  }

  /** The digits and the sign, still in reverse. */
  method EmitSigned(a: array<char>, start: nat, n: int) returns (cur: nat)
    requires start + |Decimal(n)| <= a.Length
    modifies a
    ensures cur == start + |Decimal(n)| && Reversed(a[start..cur]) == Decimal(n)
    ensures a[..start] == old(a[..start])
  {
    cur := EmitDigits(a, start, n);
    if n < 0 {
      ghost var digits := a[start..cur];
      a[cur] := '-';
      cur := cur + 1;
      assert a[start..cur] == digits + ['-'];
      ReversedSnoc(digits, '-');
    }
  }

  /** The text of formatInteger, from offset `start` and with its terminator. */
  method EmitText(a: array<char>, start: nat, n: int) returns (cur: nat)
    requires start + |Decimal(n)| < a.Length
    modifies a
    ensures cur == start + |Decimal(n)| && a[start..cur] == Decimal(n) && a[cur] == '\0'
    ensures a[..start] == old(a[..start])
  {
    cur := EmitSigned(a, start, n);
    ghost var text := a[start..cur];
    a[cur] := '\0';
    assert a[start..cur] == text && a[cur..][0] == '\0';
    Reverse(a, start, cur);
    assert a[cur..][0] == '\0';
  }

  class LogStream {
    const buffer: FixedBuffer

    ghost predicate Valid()
      reads this, buffer
    {
      buffer.Valid() && buffer.capacity == SMALL_BUFFER_SIZE
    }

    constructor ()
      ensures Valid() && buffer.Contents() == [] && fresh(buffer) && fresh(buffer.data)
    {
      buffer := new FixedBuffer(SMALL_BUFFER_SIZE);
    }

    method FormatInteger(num: int)
      requires Valid() && Representable(num)
      modifies buffer, buffer.data
      ensures Valid()
      ensures buffer.Contents() == old(buffer.Contents())
                + (if SMALL_BUFFER_SIZE - |old(buffer.Contents())| >= MAX_NUMBER_SIZE then Decimal(num) else [])
    {
      if buffer.Avail() >= MAX_NUMBER_SIZE {
        DecimalLength(num);
        var start := buffer.cur;
        var cur := EmitText(buffer.data, start, num);
        buffer.Add(cur - start);
      }
    }
  }
}
