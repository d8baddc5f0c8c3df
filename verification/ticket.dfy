/** Ticket codes: the letter `A` followed by the day's ticket number written in decimal and
    left-padded with `0` to at least three digits (`A001`, `A042`, `A1000`). */
module Ticket {

  const Prefix: char := 'A'
  const PadWidth: nat := 3

  predicate IsDigit(c: char)
  {
    '0' <= c <= '9'
  }

  function DigitChar(d: nat): (c: char)
    requires d < 10
    ensures IsDigit(c) && c as int - '0' as int == d
  {
    (d + '0' as int) as char
  }

  function DigitValue(c: char): nat
    requires IsDigit(c)
  {
    c as int - '0' as int
  }

  /** `n.toString()` for a non-negative integer: its decimal digits, without leading zeros. */
  function NatToString(n: nat): (s: string)
    ensures |s| >= 1
    ensures forall i :: 0 <= i < |s| ==> IsDigit(s[i])
    ensures |s| > 1 ==> s[0] != '0'
  {
    if n < 10 then [DigitChar(n)] else NatToString(n / 10) + [DigitChar(n % 10)]
  }

  /** The number a string of decimal digits denotes, most significant digit first. */
  function DecimalValue(s: string): nat
    requires forall i :: 0 <= i < |s| ==> IsDigit(s[i])
  {
    if |s| == 0 then 0 else DecimalValue(s[..|s| - 1]) * 10 + DigitValue(s[|s| - 1])
  }

  /** Reading back the decimal form of `n` gives `n`. */
  lemma {:induction false} DecimalRoundTrip(n: nat)
    ensures DecimalValue(NatToString(n)) == n
  {
    if n >= 10 {
      DecimalRoundTrip(n / 10);
      var s := NatToString(n);
      assert s[..|s| - 1] == NatToString(n / 10);
    }
  }

  function Repeat(c: char, k: nat): (r: string)
    ensures |r| == k
    ensures forall i :: 0 <= i < k ==> r[i] == c
  {
    seq(k, _ => c)
  }

  /** Leading zeros do not change a decimal value. */
  lemma {:induction false} LeadingZerosValue(k: nat, s: string)
    requires forall i :: 0 <= i < |s| ==> IsDigit(s[i])
    ensures forall i :: 0 <= i < k + |s| ==> IsDigit((Repeat('0', k) + s)[i])
    ensures DecimalValue(Repeat('0', k) + s) == DecimalValue(s)
    decreases |s|
  {
    var z := Repeat('0', k) + s;
    if |s| == 0 {
      assert z == Repeat('0', k);
      ZerosValue(k);
    } else {
      assert z[..|z| - 1] == Repeat('0', k) + s[..|s| - 1];
      LeadingZerosValue(k, s[..|s| - 1]);
    }
  }

  lemma {:induction false} ZerosValue(k: nat)
    ensures DecimalValue(Repeat('0', k)) == 0
  {
    if k > 0 {
      assert Repeat('0', k)[..k - 1] == Repeat('0', k - 1);
      ZerosValue(k - 1);
    }
  }

  /** `s.padStart(width, fill)`: `s` preceded by enough copies of `fill` to reach `width`
      characters; `s` itself when it is already that long. */
  function PadStart(s: string, width: nat, fill: char): (r: string)
    ensures |r| == if |s| >= width then |s| else width
    ensures r[|r| - |s|..] == s
    ensures forall i :: 0 <= i < |r| - |s| ==> r[i] == fill
  {
    if |s| >= width then s else Repeat(fill, width - |s|) + s
  }

  /** The ticket code for ticket number `n`. */
  function TicketCode(n: nat): (code: string)
    ensures |code| == 1 + (if |NatToString(n)| >= PadWidth then |NatToString(n)| else PadWidth)
    ensures code[0] == Prefix
    ensures forall i :: 1 <= i < |code| ==> IsDigit(code[i])
  {
    [Prefix] + PadStart(NatToString(n), PadWidth, '0')
  }

  /** The number a ticket code carries: its digits after the prefix. */
  function TicketNumber(code: string): nat
    requires |code| >= 1 && forall i :: 1 <= i < |code| ==> IsDigit(code[i])
  {
    DecimalValue(code[1..])
  }

  /** Decoding a ticket code gives back its number. */
  lemma TicketRoundTrip(n: nat)
    ensures TicketNumber(TicketCode(n)) == n
  {
    var s := NatToString(n);
    var code := TicketCode(n);
    if |s| >= PadWidth {
      assert code[1..] == s;
    } else {
      assert code[1..] == Repeat('0', PadWidth - |s|) + s;
      LeadingZerosValue(PadWidth - |s|, s);
    }
    DecimalRoundTrip(n);
  }

  /** Distinct ticket numbers give distinct ticket codes. */
  lemma TicketCodeInjective(a: nat, b: nat)
    requires a != b
    ensures TicketCode(a) != TicketCode(b)
  {
    TicketRoundTrip(a);
    TicketRoundTrip(b);
  }

  function Pow10(k: nat): (p: nat)
    ensures p >= 1
  {
    if k == 0 then 1 else 10 * Pow10(k - 1)
  }

  /** `n` has at most `k` decimal digits exactly when it is below 10^k. */
  lemma {:induction false} DigitCount(n: nat, k: nat)
    requires k >= 1
    ensures |NatToString(n)| <= k <==> n < Pow10(k)
  {
    if n >= 10 && k > 1 {
      DigitCount(n / 10, k - 1);
    } else if n >= 10 {
      assert |NatToString(n)| >= 2;
      assert Pow10(1) == 10;
    }
  }

  /** The ticket code fits the `varchar(10)` column exactly for ticket numbers below 10^9. */
  lemma TicketCodeFitsColumn(n: nat)
    ensures |TicketCode(n)| <= 10 <==> n < 1_000_000_000
  {
    DigitCount(n, 9);
    assert Pow10(9) == 1_000_000_000;
  }

  /** The padding is at least three digits and grows past it: `A001`, `A042`, `A1000`. */
  lemma TicketCodeExamples()
    ensures TicketCode(1) == "A001"
    ensures TicketCode(42) == "A042"
    ensures TicketCode(1000) == "A1000"
  {
    assert NatToString(4) == "4";
    assert NatToString(42) == "42";
    assert NatToString(1) == "1";
    assert NatToString(10) == "10";
    assert NatToString(100) == "100";
    assert NatToString(1000) == "1000";
  }
}
