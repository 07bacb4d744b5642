/** Decimal digits: reading a run of ASCII digits, and writing a natural
    number in decimal padded with zeros to a minimum width. Go has two such
    writers, strconv.Itoa and the time package's own appendInt; this one
    writer models the output of both: strconv.Itoa on non-negative numbers
    (width 1) and the fixed-width numeric fields of time.Format. */
module Decimal {

  predicate IsDigit(c: char) {
    '0' <= c <= '9'
  }

  predicate AllDigits(s: string) {
    forall i :: 0 <= i < |s| ==> IsDigit(s[i])
  }

  function DigitValue(c: char): (d: nat)
    requires IsDigit(c)
    ensures d < 10
  {
    c as int - '0' as int
  }

  function Digit(d: nat): (c: char)
    requires d < 10
    ensures IsDigit(c) && DigitValue(c) == d
  {
    ('0' as int + d) as char
  }

  /** The number a run of digits denotes, most significant digit first. */
  function Value(s: string): nat
    requires AllDigits(s)
  {
    if s == [] then 0 else 10 * Value(s[..|s| - 1]) + DigitValue(s[|s| - 1])
  }

  /** Decimal form of n with at least `width` digits (zeros on the left);
      never empty, so Pad(0, 0) == "0". */
  function Pad(n: nat, width: nat): (r: string)
    ensures AllDigits(r) && |r| >= 1 && |r| >= width
    decreases n + width
  {
    if n < 10 && width <= 1 then [Digit(n)]
    else Pad(n / 10, if width == 0 then 0 else width - 1) + [Digit(n % 10)]
  }

  /** strconv.Itoa on a non-negative number. */
  function Itoa(n: nat): (r: string)
    ensures AllDigits(r) && |r| >= 1
  {
    Pad(n, 1)
  }

  /** Reading back what Pad writes gives the number: the writer is injective. */
  lemma {:induction false} PadValue(n: nat, width: nat)
    ensures AllDigits(Pad(n, width)) && |Pad(n, width)| >= 1
    ensures Value(Pad(n, width)) == n
    decreases n + width
  {
    if n < 10 && width <= 1 {
    } else {
      var w := if width == 0 then 0 else width - 1;
      PadValue(n / 10, w);
      var p := Pad(n / 10, w);
      var s := p + [Digit(n % 10)];
      assert s[..|s| - 1] == p;
      assert Value(s) == 10 * (n / 10) + n % 10;
    }
  }

  /** Writing a run of digits' value back at the run's own width reproduces
      the run, leading zeros included. */
  lemma {:induction false} ValuePad(s: string)
    requires AllDigits(s) && |s| >= 1
    ensures Pad(Value(s), |s|) == s
  {
    var t := s[..|s| - 1];
    var d := DigitValue(s[|s| - 1]);
    assert Value(s) == 10 * Value(t) + d;
    if |s| == 1 {
      assert t == [];
      assert [Digit(d)] == s;
    } else {
      ValuePad(t);
      assert Value(s) / 10 == Value(t) && Value(s) % 10 == d;
      assert Pad(Value(s), |s|) == Pad(Value(t), |t|) + [Digit(d)];
      assert s == t + [s[|s| - 1]];
    }
  }

  lemma Value2(s: string)
    requires |s| == 2 && AllDigits(s)
    ensures Value(s) == 10 * DigitValue(s[0]) + DigitValue(s[1])
  {
    var t := s[..1];
    assert Value(s) == 10 * Value(t) + DigitValue(s[1]);
    assert Value(t) == 10 * Value(t[..0]) + DigitValue(t[0]);
    assert t[..0] == [];
  }

  lemma Value4(s: string)
    requires |s| == 4 && AllDigits(s)
    ensures Value(s) == 1000 * DigitValue(s[0]) + 100 * DigitValue(s[1]) + 10 * DigitValue(s[2]) + DigitValue(s[3])
  {
    var t := s[..3];
    assert Value(s) == 10 * Value(t) + DigitValue(s[3]);
    assert Value(t) == 10 * Value(t[..2]) + DigitValue(t[2]);
    assert t[..2] == s[..2];
    Value2(s[..2]);
  }

  lemma ItoaInjective(m: nat, n: nat)
    ensures Itoa(m) == Itoa(n) <==> m == n
  {
    PadValue(m, 1);
    PadValue(n, 1);
  }

  /** Below the minimum width of 1 the writer puts no zero in front of a
      number of two or more digits. */
  lemma {:induction false} PadNoLeadingZero(n: nat, w: nat)
    requires w <= 1
    ensures n < 10 || Pad(n, w)[0] != '0'
    decreases n
  {
    if !(n < 10 && w <= 1) {
      if n / 10 >= 10 {
        PadNoLeadingZero(n / 10, 0);
      } else {
        assert Pad(n / 10, 0) == [Digit(n / 10)];
      }
    }
  }

  /** strconv.Itoa's canonical form: "0" alone, or no leading zero. */
  lemma ItoaCanonical(n: nat)
    ensures |Itoa(n)| == 1 || Itoa(n)[0] != '0'
  {
    PadNoLeadingZero(n, 1);
  }
}
