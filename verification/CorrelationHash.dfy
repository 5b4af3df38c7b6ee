/** The correlation hash of a redacted string: a 32-bit wrap-around loop and its printed form. */
module CorrelationHash {

  /** One UTF-16 code unit. */
  type Unit = u: nat | u < 65536

  const WORD := 0x1_0000_0000
  const HALF := 0x8000_0000
  const EXACT := 0x20_0000_0000_0000  // integers below 2^53 are exact in a double

  /** The 32-bit two's-complement reading of an integer, as JavaScript's bitwise operators take it. */
  function Signed32(x: int): (r: int)
    ensures -HALF <= r < HALF
    ensures (x - r) % WORD == 0
  {
    var m := x % WORD;
    if m >= HALF then m - WORD else m
  }

  function Power31(n: nat): nat {
    if n == 0 then 1 else 31 * Power31(n - 1)
  }

  /** The base-31 polynomial: the first code unit has the highest power. */
  function Polynomial(units: seq<Unit>): nat {
    if units == [] then 0 else units[0] * Power31(|units| - 1) + Polynomial(units[1..])
  }

  lemma {:induction false} PolynomialAppends(units: seq<Unit>, u: Unit)
    ensures Polynomial(units + [u]) == 31 * Polynomial(units) + u
  {
    if units == [] {
      assert units + [u] == [u];
    } else {
      var n := |units|;
      assert (units + [u])[1..] == units[1..] + [u];
      PolynomialAppends(units[1..], u);
      assert units[0] * Power31(n) == 31 * (units[0] * Power31(n - 1)) by {
        assert Power31(n) == 31 * Power31(n - 1);
      }
    }
  }

  lemma {:induction false} SignedUnique(x: int, y: int)
    requires (x - y) % WORD == 0
    ensures Signed32(x) == Signed32(y)
  {
    var k := (x - y) / WORD;
    assert x == y + WORD * k;
    assert x % WORD == y % WORD;
  }

  lemma {:induction false} Quotient(x: int) returns (k: int)
    requires x % WORD == 0
    ensures x == WORD * k
  {
    k := x / WORD;
  }

  lemma {:induction false} Multiple(k: int)
    ensures (WORD * k) % WORD == 0
  {
  }

  /** One turn of the loop stays exact in a double and multiplies by 31 modulo 2^32. */
  lemma {:induction false} TurnIsExact(hash: int, value: int, u: Unit)
    requires hash == Signed32(value)
    ensures var sum := Signed32(hash * 32) - hash + u;
            -EXACT < sum < EXACT && Signed32(sum) == Signed32(31 * value + u)
  {
    hide Signed32;
    var shifted := Signed32(hash * 32);
    var sum := shifted - hash + u;
    var k := Quotient(value - hash);
    var j := Quotient(hash * 32 - shifted);
    assert 31 * value + u - sum == WORD * (31 * k + j);
    Multiple(31 * k + j);
    SignedUnique(31 * value + u, sum);
  }

  function Abs(x: int): nat {
    if x < 0 then -x else x
  }

  // ----- hexadecimal --------------------------------------------------------

  function HexDigit(d: nat): (c: char)
    requires d < 16
    ensures HexDigitValue(c) == d && IsHexDigit(c)
  {
    "0123456789abcdef"[d]
  }

  function HexDigitValue(c: char): nat {
    if '0' <= c <= '9' then (c - '0') as nat else if 'a' <= c <= 'f' then (c - 'a') as nat + 10 else 0
  }

  predicate IsHexDigit(c: char) {
    '0' <= c <= '9' || 'a' <= c <= 'f'
  }

  function HexText(n: nat): string {
    if n < 16 then [HexDigit(n)] else HexText(n / 16) + [HexDigit(n % 16)]
  }

  function HexValue(s: string): nat {
    if s == [] then 0 else 16 * HexValue(s[..|s| - 1]) + HexDigitValue(s[|s| - 1])
  }

  function Power16(n: nat): nat {
    if n == 0 then 1 else 16 * Power16(n - 1)
  }

  lemma {:induction false} HexLength(n: nat, digits: nat)
    requires digits >= 1 && n < Power16(digits)
    ensures 1 <= |HexText(n)| <= digits
  {
    if n >= 16 {
      assert Power16(1) == 16 * Power16(0);
      HexLength(n / 16, digits - 1);
    }
  }

  lemma {:induction false} HexReads(n: nat)
    ensures HexValue(HexText(n)) == n
  {
    if n >= 16 {
      HexReads(n / 16);
      var s := HexText(n);
      assert s[..|s| - 1] == HexText(n / 16);
    }
  }

  /** `padStart(width, "0")`. */
  function PadStart(s: string, width: nat): (r: string)
    ensures |r| == if |s| < width then width else |s|
    decreases width - |s|
  {
    if |s| < width then PadStart("0" + s, width) else s
  }

  lemma {:induction false} ZeroAdds(s: string)
    ensures HexValue("0" + s) == HexValue(s)
  {
    if s == [] {
      assert "0" + s == "0";
      assert "0"[..0] == [];
    } else {
      ZeroAdds(s[..|s| - 1]);
      assert ("0" + s)[..|s|] == "0" + s[..|s| - 1];
    }
  }

  lemma {:induction false} PaddingReads(s: string, width: nat)
    ensures HexValue(PadStart(s, width)) == HexValue(s)
    decreases width - |s|
  {
    if |s| < width {
      PaddingReads("0" + s, width);
      ZeroAdds(s);
    }
  }

  lemma {:induction false} HexDigits(n: nat)
    ensures forall i :: 0 <= i < |HexText(n)| ==> IsHexDigit(HexText(n)[i])
  {
    if n < 16 {
    } else {
      HexDigits(n / 16);
    }
  }

  lemma {:induction false} PaddingIsHex(s: string, width: nat)
    requires forall i :: 0 <= i < |s| ==> IsHexDigit(s[i])
    ensures forall i :: 0 <= i < |PadStart(s, width)| ==> IsHexDigit(PadStart(s, width)[i])
    decreases width - |s|
  {
    if |s| >= width {
    } else {
      PaddingIsHex("0" + s, width);
    }
  }

  function Printed(hash: int): string {
    "corr_" + PadStart(HexText(Abs(hash)), 8)
  }

  /** Every printed hash has thirteen characters and reads back as the hash without its sign. */
  lemma {:induction false} PrintedReads(hash: int)
    requires -HALF <= hash < HALF
    ensures |Printed(hash)| == 13
    ensures Printed(hash)[..5] == "corr_" && HexValue(Printed(hash)[5..]) == Abs(hash)
    ensures forall i :: 5 <= i < 13 ==> IsHexDigit(Printed(hash)[i])
  {
    assert Abs(hash) < Power16(8) by {
      assert Power16(2) == 16 * Power16(1) && Power16(1) == 16 * Power16(0);
      assert Power16(4) == 16 * Power16(3) && Power16(3) == 16 * Power16(2);
      assert Power16(6) == 16 * Power16(5) && Power16(5) == 16 * Power16(4);
      assert Power16(8) == 16 * Power16(7) && Power16(7) == 16 * Power16(6);
    }
    HexLength(Abs(hash), 8);
    HexReads(Abs(hash));
    PaddingReads(HexText(Abs(hash)), 8);
    HexDigits(Abs(hash));
    PaddingIsHex(HexText(Abs(hash)), 8);
    assert Printed(hash)[5..] == PadStart(HexText(Abs(hash)), 8);
  }

  function Correlation(units: seq<Unit>): string {
    Printed(Signed32(Polynomial(units)))
  }

  /** Two strings correlate exactly when their polynomials agree modulo 2^32 up to sign. */
  lemma {:induction false} CorrelatesExactlyWhen(a: seq<Unit>, b: seq<Unit>)
    ensures Correlation(a) == Correlation(b) <==>
            (Polynomial(a) - Polynomial(b)) % WORD == 0 || (Polynomial(a) + Polynomial(b)) % WORD == 0
  {
    hide Printed, Polynomial, Signed32, Abs;
    SameTextExactlyWhen(Signed32(Polynomial(a)), Signed32(Polynomial(b)));
    MagnitudeAgrees(Polynomial(a), Polynomial(b));
  }

  lemma {:induction false} SameTextExactlyWhen(x: int, y: int)
    requires -HALF <= x < HALF && -HALF <= y < HALF
    ensures Printed(x) == Printed(y) <==> Abs(x) == Abs(y)
  {
    hide Printed, HexValue, Abs;
    PrintedReads(x);
    PrintedReads(y);
    if Abs(x) == Abs(y) {
      SameMagnitude(x, y);
    }
  }

  lemma {:induction false} SameMagnitude(x: int, y: int)
    requires Abs(x) == Abs(y)
    ensures Printed(x) == Printed(y)
  {
  }

  lemma {:induction false} SameRemainder(x: int, y: int, k: int)
    requires x == y + WORD * k
    ensures x % WORD == y % WORD
  {
  }

  lemma {:induction false} MagnitudeInRange(x: int, y: int)
    requires -HALF <= x < HALF && -HALF <= y < HALF
    ensures Abs(x) == Abs(y) <==> (x - y) % WORD == 0 || (x + y) % WORD == 0
  {
    assert (x - y) % WORD == 0 <==> x == y;
    assert (x + y) % WORD == 0 <==> x + y == 0 || x + y == -WORD;
  }

  lemma {:induction false} MagnitudeAgrees(p: int, q: int)
    ensures Abs(Signed32(p)) == Abs(Signed32(q)) <==> (p - q) % WORD == 0 || (p + q) % WORD == 0
  {
    var x, y := Signed32(p), Signed32(q);
    var k, j := (p - x) / WORD, (q - y) / WORD;
    SameRemainder(p - q, x - y, k - j);
    SameRemainder(p + q, x + y, k + j);
    MagnitudeInRange(x, y);
  }

  /** The loop over the lower-cased code units. */
  method ComputeCorrelationHash(units: seq<Unit>) returns (text: string)
    ensures text == Correlation(units) && |text| == 13
  {
    var hash := 0;
    for i := 0 to |units|
      invariant hash == Signed32(Polynomial(units[..i]))
    {
      assert units[..i + 1] == units[..i] + [units[i]];
      PolynomialAppends(units[..i], units[i]);
      TurnIsExact(hash, Polynomial(units[..i]), units[i]);
      var sum := Signed32(hash * 32) - hash + units[i];
      assert -EXACT < sum < EXACT;
      hash := Signed32(sum);
    }
    assert units[..|units|] == units;
    PrintedReads(hash);
    text := "corr_" + PadStart(HexText(Abs(hash)), 8);
  }
}
