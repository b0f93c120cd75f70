/**
 * `FloatRange`, the inclusive interval the command line uses to restrict the zero
 * threshold to [0, 1]: membership, its printed form, and iteration.
 */
module CustomTypes {

  /**
   * A Python number as given to the constructor: an `int`, or a `float` whose decimal
   * expansion has `places` digits after the point (`units / 10^places`).
   */
  datatype Number = Int(i: int) | Decimal(units: int, places: nat) {
    function Value(): real
    {
      match this
      case Int(i) => i as real
      case Decimal(u, p) => u as real / Pow10(p) as real
    }
  }

  /** The stored endpoints; both are inclusive. */
  datatype FloatRange = FloatRange(start: Number, end: Number) {

    /** `x in range`. */
    predicate Contains(x: real)
    {
      start.Value() <= x <= end.Value()
    }

    /** `repr(range)`: the endpoints as Python prints them, in brackets. */
    function Repr(): string
    {
      "[" + Show(start) + ", " + Show(end) + "]"
    }

    /** `iter(range)`: a generator that yields the range itself, once. */
    function Iter(): (r: seq<FloatRange>)
      ensures |r| == 1 && r[0] == this
    {
      [this]
    }
  }

  function Pow10(k: nat): (r: nat)
    ensures r >= 1
  {
    if k == 0 then 1 else 10 * Pow10(k - 1)
  }

  function DigitChar(d: nat): char
    requires d < 10
  {
    (48 + d) as char
  }

  function DigitValue(c: char): nat
  {
    if '0' <= c <= '9' then c as int - 48 else 0
  }

  /** Decimal digits of a natural number, as `str(k)`. */
  function NatToString(k: nat): (r: string)
    ensures |r| >= 1
  {
    if k < 10 then [DigitChar(k)] else NatToString(k / 10) + [DigitChar(k % 10)]
  }

  function IntToString(i: int): string
  {
    if i < 0 then "-" + NatToString(-i) else NatToString(i)
  }

  /** Left-pads with zeros to `width` characters. */
  function PadLeft(s: string, width: nat): (r: string)
    ensures |r| == if |s| >= width then |s| else width
    decreases width - |s|
  {
    if |s| >= width then s else PadLeft("0" + s, width)
  }

  function Abs(i: int): nat
  {
    if i < 0 then -i else i
  }

  /** `k` zero digits. */
  function Zeros(k: nat): string
  {
    seq(k, _ => '0')
  }

  /** `repr(x)`: `str(i)` for an int, `repr` of the float otherwise. */
  function Show(x: Number): string
  {
    match x
    case Int(i) => IntToString(i)
    case Decimal(u, p) => ShowFloat(u, p)
  }

  /**
   * `repr` of the float `units / 10^places`. It prints the shortest digits, as Python does:
   * positional notation when the leading digit's exponent lies in -4..15, and `d.ddde±XX`
   * otherwise.
   */
  function ShowFloat(u: int, p: nat): string
  {
    if u == 0 then "0.0"
    else
      var r := Normalize(Abs(u), -(p as int));
      (if u < 0 then "-" else "") + ShowDigits(r.0, r.1)
  }

  /** `a * 10^e` rewritten as `m * 10^e'` with the trailing zeros of `a` moved into the exponent. */
  function Normalize(a: nat, e: int): (nat, int)
    decreases a
  {
    if a > 0 && a % 10 == 0 then Normalize(a / 10, e + 1) else (a, e)
  }

  /** The exponent of the leading digit of `m * 10^e` (one less than Python's `decpt`). */
  function LeadExponent(m: nat, e: int): int
  {
    |NatToString(m)| - 1 + e
  }

  /** The exponent of the leading digit of the float `units / 10^places`; 0 for zero. */
  function Exponent(u: int, p: nat): int
  {
    if u == 0 then 0 else var r := Normalize(Abs(u), -(p as int)); LeadExponent(r.0, r.1)
  }

  /** The positive float `m * 10^e`, whose shortest digits are those of `m`, as `repr` prints it. */
  function ShowDigits(m: nat, e: int): string
  {
    var d := NatToString(m);
    var x := LeadExponent(m, e);
    if -4 <= x < 16 then
      if e >= 0 then d + Zeros(e) + ".0" else ShowMagnitude(m, -e)
    else
      d[..1] + (if |d| > 1 then "." + d[1..] else "") + "e" + (if x < 0 then "-" else "+")
        + PadLeft(NatToString(Abs(x)), 2)
  }

  /**
   * `a / 10^p` printed with exactly `p` fraction digits and at least one whole digit: the
   * digits of `a`, zero-padded to `p + 1` places, with the point before the last `p`.
   */
  function ShowMagnitude(a: nat, p: nat): string
    requires p > 0
  {
    var s := PadLeft(NatToString(a), p + 1);
    s[..|s| - p] + "." + s[|s| - p..]
  }

  /** Reads a string of decimal digits. */
  function ParseNat(s: string): nat
  {
    if |s| == 0 then 0 else 10 * ParseNat(s[..|s| - 1]) + DigitValue(s[|s| - 1])
  }

  function ParseInt(s: string): int
  {
    if |s| > 0 && s[0] == '-' then 0 - ParseNat(s[1..]) else ParseNat(s)
  }

  ghost predicate AllDigits(s: string)
  {
    forall k :: 0 <= k < |s| ==> '0' <= s[k] <= '9'
  }

  lemma {:induction false} NatToStringDigits(k: nat)
    ensures AllDigits(NatToString(k)) && |NatToString(k)| >= 1
  {
    if k >= 10 {
      NatToStringDigits(k / 10);
    }
  }

  /** Printing a natural number and reading it back gives the number. */
  lemma {:induction false} ParseNatToString(k: nat)
    ensures ParseNat(NatToString(k)) == k
  {
    if k >= 10 {
      var s := NatToString(k);
      assert s[..|s| - 1] == NatToString(k / 10);
      ParseNatToString(k / 10);
    }
  }

  lemma ParseIntToString(i: int)
    ensures ParseInt(IntToString(i)) == i
  {
    if i < 0 {
      ParseNatToString(-i);
      assert ("-" + NatToString(-i))[1..] == NatToString(-i);
    } else {
      NatToStringDigits(i);
      ParseNatToString(i);
    }
  }

  /** Leading zeros do not change the value read. */
  lemma {:induction false} ParseNatLeadingZero(s: string)
    ensures ParseNat("0" + s) == ParseNat(s)
  {
    if |s| > 0 {
      assert ("0" + s)[..|"0" + s| - 1] == "0" + s[..|s| - 1];
      ParseNatLeadingZero(s[..|s| - 1]);
    } else {
      assert ("0" + s)[..0] == "";
    }
  }

  lemma {:induction false} PadLeftSpec(s: string, width: nat)
    ensures ParseNat(PadLeft(s, width)) == ParseNat(s)
    ensures |PadLeft(s, width)| == if |s| >= width then |s| else width
    decreases width - |s|
  {
    if |s| < width {
      ParseNatLeadingZero(s);
      PadLeftSpec("0" + s, width);
    }
  }

  /** `m * 10^k`, by repeated multiplication by ten. */
  function Scale(m: nat, k: nat): nat
  {
    if k == 0 then m else 10 * Scale(m, k - 1)
  }

  lemma {:induction false} ScaleAdd(m: nat, i: nat, j: nat)
    ensures Scale(Scale(m, i), j) == Scale(m, i + j)
  {
    if j > 0 {
      ScaleAdd(m, i, j - 1);
    }
  }

  lemma {:induction false} ScaleMonotone(x: nat, y: nat, k: nat)
    requires x <= y
    ensures Scale(x, k) <= Scale(y, k)
    ensures x < y ==> Scale(x, k) < Scale(y, k)
  {
    if k > 0 {
      ScaleMonotone(x, y, k - 1);
    }
  }

  lemma {:induction false} ScaleOne(k: nat)
    ensures Scale(1, k) == Pow10(k)
  {
    if k > 0 {
      ScaleOne(k - 1);
    }
  }

  lemma {:induction false} ScaleIsProduct(m: nat, k: nat)
    ensures Scale(m, k) == m * Pow10(k)
  {
    if k > 0 {
      ScaleIsProduct(m, k - 1);
      var q := Pow10(k - 1);
      assert m * (10 * q) == 10 * (m * q);
    }
  }

  lemma {:induction false} ParseNatAppend(s: string, t: string)
    ensures ParseNat(s + t) == Scale(ParseNat(s), |t|) + ParseNat(t)
  {
    if |t| == 0 {
      assert s + t == s;
    } else {
      var t', c := t[..|t| - 1], t[|t| - 1];
      assert (s + t)[..|s + t| - 1] == s + t';
      assert (s + t)[|s + t| - 1] == c;
      ParseNatAppend(s, t');
    }
  }

  lemma {:induction false} ParseNatZeros(k: nat)
    ensures ParseNat(Zeros(k)) == 0 && AllDigits(Zeros(k))
  {
    if k > 0 {
      assert Zeros(k)[..k - 1] == Zeros(k - 1);
      ParseNatZeros(k - 1);
    }
  }

  /** The digits of a positive number are as many as its order of magnitude says, led by a non-zero. */
  lemma {:induction false} NatToStringShape(k: nat)
    ensures |NatToString(k)| >= 1 && NatToString(k)[|NatToString(k)| - 1] == DigitChar(k % 10)
    ensures k == 0 ==> NatToString(k) == "0"
    ensures k > 0 ==> NatToString(k)[0] != '0'
    ensures k > 0 ==> Pow10(|NatToString(k)| - 1) <= k < Pow10(|NatToString(k)|)
  {
    if k >= 10 {
      NatToStringShape(k / 10);
      var n := |NatToString(k / 10)|;
      assert Pow10(n) == 10 * Pow10(n - 1) && Pow10(n + 1) == 10 * Pow10(n);
    }
  }

  lemma {:induction false} PadLeftShape(s: string, width: nat)
    requires |s| >= 1 && AllDigits(s)
    ensures |PadLeft(s, width)| >= |s|
    ensures AllDigits(PadLeft(s, width)) && PadLeft(s, width)[|PadLeft(s, width)| - 1] == s[|s| - 1]
    decreases width - |s|
  {
    PadLeftSpec(s, width);
    if |s| < width {
      PadLeftShape("0" + s, width);
    }
  }

  lemma {:induction false} NormalizeSpec(a: nat, e: int)
    requires a > 0
    ensures var r := Normalize(a, e);
      r.0 > 0 && r.0 % 10 != 0 && r.1 >= e && Scale(r.0, r.1 - e) == a
    decreases a
  {
    if a % 10 == 0 {
      NormalizeSpec(a / 10, e + 1);
    }
  }

  lemma {:induction false} PadLeftZeros(s: string, width: nat)
    ensures PadLeft(s, width) == if |s| >= width then s else Zeros(width - |s|) + s
    decreases width - |s|
  {
    if |s| < width {
      PadLeftZeros("0" + s, width);
      var k := width - |s|;
      assert Zeros(k) == Zeros(k - 1) + "0";
      assert Zeros(k - 1) + ("0" + s) == Zeros(k) + s;
    }
  }

  /** Split into whole and fraction parts, a padded digit string keeps its digits and value. */
  lemma SplitDigits(s: string, p: nat) returns (w: string, f: string)
    requires |s| >= p && AllDigits(s)
    ensures w == s[..|s| - p] && f == s[|s| - p..] && w + f == s
    ensures AllDigits(w) && AllDigits(f) && |f| == p
  {
    w, f := s[..|s| - p], s[|s| - p..];
    assert w + f == s;
    assert forall k :: 0 <= k < |w| ==> w[k] == s[k];
    assert forall k :: 0 <= k < |f| ==> f[k] == s[|s| - p + k];
  }

  /** The digits of `a` padded to `n` places: a leading "0" if padding was needed, `a`'s last digit. */
  lemma PaddedNatString(a: nat, n: nat)
    requires n >= 1
    ensures var s := PadLeft(NatToString(a), n);
      |s| >= n && |s| >= 1 && AllDigits(s) && ParseNat(s) == a && s[|s| - 1] == DigitChar(a % 10)
      && (|NatToString(a)| < n ==> |s| == n && s[0] == '0')
      && (|NatToString(a)| >= n ==> s == NatToString(a))
      && (|s| > n ==> s[0] != '0')
  {
    var d := NatToString(a);
    NatToStringDigits(a);
    NatToStringShape(a);
    ParseNatToString(a);
    PadLeftSpec(d, n);
    PadLeftZeros(d, n);
    PadLeftShape(d, n);
  }

  /**
   * The whole digits have no leading zero beyond a lone "0", the `p` fraction digits end in the
   * last digit of `a`, and together they read back as `a`.
   */
  lemma MagnitudeReadsBack(a: nat, p: nat) returns (w: string, f: string)
    requires p > 0
    ensures ShowMagnitude(a, p) == w + "." + f
    ensures |f| == p && AllDigits(w) && AllDigits(f) && |w| >= 1
    ensures w == "0" || w[0] != '0'
    ensures a % 10 != 0 ==> f[p - 1] != '0'
    ensures ParseNat(w + f) == a
  {
    var s := PadLeft(NatToString(a), p + 1);
    PaddedNatString(a, p + 1);
    w, f := SplitDigits(s, p);
    if |s| == p + 1 {
      assert w == [s[0]];
    }
    assert f[p - 1] == s[|s| - 1];
  }

  /** A non-zero float prints as its sign and its normalised digits `m * 10^e`. */
  lemma NonZeroParts(u: int, p: nat) returns (m: nat, e: int)
    requires u != 0
    ensures (m, e) == Normalize(Abs(u), -(p as int))
    ensures ShowFloat(u, p) == (if u < 0 then "-" else "") + ShowDigits(m, e)
    ensures m > 0 && m % 10 != 0 && e + p >= 0 && Scale(m, e + p) == Abs(u)
    ensures LeadExponent(m, e) == Exponent(u, p)
  {
    var r := Normalize(Abs(u), -(p as int));
    NormalizeSpec(Abs(u), -(p as int));
    m, e := r.0, r.1;
  }

  /** Zero prints as "0.0", however many places it was written with. */
  lemma ShowZero(p: nat)
    ensures ShowFloat(0, p) == "0.0"
  {
  }

  /** A whole number in positional notation: its digits, the zeros of its exponent, and ".0". */
  lemma DigitsWhole(m: nat, e: nat) returns (w: string)
    requires m > 0 && -4 <= LeadExponent(m, e) < 16
    ensures ShowDigits(m, e) == w + "." + "0"
    ensures AllDigits(w) && |w| >= 1 && w[0] != '0'
    ensures ParseNat(w + "0") == Scale(m, e + 1)
  {
    var d := NatToString(m);
    NatToStringDigits(m);
    NatToStringShape(m);
    ParseNatToString(m);
    w := d + Zeros(e);
    assert ShowDigits(m, e) == w + "." + "0";
    ParseNatZeros(e);
    ParseNatAppend(d, Zeros(e));
    ParseNatAppend(w, "0");
    assert ParseNat("0") == 0;
    ScaleAdd(m, e, 1);
  }

  /** A float with `-e` fraction digits in positional notation. */
  lemma DigitsFraction(m: nat, e: int) returns (w: string, f: string)
    requires m > 0 && m % 10 != 0 && e < 0 && -4 <= LeadExponent(m, e) < 16
    ensures ShowDigits(m, e) == w + "." + f
    ensures AllDigits(w) && AllDigits(f) && |w| >= 1 && |f| == -e
    ensures w == "0" || w[0] != '0'
    ensures f[|f| - 1] != '0'
    ensures ParseNat(w + f) == m
  {
    assert ShowDigits(m, e) == ShowMagnitude(m, -e);
    w, f := MagnitudeReadsBack(m, -e);
  }

  /** The digits `m * 10^e` of a float `units / 10^p` in positional notation. */
  lemma DigitsPositional(m: nat, e: int, p: nat) returns (w: string, f: string)
    requires m > 0 && m % 10 != 0 && e + p >= 0 && -4 <= LeadExponent(m, e) < 16
    ensures ShowDigits(m, e) == w + "." + f
    ensures AllDigits(w) && AllDigits(f) && |w| >= 1 && |f| >= 1
    ensures w == "0" || w[0] != '0'
    ensures f == "0" || f[|f| - 1] != '0'
    ensures Scale(ParseNat(w + f), p) == Scale(Scale(m, e + p), |f|)
  {
    if e >= 0 {
      w := DigitsWhole(m, e);
      f := "0";
      ScaleAdd(m, e + 1, p);
      ScaleAdd(m, e + p, 1);
    } else {
      w, f := DigitsFraction(m, e);
      ScaleAdd(m, e + p, -e);
    }
  }

  /**
   * In positional notation a non-zero float prints as whole digits without a leading zero, a point and
   * fraction digits without a trailing zero (a single "0" for a whole number). Together they
   * read back as the magnitude: `ParseNat(w + f) / 10^|f| == |units| / 10^places`.
   */
  lemma ShowPositionalReadsBack(u: int, p: nat) returns (w: string, f: string)
    requires u != 0 && -4 <= Exponent(u, p) < 16
    ensures ShowFloat(u, p) == (if u < 0 then "-" else "") + (w + "." + f)
    ensures AllDigits(w) && AllDigits(f) && |w| >= 1 && |f| >= 1
    ensures w == "0" || w[0] != '0'
    ensures f == "0" || f[|f| - 1] != '0'
    ensures Scale(ParseNat(w + f), p) == Scale(Abs(u), |f|)
  {
    var m, e := NonZeroParts(u, p);
    w, f := DigitsPositional(m, e, p);
  }

  /** The digits of a normalised `m`, split after the leading one. */
  lemma MantissaParts(m: nat) returns (d: string, f: string)
    requires m > 0 && m % 10 != 0
    ensures d == NatToString(m)[..1] && f == NatToString(m)[1..]
    ensures (|NatToString(m)| > 1 <==> f != "")
    ensures |d| == 1 && AllDigits(d) && d != "0" && AllDigits(f)
    ensures f == "" || f[|f| - 1] != '0'
    ensures ParseNat(d + f) == m
  {
    var ds := NatToString(m);
    NatToStringDigits(m);
    NatToStringShape(m);
    ParseNatToString(m);
    d, f := SplitDigits(ds, |ds| - 1);
    if f != "" {
      assert f[|f| - 1] == ds[|ds| - 1];
    }
  }

  /** The exponent of scientific notation: at least two digits. */
  lemma ExponentDigits(k: nat) returns (x: string)
    ensures x == PadLeft(NatToString(k), 2)
    ensures |x| >= 2 && AllDigits(x) && ParseNat(x) == k
  {
    PaddedNatString(k, 2);
    x := PadLeft(NatToString(k), 2);
  }

  /** The digits `m * 10^e` of a float `units / 10^p` in scientific notation, leading exponent `x`. */
  lemma DigitsScientific(m: nat, e: int, p: nat) returns (d: string, f: string, x: string)
    requires m > 0 && m % 10 != 0 && e + p >= 0 && !(-4 <= LeadExponent(m, e) < 16)
    ensures ShowDigits(m, e) == d + (if f == "" then "" else "." + f) + "e"
      + (if LeadExponent(m, e) < 0 then "-" else "+") + x
    ensures |d| == 1 && AllDigits(d) && d != "0" && AllDigits(f)
    ensures f == "" || f[|f| - 1] != '0'
    ensures |x| >= 2 && AllDigits(x) && ParseNat(x) == Abs(LeadExponent(m, e))
    ensures LeadExponent(m, e) - |f| + p == e + p && ParseNat(d + f) == m
  {
    d, f := MantissaParts(m);
    x := ExponentDigits(Abs(LeadExponent(m, e)));
  }

  /**
   * In scientific notation a float prints as one non-zero digit, the remaining digits after a
   * point (the last not zero), and a signed exponent of at least two digits. Mantissa and
   * exponent read back as the magnitude: `ParseNat(d + f) * 10^(E - |f|) == |units| / 10^places`.
   */
  lemma ShowScientificReadsBack(u: int, p: nat) returns (d: string, f: string, x: string)
    requires u != 0 && !(-4 <= Exponent(u, p) < 16)
    ensures ShowFloat(u, p) == (if u < 0 then "-" else "")
      + (d + (if f == "" then "" else "." + f) + "e" + (if Exponent(u, p) < 0 then "-" else "+") + x)
    ensures |d| == 1 && AllDigits(d) && d != "0" && AllDigits(f)
    ensures f == "" || f[|f| - 1] != '0'
    ensures |x| >= 2 && AllDigits(x) && ParseNat(x) == Abs(Exponent(u, p))
    ensures Exponent(u, p) - |f| + p >= 0 && Scale(ParseNat(d + f), Exponent(u, p) - |f| + p) == Abs(u)
  {
    var m, e := NonZeroParts(u, p);
    d, f, x := DigitsScientific(m, e, p);
  }

  /**
   * The notation follows the float's magnitude: the leading digit's exponent E satisfies
   * `10^E <= |units| / 10^places < 10^(E+1)`, stated over integers.
   */
  lemma ExponentBounds(u: int, p: nat)
    requires u != 0
    ensures Exponent(u, p) + p >= 0
    ensures Pow10(Exponent(u, p) + p) <= Abs(u) < Pow10(Exponent(u, p) + p + 1)
  {
    var a := Abs(u);
    NormalizeSpec(a, -(p as int));
    var r := Normalize(a, -(p as int));
    ScaledBounds(r.0, r.1 + p);
  }

  /** `m * 10^k` lies between the powers of ten given by its digit count plus `k`. */
  lemma ScaledBounds(m: nat, k: nat)
    requires m > 0
    ensures Pow10(|NatToString(m)| - 1 + k) <= Scale(m, k) < Pow10(|NatToString(m)| + k)
  {
    NatToStringShape(m);
    var n := |NatToString(m)|;
    ScaleMonotone(Pow10(n - 1), m, k);
    ScaleMonotone(m, Pow10(n), k);
    ScalePow10(n - 1, k);
    ScalePow10(n, k);
  }

  lemma ScalePow10(i: nat, k: nat)
    ensures Scale(Pow10(i), k) == Pow10(i + k)
  {
    ScaleOne(i);
    ScaleAdd(1, i, k);
    ScaleOne(i + k);
  }

  /** Two normalised digit strings denote the same number only if they and their exponents agree. */
  lemma {:induction false} NormalUnique(m1: nat, i: nat, m2: nat, j: nat)
    requires m1 % 10 != 0 && m2 % 10 != 0
    requires Scale(m1, i) == Scale(m2, j)
    ensures m1 == m2 && i == j
  {
    if i > 0 && j > 0 {
      NormalUnique(m1, i - 1, m2, j - 1);
    } else if i > 0 {
      ScaleTens(m1, i);
      assert false;
    } else if j > 0 {
      ScaleTens(m2, j);
      assert false;
    }
  }

  lemma ScaleTens(m: nat, k: nat)
    requires k > 0
    ensures Scale(m, k) % 10 == 0
  {
    var x := Scale(m, k - 1);
    assert Scale(m, k) == 10 * x;
  }

  lemma CrossMultiply(x: real, q1: real, y: real, q2: real)
    requires q1 > 0.0 && q2 > 0.0 && x / q1 == y / q2
    ensures x * q2 == y * q1
  {
    var v := x / q1;
    assert x == v * q1;
    assert y == v * q2;
  }

  lemma SignOfQuotient(x: real, q: real)
    requires q > 0.0
    ensures (x < 0.0 <==> x / q < 0.0) && (x == 0.0 <==> x / q == 0.0)
  {
    assert x == (x / q) * q;
  }

  lemma RealProduct(a: nat, b: nat)
    ensures (a * b) as real == a as real * b as real
  {
  }

  /** Equal quotients `u1 / n1 == u2 / n2` have the same sign and cross-multiplied magnitudes. */
  lemma SameQuotient(u1: int, n1: nat, u2: int, n2: nat)
    requires n1 >= 1 && n2 >= 1 && u1 as real / n1 as real == u2 as real / n2 as real
    ensures (u1 < 0 <==> u2 < 0) && (u1 == 0 <==> u2 == 0)
    ensures Abs(u1) * n2 == Abs(u2) * n1
  {
    var x1, x2 := u1 as real, u2 as real;
    var q1, q2 := n1 as real, n2 as real;
    SignOfQuotient(x1, q1);
    SignOfQuotient(x2, q2);
    CrossMultiply(x1, q1, x2, q2);
    var a1, a2 := Abs(u1), Abs(u2);
    assert a1 as real * q2 == a2 as real * q1 by {
      if u1 < 0 {
        assert a1 as real == -x1 && a2 as real == -x2;
        assert (-x1) * q2 == -(x1 * q2);
        assert (-x2) * q1 == -(x2 * q1);
      }
    }
    RealProduct(a1, n2);
    RealProduct(a2, n1);
  }

  /** Equal values `u1 / 10^p1 == u2 / 10^p2` have the same sign and cross-multiplied magnitudes. */
  lemma SameValue(u1: int, p1: nat, u2: int, p2: nat)
    requires Decimal(u1, p1).Value() == Decimal(u2, p2).Value()
    ensures (u1 < 0 <==> u2 < 0) && (u1 == 0 <==> u2 == 0)
    ensures Scale(Abs(u1), p2) == Scale(Abs(u2), p1)
  {
    SameQuotient(u1, Pow10(p1), u2, Pow10(p2));
    ScaleIsProduct(Abs(u1), p2);
    ScaleIsProduct(Abs(u2), p1);
  }

  /** Equal cross-multiplied magnitudes that are normalised have the same digits and exponent. */
  lemma SameDigits(m1: nat, k1: nat, p2: nat, m2: nat, k2: nat, p1: nat)
    requires m1 % 10 != 0 && m2 % 10 != 0
    requires Scale(Scale(m1, k1), p2) == Scale(Scale(m2, k2), p1)
    ensures m1 == m2 && k1 - p1 == k2 - p2
  {
    ScaleAdd(m1, k1, p2);
    ScaleAdd(m2, k2, p1);
    NormalUnique(m1, k1 + p2, m2, k2 + p1);
  }

  /**
   * `repr` depends on the float's value only: `0.5` written as `0.50` prints the same, since
   * both spellings normalise to the same digits and exponent.
   */
  lemma ShowDependsOnValue(u1: int, p1: nat, u2: int, p2: nat)
    requires Decimal(u1, p1).Value() == Decimal(u2, p2).Value()
    ensures ShowFloat(u1, p1) == ShowFloat(u2, p2)
  {
    SameValue(u1, p1, u2, p2);
    if u1 == 0 {
      ShowZero(p1);
      ShowZero(p2);
    } else {
      SameMagnitudeShow(u1, p1, u2, p2);
    }
  }

  /** Non-zero floats of the same sign and cross-multiplied magnitudes print alike. */
  lemma SameMagnitudeShow(u1: int, p1: nat, u2: int, p2: nat)
    requires u1 != 0 && u2 != 0 && (u1 < 0 <==> u2 < 0)
    requires Scale(Abs(u1), p2) == Scale(Abs(u2), p1)
    ensures ShowFloat(u1, p1) == ShowFloat(u2, p2)
  {
    var m1, e1 := NonZeroParts(u1, p1);
    var m2, e2 := NonZeroParts(u2, p2);
    SameDigits(m1, e1 + p1, p2, m2, e2 + p2, p1);
  }

  /** With integer endpoints, the text between the brackets reads back as the two endpoints. */
  lemma ReprReadsBack(start: int, end: int)
    ensures exists s: string, e: string ::
      && FloatRange(Int(start), Int(end)).Repr() == "[" + s + ", " + e + "]"
      && ParseInt(s) == start && ParseInt(e) == end
  {
    ParseIntToString(start);
    ParseIntToString(end);
    var s, e := IntToString(start), IntToString(end);
    assert FloatRange(Int(start), Int(end)).Repr() == "[" + s + ", " + e + "]";
  }

  lemma ReprExample()
    ensures FloatRange(Int(0), Int(1)).Repr() == "[0, 1]"
    ensures FloatRange(Decimal(0, 1), Decimal(5, 1)).Repr() == "[0.0, 0.5]"
  {
    assert Show(Int(0)) == "0" && Show(Int(1)) == "1";
    ShowZero(1);
    ShowHalfExample();
  }

  /** One half prints as 0.5. */
  lemma ShowHalfExample()
    ensures ShowFloat(5, 1) == "0.5"
  {
    assert Normalize(5, -1) == (5, -1);
    assert ShowDigits(5, -1) == "0.5" by {
      assert LeadExponent(5, -1) == -1;
      assert PadLeft("5", 2) == "05";
      assert ShowMagnitude(5, 1) == "0.5";
    }
  }

  /** `repr` drops trailing zeros: 0.50 prints as 0.5, as 0.5 does. */
  lemma ShowTrailingZeroExample()
    ensures ShowFloat(50, 2) == "0.5"
  {
    assert Pow10(2) == 100 && Pow10(1) == 10;
    assert Decimal(50, 2).Value() == Decimal(5, 1).Value();
    ShowDependsOnValue(50, 2, 5, 1);
    ShowHalfExample();
  }

  /** A whole float keeps one fraction digit: 1.0. */
  lemma ShowWholeExample()
    ensures ShowFloat(10, 1) == "1.0"
  {
    assert Normalize(10, -1) == Normalize(1, 0) == (1, 0);
    assert ShowDigits(1, 0) == "1.0" by {
      assert LeadExponent(1, 0) == 0;
      assert Zeros(0) == "";
    }
  }

  /** The smallest positional exponent: 0.0001. */
  lemma ShowSmallPositionalExample()
    ensures ShowFloat(1, 4) == "0.0001"
  {
    assert Normalize(1, -4) == (1, -4);
    assert ShowDigits(1, -4) == "0.0001" by {
      assert LeadExponent(1, -4) == -4;
      assert PadLeft("1", 5) == "00001" by {
        PadLeftZeros("1", 5);
        assert Zeros(4) == "0000";
      }
      assert ShowMagnitude(1, 4) == "0" + "." + "0001";
    }
  }

  /** Below 1e-4 `repr` switches to scientific notation: 1e-05. */
  lemma ShowSmallScientificExample()
    ensures ShowFloat(1, 5) == "1e-05"
  {
    assert Normalize(1, -5) == (1, -5);
    assert ShowDigits(1, -5) == "1e-05" by {
      assert LeadExponent(1, -5) == -5;
      assert PadLeft("5", 2) == PadLeft("05", 2) == "05";
    }
  }

  /** A negative float in scientific notation, with a fraction part: -1.5e-06. */
  lemma ShowNegativeScientificExample()
    ensures ShowFloat(-15, 7) == "-1.5e-06"
  {
    assert Normalize(15, -7) == (15, -7);
    assert ShowDigits(15, -7) == "1.5e-06" by {
      assert NatToString(15) == "15";
      assert LeadExponent(15, -7) == -6;
      assert PadLeft("6", 2) == PadLeft("06", 2) == "06";
    }
  }

  /** A non-empty range contains both of its endpoints. */
  lemma ContainsEndpoints(r: FloatRange)
    requires r.start.Value() <= r.end.Value()
    ensures r.Contains(r.start.Value()) && r.Contains(r.end.Value())
  {
  }

  lemma ContainsExample()
    ensures FloatRange(Int(0), Int(1)).Contains(0.5)
    ensures !FloatRange(Int(0), Int(1)).Contains(2.0)
  {
  }
}
