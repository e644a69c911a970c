/** src/util/HumanReadable.cpp over exact rationals. */
module HumanReadable {
  import opened Basics
  import opened StringUtil

  const UNITS: seq<string> := ["B", "KB", "MB", "GB", "TB", "PB"]

  function Thousand(i: nat): real {
    if i == 0 then 1.0 else 1000.0 * Thousand(i - 1)
  }

  /** The scaled value and the unit index at which repeated division stops. */
  function Scaled(b: real): (r: (real, nat))
    decreases if b > 1000.0 then b.Floor else 0
  {
    if b > 1000.0 then
      var (v, i) := Scaled(b / 1000.0);
      (v, i + 1)
    else (b, 0)
  }

  /** The unit index is the least i with b <= 1000^(i+1), and the value is b in that unit. */
  lemma {:induction false} ScaledIsLeast(b: real)
    ensures var (v, i) := Scaled(b);
            && v * Thousand(i) == b
            && v <= 1000.0
            && (i > 0 ==> v > 1.0)
            && b <= Thousand(i + 1)
            && forall k: nat :: 1 <= k <= i ==> b > Thousand(k)
    decreases if b > 1000.0 then b.Floor else 0
  {
    if b > 1000.0 {
      ScaledIsLeast(b / 1000.0);
      var (v, i) := Scaled(b / 1000.0);
      forall k: nat | 1 <= k <= i + 1 ensures b > Thousand(k) {
        if k > 1 {
          assert b / 1000.0 > Thousand(k - 1);
        }
      }
    }
  }

  lemma {:induction false} ThousandGrows(i: nat, j: nat)
    requires i < j
    ensures 1.0 <= Thousand(i) < Thousand(j)
  {
    if i + 1 < j {
      ThousandGrows(i, j - 1);
    } else if i > 0 {
      ThousandGrows(i - 1, i);
    }
  }

  /** A larger rate never shows in a smaller unit, nor smaller in the same unit. */
  lemma ScaledMonotone(a: real, b: real)
    requires a <= b
    ensures Scaled(a).1 <= Scaled(b).1
    ensures Scaled(a).1 == Scaled(b).1 ==> Scaled(a).0 <= Scaled(b).0
  {
    ScaledIsLeast(a);
    ScaledIsLeast(b);
    var i, j := Scaled(a).1, Scaled(b).1;
    assert b <= Thousand(j + 1);
    ThousandGrows(i, i + 1);
    if i == j {
      ProductOrder(Scaled(a).0, Scaled(b).0, Thousand(i));
    }
  }

  lemma ProductOrder(x: real, y: real, t: real)
    requires t >= 1.0 && x * t <= y * t
    ensures x <= y
  {
    assert (y - x) * t >= 0.0;
  }

  /** The unit table is long enough exactly up to 10^18. */
  lemma UnitInTable(b: real)
    ensures Scaled(b).1 < |UNITS| <==> b <= 1000000000000000000.0
  {
    var i := Scaled(b).1;
    ScaledIsLeast(b);
    assert Thousand(6) == 1000000000000000000.0 by {
      assert Thousand(3) == 1000000000.0;
    }
    if i < 5 {
      ThousandGrows(i + 1, 6);
    }
    if i > 5 {
      assert b > Thousand(6);
    }
  }

  // ----- fixed-point text

  function Power10(d: nat): (p: nat)
    ensures p > 0
  {
    if d == 0 then 1 else 10 * Power10(d - 1)
  }

  /** n printed with at least w digits. */
  function Padded(n: nat, w: nat): (s: string)
    ensures |s| >= w && s != "" && AllDigits(s)
  {
    if w <= 1 then Digits(n) else Padded(n / 10, w - 1) + [DigitChar(n % 10)]
  }

  /** The text "%.{d}f" gives for the value n / 10^d. */
  function Fixed(n: nat, d: nat): string {
    var s := Padded(n, d + 1);
    if d == 0 then s else s[..|s| - d] + "." + s[|s| - d..]
  }

  function RateText(n: nat, i: nat): string
    requires i < |UNITS|
  {
    Fixed(n, i) + " " + UNITS[i] + "/s"
  }

  function AmountText(n: nat, i: nat): string
    requires i < |UNITS|
  {
    Fixed(n, 2) + " " + UNITS[i]
  }

  /** n is an integer nearest to x (either one at a tie). */
  predicate Nearest(n: nat, x: real) {
    n as real - 0.5 <= x <= n as real + 0.5
  }

  /** n is v rounded to d decimals, in units of the last one. */
  predicate Rounds(n: nat, v: real, d: nat) {
    Nearest(n, v * Power10(d) as real)
  }

  /** All the digits together read back as n. */
  lemma {:induction false} PaddedDenotes(n: nat, w: nat)
    ensures Value(Padded(n, w)) == n
  {
    ValueOfDigits(n);
    if w > 1 {
      PaddedDenotes(n / 10, w - 1);
      assert Padded(n, w)[..|Padded(n, w)| - 1] == Padded(n / 10, w - 1);
    }
  }

  lemma QuotientIs(x: nat, m: nat, q: nat, r: nat)
    requires m > 0 && x == m * q + r && r < m
    ensures q == x / m && r == x % m
  {
    assert x == m * (x / m) + x % m;
    QuotientIsUnique(m, q, r, x / m, x % m);
  }

  lemma QuotientIsUnique(m: nat, q: nat, r: nat, q': nat, r': nat)
    requires m * q + r == m * q' + r' && r < m && r' < m
    ensures q == q' && r == r'
  {
    assert m * (q - q') == r' - r;
    if q > q' {
      AtLeastOnce(m, q - q');
    } else if q < q' {
      AtLeastOnce(m, q' - q);
    }
  }

  lemma AtLeastOnce(m: nat, k: nat)
    requires k >= 1
    ensures m * k >= m
  {
  }

  /** Taking off the last digit and then d others is taking off d + 1. */
  lemma DigitsOff(n: nat, d: nat)
    ensures n / Power10(d + 1) == n / 10 / Power10(d)
    ensures n % Power10(d + 1) == 10 * (n / 10 % Power10(d)) + n % 10
  {
    var p := Power10(d);
    var q, r := n / 10 / p, n / 10 % p;
    assert n / 10 == p * q + r;
    assert n == 10 * p * q + (10 * r + n % 10);
    QuotientIs(n, 10 * p, q, 10 * r + n % 10);
  }

  lemma PaddedOneMore(n: nat, w: nat)
    requires w > 1
    ensures Padded(n, w) == Padded(n / 10, w - 1) + [DigitChar(n % 10)]
  {
  }

  lemma NoDigits()
    ensures Power10(0) == 1 && Value("") == 0
  {
  }

  /** The last d digits are those of the remainder, the others those of the quotient. */
  lemma {:induction false} PaddedSplits(n: nat, w: nat, d: nat)
    requires d < w
    ensures var s := Padded(n, w);
            Value(s[..|s| - d]) == n / Power10(d) && Value(s[|s| - d..]) == n % Power10(d)
  {
    hide Padded, Value, Power10, DigitChar;
    var s := Padded(n, w);
    if d == 0 {
      PaddedDenotes(n, w);
      NoDigits();
      assert s[..|s|] == s;
    } else {
      var t, c := Padded(n / 10, w - 1), DigitChar(n % 10);
      var k := |t| - (d - 1);
      PaddedSplits(n / 10, w - 1, d - 1);
      PaddedOneMore(n, w);
      assert s[..|s| - d] == t[..k];
      assert s[|s| - d..] == t[k..] + [c];
      ValueOneMore(t[k..], c);
      DigitsOff(n, d - 1);
    }
  }

  /** What a fixed-point text says: the whole part of n / 10^d, at least one digit of it, and after
      the point exactly d digits of the rest. */
  lemma FixedDenotes(n: nat, d: nat) returns (whole: string, rest: string)
    ensures Fixed(n, d) == if d == 0 then whole else whole + "." + rest
    ensures whole != "" && AllDigits(whole) && Value(whole) == n / Power10(d)
    ensures |rest| == d && AllDigits(rest) && Value(rest) == n % Power10(d)
  {
    hide Value, Power10;
    var s := Padded(n, d + 1);
    PaddedSplits(n, d + 1, d);
    whole, rest := s[..|s| - d], s[|s| - d..];
    assert d == 0 ==> whole == s;
  }

  /** s is rate in its unit, rounded to i decimals for unit i. */
  ghost predicate ShowsOvertime(s: string, rate: real) {
    ShowsScaled(s, Scaled(rate).0, Scaled(rate).1)
  }

  ghost predicate ShowsScaled(s: string, v: real, i: nat) {
    i < |UNITS| && exists n: nat :: Rounds(n, v, i) && s == RateText(n, i)
  }

  /** s is the amount in its unit, rounded to two decimals. */
  ghost predicate ShowsAmount(s: string, amount: real) {
    AmountScaled(s, Scaled(amount).0, Scaled(amount).1)
  }

  ghost predicate AmountScaled(s: string, v: real, i: nat) {
    i < |UNITS| && exists n: nat :: Nearest(n, v * 100.0) && s == AmountText(n, i)
  }

  /** The name of the unit that counts so many bytes. */
  function UnitName(bytes: real): string {
    if bytes == 1.0 then "B"
    else if bytes == 1000.0 then "KB"
    else if bytes == 1000000.0 then "MB"
    else if bytes == 1000000000.0 then "GB"
    else if bytes == 1000000000000.0 then "TB"
    else "PB"
  }

  lemma UnitOf(i: nat)
    requires i < |UNITS|
    ensures UNITS[i] == UnitName(Thousand(i)) && (i == 5 ==> Thousand(i) == 1000000000000000.0)
  {
    assert Thousand(2) == 1000000.0;
    assert Thousand(4) == 1000000000000.0;
  }

  function Tenth(d: nat): (t: real)
    ensures t > 0.0
  {
    if d == 0 then 1.0 else Tenth(d - 1) / 10.0
  }

  /** A decimal text: a whole part of at least one digit, and d digits after a point. */
  ghost predicate Decimal(s: string, whole: string, rest: string, d: nat) {
    && whole != "" && AllDigits(whole) && AllDigits(rest) && |rest| == d
    && s == if d == 0 then whole else whole + "." + rest
  }

  lemma TenthPower(d: nat)
    ensures Tenth(d) * Power10(d) as real == 1.0
  {
  }

  /** Rounding v * 10^d to n moves n / 10^d at most half a unit of the last place from v. */
  lemma RoundedDecimal(v: real, n: nat, d: nat)
    requires Rounds(n, v, d)
    ensures var q := (n / Power10(d)) as real + (n % Power10(d)) as real * Tenth(d);
            v - Tenth(d) / 2.0 <= q <= v + Tenth(d) / 2.0
  {
    TenthPower(d);
    RoundedParts(v, n, Power10(d), Tenth(d));
  }

  lemma RoundedParts(v: real, n: nat, p: nat, t: real)
    requires p > 0 && t > 0.0 && t * p as real == 1.0 && Nearest(n, v * p as real)
    ensures v - t / 2.0 <= (n / p) as real + (n % p) as real * t <= v + t / 2.0
  {
    assert n == p * (n / p) + n % p;
    Products(p, n / p);
    Recombined((n / p) as real, (n % p) as real, v, p as real, t);
    Scaled3(n as real - 0.5, v * p as real, n as real + 0.5, t);
  }

  lemma Products(p: nat, q: nat)
    ensures (p * q) as real == p as real * q as real
  {
  }

  lemma Recombined(a: real, b: real, v: real, p: real, t: real)
    requires t * p == 1.0
    ensures (p * a + b) * t == a + b * t
    ensures (v * p) * t == v
  {
    assert (p * a + b) * t == (t * p) * a + b * t;
    assert (v * p) * t == v * (t * p);
  }

  lemma Scaled3(a: real, b: real, c: real, t: real)
    requires a <= b <= c && t > 0.0
    ensures a * t <= b * t <= c * t
  {
  }

  /** The text shows a number of d decimals, at most half a unit of the last place from v. */
  ghost predicate ShowsNear(text: string, whole: string, rest: string, d: nat, v: real) {
    && Decimal(text, whole, rest, d)
    && v - Tenth(d) / 2.0 <= Value(whole) as real + Value(rest) as real * Tenth(d) <= v + Tenth(d) / 2.0
  }

  lemma FixedNear(v: real, n: nat, d: nat) returns (whole: string, rest: string)
    requires Rounds(n, v, d)
    ensures ShowsNear(Fixed(n, d), whole, rest, d, v)
  {
    hide Fixed, Value, Power10, Tenth;
    whole, rest := FixedDenotes(n, d);
    RoundedDecimal(v, n, d);
  }

  lemma QuotientOf(v: real, unit: real, amount: real)
    requires v * unit == amount && unit >= 1.0
    ensures amount / unit == v
  {
  }

  lemma Hundredth()
    ensures Tenth(2) == 0.01 && Power10(2) as real == 100.0
  {
    assert Tenth(1) == 0.1 && Power10(1) == 10;
  }

  /** The unit is the largest power of 1000 the value exceeds, or 1. */
  ghost predicate InUnit(value: real, unit: real) {
    unit >= 1.0 && if value <= 1000.0 then unit == 1.0 else unit < value <= 1000.0 * unit
  }

  /** What an amount's text says, in its own words: a number of two decimals within 0.005 of the
      amount in its unit, and the name of that unit. */
  lemma AmountSays(s: string, amount: real) returns (whole: string, cents: string, unit: real)
    requires ShowsAmount(s, amount)
    ensures s == whole + "." + cents + " " + UnitName(unit) && InUnit(amount, unit)
    ensures whole != "" && AllDigits(whole) && |cents| == 2 && AllDigits(cents)
    ensures amount / unit - 0.005 <= Value(whole) as real + Value(cents) as real * 0.01 <= amount / unit + 0.005
  {
    hide Fixed, Value, Tenth, Scaled, Thousand, UnitName, AllDigits;
    var v, i := Scaled(amount).0, Scaled(amount).1;
    unit := Thousand(i);
    var n: nat :| Nearest(n, v * 100.0) && s == AmountText(n, i);
    ScaledIsLeast(amount);
    UnitOf(i);
    UnitRange(amount);
    QuotientOf(v, unit, amount);
    Hundredth();
    whole, cents := FixedNear(v, n, 2);
  }

  /** The same of a rate: in the unit 1000^i it has i decimals. */
  lemma RateSays(s: string, rate: real) returns (number: string, whole: string, rest: string, i: nat)
    requires ShowsOvertime(s, rate)
    ensures s == number + " " + UnitName(Thousand(i)) + "/s" && InUnit(rate, Thousand(i))
    ensures ShowsNear(number, whole, rest, i, rate / Thousand(i))
  {
    hide Scaled, Thousand, UnitName, ShowsNear, ShowsScaled;
    i := Scaled(rate).1;
    number, whole, rest := ScaledSays(s, Scaled(rate).0, i);
    ScaledIsLeast(rate);
    UnitOf(i);
    UnitRange(rate);
    QuotientOf(Scaled(rate).0, Thousand(i), rate);
  }

  lemma ScaledSays(s: string, v: real, i: nat) returns (number: string, whole: string, rest: string)
    requires ShowsScaled(s, v, i)
    ensures i < |UNITS| && s == number + " " + UNITS[i] + "/s" && ShowsNear(number, whole, rest, i, v)
  {
    hide Fixed, ShowsNear, Rounds;
    var n: nat :| Rounds(n, v, i) && s == RateText(n, i);
    number := Fixed(n, i);
    whole, rest := FixedNear(v, n, i);
  }

  lemma UnitRange(b: real)
    ensures InUnit(b, Thousand(Scaled(b).1))
  {
    var i := Scaled(b).1;
    ScaledIsLeast(b);
    ThousandGrows(i, i + 1);
  }

  /** With d decimals a value of at most 1000 takes d + 3 digits, and d + 4 only at 1000. */
  lemma {:induction false} PaddedLength(n: nat, d: nat)
    requires n <= 1000 * Power10(d)
    ensures |Padded(n, d + 1)| <= d + 4
    ensures |Padded(n, d + 1)| == d + 4 <==> n == 1000 * Power10(d)
  {
    if d == 0 {
      assert |Digits(n)| == if n < 10 then 1 else if n < 100 then 2 else if n < 1000 then 3 else 4 by {
        if n >= 10 {
          assert |Digits(n / 10)| == if n < 100 then 1 else if n < 1000 then 2 else 3;
        }
      }
    } else {
      PaddedLength(n / 10, d - 1);
    }
  }

  /** The rate text and its terminator fit 16 bytes, and fill them only as 1000.00000 PB/s. */
  lemma OvertimeFits(s: string, rate: real)
    requires rate >= 0.0 && ShowsOvertime(s, rate)
    ensures |s| + 1 <= 16
    ensures |s| + 1 == 16 <==> s == "1000.00000 PB/s"
  {
    ScaledIsLeast(rate);
    var n := ShownNumber(s, Scaled(rate).0, Scaled(rate).1);
    RateTextFits(n, Scaled(rate).1);
  }

  lemma ShownNumber(s: string, v: real, i: nat) returns (n: nat)
    requires v <= 1000.0 && ShowsScaled(s, v, i)
    ensures n <= 1000 * Power10(i) && s == RateText(n, i)
  {
    n :| Rounds(n, v, i) && s == RateText(n, i);
    RoundedBound(v, n, i);
  }

  lemma RateTextFits(n: nat, i: nat)
    requires i < |UNITS| && n <= 1000 * Power10(i)
    ensures |RateText(n, i)| + 1 <= 16
    ensures |RateText(n, i)| + 1 == 16 <==> RateText(n, i) == "1000.00000 PB/s"
  {
    RateTextLength(n, i);
    if |RateText(n, i)| == 15 {
      FullText();
    }
  }

  lemma RateTextLength(n: nat, i: nat)
    requires i < |UNITS| && n <= 1000 * Power10(i)
    ensures |RateText(n, i)| <= 15
    ensures |RateText(n, i)| == 15 <==> i == 5 && n == 1000 * Power10(i)
  {
    PaddedLength(n, i);
    assert |UNITS[i]| == if i == 0 then 1 else 2;
    assert |Fixed(n, i)| == |Padded(n, i + 1)| + if i == 0 then 0 else 1;
  }

  lemma FullText()
    ensures RateText(1000 * Power10(5), 5) == "1000.00000 PB/s"
  {
    assert Power10(2) == 100;
    assert Power10(4) == 10000;
    assert Digits(10) == "10";
    assert Digits(100) == "100";
    PaddedTimesTen(10000000, 5);
    PaddedTimesTen(1000000, 4);
    PaddedTimesTen(100000, 3);
    PaddedTimesTen(10000, 2);
    PaddedTimesTen(1000, 1);
    assert Padded(100000000, 6) == "100000000";
    assert Fixed(100000000, 5) == "1000.00000";
  }

  lemma PaddedTimesTen(n: nat, w: nat)
    requires w > 0
    ensures Padded(10 * n, w + 1) == Padded(n, w) + "0"
  {
  }

  lemma RoundedBound(v: real, n: nat, d: nat)
    requires v <= 1000.0 && Rounds(n, v, d)
    ensures n <= 1000 * Power10(d)
  {
    var p := Power10(d);
    assert v * p as real <= 1000.0 * p as real;
    assert n as real - 0.5 <= (1000 * p) as real;
  }

  /** The amount text fits too, with room to spare. */
  lemma AmountFits(s: string, amount: real)
    requires amount >= 0.0 && ShowsAmount(s, amount)
    ensures |s| + 1 <= 11
  {
    ScaledIsLeast(amount);
    AmountLength(s, Scaled(amount).0, Scaled(amount).1);
  }

  lemma AmountLength(s: string, v: real, i: nat)
    requires v <= 1000.0 && AmountScaled(s, v, i)
    ensures |s| + 1 <= 11
  {
    var n: nat :| Nearest(n, v * 100.0) && s == AmountText(n, i);
    assert Power10(2) == 100;
    hide Fixed, Padded, AmountText;
    RoundedBound(v, n, 2);
    AmountTextLength(n, i);
  }

  lemma AmountTextLength(n: nat, i: nat)
    requires i < |UNITS| && n <= 1000 * Power10(2)
    ensures |AmountText(n, i)| <= 10
  {
    hide Padded, Power10;
    PaddedLength(n, 2);
  }

  method Round(x: real) returns (n: nat)
    requires x >= 0.0
    ensures Nearest(n, x)
  {
    var f := x.Floor;
    n :| n in {f, f + 1} && Nearest(n, x) by {
      assert Nearest(f, x) || Nearest(f + 1, x);
    }
  }

  /** The loop both functions run. */
  method Scale(amount: real) returns (b: real, i: nat)
    requires amount >= 0.0
    ensures (b, i) == Scaled(amount) && 0.0 <= b <= 1000.0
    ensures i < |UNITS| <==> amount <= 1000000000000000000.0
  {
    b, i := amount, 0;
    while b > 1000.0
      invariant b >= 0.0
      invariant Scaled(amount) == (Scaled(b).0, i + Scaled(b).1)
      decreases b.Floor
    {
      b := b / 1000.0;
      i := i + 1;
    }
    UnitInTable(amount);
  }

  /** None stands for reading past the unit table. */
  method BytesToHuman(bytes: nat) returns (r: Option<string>)
    ensures r.Some? <==> bytes <= 1_000_000_000_000_000_000
    ensures r.Some? ==> ShowsAmount(r.value, bytes as real) && |r.value| + 1 <= 16
  {
    hide Fixed, Padded, Power10, AmountText, RateText, Thousand, Scaled;
    var b, i := Scale(bytes as real);
    if i >= |UNITS| {
      return None;
    }
    var n := Round(b * 100.0);
    r := Some(AmountText(n, i));
    AmountFits(r.value, bytes as real);
  }

  /** What becomes of a rate: a text, a read past the unit table, or for 0 seconds a quotient that is
      not a number or is infinite, and then divided for ever. */
  datatype Rate = Text(s: string) | PastTable | NotANumber | Endless

  method BytesToHumanOvertime(bytes: nat, seconds: nat) returns (r: Rate)
    ensures seconds == 0 ==> r == if bytes == 0 then NotANumber else Endless
    ensures seconds > 0 ==> (r.Text? || r.PastTable?) && (r.Text? <==> bytes <= 1_000_000_000_000_000_000 * seconds)
    ensures seconds > 0 && r.Text? ==> ShowsOvertime(r.s, bytes as real / seconds as real) && |r.s| + 1 <= 16
  {
    if seconds == 0 {
      return if bytes == 0 then NotANumber else Endless;
    }
    hide Fixed, Padded, Power10, AmountText, RateText, Thousand, Scaled;
    var rate := bytes as real / seconds as real;
    var b, i := Scale(rate);
    RateBound(bytes, seconds);
    if i >= |UNITS| {
      return PastTable;
    }
    var n := Round(b * Power10(i) as real);
    r := Text(RateText(n, i));
    OvertimeFits(r.s, rate);
  }

  lemma RateBound(bytes: nat, seconds: nat)
    requires seconds >= 1
    ensures bytes as real / seconds as real <= 1000000000000000000.0 <==> bytes <= 1_000_000_000_000_000_000 * seconds
  {
    var r := bytes as real / seconds as real;
    assert r * seconds as real == bytes as real;
    var k := 1_000_000_000_000_000_000;
    assert (k * seconds) as real == k as real * seconds as real;
  }
}
