/**
 * The fixed-point helpers of src/utils/lib.js.
 *
 * On-chain amounts are unsigned integers in three scales: a wad has 18
 * decimals (collateral, raw debt), a ray 27 (the rate of a collateral type)
 * and a rad 45 (raw debt times rate).  Every helper is one BigInt expression;
 * BigInt division truncates, which on the non-negative amounts used here is
 * Dafny's `/` on `nat`.  Only the exact integer part is modelled: the final
 * conversion to a JavaScript Number and the division by a float precision
 * are not.  The liquidation ratios, float literals in the source, are integer
 * basis points here (1.45 * 10000 is exactly 14500 in IEEE doubles, 1.01 *
 * 10000 exactly 10100).
 */
module Lib {
  import opened Wrappers

  // ---------------------------------------------------------------------------
  // Scales

  function Pow10(n: nat): (r: nat)
    ensures r > 0
  {
    if n == 0 then 1 else 10 * Pow10(n - 1)
  }

  const Wad: nat := 1_000_000_000_000_000_000
  const Ray: nat := 1_000_000_000_000_000_000_000_000_000
  const Rad: nat := 1_000_000_000_000_000_000_000_000_000_000_000_000_000_000_000

  /** Basis-point precision used by the ratio helpers. */
  const Precision: nat := 10000

  lemma {:induction false} Pow10Add(a: nat, b: nat)
    ensures Pow10(a + b) == Pow10(a) * Pow10(b)
  {
    if a > 0 {
      Pow10Add(a - 1, b);
      assert Pow10(a + b) == 10 * Pow10(a - 1 + b);
    }
  }

  /** The three scales are BigInt(10) ** BigInt(18), 10n ** 27n and BigInt(10) ** BigInt(45). */
  lemma ScalesArePowersOfTen()
    ensures Wad == Pow10(18) && Ray == Pow10(27) && Rad == Pow10(45)
  {
    assert Pow10(9) == 1_000_000_000;
    Pow10Add(9, 9);
    Pow10Add(18, 9);
    Pow10Add(27, 18);
  }

  /** A rad is a wad times a ray, which is why debt times rate is divided by 10^45. */
  lemma RadIsWadTimesRay()
    ensures Rad == Wad * Ray
  {
    ScalesArePowersOfTen();
    Pow10Add(18, 27);
  }

  // ---------------------------------------------------------------------------
  // Truncating division, stated by what it means

  /** q is the truncated quotient of a by b. */
  ghost predicate IsQuotient(q: nat, a: nat, b: nat)
  {
    q * b <= a < (q + 1) * b
  }

  lemma MulMono(x: nat, y: nat, b: nat)
    requires x <= y
    ensures x * b <= y * b
  {
    assert y * b == x * b + (y - x) * b;
  }

  /** BigInt division on non-negative operands: the truncated quotient. */
  function Quotient(a: nat, b: nat): (q: nat)
    requires b > 0
    ensures IsQuotient(q, a, b)
  {
    var q := a / b;
    assert a == q * b + a % b;
    assert (q + 1) * b == q * b + b;
    q
  }

  lemma QuotientUnique(q1: nat, q2: nat, a: nat, b: nat)
    requires IsQuotient(q1, a, b) && IsQuotient(q2, a, b)
    ensures q1 == q2
  {
    if q1 < q2 {
      MulMono(q1 + 1, q2, b);
    } else if q2 < q1 {
      MulMono(q2 + 1, q1, b);
    }
  }

  /** A truncated quotient is at least t exactly when the dividend is at least t * b. */
  lemma QuotientAtLeast(q: nat, a: nat, b: nat, t: nat)
    requires IsQuotient(q, a, b)
    ensures q >= t <==> a >= t * b
  {
    if q >= t {
      MulMono(t, q, b);
    } else {
      MulMono(q + 1, t, b);
    }
  }

  // ---------------------------------------------------------------------------
  // formatCollateral and formatDebt

  /**
   * The exact part of formatCollateral: a wad amount in hundredths of a
   * token, truncated (the source then divides this Number by 100).
   */
  function CollateralHundredths(collateral: nat): (h: nat)
    ensures IsQuotient(h, collateral * 100, Wad)
  {
    Quotient(collateral * 100, Wad)
  }

  /**
   * The exact part of formatDebt: a rad amount (raw debt times rate) in
   * hundredths of a token, truncated.
   */
  function DebtHundredths(debt: nat): (h: nat)
    ensures IsQuotient(h, debt * 100, Rad)
  {
    Quotient(debt * 100, Rad)
  }

  /**
   * The divisor 10^45 is right for debt scaled by a rate: a raw debt times a
   * rate of exactly one (one ray) formats like the raw debt as a wad.
   */
  lemma DebtAtUnitRate(rawDebt: nat)
    ensures DebtHundredths(rawDebt * Ray) == CollateralHundredths(rawDebt)
  {
    var h := CollateralHundredths(rawDebt);
    RadIsWadTimesRay();
    assert h * Wad * Ray <= rawDebt * 100 * Ray by {
      MulMono(h * Wad, rawDebt * 100, Ray);
    }
    assert rawDebt * 100 * Ray < (h + 1) * Wad * Ray by {
      MulMono(rawDebt * 100 + 1, (h + 1) * Wad, Ray);
    }
    assert IsQuotient(h, rawDebt * Ray * 100, Rad);
    QuotientUnique(h, DebtHundredths(rawDebt * Ray), rawDebt * Ray * 100, Rad);
  }

  // ---------------------------------------------------------------------------
  // tokenInfo

  const EthPrice: nat := 2210
  const BtcPrice: nat := 43673
  const UsdcPrice: nat := 1

  const EthLiquidationRatioBp: nat := 14500
  const BtcLiquidationRatioBp: nat := 14500
  const UsdcLiquidationRatioBp: nat := 10100

  datatype Token = Token(price: nat, liquidationRatioBp: nat)

  /** tokenInfo[ilk]: undefined (None) for any other collateral type. */
  function TokenInfo(ilk: string): (t: Option<Token>)
    ensures t.Some? <==> ilk in {"ETH-A", "WBTC-A", "USDC-A"}
    ensures t.Some? ==> t.value.price > 0 && t.value.liquidationRatioBp > Precision
  {
    if ilk == "ETH-A" then Some(Token(EthPrice, EthLiquidationRatioBp))
    else if ilk == "WBTC-A" then Some(Token(BtcPrice, BtcLiquidationRatioBp))
    else if ilk == "USDC-A" then Some(Token(UsdcPrice, UsdcLiquidationRatioBp))
    else None
  }

  lemma TokenTable()
    ensures TokenInfo("ETH-A") == Some(Token(2210, 14500))
    ensures TokenInfo("WBTC-A") == Some(Token(43673, 14500))
    ensures TokenInfo("USDC-A") == Some(Token(1, 10100))
  {
  }

  // ---------------------------------------------------------------------------
  // calculateCollateralizationRatio

  /** `tokenInfo[collateralType].price` on an unknown type throws a TypeError. */
  datatype Error = UnknownCollateralType(ilk: string)

  /** Collateral value in USD times 10^27 and the basis-point precision. */
  function ScaledCollateralValue(collateral: nat, price: nat): nat
  {
    collateral * price * Ray * Precision
  }

  /**
   * The exact part of calculateCollateralizationRatio, in basis points (the
   * source divides this Number by 10000).  A zero debt gives 0 before the
   * token table is consulted, so it never throws.
   */
  function CollateralizationRatioBp(collateral: nat, debt: nat, ilk: string): (r: Result<nat, Error>)
    ensures debt == 0 ==> r == Success(0)
    ensures debt > 0 ==> (r.Success? <==> TokenInfo(ilk).Some?)
    ensures debt > 0 && r.Failure? ==> r.error == UnknownCollateralType(ilk)
    ensures debt > 0 && r.Success? ==>
              IsQuotient(r.value, ScaledCollateralValue(collateral, TokenInfo(ilk).value.price), debt)
  {
    if debt == 0 then Success(0)
    else
      match TokenInfo(ilk)
      case None => Failure(UnknownCollateralType(ilk))
      case Some(token) =>
        Success(Quotient(ScaledCollateralValue(collateral, token.price), debt))
  }

  /** More collateral against the same debt never lowers the ratio. */
  lemma RatioMonotoneInCollateral(c1: nat, c2: nat, debt: nat, ilk: string)
    requires c1 <= c2
    ensures CollateralizationRatioBp(c1, debt, ilk).Success? == CollateralizationRatioBp(c2, debt, ilk).Success?
    ensures CollateralizationRatioBp(c1, debt, ilk).Success? ==>
              CollateralizationRatioBp(c1, debt, ilk).value <= CollateralizationRatioBp(c2, debt, ilk).value
  {
    if debt > 0 && TokenInfo(ilk).Some? {
      var p := TokenInfo(ilk).value.price;
      var q1 := CollateralizationRatioBp(c1, debt, ilk).value;
      var q2 := CollateralizationRatioBp(c2, debt, ilk).value;
      assert ScaledCollateralValue(c1, p) <= ScaledCollateralValue(c2, p) by {
        MulMono(c1, c2, p * Ray * Precision);
        assert c1 * p * Ray * Precision == c1 * (p * Ray * Precision);
        assert c2 * p * Ray * Precision == c2 * (p * Ray * Precision);
      }
      QuotientAtLeast(q2, ScaledCollateralValue(c2, p), debt, q1);
      MulMono(q1, q1, debt);
    }
  }

  /**
   * A position is at or above a threshold ratio (in basis points) exactly when
   * its scaled collateral value covers the threshold times its debt.
   */
  lemma RatioAtLeast(collateral: nat, debt: nat, ilk: string, thresholdBp: nat)
    requires debt > 0 && TokenInfo(ilk).Some?
    ensures CollateralizationRatioBp(collateral, debt, ilk).value >= thresholdBp
            <==> ScaledCollateralValue(collateral, TokenInfo(ilk).value.price) >= thresholdBp * debt
  {
    var value := ScaledCollateralValue(collateral, TokenInfo(ilk).value.price);
    QuotientAtLeast(CollateralizationRatioBp(collateral, debt, ilk).value, value, debt, thresholdBp);
  }

  // ---------------------------------------------------------------------------
  // calculateMaxCollateral

  /**
   * calculateMaxCollateral with the liquidation ratio in basis points: 0 for
   * a zero ratio, otherwise collateral * 10000 / liquidationRatioBp, truncated.
   */
  function MaxCollateral(collateral: nat, liquidationRatioBp: nat): (r: nat)
    ensures liquidationRatioBp == 0 ==> r == 0
    ensures liquidationRatioBp > 0 ==> IsQuotient(r, collateral * Precision, liquidationRatioBp)
  {
    if liquidationRatioBp == 0 then 0
    else
      Quotient(collateral * Precision, liquidationRatioBp)
  }

  /** With a ratio of at least 100% the result never exceeds the collateral. */
  lemma MaxCollateralAtMostCollateral(collateral: nat, liquidationRatioBp: nat)
    requires liquidationRatioBp >= Precision
    ensures MaxCollateral(collateral, liquidationRatioBp) <= collateral
  {
    var r := MaxCollateral(collateral, liquidationRatioBp);
    if r > collateral {
      MulMono(collateral + 1, r, liquidationRatioBp);
      MulMono(Precision, liquidationRatioBp, collateral + 1);
      assert false;
    }
  }

  /** So for every collateral type of the table it stays within the collateral. */
  lemma MaxCollateralForKnownTokens(collateral: nat, ilk: string)
    requires TokenInfo(ilk).Some?
    ensures MaxCollateral(collateral, TokenInfo(ilk).value.liquidationRatioBp) <= collateral
    ensures MaxCollateral(collateral, TokenInfo(ilk).value.liquidationRatioBp) < collateral || collateral == 0
  {
    var bp := TokenInfo(ilk).value.liquidationRatioBp;
    var r := MaxCollateral(collateral, bp);
    MaxCollateralAtMostCollateral(collateral, bp);
    if r == collateral && collateral > 0 {
      MulMono(Precision + 1, bp, collateral);
      assert false;
    }
  }

  // ---------------------------------------------------------------------------
  // numberWithCommas: x.toString().replace(/\B(?=(\d{3})+(?!\d))/g, ",")

  predicate IsDigit(c: char)
  {
    '0' <= c <= '9'
  }

  /** The regular-expression class \w. */
  predicate IsWordChar(c: char)
  {
    IsDigit(c) || 'a' <= c <= 'z' || 'A' <= c <= 'Z' || c == '_'
  }

  predicate IsDigits(s: string)
  {
    forall i :: 0 <= i < |s| ==> IsDigit(s[i])
  }

  /** Length of the longest run of digits that starts at position p. */
  function DigitRun(s: string, p: nat): (n: nat)
    requires p <= |s|
    ensures p + n <= |s|
    ensures forall i :: p <= i < p + n ==> IsDigit(s[i])
    ensures p + n == |s| || !IsDigit(s[p + n])
    decreases |s| - p
  {
    if p < |s| && IsDigit(s[p]) then 1 + DigitRun(s, p + 1) else 0
  }

  /** \B at position p: the characters on both sides are alike as to \w. */
  predicate NotWordBoundary(s: string, p: nat)
    requires p <= |s|
  {
    (p > 0 && IsWordChar(s[p - 1])) == (p < |s| && IsWordChar(s[p]))
  }

  /**
   * The pattern matches the empty string at p: not a word boundary, followed
   * by one or more groups of three digits that are not followed by a digit,
   * that is, the digit run from p has a length that is a positive multiple of 3.
   */
  predicate CommaAt(s: string, p: nat)
    requires p <= |s|
  {
    NotWordBoundary(s, p) && DigitRun(s, p) >= 3 && DigitRun(s, p) % 3 == 0
  }

  /** The global replace from position p on: a comma before every matching position. */
  function InsertCommas(s: string, p: nat): string
    requires p <= |s|
    decreases |s| - p
  {
    if p == |s| then []
    else (if CommaAt(s, p) then [','] else []) + [s[p]] + InsertCommas(s, p + 1)
  }

  /**
   * numberWithCommas on the string x.toString(): a comma before every position
   * where the pattern matches.  Only commas are added: deleting all commas
   * from the output gives the input with its own commas deleted.
   */
  function NumberWithCommas(s: string): (r: string)
    ensures RemoveCommas(r) == RemoveCommas(s)
  {
    RemoveCommasFrom(s, 0);
    assert s[0..] == s;
    InsertCommas(s, 0)
  }

  function RemoveCommas(s: string): string
  {
    if s == [] then [] else (if s[0] == ',' then [] else [s[0]]) + RemoveCommas(s[1..])
  }

  lemma {:induction false} RemoveCommasAppend(a: string, b: string)
    ensures RemoveCommas(a + b) == RemoveCommas(a) + RemoveCommas(b)
  {
    if a != [] {
      assert (a + b)[1..] == a[1..] + b;
      RemoveCommasAppend(a[1..], b);
    } else {
      assert a + b == b;
    }
  }

  lemma {:induction false} RemoveCommasFrom(s: string, p: nat)
    requires p <= |s|
    ensures RemoveCommas(InsertCommas(s, p)) == RemoveCommas(s[p..])
    decreases |s| - p
  {
    if p < |s| {
      var head := (if CommaAt(s, p) then [','] else []) + [s[p]];
      RemoveCommasFrom(s, p + 1);
      RemoveCommasAppend(head, InsertCommas(s, p + 1));
      assert RemoveCommas([',']) == [];
      RemoveCommasAppend(if CommaAt(s, p) then [','] else [], [s[p]]);
      assert s[p..] == [s[p]] + s[p + 1..];
      RemoveCommasAppend([s[p]], s[p + 1..]);
    }
  }

  lemma {:induction false} RemoveCommasOfDigits(s: string)
    requires IsDigits(s)
    ensures RemoveCommas(s) == s
  {
    if s != [] {
      RemoveCommasOfDigits(s[1..]);
      assert s == [s[0]] + s[1..];
    }
  }

  /** For a digit string, deleting the commas gives back the input. */
  lemma DigitsRoundTrip(s: string)
    requires IsDigits(s)
    ensures RemoveCommas(NumberWithCommas(s)) == s
  {
    RemoveCommasOfDigits(s);
  }

  /** In a digit string a comma goes before p exactly when p is inside and a multiple of 3 from the end. */
  lemma DigitsCommaAt(s: string, p: nat)
    requires IsDigits(s) && p <= |s|
    ensures CommaAt(s, p) <==> 0 < p < |s| && (|s| - p) % 3 == 0
  {
    assert DigitRun(s, p) == |s| - p;
  }

  /** Without a match from p on, the replace leaves the rest of the string alone. */
  lemma {:induction false} NoMatchUnchanged(s: string, p: nat)
    requires p <= |s|
    requires forall q :: p <= q <= |s| ==> !CommaAt(s, q)
    ensures InsertCommas(s, p) == s[p..]
    decreases |s| - p
  {
    if p < |s| {
      NoMatchUnchanged(s, p + 1);
      assert s[p..] == [s[p]] + s[p + 1..];
    }
  }

  /** Inputs of at most three digits come back unchanged. */
  lemma ShortDigitsUnchanged(s: string)
    requires IsDigits(s) && |s| <= 3
    ensures NumberWithCommas(s) == s
  {
    forall q | 0 <= q <= |s| ensures !CommaAt(s, q) {
      DigitsCommaAt(s, q);
    }
    NoMatchUnchanged(s, 0);
    assert s[0..] == s;
  }

  /** Lengths of the grouped output as one more digit is taken in. */
  lemma GroupLength(m: nat)
    requires m >= 1
    ensures m % 3 == 0 ==> m + m / 3 == (m - 1) + (m - 1) / 3 + 2
    ensures m % 3 == 0 ==> (m + m / 3) % 4 == 0 && (m + m / 3 - 1) % 4 != 0
    ensures m % 3 != 0 ==> m + m / 3 == (m - 1) + (m - 1) / 3 + 1
    ensures m % 3 != 0 ==> (m + m / 3) % 4 != 0
  {
    var k := m / 3;
    assert m == 3 * k + m % 3;
    if m % 3 == 0 {
      assert (m - 1) / 3 == k - 1;
    } else {
      assert (m - 1) / 3 == k;
    }
  }

  /** The whole output's length is never a multiple of 4, so it does not start with a comma. */
  lemma FirstGroupLength(m: nat)
    ensures (1 + m + m / 3) % 4 != 0
  {
    var k := m / 3;
    assert m == 3 * k + m % 3;
  }

  /** The commas of r are exactly its every fourth character counted from the end. */
  ghost predicate CommasEveryFourth(r: string)
  {
    forall i :: 0 <= i < |r| ==> (r[i] == ',' <==> (|r| - i) % 4 == 0)
  }

  lemma PrependDigit(d: char, rest: string)
    requires d != ',' && CommasEveryFourth(rest) && (|rest| + 1) % 4 != 0
    ensures CommasEveryFourth([d] + rest)
  {
    var r := [d] + rest;
    forall i | 1 <= i < |r| ensures r[i] == rest[i - 1] { }
  }

  lemma PrependCommaDigit(d: char, rest: string)
    requires d != ',' && CommasEveryFourth(rest) && (|rest| + 2) % 4 == 0
    ensures CommasEveryFourth([',', d] + rest)
  {
    var r := [',', d] + rest;
    forall i | 2 <= i < |r| ensures r[i] == rest[i - 2] { }
  }

  /**
   * Past the first digit, the output from p on holds the remaining m = |s| - p
   * digits and m / 3 commas, with a comma at every fourth character from the end.
   */
  lemma {:induction false} GroupedFrom(s: string, p: nat)
    requires IsDigits(s) && 1 <= p <= |s|
    ensures |InsertCommas(s, p)| == (|s| - p) + (|s| - p) / 3
    ensures CommasEveryFourth(InsertCommas(s, p))
    decreases |s| - p
  {
    if p < |s| {
      GroupedFrom(s, p + 1);
      DigitsCommaAt(s, p);
      GroupLength(|s| - p);
      var rest := InsertCommas(s, p + 1);
      assert s[p] != ',';
      if CommaAt(s, p) {
        assert InsertCommas(s, p) == [',', s[p]] + rest;
        PrependCommaDigit(s[p], rest);
      } else {
        assert InsertCommas(s, p) == [s[p]] + rest;
        PrependDigit(s[p], rest);
      }
    }
  }

  /**
   * For a non-empty digit string the output has |s| + (|s| - 1) / 3
   * characters, the commas are exactly every fourth character from the end,
   * so neither the first nor the last character is a comma: the first group
   * has one to three digits and every later group three.
   */
  lemma DigitsGrouping(s: string)
    requires IsDigits(s) && |s| > 0
    ensures var r := NumberWithCommas(s);
            && |r| == |s| + (|s| - 1) / 3
            && CommasEveryFourth(r)
            && r[0] != ',' && r[|r| - 1] != ','
  {
    GroupedFrom(s, 1);
    DigitsCommaAt(s, 0);
    FirstGroupLength(|s| - 1);
    var rest := InsertCommas(s, 1);
    assert NumberWithCommas(s) == [s[0]] + rest;
    assert s[0] != ',';
    PrependDigit(s[0], rest);
  }

  /**
   * The strings the page formats have at most two decimals; the fractional
   * part never receives a comma and the integer part is grouped on its own.
   */
  lemma DecimalGrouping(intPart: string, frac: string)
    requires IsDigits(intPart) && IsDigits(frac) && |frac| <= 2
    ensures NumberWithCommas(intPart + "." + frac) == NumberWithCommas(intPart) + "." + frac
  {
    var t := intPart + "." + frac;
    var n := |intPart|;
    forall q | n <= q <= |t| ensures !CommaAt(t, q) {
      if q == n {
        assert DigitRun(t, q) == 0;
      } else {
        assert DigitRun(t, q) <= 2;
      }
    }
    NoMatchUnchanged(t, n);
    assert t[n..] == "." + frac;
    DecimalPrefix(intPart, frac, 0);
  }

  /** A digit run that ends at the first non-digit e. */
  lemma RunEndsAt(t: string, p: nat, e: nat)
    requires p <= e <= |t|
    requires forall i :: p <= i < e ==> IsDigit(t[i])
    requires e == |t| || !IsDigit(t[e])
    ensures DigitRun(t, p) == e - p
  {
  }

  lemma {:induction false} DecimalPrefix(intPart: string, frac: string, p: nat)
    requires IsDigits(intPart) && p <= |intPart|
    ensures var t := intPart + "." + frac;
            InsertCommas(t, p) == InsertCommas(intPart, p) + InsertCommas(t, |intPart|)
    decreases |intPart| - p
  {
    var t := intPart + "." + frac;
    if p < |intPart| {
      DecimalPrefix(intPart, frac, p + 1);
      assert t[|intPart|] == '.';
      RunEndsAt(t, p, |intPart|);
      RunEndsAt(intPart, p, |intPart|);
      assert t[p] == intPart[p];
      assert p > 0 ==> t[p - 1] == intPart[p - 1];
      var head := (if CommaAt(intPart, p) then [','] else []) + [intPart[p]];
      assert CommaAt(t, p) == CommaAt(intPart, p);
      assert InsertCommas(t, p) == head + InsertCommas(t, p + 1);
      assert InsertCommas(intPart, p) == head + InsertCommas(intPart, p + 1);
    }
  }
}
