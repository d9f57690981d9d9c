/**
 * The decimal literal syntax the host language's `float(...)` conversion
 * accepts, and the exact value such a literal denotes:
 *
 *   literal   ::= [sign] (digitpart ["." [digitpart]] | "." digitpart) [exponent]
 *   exponent  ::= ("e" | "E") [sign] digitpart
 *   digitpart ::= digit (["_"] digit)*
 *
 * Values are exact: the rounding to the nearest binary double is not modelled.
 */
module FloatSyntax {
  import opened Errors

  predicate IsDigit(c: char) {
    '0' <= c <= '9'
  }

  function DigitValue(c: char): nat
    requires IsDigit(c)
  {
    c as int - '0' as int
  }

  function DigitChar(d: nat): (c: char)
    requires d < 10
    ensures IsDigit(c) && DigitValue(c) == d
  {
    ('0' as int + d) as char
  }

  function Pow10(k: nat): (p: nat)
    ensures p >= 1
  {
    if k == 0 then 1 else 10 * Pow10(k - 1)
  }

  /** Position `i` of `p` holds a digit, or an underscore followed by a digit. */
  predicate WellPlaced(p: string, i: nat)
    requires i < |p|
  {
    IsDigit(p[i]) || (p[i] == '_' && i + 1 < |p| && IsDigit(p[i + 1]))
  }

  /** A digit, then digits each optionally preceded by one underscore. */
  predicate IsDigitPart(p: string) {
    && |p| > 0
    && IsDigit(p[0])
    && forall i :: 0 <= i < |p| ==> WellPlaced(p, i)
  }

  /** The length of the longest prefix of `s` that is a digit part, or 0 when there is none. */
  function DigitRun(s: string): (n: nat)
    ensures n <= |s|
    ensures n > 0 <==> |s| > 0 && IsDigit(s[0])
    ensures n > 0 ==> IsDigitPart(s[..n])
    ensures 0 < n < |s| ==> !IsDigit(s[n]) && !(s[n] == '_' && n + 1 < |s| && IsDigit(s[n + 1]))
    decreases |s|
  {
    if |s| == 0 || !IsDigit(s[0]) then 0
    else if |s| >= 3 && s[1] == '_' && IsDigit(s[2]) then
      var m := DigitRun(s[2..]);
      DigitPartGrows(s, 2, m);
      2 + m
    else
      var m := DigitRun(s[1..]);
      DigitPartGrows(s, 1, m);
      1 + m
  }

  /** A digit, or a digit and an underscore, in front of a digit part is a digit part. */
  lemma DigitPartGrows(s: string, k: nat, m: nat)
    requires k + m <= |s| && |s| > 0 && IsDigit(s[0])
    requires k == 1 || (k == 2 && s[1] == '_' && m > 0)
    requires m > 0 ==> IsDigitPart(s[k..][..m])
    ensures IsDigitPart(s[..k + m])
  {
    var p, q := s[..k + m], s[k..][..m];
    forall i | 0 <= i < |p|
      ensures WellPlaced(p, i)
    {
      if i >= k {
        var j := i - k;
        assert |q| == m && 0 <= j < m;
        assert IsDigitPart(q);
        assert WellPlaced(q, j);
        assert p[i] == q[j];
        if i + 1 < |p| {
          assert p[i + 1] == q[i - k + 1];
        }
      } else if i == 1 {
        assert p[2] == q[0];
      } else {
        assert p[0] == s[0];
      }
    }
  }

  /** The number the digits of `p` spell, underscores skipped. */
  function PartValue(p: string): nat {
    if |p| == 0 then 0
    else if IsDigit(p[|p| - 1]) then PartValue(p[..|p| - 1]) * 10 + DigitValue(p[|p| - 1])
    else PartValue(p[..|p| - 1])
  }

  /** How many digits `p` holds, underscores skipped. */
  function DigitCount(p: string): nat {
    if |p| == 0 then 0
    else DigitCount(p[..|p| - 1]) + (if IsDigit(p[|p| - 1]) then 1 else 0)
  }

  /**
   * A scanned literal: the digits before and after the point as one
   * mantissa, the number of digits after the point, and the exponent.
   * It denotes (-1 if negative) * mantissa * 10^(exponent - fractionDigits).
   */
  datatype Literal = Literal(negative: bool, mantissa: nat, fractionDigits: nat, exponent: int)

  function StripSign(s: string): (bool, string) {
    if |s| > 0 && (s[0] == '-' || s[0] == '+') then (s[0] == '-', s[1..]) else (false, s)
  }

  /*
   * The grammar, stated on its own: an unsigned body splits at `i` and `j`
   * into the integer digits `body[..i]`, the fraction section `body[i..j]`
   * and the exponent section `body[j..]`.
   */

  /** Empty, or a digit part. */
  predicate IntSectionOk(p: string) {
    |p| == 0 || IsDigitPart(p)
  }

  /** Empty, or a point followed by nothing or by a digit part. */
  predicate FracSectionOk(q: string) {
    |q| == 0 || (q[0] == '.' && (|q| == 1 || IsDigitPart(q[1..])))
  }

  /** The digits after the point of a fraction section. */
  function FracDigits(q: string): string {
    if |q| <= 1 then "" else q[1..]
  }

  /** Empty, or `e`/`E`, an optional sign and a digit part. */
  predicate ExpSectionOk(e: string) {
    |e| == 0 || ((e[0] == 'e' || e[0] == 'E') && IsDigitPart(StripSign(e[1..]).1))
  }

  /** `m` with a minus sign when `negative`. */
  function Signed(negative: bool, m: nat): int {
    var v: int := m;
    if negative then -v else v
  }

  /** The exponent an exponent section denotes; 0 when it is empty. */
  function ExpSectionValue(e: string): int
    requires ExpSectionOk(e)
  {
    if |e| == 0 then 0
    else
      var (negative, digits) := StripSign(e[1..]);
      Signed(negative, PartValue(digits))
  }

  /** `body` splits at `i` and `j` into well-formed sections with a digit before or after the point. */
  predicate IsSplit(body: string, i: int, j: int) {
    && 0 <= i <= j <= |body|
    && IntSectionOk(body[..i])
    && FracSectionOk(body[i..j])
    && ExpSectionOk(body[j..])
    && (i > 0 || j - i > 1)
  }

  ghost predicate IsUnsignedLiteral(body: string) {
    exists i, j :: IsSplit(body, i, j)
  }

  /** The literal a split denotes. */
  function SplitLiteral(body: string, i: int, j: int): Literal
    requires IsSplit(body, i, j)
  {
    var f := FracDigits(body[i..j]);
    Literal(false, PartValue(body[..i] + f), DigitCount(f), ExpSectionValue(body[j..]))
  }

  /** A digit run covers all of `s` exactly when `s` is a digit part. */
  lemma DigitRunWhole(s: string)
    ensures (|s| > 0 && DigitRun(s) == |s|) <==> IsDigitPart(s)
  {
    assert s[..|s|] == s;
    if IsDigitPart(s) {
      DigitRunIs(s, |s|);
    }
  }

  /**
   * A digit run ends at `i` when `s[..i]` is empty or a digit part and the
   * character at `i`, if any, is neither a digit nor `_`.
   */
  lemma DigitRunIs(s: string, i: nat)
    requires i <= |s|
    requires i == 0 || IsDigitPart(s[..i])
    requires i == |s| || (!IsDigit(s[i]) && s[i] != '_')
    ensures DigitRun(s) == i
  {
    var n := DigitRun(s);
    if i > 0 {
      assert s[0] == s[..i][0];
    }
    if n < i {
      DigitPartBlocks(s, i, n);
    }
    assert n > i ==> WellPlaced(s[..n], i);
  }

  /** Inside a digit part, every position holds a digit or an underscore before a digit. */
  lemma DigitPartBlocks(s: string, i: nat, n: nat)
    requires n < i <= |s| && IsDigitPart(s[..i])
    ensures IsDigit(s[n]) || (s[n] == '_' && n + 1 < |s| && IsDigit(s[n + 1]))
  {
    assert WellPlaced(s[..i], n);
    assert s[..i][n] == s[n];
    if n + 1 < i {
      assert s[..i][n + 1] == s[n + 1];
    }
  }

  /** The exponent suffix: empty (exponent 0), or `e`/`E`, an optional sign and a digit part. */
  function ScanExponent(t: string): (r: Option<int>)
    ensures r.Some? <==> ExpSectionOk(t)
    ensures r.Some? ==> r.value == ExpSectionValue(t)
  {
    if |t| == 0 then Some(0)
    else if t[0] != 'e' && t[0] != 'E' then None
    else
      var (negative, digits) := StripSign(t[1..]);
      var n := DigitRun(digits);
      DigitRunWhole(digits);
      if n == 0 || n != |digits| then None
      else Some(Signed(negative, PartValue(digits)))
  }

  /**
   * Where the fraction section at the start of `t` ends: after a point and
   * the longest digit part that follows it, or at 0 when `t` has no point.
   */
  function FractionEnd(t: string): (k: nat)
    ensures k <= |t|
    ensures k == 0 <==> !(|t| > 0 && t[0] == '.')
    ensures k > 0 ==> k - 1 == DigitRun(t[1..])
    ensures FracSectionOk(t[..k])
  {
    if |t| > 0 && t[0] == '.' then
      var n := DigitRun(t[1..]);
      assert t[..1 + n][1..] == t[1..][..n];
      1 + n
    else
      0
  }

  /** A fraction section followed by an exponent section ends where the exponent begins. */
  lemma FractionEndIs(q: string, e: string)
    requires FracSectionOk(q) && ExpSectionOk(e)
    ensures FractionEnd(q + e) == |q|
  {
    var t := q + e;
    if |q| == 0 {
      assert t == e;
    } else {
      assert t[0] == q[0];
      var u := t[1..];
      assert u == q[1..] + e;
      assert u[..|q| - 1] == q[1..];
      assert |q| - 1 < |u| ==> u[|q| - 1] == e[0];
      DigitRunIs(u, |q| - 1);
    }
  }

  /** Any split of `body` is the one the scanner finds. */
  lemma SplitAgrees(body: string, i: int, j: int)
    requires IsSplit(body, i, j)
    ensures DigitRun(body) == i
    ensures FractionEnd(body[i..]) == j - i
  {
    var q, e := body[i..j], body[j..];
    assert body[i..] == q + e;
    if i < |body| {
      assert body[i] == (q + e)[0];
    }
    DigitRunIs(body, i);
    FractionEndIs(q, e);
  }

  /** Slicing the suffix `body[i..]` at `k` is slicing `body` at `i + k`. */
  lemma SliceOfSuffix(body: string, i: nat, k: nat)
    requires i + k <= |body|
    ensures body[i..][..k] == body[i..i + k]
  {
  }

  /**
   * The scanner's split points, the end of the digit run and the end of the
   * fraction section after it, delimit well-formed integer and fraction
   * sections.
   */
  lemma ScanSplitCandidate(body: string, ip: nat, k: nat)
    requires ip == DigitRun(body) && k == FractionEnd(body[ip..])
    ensures ip + k <= |body| && IntSectionOk(body[..ip]) && FracSectionOk(body[ip..ip + k])
  {
    SliceOfSuffix(body, ip, k);
  }

  /**
   * The literal an unsigned `body` spells: integer digits up to the end of
   * the digit run, then the fraction section, then an exponent section.
   */
  function ScanUnsigned(body: string): (r: Option<Literal>)
    ensures r.Some? ==> !r.value.negative
    ensures r.Some? ==> exists i :: 0 <= i < |body| && IsDigit(body[i])
  {
    var ip := DigitRun(body);
    var j := ip + FractionEnd(body[ip..]);
    if ip == 0 && j - ip <= 1 then None
    else
      match ScanExponent(body[j..])
      case None => None
      case Some(e) =>
        DigitBesidePoint(body);
        var f := FracDigits(body[ip..j]);
        Some(Literal(false, PartValue(body[..ip] + f), DigitCount(f), e))
  }

  /** Digits before the point, or a digit after it, put a digit into `body`. */
  lemma DigitBesidePoint(body: string)
    requires DigitRun(body) > 0 || FractionEnd(body[DigitRun(body)..]) > 1
    ensures exists i :: 0 <= i < |body| && IsDigit(body[i])
  {
    var ip := DigitRun(body);
    if ip > 0 {
      assert IsDigit(body[0]);
    } else {
      var t := body[ip..];
      var k := FractionEnd(t);
      assert t[..k][1..][0] == body[1];
      assert IsDigit(body[1]);
    }
  }

  /** A body that splits into sections scans as the literal of that split. */
  lemma ScanUnsignedOfSplit(body: string, i: int, j: int)
    requires IsSplit(body, i, j)
    ensures ScanUnsigned(body) == Some(SplitLiteral(body, i, j))
  {
    SplitAgrees(body, i, j);
    assert ScanExponent(body[j..]) == Some(ExpSectionValue(body[j..]));
    ScanUnsignedAt(body, i, j, ExpSectionValue(body[j..]));
  }

  /** At the scanner's own split points, an exponent that scans as `e` gives the literal with exponent `e`. */
  lemma ScanUnsignedAt(body: string, i: nat, j: nat, e: int)
    requires i == DigitRun(body) && j == i + FractionEnd(body[i..])
    requires (i > 0 || j - i > 1) && j <= |body| && ScanExponent(body[j..]) == Some(e)
    ensures var f := FracDigits(body[i..j]);
      ScanUnsigned(body) == Some(Literal(false, PartValue(body[..i] + f), DigitCount(f), e))
  {
    var f := FracDigits(body[i..j]);
    assert !(i == 0 && j - i <= 1);
    assert ScanUnsigned(body) == Some(Literal(false, PartValue(body[..i] + f), DigitCount(f), e));
  }

  /** A body with no split into sections is rejected. */
  lemma ScanUnsignedRejects(body: string)
    requires !IsUnsignedLiteral(body)
    ensures ScanUnsigned(body) == None
  {
    var ip := DigitRun(body);
    var j := ip + FractionEnd(body[ip..]);
    ScanSplitCandidate(body, ip, j - ip);
    assert !IsSplit(body, ip, j);
    assert (ip > 0 || j - ip > 1) ==> !ExpSectionOk(body[j..]);
  }

  /**
   * The unsigned scanner agrees with the grammar: it accepts exactly the
   * bodies that split into sections, and returns the literal of that split.
   */
  lemma ScanUnsignedMatchesGrammar(body: string)
    ensures ScanUnsigned(body).Some? <==> IsUnsignedLiteral(body)
    ensures forall i, j :: IsSplit(body, i, j) ==> ScanUnsigned(body) == Some(SplitLiteral(body, i, j))
  {
    if !IsUnsignedLiteral(body) {
      ScanUnsignedRejects(body);
    }
    forall i, j | IsSplit(body, i, j)
      ensures ScanUnsigned(body) == Some(SplitLiteral(body, i, j))
    {
      ScanUnsignedOfSplit(body, i, j);
    }
  }

  /**
   * The literal `s` spells, if it is one: an optional sign, then an
   * unsigned body; a `-` makes it negative.
   */
  function Scan(s: string): (r: Option<Literal>)
    ensures r.Some? ==> exists i :: 0 <= i < |s| && IsDigit(s[i])
  {
    var (negative, body) := StripSign(s);
    match ScanUnsigned(body)
    case None => None
    case Some(lit) =>
      DigitAfterSign(s);
      Some(lit.(negative := negative))
  }

  /** A digit after the sign is a digit of the whole token. */
  lemma DigitAfterSign(s: string)
    requires exists i :: 0 <= i < |StripSign(s).1| && IsDigit(StripSign(s).1[i])
    ensures exists i :: 0 <= i < |s| && IsDigit(s[i])
  {
    var body := StripSign(s).1;
    var i :| 0 <= i < |body| && IsDigit(body[i]);
    assert s[|s| - |body| + i] == body[i];
  }

  /**
   * The scanner agrees with the grammar: after an optional sign, it accepts
   * exactly the bodies that split into sections, with the literal of that
   * split, negative after a `-`.
   */
  lemma ScanMatchesGrammar(s: string)
    ensures Scan(s).Some? <==> IsUnsignedLiteral(StripSign(s).1)
    ensures forall i, j :: IsSplit(StripSign(s).1, i, j) ==>
      Scan(s) == Some(SplitLiteral(StripSign(s).1, i, j).(negative := StripSign(s).0))
  {
    var (negative, body) := StripSign(s);
    ScanUnsignedMatchesGrammar(body);
  }

  predicate AllDigits(s: string) {
    forall i :: 0 <= i < |s| ==> IsDigit(s[i])
  }

  /** `a.f` scans as the mantissa `af` with the digits of `f` as fraction digits. */
  lemma ScanUnsignedDecimal(a: string, f: string)
    requires |a| > 0 && AllDigits(a) && AllDigits(f)
    ensures ScanUnsigned(a + "." + f) == Some(Literal(false, PartValue(a + f), DigitCount(f), 0))
  {
    var body := a + "." + f;
    var q := "." + f;
    assert body[..|a|] == a && body[|a|..|body|] == q && body[|body|..] == "";
    assert q[1..] == f;
    ScanUnsignedOfSplit(body, |a|, |body|);
  }

  /** A leading `-` only flips the sign of the literal that follows it. */
  lemma ScanSigned(s: string, negative: bool, body: string)
    requires |body| > 0 && IsDigit(body[0])
    requires s == (if negative then "-" else "") + body
    ensures Scan(s)
         == match ScanUnsigned(body)
            case None => None
            case Some(lit) => Some(lit.(negative := negative))
  {
    if negative {
      assert s[1..] == body;
    } else {
      assert s == body;
    }
    assert StripSign(s) == (negative, body);
  }

  /** `a.f`, optionally signed, scans as the mantissa `af` with `|f|` fraction digits. */
  lemma ScanDecimal(s: string, negative: bool, a: string, f: string)
    requires |a| > 0 && AllDigits(a) && AllDigits(f)
    requires s == (if negative then "-" else "") + (a + "." + f)
    ensures Scan(s) == Some(Literal(negative, PartValue(a + f), DigitCount(f), 0))
  {
    var body := a + "." + f;
    assert body[0] == a[0];
    ScanUnsignedDecimal(a, f);
    ScanSigned(s, negative, body);
  }

  /** Integer digits followed directly by an exponent section scan with no fraction digits. */
  lemma DigitsThenExponent(a: string, x: string)
    requires IsDigitPart(a) && ExpSectionOk(x)
    ensures ScanUnsigned(a + x) == Some(Literal(false, PartValue(a), 0, ExpSectionValue(x)))
  {
    var body := a + x;
    assert body[..|a|] == a && body[|a|..|a|] == "" && body[|a|..] == x;
    ScanUnsignedOfSplit(body, |a|, |a|);
    assert a + FracDigits("") == a;
  }

  /** `e [sign] d` or `E [sign] d` is an exponent section denoting `d` or `-d`. */
  lemma ExponentSection(marker: char, eNegative: bool, d: string)
    requires |d| > 0 && AllDigits(d)
    requires marker == 'e' || marker == 'E'
    ensures var x := [marker] + (if eNegative then "-" else "") + d;
      ExpSectionOk(x) && ExpSectionValue(x) == Signed(eNegative, PartValue(d))
  {
    var eSign: string := if eNegative then "-" else "";
    var x := [marker] + eSign + d;
    assert x[1..] == eSign + d;
    if eNegative {
      assert (eSign + d)[1..] == d;
    } else {
      assert eSign + d == d;
    }
    assert StripSign(x[1..]) == (eNegative, d);
  }

  /** `a e [sign] d`, optionally signed, scans as mantissa `a` with exponent `d` or `-d`. */
  lemma ScanExponential(s: string, negative: bool, a: string, marker: char, eNegative: bool, d: string)
    requires |a| > 0 && AllDigits(a) && |d| > 0 && AllDigits(d)
    requires marker == 'e' || marker == 'E'
    requires s == (if negative then "-" else "") + (a + ([marker] + (if eNegative then "-" else "") + d))
    ensures Scan(s) == Some(Literal(negative, PartValue(a), 0, Signed(eNegative, PartValue(d))))
  {
    var x := [marker] + (if eNegative then "-" else "") + d;
    var body := a + x;
    assert body[0] == a[0];
    ExponentSection(marker, eNegative, d);
    DigitsThenExponent(a, x);
    ScanSigned(s, negative, body);
  }

  /** The exact number a literal denotes. */
  function ExactValue(lit: Literal): real {
    var z := lit.exponent - lit.fractionDigits;
    var magnitude :=
      if z >= 0 then (lit.mantissa * Pow10(z)) as real
      else lit.mantissa as real / Pow10(-z) as real;
    if lit.negative then -magnitude else magnitude
  }

  /** `x` has no fractional part. */
  predicate IsIntegral(x: real) {
    x == x.Floor as real
  }

  /** Decimal notation of a natural number, most significant digit first. */
  function NatToString(k: nat): (s: string)
    ensures |s| > 0 && AllDigits(s)
  {
    if k < 10 then [DigitChar(k)] else NatToString(k / 10) + [DigitChar(k % 10)]
  }

  /** Decimal notation of an integer, with a leading `-` when negative. */
  function IntToString(n: int): string {
    if n < 0 then "-" + NatToString(-n) else NatToString(n)
  }

  /** Reading the digits of a natural number's notation gives the number back. */
  lemma {:induction false} NatToStringValue(k: nat)
    ensures PartValue(NatToString(k)) == k
  {
    if k >= 10 {
      var s := NatToString(k / 10);
      NatToStringValue(k / 10);
      assert (s + [DigitChar(k % 10)])[..|s|] == s;
    }
  }

  /** The notation of an integer scans as a literal with no fraction and no exponent. */
  lemma ScanIntToString(n: int)
    ensures Scan(IntToString(n)) == Some(Literal(n < 0, if n < 0 then -n else n, 0, 0))
  {
    var m: nat := if n < 0 then -n else n;
    var digits := NatToString(m);
    NatToStringValue(m);
    assert ScanUnsigned(digits) == Some(Literal(false, m, 0, 0)) by {
      assert digits[..|digits|] == digits && digits[|digits|..] == "";
      ScanUnsignedOfSplit(digits, |digits|, |digits|);
      assert digits + FracDigits("") == digits;
    }
    ScanSigned(IntToString(n), n < 0, digits);
  }

  /**
   * In the modelled decimal syntax, a token that starts with neither a digit,
   * a sign nor a point is no literal (the host's `inf` and `nan` spellings are
   * outside that syntax).
   */
  lemma ScanRejectsWords(s: string)
    requires |s| > 0 && !IsDigit(s[0]) && s[0] != '+' && s[0] != '-' && s[0] != '.'
    ensures Scan(s) == None
  {
  }
}
