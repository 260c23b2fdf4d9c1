/**
 * The price-text scan of `extract_price`: `re.findall(r'\$?\s*(\d+[.,]\d+)', text)[0]`,
 * with `,` replaced by `.` and read as a decimal number.
 *
 * The optional `$` and blanks in front of the group never change what the group captures:
 * the leftmost match of the whole pattern starts its digits exactly where the leftmost
 * match of `\d+[.,]\d+` starts, because `$` and blanks are not digits. So the scan below
 * searches for `\d+[.,]\d+` alone. `\d` is taken as the ASCII digits.
 */
module PriceText {
  import opened Wrappers
  import opened RealArith

  predicate IsDigit(c: char) { '0' <= c <= '9' }

  predicate IsSep(c: char) { c == '.' || c == ',' }

  predicate AllDigits(t: string) {
    forall i :: 0 <= i < |t| ==> IsDigit(t[i])
  }

  /** `t` matches `\d+[.,]\d+` as a whole. */
  predicate PriceShape(t: string) {
    exists k :: 0 < k < |t| - 1 && IsSep(t[k]) && AllDigits(t[..k]) && AllDigits(t[k + 1..])
  }

  /** Where the run of digits that starts at `q` ends. */
  function DigitRunEnd(s: string, q: nat): (e: nat)
    requires q <= |s|
    ensures q <= e <= |s|
    ensures forall i :: q <= i < e ==> IsDigit(s[i])
    ensures e < |s| ==> !IsDigit(s[e])
    decreases |s| - q
  {
    if q < |s| && IsDigit(s[q]) then DigitRunEnd(s, q + 1) else q
  }

  /** A match: digits in `[start, sep)`, the separator at `sep`, digits in `(sep, end)`. */
  datatype Match = Match(start: nat, sep: nat, end: nat)

  predicate IsMatchIn(s: string, m: Match) {
    && m.start < m.sep && m.sep + 1 < m.end <= |s|
    && AllDigits(s[m.start..m.sep]) && IsSep(s[m.sep]) && AllDigits(s[m.sep + 1..m.end])
  }

  /** If some `\d+[.,]\d+` starts at `q`, the digit run from `q` ends at a separator followed by a digit. */
  lemma ShapeAtStart(s: string, q: nat, f: nat)
    requires q < f <= |s| && PriceShape(s[q..f])
    ensures var e := DigitRunEnd(s, q); q < e && e + 1 < |s| && IsSep(s[e]) && IsDigit(s[e + 1])
  {
    var t := s[q..f];
    var k :| 0 < k < |t| - 1 && IsSep(t[k]) && AllDigits(t[..k]) && AllDigits(t[k + 1..]);
    ShapeInText(s, q, f, k);
    DigitRunEndAt(s, q, q + k);
  }

  /** The shape of `s[q..f]` split at `k`, read off `s` itself. */
  lemma ShapeInText(s: string, q: nat, f: nat, k: nat)
    requires q < f <= |s| && 0 < k < f - q - 1
    requires IsSep(s[q..f][k]) && AllDigits(s[q..f][..k]) && AllDigits(s[q..f][k + 1..])
    ensures forall i :: q <= i < q + k ==> IsDigit(s[i])
    ensures IsSep(s[q + k]) && IsDigit(s[q + k + 1])
  {
    assert s[q..f][..k] == s[q..q + k];
    assert s[q..f][k + 1..][0] == s[q + k + 1];
  }

  /** A run of digits from `q` up to a non-digit at `n` ends at `n`. */
  lemma {:induction false} DigitRunEndAt(s: string, q: nat, n: nat)
    requires q <= n < |s| && !IsDigit(s[n])
    requires forall i :: q <= i < n ==> IsDigit(s[i])
    ensures DigitRunEnd(s, q) == n
    decreases n - q
  {
    if q < n {
      DigitRunEndAt(s, q + 1, n);
    }
  }

  /** The match the regex engine settles on when it tries position `q`: greedy on both digit runs. */
  function MatchAt(s: string, q: nat): (r: Option<Match>)
    requires q <= |s|
    ensures r.Some? ==> r.value.start == q && IsMatchIn(s, r.value) && PriceShape(s[q..r.value.end])
    ensures r.Some? ==> r.value.end == |s| || !IsDigit(s[r.value.end])
    ensures r.None? ==> forall f :: q < f <= |s| ==> !PriceShape(s[q..f])
  {
    var e := DigitRunEnd(s, q);
    if q < e && e + 1 < |s| && IsSep(s[e]) && IsDigit(s[e + 1]) then
      var f := DigitRunEnd(s, e + 1);
      MatchShape(s, Match(q, e, f));
      Some(Match(q, e, f))
    else
      NoShapeAt(s, q);
      None
  }

  lemma MatchShape(s: string, m: Match)
    requires IsMatchIn(s, m)
    ensures PriceShape(s[m.start..m.end])
  {
    var t := s[m.start..m.end];
    var k := m.sep - m.start;
    assert t[..k] == s[m.start..m.sep];
    assert t[k + 1..] == s[m.sep + 1..m.end];
  }

  lemma NoShapeAt(s: string, q: nat)
    requires q <= |s|
    requires var e := DigitRunEnd(s, q); !(q < e && e + 1 < |s| && IsSep(s[e]) && IsDigit(s[e + 1]))
    ensures forall f :: q < f <= |s| ==> !PriceShape(s[q..f])
  {
    forall f | q < f <= |s| ensures !PriceShape(s[q..f]) {
      if PriceShape(s[q..f]) {
        ShapeAtStart(s, q, f);
      }
    }
  }

  /** The regex engine's scan: the first position, from `from` on, where a match starts. */
  function FirstMatchFrom(s: string, from: nat): (r: Option<Match>)
    requires from <= |s|
    ensures r.Some? ==> from <= r.value.start <= |s| && MatchAt(s, r.value.start) == r
    ensures r.Some? ==> forall q :: from <= q < r.value.start ==> MatchAt(s, q).None?
    ensures r.None? ==> forall q :: from <= q <= |s| ==> MatchAt(s, q).None?
    decreases |s| - from
  {
    match MatchAt(s, from)
    case Some(m) => Some(m)
    case None => if from == |s| then None else FirstMatchFrom(s, from + 1)
  }

  /**
   * `re.findall(...)[0]` as positions in `s`: the leftmost substring of the shape
   * `\d+[.,]\d+`, taken as long as it goes; None when no substring has that shape.
   */
  function FindPriceToken(s: string): (r: Option<Match>)
    ensures r.Some? ==> IsMatchIn(s, r.value) && PriceShape(s[r.value.start..r.value.end])
    ensures r.Some? ==> r.value.end == |s| || !IsDigit(s[r.value.end])
    ensures r.Some? ==> forall a, b :: 0 <= a < r.value.start && a < b <= |s| ==> !PriceShape(s[a..b])
    ensures r.None? <==> forall a, b :: 0 <= a < b <= |s| ==> !PriceShape(s[a..b])
  {
    var r := FirstMatchFrom(s, 0);
    FirstMatchIsLeftmost(s, r);
    r
  }

  lemma FirstMatchIsLeftmost(s: string, r: Option<Match>)
    requires r == FirstMatchFrom(s, 0)
    ensures r.Some? ==> forall a, b :: 0 <= a < r.value.start && a < b <= |s| ==> !PriceShape(s[a..b])
    ensures r.None? <==> forall a, b :: 0 <= a < b <= |s| ==> !PriceShape(s[a..b])
  {
    var limit := if r.Some? then r.value.start else |s|;
    forall a, b | 0 <= a < limit && a < b <= |s| ensures !PriceShape(s[a..b]) {
      assert MatchAt(s, a).None?;
    }
    if r.Some? {
      assert PriceShape(s[r.value.start..r.value.end]);
    }
  }

  /** `price_str.replace(',', '.')` */
  function Normalize(t: string): (r: string)
    ensures |r| == |t|
    ensures forall i :: 0 <= i < |t| ==> r[i] == (if t[i] == ',' then '.' else t[i])
  {
    seq(|t|, i requires 0 <= i < |t| => if t[i] == ',' then '.' else t[i])
  }

  function DigitValue(c: char): nat
    requires IsDigit(c)
  {
    c as int - '0' as int
  }

  /** The number a string of decimal digits denotes. */
  function DigitsValue(t: string): nat
    requires AllDigits(t)
  {
    if t == [] then 0 else DigitsValue(t[..|t| - 1]) * 10 + DigitValue(t[|t| - 1])
  }

  function Pow10(n: nat): (p: nat)
    ensures p >= 1
  {
    if n == 0 then 1 else 10 * Pow10(n - 1)
  }

  lemma {:induction false} DigitsValueBound(t: string)
    requires AllDigits(t)
    ensures DigitsValue(t) < Pow10(|t|)
    decreases |t|
  {
    if t != [] {
      DigitsValueBound(t[..|t| - 1]);
    }
  }

  /** A comma-normalised token keeps its digits and has `.` where the separator was. */
  lemma NormalizedToken(s: string, m: Match)
    requires IsMatchIn(s, m)
    ensures var t := Normalize(s[m.start..m.end]); var k := m.sep - m.start;
      0 < k < |t| - 1 && t[k] == '.' && t[..k] == s[m.start..m.sep] && t[k + 1..] == s[m.sep + 1..m.end]
  {
    var u := s[m.start..m.end];
    var t := Normalize(u);
    var k := m.sep - m.start;
    assert u[..k] == s[m.start..m.sep];
    assert u[k + 1..] == s[m.sep + 1..m.end];
    assert forall i :: 0 <= i < k ==> u[i] == u[..k][i];
    assert forall i :: k < i < |u| ==> u[i] == u[k + 1..][i - k - 1];
  }

  /**
   * `float(t)` for a token `digits.digits` with the point at `k`, read as an exact decimal:
   * its integer part is the number the digits before the point denote.
   */
  function DecimalValue(t: string, k: nat): (v: real)
    requires 0 < k < |t| - 1 && t[k] == '.' && AllDigits(t[..k]) && AllDigits(t[k + 1..])
    ensures v >= 0.0
    ensures v.Floor == DigitsValue(t[..k])
  {
    var whole := DigitsValue(t[..k]);
    var frac := t[k + 1..];
    DigitsValueBound(frac);
    FractionFloor(whole, DigitsValue(frac), Pow10(|frac|));
    whole as real + DigitsValue(frac) as real / Pow10(|frac|) as real
  }

  lemma FractionFloor(whole: nat, num: nat, den: nat)
    requires num < den
    ensures 0.0 <= whole as real + num as real / den as real
    ensures (whole as real + num as real / den as real).Floor == whole
  {
    var x := num as real / den as real;
    assert x * den as real == num as real;
    FractionBelowOne(x, num as real, den as real);
  }

  lemma FractionBelowOne(x: real, num: real, den: real)
    requires 0.0 <= num < den && x * den == num
    ensures 0.0 <= x < 1.0
  {
    if x >= 1.0 {
      MulMono(1.0, x, den);
    }
  }

  /** The value of the token `m`: `float(token.replace(',', '.'))`. */
  function MatchValue(s: string, m: Match): (v: real)
    requires IsMatchIn(s, m)
    ensures v >= 0.0
    ensures v.Floor == DigitsValue(s[m.start..m.sep])
  {
    NormalizedToken(s, m);
    DecimalValue(Normalize(s[m.start..m.end]), m.sep - m.start)
  }

  /** The price a text shows, if any: the value of its first `digits[.,]digits` token. */
  function PriceIn(text: string): (r: Option<real>)
    ensures r.None? <==> forall a, b :: 0 <= a < b <= |text| ==> !PriceShape(text[a..b])
    ensures r.Some? ==> r.value >= 0.0
  {
    match FindPriceToken(text)
    case Some(m) => Some(MatchValue(text, m))
    case None => None
  }

  /** No match can start before the first digit. */
  lemma {:induction false} SkipNonDigits(s: string, lo: nat, hi: nat)
    requires lo <= hi <= |s|
    requires forall q :: lo <= q < hi ==> !IsDigit(s[q])
    ensures FirstMatchFrom(s, lo) == FirstMatchFrom(s, hi)
    decreases hi - lo
  {
    if lo < hi {
      assert DigitRunEnd(s, lo) == lo;
      SkipNonDigits(s, lo + 1, hi);
    }
  }

  /** The value of a match is its whole digits plus its fraction digits over a power of ten. */
  lemma MatchValueParts(s: string, m: Match)
    requires IsMatchIn(s, m)
    ensures MatchValue(s, m) ==
      DigitsValue(s[m.start..m.sep]) as real + DigitsValue(s[m.sep + 1..m.end]) as real / Pow10(m.end - m.sep - 1) as real
  {
    NormalizedToken(s, m);
  }

  /** With no digit before `q`, the token is the one the engine settles on at `q`. */
  lemma TokenAfterNonDigits(s: string, q: nat)
    requires q <= |s| && MatchAt(s, q).Some?
    requires forall i :: 0 <= i < q ==> !IsDigit(s[i])
    ensures FindPriceToken(s) == MatchAt(s, q)
  {
    SkipNonDigits(s, 0, q);
  }

  /** A comma separator reads as a decimal point. */
  lemma CommaIsDecimalPoint(s: string)
    requires s == "P 1,5"
    ensures PriceIn(s) == Some(1.5)
  {
    DigitRunEndAt(s, 2, 3);
    assert DigitRunEnd(s, 4) == 5;
    TokenAfterNonDigits(s, 2);
    MatchValueParts(s, Match(2, 3, 5));
    assert s[2..3] == "1" && s[4..5] == "5";
  }

  /** A thousands separator is taken for the decimal point, and the rest is dropped. */
  lemma ThousandsSeparatorQuirk(s: string)
    requires s == "$1.25,5"
    ensures PriceIn(s) == Some(1.25)
  {
    QuirkToken(s);
    MatchValueParts(s, Match(1, 2, 5));
    QuirkDigits(s);
    assert Pow10(2) == 100;
  }

  lemma QuirkToken(s: string)
    requires s == "$1.25,5"
    ensures FindPriceToken(s) == Some(Match(1, 2, 5))
  {
    DigitRunEndAt(s, 1, 2);
    DigitRunEndAt(s, 3, 5);
    TokenAfterNonDigits(s, 1);
  }

  lemma QuirkDigits(s: string)
    requires s == "$1.25,5"
    ensures AllDigits(s[1..2]) && DigitsValue(s[1..2]) == 1
    ensures AllDigits(s[3..5]) && DigitsValue(s[3..5]) == 25
  {
    assert s[1..2] == "1" && s[3..5] == "25";
    assert "25"[..1] == "2";
  }
}
