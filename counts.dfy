/**
 * Engagement-count normalisation (`normalizeCount`, nested in `extractPostData`).
 *
 * Its argument is always a capture of the pattern `\d+(?:,\d+)*(?:\.\d+)?[KM]?`
 * under the `/i` flag, so a count token is a digit group list, an optional
 * fraction and an optional suffix among K, M, k and m. `parseFloat` and
 * `Math.round` are replaced by exact rational arithmetic.
 */
module Counts {
  import opened Wrappers
  import opened Text

  predicate IsSuffixLetter(c: char) {
    c == 'K' || c == 'M' || c == 'k' || c == 'm'
  }

  /** `\d+(?:,\d+)*`: digits, where every comma sits between two digits. */
  predicate IsDigitGroups(s: string) {
    && s != [] && IsDigit(s[0]) && IsDigit(s[|s| - 1])
    && (forall i :: 0 <= i < |s| ==> IsDigit(s[i]) || s[i] == ',')
    && (forall i :: 0 <= i < |s| - 1 && s[i] == ',' ==> IsDigit(s[i + 1]))
  }

  /** The token without its K/M suffix letter. */
  function Body(t: string): (b: string)
    ensures b <= t
  {
    if t != [] && IsSuffixLetter(t[|t| - 1]) then t[..|t| - 1] else t
  }

  /** The digits before the decimal point, commas removed. */
  function IntDigits(t: string): string {
    var b := Body(t);
    RemoveAll(b[..IndexOf(b, '.')], ',')
  }

  /** The digits after the decimal point (empty without one). */
  function FracDigits(t: string): string {
    var b := Body(t);
    var k := IndexOf(b, '.');
    if k < |b| then b[k + 1..] else []
  }

  /** A capture of `\d+(?:,\d+)*(?:\.\d+)?[KM]?` under `/i`. */
  predicate IsCountToken(t: string) {
    var b := Body(t);
    var k := IndexOf(b, '.');
    IsDigitGroups(b[..k]) && (k == |b| || (k + 1 < |b| && AllDigits(b[k + 1..])))
  }

  /** The decimal number a token writes, as an exact real. */
  ghost function TokenValue(t: string): real
    requires IsCountToken(t)
  {
    TokenParts(t);
    (DigitsValue(IntDigits(t)) as real)
      + (DigitsValue(FracDigits(t)) as real) / (Pow10(|FracDigits(t)|) as real)
  }

  /** The multiplier the suffix letter stands for: K and k thousand, upper-case M million, anything else one. */
  function SuffixScale(t: string): nat {
    if t == [] then 1
    else if t[|t| - 1] == 'K' || t[|t| - 1] == 'k' then 1000
    else if t[|t| - 1] == 'M' then 1000000
    else 1
  }

  /** `Math.round` specified: `n` is the integer nearest to `x`, halves going up. */
  ghost predicate RoundsTo(x: real, n: int) {
    (n as real) - 0.5 <= x < (n as real) + 0.5
  }

  /** `Math.round(num / den)` for non-negative operands. */
  function RoundHalfUp(num: nat, den: nat): (n: nat)
    requires den > 0
    ensures 2 * den * n <= 2 * num + den < 2 * den * (n + 1)
  {
    (2 * num + den) / (2 * den)
  }

  /** `parseFloat` on a comma-free token: the leading digits, then the digits after a `.`. */
  function ParseFloat(raw: string): (r: (nat, nat))
    ensures r.1 >= 1
  {
    var ip := DigitPrefix(raw);
    var rest := raw[|ip|..];
    var fp := if rest != [] && rest[0] == '.' then DigitPrefix(rest[1..]) else [];
    DigitsValueAppend(ip, fp);
    (DigitsValue(ip + fp), Pow10(|fp|))
  }

  /** The scale-and-round step of `normalizeCount` on the comma-free string. */
  function ScaledRound(raw: string): nat {
    var (num, den) := ParseFloat(raw);
    var scale :=
      if Contains(raw, "K") || Contains(raw, "k") then 1000
      else if Contains(raw, "M") then 1000000
      else 1;
    RoundHalfUp(num * scale, den)
  }

  /**
   * `normalizeCount(match)`: `null` stays `null`; otherwise commas are removed,
   * the number is scaled by its suffix (checked with `includes` on the whole
   * string) and rounded, and the result is its decimal string.
   */
  function NormalizeCount(m: Option<string>): (r: Option<string>)
    requires m.Some? ==> IsCountToken(m.value)
    ensures m.None? <==> r.None?
    ensures r.Some? ==> AllDigits(r.value) && r.value != [] && (|r.value| > 1 ==> r.value[0] != '0')
    ensures r.Some? ==> IsRoundedCount(m.value, DigitsValue(r.value))
  {
    if m.None? then None
    else
      var digits := NatToString(ScaledRound(RemoveAll(m.value, ',')));
      NormalizedDigits(m.value, digits);
      Some(digits)
  }

  /** `n` is the token's value, scaled by its suffix, rounded to the nearest integer with halves going up. */
  ghost predicate IsRoundedCount(t: string, n: int)
    requires IsCountToken(t)
  {
    RoundsTo(TokenValue(t) * (SuffixScale(t) as real), n)
  }

  lemma NormalizedDigits(t: string, digits: string)
    requires IsCountToken(t)
    requires digits == NatToString(ScaledRound(RemoveAll(t, ',')))
    ensures IsRoundedCount(t, DigitsValue(digits))
  {
    ScaledRoundOfToken(t);
  }

  /** The scaled, rounded value of a token is the nearest integer to its decimal value times its suffix scale. */
  lemma ScaledRoundOfToken(t: string)
    requires IsCountToken(t)
    ensures RoundsTo(TokenValue(t) * (SuffixScale(t) as real), ScaledRound(RemoveAll(t, ',')))
  {
    var raw := RemoveAll(t, ',');
    TokenValueIsQuotient(t);
    ScaledRoundIsRounding(t);
    RoundTokenQuotient(t, ParseFloat(raw).0, ParseFloat(raw).1, ScaledRound(raw));
  }

  lemma RoundTokenQuotient(t: string, num: nat, den: nat, n: nat)
    requires IsCountToken(t) && den >= 1
    requires TokenValue(t) == (num as real) / (den as real)
    requires n == RoundHalfUp(num * SuffixScale(t), den)
    ensures RoundsTo(TokenValue(t) * (SuffixScale(t) as real), n)
  {
    RoundScaled(TokenValue(t), num, den, SuffixScale(t), n);
  }

  lemma TokenValueIsQuotient(t: string)
    requires IsCountToken(t)
    ensures TokenValue(t) == (ParseFloat(RemoveAll(t, ',')).0 as real) / (ParseFloat(RemoveAll(t, ',')).1 as real)
  {
    ParseFloatOfToken(t);
    TokenValueQuotient(t);
  }

  lemma ScaledRoundIsRounding(t: string)
    requires IsCountToken(t)
    ensures var pr := ParseFloat(RemoveAll(t, ','));
      ScaledRound(RemoveAll(t, ',')) == RoundHalfUp(pr.0 * SuffixScale(t), pr.1)
  {
    ScaleOfToken(t);
  }

  lemma ScaleQuotient(num: nat, den: nat, scale: nat)
    requires den >= 1
    ensures (num as real) / (den as real) * (scale as real) == ((num * scale) as real) / (den as real)
  {
  }

  /** The parts of a token are digit strings. */
  lemma TokenParts(t: string)
    requires IsCountToken(t)
    ensures AllDigits(IntDigits(t)) && AllDigits(FracDigits(t))
  {
    var b := Body(t);
    DigitsOnceCommasGo(b[..IndexOf(b, '.')]);
  }

  lemma {:induction false} DigitsOnceCommasGo(s: string)
    requires forall i :: 0 <= i < |s| ==> IsDigit(s[i]) || s[i] == ','
    ensures AllDigits(RemoveAll(s, ','))
  {
    if s != [] {
      DigitsOnceCommasGo(s[1..]);
    }
  }

  /** Every character of a token but the last is a digit, a comma or the decimal point. */
  lemma OnlyLastIsLetter(t: string)
    requires IsCountToken(t)
    ensures forall i :: 0 <= i < |Body(t)| ==> IsDigit(t[i]) || t[i] == ',' || t[i] == '.'
    ensures t != [] && !IsSuffixLetter(t[|t| - 1]) ==> IsDigit(t[|t| - 1])
  {
    var b := Body(t);
    var k := IndexOf(b, '.');
    assert IsDigitGroups(b[..k]);
    forall i | 0 <= i < |b| ensures IsDigit(b[i]) || b[i] == ',' || b[i] == '.' {
      if i < k {
        assert b[i] == b[..k][i];
      } else if i > k {
        assert b[i] == b[k + 1..][i - k - 1];
      }
    }
    if t != [] && !IsSuffixLetter(t[|t| - 1]) {
      assert b == t;
      if k == |b| {
        assert b[|b| - 1] == b[..k][|b| - 1];
      } else {
        assert b[|b| - 1] == b[k + 1..][|b| - k - 2];
      }
    }
  }

  /** A token with commas removed is its integer digits, `.` and fraction digits when present, then its suffix. */
  lemma {:induction false} CommaFreeShape(t: string)
    requires IsCountToken(t)
    ensures var b := Body(t);
      RemoveAll(t, ',') == IntDigits(t) + (if IndexOf(b, '.') < |b| then "." + FracDigits(t) else []) + t[|b|..]
  {
    var b := Body(t);
    var k := IndexOf(b, '.');
    var tail := t[|b|..];
    assert t == b[..k] + b[k..] + tail;
    RemoveAllThree(b[..k], b[k..], tail);
    SuffixKeptWhole(t);
    FractionKeptWhole(t);
  }

  lemma RemoveAllThree(x: string, y: string, z: string)
    ensures RemoveAll(x + y + z, ',') == RemoveAll(x, ',') + RemoveAll(y, ',') + RemoveAll(z, ',')
  {
    RemoveAllAppend(x + y, z, ',');
    RemoveAllAppend(x, y, ',');
  }

  lemma SuffixKeptWhole(t: string)
    ensures RemoveAll(t[|Body(t)|..], ',') == t[|Body(t)|..]
  {
    var tail := t[|Body(t)|..];
    assert tail == [] || (|tail| == 1 && IsSuffixLetter(tail[0]));
    NoCommaRemoveAll(tail);
  }

  lemma FractionKeptWhole(t: string)
    requires IsCountToken(t)
    ensures var b := Body(t); var k := IndexOf(b, '.');
      RemoveAll(b[k..], ',') == (if k < |b| then "." + FracDigits(t) else [])
  {
    var b := Body(t);
    var k := IndexOf(b, '.');
    if k < |b| {
      TokenParts(t);
      assert b[k..] == "." + b[k + 1..];
      NoCommaRemoveAll(b[k..]);
    } else {
      assert b[k..] == [];
    }
  }

  lemma {:induction false} NoCommaRemoveAll(s: string)
    requires ',' !in s
    ensures RemoveAll(s, ',') == s
  {
    if s != [] {
      assert s[0] != ',';
      NoCommaRemoveAll(s[1..]);
    }
  }

  /** `parseFloat` reads exactly the token's integer and fraction digits. */
  lemma ParseFloatOfToken(t: string)
    requires IsCountToken(t)
    ensures AllDigits(IntDigits(t) + FracDigits(t))
    ensures ParseFloat(RemoveAll(t, ',')) == (DigitsValue(IntDigits(t) + FracDigits(t)), Pow10(|FracDigits(t)|))
  {
    var b := Body(t);
    TokenParts(t);
    DigitsValueAppend(IntDigits(t), FracDigits(t));
    CommaFreeShape(t);
    var tail := t[|b|..];
    if t != [] && IsSuffixLetter(t[|t| - 1]) {
      assert tail == [t[|t| - 1]];
    } else {
      assert tail == [];
    }
    if IndexOf(b, '.') < |b| {
      ParseFloatReads(IntDigits(t), "." + FracDigits(t), FracDigits(t), tail);
    } else {
      assert FracDigits(t) == [];
      ParseFloatReads(IntDigits(t), [], [], tail);
    }
  }

  /** `parseFloat` of digits `ip`, an optional `.fp`, then a non-digit tail. */
  lemma ParseFloatReads(ip: string, dotted: string, fp: string, tail: string)
    requires AllDigits(ip) && AllDigits(fp)
    requires dotted == [] || dotted == "." + fp
    requires dotted == [] ==> fp == []
    requires tail == [] || !IsDigit(tail[0])
    requires dotted == [] && tail != [] ==> tail[0] != '.'
    ensures AllDigits(ip + fp)
    ensures ParseFloat(ip + dotted + tail) == (DigitsValue(ip + fp), Pow10(|fp|))
  {
    var rest := dotted + tail;
    assert ip + dotted + tail == ip + rest;
    DigitsThenRest(ip, rest);
    var fraction := if rest != [] && rest[0] == '.' then DigitPrefix(rest[1..]) else [];
    assert fraction == fp by {
      if dotted != [] {
        DotThenDigits(fp, tail);
      } else if rest != [] {
        assert rest[0] == tail[0];
      }
    }
    DigitsValueAppend(ip, fp);
  }

  lemma DigitsThenRest(ip: string, rest: string)
    requires AllDigits(ip)
    requires rest == [] || !IsDigit(rest[0])
    ensures DigitPrefix(ip + rest) == ip && (ip + rest)[|ip|..] == rest
  {
    DigitPrefixStops(ip, rest);
  }

  lemma DotThenDigits(fp: string, tail: string)
    requires AllDigits(fp)
    requires tail == [] || !IsDigit(tail[0])
    ensures var rest := "." + fp + tail; rest[0] == '.' && DigitPrefix(rest[1..]) == fp
  {
    var rest := "." + fp + tail;
    assert rest[1..] == fp + tail;
    DigitPrefixStops(fp, tail);
  }

  /** The token's value is its digits read as one integer, divided by a power of ten. */
  lemma TokenValueQuotient(t: string)
    requires IsCountToken(t)
    ensures AllDigits(IntDigits(t) + FracDigits(t))
    ensures TokenValue(t)
      == (DigitsValue(IntDigits(t) + FracDigits(t)) as real) / (Pow10(|FracDigits(t)|) as real)
  {
    TokenParts(t);
    var ip, fp := IntDigits(t), FracDigits(t);
    DigitsValueAppend(ip, fp);
    ShiftReal(DigitsValue(ip), DigitsValue(fp), Pow10(|fp|));
  }

  lemma ShiftReal(x: nat, y: nat, p: nat)
    requires p >= 1
    ensures ((x * p + y) as real) / (p as real) == (x as real) + (y as real) / (p as real)
  {
  }

  /** The longest digit prefix of `d + s` is `d` when `s` does not start with a digit. */
  lemma {:induction false} DigitPrefixStops(d: string, s: string)
    requires AllDigits(d)
    requires s == [] || !IsDigit(s[0])
    ensures DigitPrefix(d + s) == d
  {
    if d == [] {
      assert d + s == s;
    } else {
      assert (d + s)[1..] == d[1..] + s;
      DigitPrefixStops(d[1..], s);
    }
  }

  /** The `includes('K')`, `includes('k')` and `includes('M')` tests see only the suffix letter. */
  lemma ScaleOfToken(t: string)
    requires IsCountToken(t)
    ensures Contains(RemoveAll(t, ','), "K") <==> t != [] && t[|t| - 1] == 'K'
    ensures Contains(RemoveAll(t, ','), "k") <==> t != [] && t[|t| - 1] == 'k'
    ensures Contains(RemoveAll(t, ','), "M") <==> t != [] && t[|t| - 1] == 'M'
  {
    var raw := RemoveAll(t, ',');
    ContainsChar(raw, 'K');
    ContainsChar(raw, 'k');
    ContainsChar(raw, 'M');
    LetterInToken(t, 'K');
    LetterInToken(t, 'k');
    LetterInToken(t, 'M');
  }

  lemma LetterInToken(t: string, c: char)
    requires IsCountToken(t) && IsSuffixLetter(c)
    ensures c in t <==> t != [] && t[|t| - 1] == c
  {
    OnlyLastIsLetter(t);
    if c in t {
      var i :| 0 <= i < |t| && t[i] == c;
      assert i >= |Body(t)|;
    }
  }

  /** Rounding the integer quotient agrees with `Math.round` on the real quotient. */
  lemma RoundHalfUpReal(q: nat, den: nat)
    requires den >= 1
    ensures RoundsTo((q as real) / (den as real), RoundHalfUp(q, den))
  {
    var n := RoundHalfUp(q, den);
    RealBounds(q, den, n);
    QuotientBounds(q as real, den as real, n as real);
  }

  lemma RealBounds(q: nat, den: nat, n: nat)
    requires 2 * den * n <= 2 * q + den < 2 * den * (n + 1)
    ensures 2.0 * (den as real) * (n as real) <= 2.0 * (q as real) + (den as real)
    ensures 2.0 * (q as real) + (den as real) < 2.0 * (den as real) * ((n as real) + 1.0)
  {
    assert ((2 * den * n) as real) == 2.0 * (den as real) * (n as real);
    assert ((2 * den * (n + 1)) as real) == 2.0 * (den as real) * ((n as real) + 1.0);
  }

  lemma QuotientBounds(q: real, d: real, nr: real)
    requires d > 0.0
    requires 2.0 * d * nr <= 2.0 * q + d < 2.0 * d * (nr + 1.0)
    ensures nr - 0.5 <= q / d < nr + 0.5
  {
    var x := q / d;
    var lo, hi := nr - 0.5, nr + 0.5;
    assert x * d == q;
    assert lo * d <= q;
    assert q < hi * d;
    DivideBoth(lo, x, d);
    DivideBoth(x, hi, d);
  }

  /** Scaling a quotient and rounding it is rounding the scaled numerator's quotient. */
  lemma RoundScaled(v: real, num: nat, den: nat, scale: nat, n: nat)
    requires den >= 1 && v == (num as real) / (den as real)
    requires n == RoundHalfUp(num * scale, den)
    ensures RoundsTo(v * (scale as real), n)
  {
    ScaleQuotient(num, den, scale);
    RoundHalfUpReal(num * scale, den);
  }

  lemma DivideBoth(a: real, b: real, d: real)
    requires d > 0.0
    ensures a * d <= b * d ==> a <= b
    ensures a * d < b * d ==> a < b
  {
  }

  /** A lower-case `m` is a minute mark, not a million: it leaves the count unscaled. */
  lemma LowerMIsNotMillion(t: string)
    requires IsCountToken(t) && t != [] && t[|t| - 1] == 'm'
    ensures SuffixScale(t) == 1
    ensures IsCountToken(Body(t)) && TokenValue(Body(t)) == TokenValue(t)
    ensures NormalizeCount(Some(t)) == NormalizeCount(Some(Body(t)))
  {
    var b := Body(t);
    MinuteMarkDropped(t);
    assert ScaledRound(RemoveAll(t, ',')) == ScaledRound(RemoveAll(b, ',')) by {
      ParseFloatOfToken(t);
      ParseFloatOfToken(b);
      ScaleOfToken(t);
      ScaleOfToken(b);
    }
  }

  lemma MinuteMarkDropped(t: string)
    requires IsCountToken(t) && t != [] && t[|t| - 1] == 'm'
    ensures IsCountToken(Body(t)) && Body(Body(t)) == Body(t)
    ensures TokenValue(Body(t)) == TokenValue(t)
    ensures SuffixScale(t) == 1 && SuffixScale(Body(t)) == 1
  {
    var b := Body(t);
    assert b == t[..|t| - 1];
    var k := IndexOf(b, '.');
    assert b != [] && IsDigit(b[|b| - 1]) by {
      if k == |b| {
        assert IsDigitGroups(b[..k]) && b[..k] == b;
      } else {
        assert AllDigits(b[k + 1..]) && b[|b| - 1] == b[k + 1..][|b| - k - 2];
      }
    }
    assert Body(b) == b;
    assert IntDigits(b) == IntDigits(t) && FracDigits(b) == FracDigits(t);
  }

  lemma RoundsToUnique(x: real, y: real, m: int, n: int)
    requires x == y && RoundsTo(x, m) && RoundsTo(y, n)
    ensures m == n
  {
  }

  /** Two shortest numerals of the same value are the same string. */
  lemma CanonicalDigits(a: string, b: string)
    requires a != [] && AllDigits(a) && (|a| > 1 ==> a[0] != '0')
    requires b != [] && AllDigits(b) && (|b| > 1 ==> b[0] != '0')
    requires DigitsValue(a) == DigitsValue(b)
    ensures a == b
  {
    assert a == NatToString(DigitsValue(a)) by { ShortestNumeral(a); }
    assert b == NatToString(DigitsValue(b)) by { ShortestNumeral(b); }
  }

  /** A numeral without a leading zero is the one `toString` writes. */
  lemma {:induction false} ShortestNumeral(a: string)
    requires a != [] && AllDigits(a) && (|a| > 1 ==> a[0] != '0')
    ensures a == NatToString(DigitsValue(a))
  {
    if |a| == 1 {
    } else {
      var a', last := a[..|a| - 1], a[|a| - 1];
      ShortestNumeral(a');
      assert a'[0] == a[0];
      LeadingDigitPositive(a');
      var m, d := DigitsValue(a'), DigitValue(last);
      assert DigitsValue(a) == 10 * m + d;
      DivModTen(m, d);
      assert DigitChar(d) == last;
      assert a == a' + [last];
    }
  }

  lemma DivModTen(m: nat, d: nat)
    requires d < 10
    ensures (10 * m + d) / 10 == m && (10 * m + d) % 10 == d
  {
  }

  lemma {:induction false} LeadingDigitPositive(a: string)
    requires a != [] && AllDigits(a) && a[0] != '0'
    ensures DigitsValue(a) > 0
  {
    if |a| > 1 {
      LeadingDigitPositive(a[..|a| - 1]);
    }
  }
}
