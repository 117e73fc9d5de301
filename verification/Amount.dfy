/** What a piece of work is worth: an exact decimal times an integer rate, rounded once,
    half away from zero. */
module Amount {
  import opened Text

  /** A quantity as an exact decimal: `units` over ten to the `scale`. */
  datatype Exact = Exact(units: int, scale: nat)

  function Ten(e: nat): (p: nat)
    ensures p > 0
  {
    Pow(10, e)
  }

  function Abs(n: int): (m: nat) { if n < 0 then -n else n }

  /* ---- reading the digits a person typed ---- */

  function TakeDigits(s: string): (r: (string, string))
    ensures s == r.0 + r.1 && AllDigits(10, r.0)
    ensures r.1 != [] ==> !IsDigit(10, r.1[0])
  {
    if s == [] || !IsDigit(10, s[0]) then ([], s)
    else var r := TakeDigits(s[1..]); ([s[0]] + r.0, r.1)
  }

  predicate IsSign(c: char) { c == '+' || c == '-' }

  /** An exponent: an optional sign and at least one digit, to the end. */
  function ReadExponent(s: string): (e: Option<int>) {
    var body := if s != [] && IsSign(s[0]) then s[1..] else s;
    if body == [] || !AllDigits(10, body) then None
    else
      var v: int := Value(10, body);
      Some(if s[0] == '-' then -v else v)
  }

  function Scaled(units: nat, scale: int, negative: bool): (q: Exact) {
    var u := if scale < 0 then units * Ten(-scale) else units;
    Exact(if negative then -u else u, if scale < 0 then 0 else scale)
  }

  /** The unsigned part: the digits with the point taken out, and where the point was. */
  function Unsigned(text: string): (r: Option<(string, int)>)
    ensures r.Some? ==> AllDigits(10, r.value.0)
  {
    var (whole, afterWhole) := TakeDigits(text);
    var (fraction, rest) := if afterWhole != [] && afterWhole[0] == '.' then TakeDigits(afterWhole[1..])
                            else ("", afterWhole);
    var exponent := if rest == [] then Some(0)
                    else if rest[0] == 'e' || rest[0] == 'E' then ReadExponent(rest[1..])
                    else None;
    if exponent.None? || whole + fraction == "" then None
    else Some((whole + fraction, |fraction| - exponent.value))
  }

  /** `exactDecimal`: sign, whole, fraction and exponent, or nothing at all. */
  function ExactDecimal(value: string): (q: Option<Exact>) {
    var text := Trim(value);
    var r := Unsigned(if text != [] && IsSign(text[0]) then text[1..] else text);
    if r.None? then None else Some(Scaled(Value(10, r.value.0), r.value.1, text[0] == '-'))
  }

  /* ---- the multiplication ---- */

  /** Rounds `n / d` half away from zero, on the magnitude. */
  function Round(n: int, d: nat): (k: int)
    requires d > 0
  {
    var m := Abs(n);
    var r := if m % d * 2 >= d then m / d + 1 else m / d;
    if n < 0 then -r else r
  }

  datatype Rate = Rate(cents: real) | NotFinite

  /** `Math.round`: to the nearest integer, halves upwards. */
  function MathRound(x: real): (n: int) { (x + 0.5).Floor }

  lemma MathRoundExactly(x: real, n: int)
    ensures MathRound(x) == n <==> n as real - 0.5 <= x < n as real + 0.5
  {
  }

  function Worth(q: Exact, rate: int): (cents: int) { Round(q.units * rate, Ten(q.scale)) }

  /** `amountCents`; None is NaN. */
  function AmountCents(quantity: string, rate: Rate): (cents: Option<int>) {
    var q := ExactDecimal(quantity);
    if q.None? || rate.NotFinite? then None else Some(Worth(q.value, MathRound(rate.cents)))
  }

  /* ---- rounding is to the nearest, ties away from zero ---- */

  /** `k` is the nearest integer to `n / d`; a tie goes to the larger magnitude. */
  ghost predicate Nearest(n: int, d: nat, k: int) {
    && 2 * Abs(n - k * d) <= d
    && (2 * Abs(n - k * d) == d ==> Abs(k * d) > Abs(n))
  }

  lemma MulMono(k: nat, x: int, y: int)
    requires x <= y
    ensures k * x <= k * y
  {
  }

  /** `2m/d` lies within one of `2k`, the lower end included. */
  ghost predicate Brackets(m: nat, d: nat, k: int) { (2 * k - 1) * d <= 2 * m < (2 * k + 1) * d }

  lemma BracketEnds(d: nat, k: int)
    ensures (2 * k - 1) * d == 2 * (k * d) - d && (2 * k + 1) * d == 2 * (k * d) + d
  {
  }

  lemma RoundBrackets(m: nat, d: nat)
    requires d > 0
    ensures Round(m, d) >= 0 && Brackets(m, d, Round(m, d))
  {
    var q, k := m / d, Round(m, d);
    assert m == q * d + m % d;
    BracketEnds(d, k);
    assert (q + 1) * d == q * d + d;
  }

  /** Brackets in order: a rounded value never passes a larger one. */
  lemma BracketOrder(m: nat, n: nat, d: nat, k: int, l: int)
    requires d > 0 && m <= n && Brackets(m, d, k) && Brackets(n, d, l)
    ensures k <= l
  {
    if k >= l + 1 { MulMono(d, 2 * l + 1, 2 * k - 1); }
  }

  lemma BracketIsRound(m: nat, d: nat, k: int)
    requires d > 0 && Brackets(m, d, k)
    ensures k == Round(m, d)
  {
    RoundBrackets(m, d);
    BracketOrder(m, m, d, k, Round(m, d));
    BracketOrder(m, m, d, Round(m, d), k);
  }

  lemma BracketScale(m: nat, d: nat, c: nat, k: int)
    requires d > 0 && c > 0 && Brackets(m, d, k)
    ensures d * c > 0 && Brackets(m * c, d * c, k)
  {
    MulMono(c, (2 * k - 1) * d, 2 * m);
    MulMono(c, 2 * m + 1, (2 * k + 1) * d);
    assert (2 * k - 1) * d * c == (2 * k - 1) * (d * c) && (2 * k + 1) * d * c == (2 * k + 1) * (d * c);
    assert 2 * m * c == 2 * (m * c);
  }

  /** On magnitudes, nearest with ties upwards is what the brackets say. */
  lemma BracketNearest(m: nat, d: nat, k: int)
    requires d > 0
    ensures Brackets(m, d, k) <==> 2 * Abs(m - k * d) <= d && (2 * Abs(m - k * d) == d ==> k * d > m)
  {
    BracketEnds(d, k);
  }

  lemma RoundSign(n: int, d: nat)
    requires d > 0
    ensures Round(n, d) == if n < 0 then -Round(-n, d) else Round(Abs(n), d)
  {
  }

  lemma RoundIsNearest(n: int, d: nat)
    requires d > 0
    ensures Nearest(n, d, Round(n, d))
  {
    var m := Abs(n);
    var r := Round(m, d);
    RoundSign(n, d);
    RoundBrackets(m, d);
    BracketNearest(m, d, r);
    assert r * d >= 0 && (-r) * d == -(r * d);
  }

  lemma NearestIsRound(n: int, d: nat, k: int)
    requires d > 0 && Nearest(n, d, k)
    ensures k == Round(n, d)
  {
    hide Round, Brackets;
    var m, j := Abs(n), if n < 0 then -k else k;
    assert j * d == if n < 0 then -(k * d) else k * d by { Distribute(d, 0, k, 0); }
    BracketNearest(m, d, j);
    BracketIsRound(m, d, j);
    RoundSign(n, d);
  }

  /** The amount is the integer nearest the exact product, ties away from zero, and it is the
      only integer of which that can be said. */
  lemma AmountIsNearest(q: Exact, rate: int, k: int)
    ensures Nearest(q.units * rate, Ten(q.scale), k) <==> k == Worth(q, rate)
  {
    RoundIsNearest(q.units * rate, Ten(q.scale));
    if Nearest(q.units * rate, Ten(q.scale), k) { NearestIsRound(q.units * rate, Ten(q.scale), k); }
  }

  /* ---- odd, monotone, the same for every spelling ---- */

  lemma AmountIsOdd(q: Exact, rate: int)
    ensures Worth(Exact(-q.units, q.scale), rate) == -Worth(q, rate)
    ensures Worth(q, -rate) == -Worth(q, rate)
  {
    assert -q.units * rate == -(q.units * rate) && q.units * -rate == -(q.units * rate);
  }

  lemma RoundMono(n: int, m: int, d: nat)
    requires d > 0 && n <= m
    ensures Round(n, d) <= Round(m, d)
  {
    var r, t := Round(Abs(n), d), Round(Abs(m), d);
    RoundSign(n, d);
    RoundSign(m, d);
    RoundBrackets(Abs(n), d);
    RoundBrackets(Abs(m), d);
    if n >= 0 { BracketOrder(n, m, d, r, t); } else if m < 0 { BracketOrder(-m, -n, d, t, r); }
  }

  lemma RoundScale(n: int, d: nat, c: nat)
    requires d > 0 && c > 0
    ensures d * c > 0 && Round(n * c, d * c) == Round(n, d)
  {
    var m := Abs(n);
    RoundBrackets(m, d);
    BracketScale(m, d, c, Round(m, d));
    BracketIsRound(m * c, d * c, Round(m, d));
    AbsTimes(n, c);
    RoundSign(n, d);
    RoundSign(n * c, d * c);
    assert n < 0 ==> n * c < 0 && -(n * c) == m * c;
  }

  lemma AbsTimes(e: int, c: nat)
    ensures Abs(e * c) == Abs(e) * c
  {
    if e < 0 { assert e * c == -(-e * c); }
  }

  /** One exact decimal is at most another. */
  ghost predicate AtMost(a: Exact, b: Exact) { a.units * Ten(b.scale) <= b.units * Ten(a.scale) }

  ghost predicate SameNumber(a: Exact, b: Exact) { a.units * Ten(b.scale) == b.units * Ten(a.scale) }

  lemma CommonScale(a: Exact, b: Exact, rate: int)
    ensures Ten(a.scale) * Ten(b.scale) > 0
    ensures Worth(a, rate) == Round(a.units * Ten(b.scale) * rate, Ten(a.scale) * Ten(b.scale))
    ensures Worth(b, rate) == Round(b.units * Ten(a.scale) * rate, Ten(a.scale) * Ten(b.scale))
  {
    RoundScale(a.units * rate, Ten(a.scale), Ten(b.scale));
    RoundScale(b.units * rate, Ten(b.scale), Ten(a.scale));
    Swap(a.units, rate, Ten(b.scale));
    Swap(b.units, rate, Ten(a.scale));
  }

  lemma Swap(x: int, y: int, z: int)
    ensures x * y * z == x * z * y
  {
  }

  /** More kilos are never worth less, at a rate that is not negative. */
  lemma AmountIsMonotone(a: Exact, b: Exact, rate: nat)
    requires AtMost(a, b)
    ensures Worth(a, rate) <= Worth(b, rate)
  {
    CommonScale(a, b, rate);
    var x, y := a.units * Ten(b.scale), b.units * Ten(a.scale);
    assert x * rate <= y * rate by { MulMono(rate, x, y); }
    RoundMono(x * rate, y * rate, Ten(a.scale) * Ten(b.scale));
  }

  /** Two texts that denote one number are worth the same, however they are written. */
  lemma SpellingDoesNotMatter(a: string, b: string, rate: Rate)
    requires ExactDecimal(a).Some? && ExactDecimal(b).Some?
    requires SameNumber(ExactDecimal(a).value, ExactDecimal(b).value)
    ensures AmountCents(a, rate) == AmountCents(b, rate)
  {
    if rate.Rate? { CommonScale(ExactDecimal(a).value, ExactDecimal(b).value, MathRound(rate.cents)); }
  }

  /* ---- the spellings themselves ---- */

  function Signed(negative: bool, d: string): (s: string) { if negative then "-" + d else d }

  /** What may follow the fraction: nothing, or an exponent. */
  function Suffix(e: int): (s: string)
    ensures e != 0 ==> s != "" && s[0] == 'e'
  {
    if e == 0 then "" else "e" + Signed(e < 0, Digits(Abs(e)))
  }

  /** The fraction with its point; a point may stand without digits after it, and a whole
      number may do without one. */
  function Tail(point: bool, fraction: string): (s: string) { if point || fraction != "" then "." + fraction else "" }

  /** A decimal as people and programs write it: sign, whole, point, fraction, exponent. */
  function Spell(negative: bool, whole: string, point: bool, fraction: string, e: int): (s: string)
    requires AllDigits(10, whole) && AllDigits(10, fraction)
  {
    Signed(negative, whole + (Tail(point, fraction) + Suffix(e)))
  }

  lemma {:induction false} TakeAll(d: string, rest: string)
    requires AllDigits(10, d) && (rest != [] ==> !IsDigit(10, rest[0]))
    ensures TakeDigits(d + rest) == (d, rest)
  {
    if d == [] {
      assert d + rest == rest;
    } else {
      assert IsDigit(10, d[0]) && (d + rest)[1..] == d[1..] + rest;
      TakeAll(d[1..], rest);
      assert [d[0]] + d[1..] == d;
    }
  }

  lemma ReadSigned(negative: bool, d: string)
    requires AllDigits(10, d) && d != ""
    ensures ReadExponent(Signed(negative, d)) == Some(if negative then -(Value(10, d) as int) else Value(10, d))
  {
    var s := Signed(negative, d);
    if negative { assert s[1..] == d; } else { assert IsDigit(10, d[0]); }
  }

  lemma ReadTail(e: int)
    ensures ReadExponent(Signed(e < 0, Digits(Abs(e)))) == Some(e)
  {
    DigitsValue(Abs(e));
    ReadSigned(e < 0, Digits(Abs(e)));
  }

  ghost predicate Ends(suffix: string, e: int) {
    if e == 0 then suffix == "" else suffix != "" && suffix[0] == 'e' && ReadExponent(suffix[1..]) == Some(e)
  }

  lemma ReadUnsigned(whole: string, point: bool, fraction: string, suffix: string, e: int)
    requires AllDigits(10, whole) && AllDigits(10, fraction) && whole + fraction != "" && Ends(suffix, e)
    ensures Unsigned(whole + (Tail(point, fraction) + suffix)) == Some((whole + fraction, |fraction| - e))
  {
    hide Value, ReadExponent;
    if point || fraction != "" {
      assert Tail(point, fraction) + suffix == "." + (fraction + suffix);
      TakeAll(whole, "." + (fraction + suffix));
      assert ("." + (fraction + suffix))[1..] == fraction + suffix;
      TakeAll(fraction, suffix);
    } else {
      assert Tail(point, fraction) + suffix == suffix;
      TakeAll(whole, suffix);
      assert whole + "" == whole;
    }
  }

  /** What is read does not depend on a sign or on surrounding spaces that are not there. */
  lemma ReadSignedText(negative: bool, unsigned: string)
    requires unsigned != "" && !IsSign(unsigned[0]) && !IsSpace(unsigned[0]) && !IsSpace(unsigned[|unsigned| - 1])
    requires Unsigned(unsigned).Some?
    ensures ExactDecimal(Signed(negative, unsigned))
         == Some(Scaled(Value(10, Unsigned(unsigned).value.0), Unsigned(unsigned).value.1, negative))
  {
    var text := Signed(negative, unsigned);
    assert Trim(text) == text;
    if negative { assert text[1..] == unsigned; }
  }

  lemma ReadSuffix(e: int)
    requires e != 0
    ensures ReadExponent(Suffix(e)[1..]) == Some(e)
    ensures IsDigit(10, Suffix(e)[|Suffix(e)| - 1])
  {
    var d := Digits(Abs(e));
    var s := Signed(e < 0, d);
    ReadTail(e);
    assert Suffix(e)[1..] == s && Suffix(e)[|Suffix(e)| - 1] == d[|d| - 1];
  }

  lemma ReadSpelling(negative: bool, whole: string, point: bool, fraction: string, e: int)
    requires AllDigits(10, whole) && AllDigits(10, fraction) && whole + fraction != ""
    ensures ExactDecimal(Spell(negative, whole, point, fraction, e))
         == Some(Scaled(Value(10, whole + fraction), |fraction| - e, negative))
  {
    hide ExactDecimal, Unsigned, ReadExponent, Value, Scaled, IsSpace, IsSign, Suffix, Tail;
    if e != 0 { ReadSuffix(e); } else { assert Suffix(e) == "" by { NoSuffix(); } }
    ReadUnsigned(whole, point, fraction, Suffix(e), e);
    NoSpaceAround(whole, point, fraction, Suffix(e));
    ReadSignedText(negative, whole + (Tail(point, fraction) + Suffix(e)));
  }

  lemma NoSuffix()
    ensures Suffix(0) == ""
  {
  }

  lemma NoSpaceAround(whole: string, point: bool, fraction: string, suffix: string)
    requires AllDigits(10, whole) && AllDigits(10, fraction) && whole + fraction != ""
    requires suffix == "" || IsDigit(10, suffix[|suffix| - 1])
    ensures var s := whole + (Tail(point, fraction) + suffix);
            s != "" && !IsSign(s[0]) && !IsSpace(s[0]) && !IsSpace(s[|s| - 1])
  {
    var s := whole + (Tail(point, fraction) + suffix);
    if whole != "" { assert s[0] == whole[0] && IsDigit(10, whole[0]); }
    if suffix != "" { assert s[|s| - 1] == suffix[|suffix| - 1]; }
    else if fraction != "" { assert s[|s| - 1] == fraction[|fraction| - 1] && IsDigit(10, fraction[|fraction| - 1]); }
    else if point { assert s[|s| - 1] == '.'; }
    else { assert s == whole && IsDigit(10, whole[|whole| - 1]); }
  }

  lemma {:induction false} ZerosValue(s: string, n: nat)
    requires AllDigits(10, s)
    ensures AllDigits(10, s + Zeros(n)) && Value(10, s + Zeros(n)) == Value(10, s) * Ten(n)
  {
    if n == 0 {
      assert s + Zeros(0) == s;
    } else {
      ZerosValue(s, n - 1);
      var t := s + Zeros(n);
      assert t[..|t| - 1] == s + Zeros(n - 1) && t[|t| - 1] == '0';
      TimesMul(10, Value(10, s), Ten(n - 1), 0);
    }
  }

  lemma {:induction false} TenAdd(a: nat, b: nat)
    ensures Ten(a + b) == Ten(a) * Ten(b)
  {
    if a > 0 {
      TenAdd(a - 1, b);
      assert 10 * (Ten(a - 1) * Ten(b)) == 10 * Ten(a - 1) * Ten(b);
    }
  }

  lemma ScaledSame(u: nat, scale: int, k: nat, negative: bool)
    ensures SameNumber(Scaled(u, scale, negative), Scaled(u * Ten(k), scale + k, negative))
  {
    if scale >= 0 {
      TenAdd(scale, k);
      Regroup(u, Ten(scale), Ten(k));
    } else if scale + k >= 0 {
      TenAdd(-scale, scale + k);
      Regroup(u, Ten(-scale), Ten(scale + k));
    } else {
      TenAdd(k, -scale - k);
      Regroup(u, Ten(k), Ten(-scale - k));
    }
  }

  lemma Regroup(u: int, a: nat, b: nat)
    ensures u * (a * b) == u * a * b == u * b * a
    ensures (-u) * (a * b) == (-(u * b)) * a && (-(u * a)) * b == -(u * (a * b))
  {
    assert u * (a * b) == u * a * b;
    assert (-u) * (a * b) == -(u * (a * b)) && (-(u * b)) * a == -(u * b * a) && (-(u * a)) * b == -(u * a * b);
  }

  /** Trailing zeros change nothing, nor does the point they need. */
  lemma TrailingZeros(negative: bool, whole: string, point: bool, dot: bool, fraction: string, e: int, n: nat,
                      rate: Rate)
    requires AllDigits(10, whole) && AllDigits(10, fraction) && whole + fraction != ""
    ensures AllDigits(10, fraction + Zeros(n))
    ensures AmountCents(Spell(negative, whole, dot, fraction + Zeros(n), e), rate)
         == AmountCents(Spell(negative, whole, point, fraction, e), rate)
  {
    hide ExactDecimal, Spell, SameNumber, Scaled, Value;
    var digits := whole + fraction;
    ZerosValue(digits, n);
    ZerosValue(fraction, n);
    assert whole + (fraction + Zeros(n)) == digits + Zeros(n);
    ReadSpelling(negative, whole, point, fraction, e);
    ReadSpelling(negative, whole, dot, fraction + Zeros(n), e);
    ScaledSame(Value(10, digits), |fraction| - e, n, negative);
    SpellingDoesNotMatter(Spell(negative, whole, point, fraction, e),
                          Spell(negative, whole, dot, fraction + Zeros(n), e), rate);
  }

  lemma ConcatDigits(a: string, b: string)
    requires AllDigits(10, a) && AllDigits(10, b)
    ensures AllDigits(10, a + b)
  {
  }

  /** Moving the point and saying so in the exponent changes nothing, even when it moves past
      the last digit and is left out. */
  lemma ExponentMovesPoint(negative: bool, whole: string, moved: string, point: bool, dot: bool, fraction: string,
                           e: int, rate: Rate)
    requires AllDigits(10, whole) && AllDigits(10, moved) && AllDigits(10, fraction) && whole + moved + fraction != ""
    ensures AllDigits(10, whole + moved) && AllDigits(10, moved + fraction)
    ensures AmountCents(Spell(negative, whole, point, moved + fraction, e), rate)
         == AmountCents(Spell(negative, whole + moved, dot, fraction, e - |moved|), rate)
  {
    hide ExactDecimal, Spell;
    ConcatDigits(whole, moved);
    ConcatDigits(moved, fraction);
    var w, f, v := whole, moved + fraction, whole + moved;
    assert w + f == v + fraction;
    ReadSpelling(negative, w, point, f, e);
    ReadSpelling(negative, v, dot, fraction, e - |moved|);
    SameReading(Spell(negative, w, point, f, e), Spell(negative, v, dot, fraction, e - |moved|), rate);
  }

  lemma SameReading(a: string, b: string, rate: Rate)
    requires ExactDecimal(a) == ExactDecimal(b)
    ensures AmountCents(a, rate) == AmountCents(b, rate)
  {
  }

  /* ---- rounding every line and rounding the sum ---- */

  function SumUnits(us: seq<int>): (n: int) {
    if us == [] then 0 else SumUnits(us[..|us| - 1]) + us[|us| - 1]
  }

  /** Each line rounded by itself, then added as integers. */
  function SumLines(us: seq<int>, scale: nat, rate: int): (cents: int) {
    if us == [] then 0 else SumLines(us[..|us| - 1], scale, rate) + Worth(Exact(us[|us| - 1], scale), rate)
  }

  lemma DriftStep(d: nat, n: nat, s: int, k: int, t: int, u: int, rate: int)
    requires 2 * Abs(s * d - t * rate) <= n * d && 2 * Abs(u * rate - k * d) <= d
    ensures 2 * Abs((s + k) * d - (t + u) * rate) <= (n + 1) * d
  {
    assert (s + k) * d == s * d + k * d && (t + u) * rate == t * rate + u * rate && (n + 1) * d == n * d + d;
  }

  lemma {:induction false} LinesDrift(us: seq<int>, scale: nat, rate: int)
    ensures 2 * Abs(SumLines(us, scale, rate) * Ten(scale) - SumUnits(us) * rate) <= |us| * Ten(scale)
  {
    if us != [] {
      var front, u := us[..|us| - 1], us[|us| - 1];
      LinesDrift(front, scale, rate);
      RoundIsNearest(u * rate, Ten(scale));
      DriftStep(Ten(scale), |front|, SumLines(front, scale, rate), Worth(Exact(u, scale), rate),
                SumUnits(front), u, rate);
    }
  }

  lemma Cancel(d: nat, a: int, b: int)
    requires d > 0 && a * d <= b * d
    ensures a <= b
  {
    if a > b { MulMono(d, b + 1, a); }
  }

  lemma Distribute(d: int, s: int, k: int, n: int)
    ensures (s - k) * d == s * d - k * d && (n + 1) * d == n * d + d && 2 * s * d == 2 * (s * d)
  {
  }

  lemma Within(d: nat, n: nat, s: int, k: int, x: int)
    requires d > 0 && 2 * Abs(s * d - x) <= n * d && 2 * Abs(x - k * d) <= d
    ensures 2 * Abs(s - k) <= n + 1
  {
    AbsTimes(s - k, d);
    Distribute(d, s, k, n);
    Distribute(d, Abs(s - k), 0, 0);
    Cancel(d, 2 * Abs(s - k), n + 1);
  }

  /** Adding n rounded lines and rounding the sum differ by at most (n + 1) / 2 cents. */
  lemma SumOfLinesBound(us: seq<int>, scale: nat, rate: int)
    ensures 2 * Abs(SumLines(us, scale, rate) - Worth(Exact(SumUnits(us), scale), rate)) <= |us| + 1
  {
    LinesDrift(us, scale, rate);
    RoundIsNearest(SumUnits(us) * rate, Ten(scale));
    Within(Ten(scale), |us|, SumLines(us, scale, rate), Worth(Exact(SumUnits(us), scale), rate), SumUnits(us) * rate);
  }

  /* ---- the mock server's own multiplication ---- */

  /** BigInt division truncates toward zero; its remainder has the sign of the dividend. */
  function Quotient(n: int, d: nat): (q: int)
    requires d > 0
  {
    if n < 0 then -(-n / d) else n / d
  }

  function Remainder(n: int, d: nat): (r: int)
    requires d > 0
  {
    if n < 0 then -(-n % d) else n % d
  }

  /** The rounding of the in-memory server: only a positive remainder rounds up. */
  function ServerRound(product: int, scale: nat): (cents: int)
    requires scale > 0
  {
    var quotient := Quotient(product, scale);
    if Remainder(product, scale) * 2 >= scale then quotient + 1 else quotient
  }

  /** A text up to its first point. */
  function FirstPart(s: string): (part: string)
    ensures |part| <= |s| && s == part + s[|part|..]
  {
    if s == "" || s[0] == '.' then "" else [s[0]] + FirstPart(s[1..])
  }

  /** What is left of a quantity without its sign, split at its points: the first two parts. */
  function ServerParts(text: string): (r: (string, string)) {
    var trimmed := Trim(text);
    var body := if trimmed != "" && IsSign(trimmed[0]) then trimmed[1..] else trimmed;
    var whole := FirstPart(body);
    var rest := body[|whole|..];
    (if whole == "" then "0" else whole, if rest == "" then "" else FirstPart(rest[1..]))
  }

  /** `amountCents` of the in-memory server, on an integer rate. None: no number to it. */
  function ServerAmount(text: string, rate: int): (cents: Option<int>) {
    var (whole, fraction) := ServerParts(text);
    var digits := whole + fraction;
    if !AllDigits(10, digits) then None
    else
      var rounded := ServerRound(Value(10, digits) * rate, Ten(|fraction|));
      Some(if Trim(text) != "" && Trim(text)[0] == '-' then -rounded else rounded)
  }

  lemma ServerRounding(product: int, d: nat)
    requires d > 0
    ensures ServerRound(product, d) == Round(product, d) <==> product >= 0 || -product % d * 2 < d
  {
  }

  /** Below zero the server cuts towards zero. */
  lemma CutExactly(product: int, d: nat, k: int)
    requires d > 0 && product < 0
    ensures k == ServerRound(product, d) <==> (k - 1) * d < product <= k * d
  {
    var m := -product;
    var q := m / d;
    assert m == q * d + m % d && ServerRound(product, d) == -q;
    assert (-q) * d == -(q * d) && (-q - 1) * d == -(q * d) - d;
    if (k - 1) * d < product <= k * d {
      if k < -q { MulMono(d, k, -q - 1); }
      if k > -q { MulMono(d, -q, k - 1); }
    }
  }

  lemma LeadingZero(fraction: string)
    requires AllDigits(10, fraction)
    ensures Value(10, "0" + fraction) == Value(10, fraction)
  {
    ValueConcat(10, "0", fraction);
    assert "0"[..0] == "" && DigitValue('0') == 0;
    assert Value(10, "0") == 0;
  }

  /** The two ways of rounding, sign by sign. */
  lemma ServerSigns(negative: bool, u: int, d: nat, rate: int)
    requires u >= 0 && d > 0
    ensures Round((if negative then -u else u) * rate, d)
         == (if negative then -ServerRound(u * rate, d) else ServerRound(u * rate, d))
       <==> rate >= 0 || -(u * rate) % d * 2 < d
  {
    var n := u * rate;
    assert (-u) * rate == -n;
    RoundSign(n, d);
    RoundSign(-n, d);
    ServerRounding(n, d);
    if rate >= 0 { MulMono(rate, 0, u); } else { MulMono(u, rate, 0); }
  }

  lemma PlainAmount(negative: bool, whole: string, point: bool, fraction: string, rate: int)
    requires AllDigits(10, whole) && AllDigits(10, fraction) && whole + fraction != ""
    ensures AllDigits(10, whole + fraction)
    ensures var u: int := Value(10, whole + fraction);
            AmountCents(Spell(negative, whole, point, fraction, 0), Rate(rate as real))
            == Some(Round((if negative then -u else u) * rate, Ten(|fraction|)))
  {
    hide ExactDecimal, Spell;
    ConcatDigits(whole, fraction);
    ReadSpelling(negative, whole, point, fraction, 0);
    assert MathRound(rate as real) == rate;
  }

  lemma {:induction false} FirstPartIs(d: string, rest: string)
    requires AllDigits(10, d) && (rest == "" || rest[0] == '.')
    ensures FirstPart(d + rest) == d
  {
    if d == "" {
      assert d + rest == rest;
    } else {
      assert IsDigit(10, d[0]) && (d + rest)[1..] == d[1..] + rest;
      FirstPartIs(d[1..], rest);
      assert [d[0]] + d[1..] == d;
    }
  }

  lemma TrimmedSpelling(negative: bool, whole: string, point: bool, fraction: string)
    requires AllDigits(10, whole) && AllDigits(10, fraction) && whole + fraction != ""
    ensures var body, text := whole + Tail(point, fraction), Spell(negative, whole, point, fraction, 0);
            && body != "" && !IsSign(body[0]) && text == Signed(negative, body) && Trim(text) == text
  {
    NoSuffix();
    NoSpaceAround(whole, point, fraction, "");
    var body := whole + Tail(point, fraction);
    assert Tail(point, fraction) + "" == Tail(point, fraction);
    var text := Signed(negative, body);
    hide Trim, Tail, Signed, AllDigits;
    SignedEnds(negative, body);
    TrimKeeps(text);
  }

  lemma SignedEnds(negative: bool, body: string)
    requires body != "" && !IsSpace(body[0])
    ensures var text := Signed(negative, body); text != "" && !IsSpace(text[0]) && text[|text| - 1] == body[|body| - 1]
  {
  }

  lemma ServerReads(negative: bool, whole: string, point: bool, fraction: string)
    requires AllDigits(10, whole) && AllDigits(10, fraction) && whole + fraction != ""
    ensures ServerParts(Spell(negative, whole, point, fraction, 0)) == (if whole == "" then "0" else whole, fraction)
  {
    TrimmedSpelling(negative, whole, point, fraction);
    var body := whole + Tail(point, fraction);
    hide Trim, Spell, IsDigit;
    if negative { assert Signed(negative, body)[1..] == body; }
    FirstPartIs(whole, Tail(point, fraction));
    assert body[|whole|..] == Tail(point, fraction);
    FirstPartIs(fraction, "");
    assert fraction + "" == fraction;
    if point || fraction != "" { assert Tail(point, fraction)[1..] == fraction; }
  }

  lemma ServerUnits(negative: bool, whole: string, point: bool, fraction: string, rate: int)
    requires AllDigits(10, whole) && AllDigits(10, fraction) && whole + fraction != ""
    ensures AllDigits(10, whole + fraction)
    ensures var r := ServerRound(Value(10, whole + fraction) * rate, Ten(|fraction|));
            ServerAmount(Spell(negative, whole, point, fraction, 0), rate) == Some(if negative then -r else r)
  {
    hide Value, ServerRound, Trim, Spell, ServerParts, Tail;
    ConcatDigits(whole, fraction);
    ServerReads(negative, whole, point, fraction);
    TrimmedSpelling(negative, whole, point, fraction);
    if whole == "" {
      assert AllDigits(10, "0" + fraction);
      LeadingZero(fraction);
      assert whole + fraction == fraction;
    }
  }

  /** The two multiplications agree on every plain decimal, with or without a point, exactly
      when the rate is not negative or the product leaves less than half a cent over. */
  lemma ServerAgrees(negative: bool, whole: string, point: bool, fraction: string, rate: int)
    requires AllDigits(10, whole) && AllDigits(10, fraction) && whole + fraction != ""
    ensures AllDigits(10, whole + fraction)
    ensures AmountCents(Spell(negative, whole, point, fraction, 0), Rate(rate as real))
            == ServerAmount(Spell(negative, whole, point, fraction, 0), rate)
       <==> rate >= 0 || -(Value(10, whole + fraction) * rate) % Ten(|fraction|) * 2 < Ten(|fraction|)
  {
    hide *;
    PlainAmount(negative, whole, point, fraction, rate);
    ServerUnits(negative, whole, point, fraction, rate);
    ServerSigns(negative, Value(10, whole + fraction), Ten(|fraction|), rate);
  }

  /** A negative rate is where they part: half a kilo at minus one cent. */
  lemma ServerDisagrees()
    ensures AmountCents("0.5", Rate(-1 as real)) != ServerAmount("0.5", -1)
  {
    hide ExactDecimal, Round, ServerRound, ServerAmount, AmountCents;
    var whole, fraction := "0", "5";
    assert Value(10, fraction) == 5 by { assert "5"[..0] == ""; assert DigitValue('5') == 5; }
    LeadingZero(fraction);
    ServerAgrees(false, whole, true, fraction, -1);
    NoSuffix();
    assert Spell(false, whole, true, fraction, 0) == "0.5";
    assert Ten(1) == 10;
  }
}
