/** Exactly which texts the readers accept, and what they make of them: decimals, plain numbers
    and typed days. The printers are in Amount, PesoText and DateFields. */
module Spelling {
  import opened Text
  import opened Calendar
  import opened DateFields
  import Amount
  import PesoText

  /* ---- blanks ---- */

  predicate Blank(s: string) { forall i :: 0 <= i < |s| ==> IsSpace(s[i]) }

  predicate Tight(s: string) { s != "" ==> !IsSpace(s[0]) && !IsSpace(s[|s| - 1]) }

  ghost predicate Padded(s: string, l: string, t: string, r: string) {
    s == l + t + r && Blank(l) && Blank(r) && Tight(t)
  }

  lemma OneMoreLeft(c: char, s: string, l: string, t: string, r: string)
    requires Padded(s, l, t, r) && IsSpace(c)
    ensures Padded([c] + s, [c] + l, t, r)
  {
    hide IsSpace;
    assert [c] + (l + t + r) == [c] + l + t + r;
  }

  lemma OneMoreRight(s: string, c: char, l: string, t: string, r: string)
    requires Padded(s, l, t, r) && IsSpace(c)
    ensures Padded(s + [c], l, t, r + [c])
  {
    hide IsSpace;
    assert l + t + r + [c] == l + t + (r + [c]);
  }

  lemma {:induction false} Peeled(s: string) returns (l: string, r: string)
    ensures Padded(s, l, Trim(s), r)
    decreases |s|
  {
    hide IsSpace, Padded;
    if s == "" || (!IsSpace(s[0]) && !IsSpace(s[|s| - 1])) {
      l, r := "", "";
      NotPadded(s);
    } else if IsSpace(s[0]) {
      l, r := Peeled(s[1..]);
      OneMoreLeft(s[0], s[1..], l, Trim(s[1..]), r);
      assert s == [s[0]] + s[1..];
      l := [s[0]] + l;
    } else {
      var n := |s| - 1;
      l, r := Peeled(s[..n]);
      OneMoreRight(s[..n], s[n], l, Trim(s[..n]), r);
      assert s == s[..n] + [s[n]];
      r := r + [s[n]];
    }
  }

  lemma NotPadded(s: string)
    requires Tight(s)
    ensures Padded(s, "", s, "")
  {
    hide IsSpace;
    assert "" + s + "" == s;
  }

  lemma {:induction false} PadsGo(l: string, t: string, r: string)
    requires Blank(l) && Blank(r) && Tight(t)
    ensures Trim(l + t + r) == t
    decreases |l| + |r|
  {
    var s := l + t + r;
    if l != "" {
      assert s[1..] == l[1..] + t + r;
      PadsGo(l[1..], t, r);
    } else if r == "" {
      assert s == t;
    } else if t == "" {
      assert s == r && s[1..] == "" + t + r[1..];
      PadsGo("", t, r[1..]);
    } else {
      var n := |r| - 1;
      assert s[0] == t[0] && s[|s| - 1] == r[n] && s[..|s| - 1] == l + t + r[..n];
      PadsGo(l, t, r[..n]);
    }
  }

  /** Trimming takes the blanks at both ends, all of them and nothing else. */
  lemma TrimExactly(s: string, t: string)
    ensures Trim(s) == t <==> exists l, r :: Padded(s, l, t, r)
  {
    var l, r := Peeled(s);
    forall x, y | Padded(s, x, t, y) ensures Trim(s) == t { PadsGo(x, t, y); }
  }

  /* ---- decimals ---- */

  predicate Sign(s: string) { s == "" || s == "+" || s == "-" }

  /** What follows the whole part: nothing, or a point and digits, perhaps none. */
  predicate Fraction(tail: string) { tail == "" || (tail[0] == '.' && AllDigits(10, tail[1..])) }

  function PartOf(tail: string): (d: string) { if tail == "" then "" else tail[1..] }

  /** An exponent: its letter, a sign and at least one digit; or none, which is zero. */
  ghost predicate Power(power: string, e: int) {
    if power == "" then e == 0
    else (power[0] == 'e' || power[0] == 'E')
         && exists sign, d :: power[1..] == sign + d && Sign(sign) && d != "" && AllDigits(10, d)
                              && e == if sign == "-" then -(Value(10, d) as int) else Value(10, d)
  }

  lemma ExponentExactly(s: string, e: int)
    ensures Amount.ReadExponent(s) == Some(e)
       <==> exists sign, d :: s == sign + d && Sign(sign) && d != "" && AllDigits(10, d)
                              && e == if sign == "-" then -(Value(10, d) as int) else Value(10, d)
  {
    hide Value;
    var signed := s != "" && Amount.IsSign(s[0]);
    var sign, d := if signed then s[..1] else "", if signed then s[1..] else s;
    assert s == sign + d;
    forall g, x | s == g + x && Sign(g) && x != "" && AllDigits(10, x) ensures g == sign && x == d {
      if g == "" { assert s[0] == x[0] && IsDigit(10, x[0]); } else { assert s[0] == g[0] && s[1..] == x; }
    }
  }

  /** A decimal in its parts: an optional sign, digits, an optional point with more of them, an
      optional exponent, and at least one digit before it. */
  ghost predicate Decimal(text: string, sign: string, whole: string, tail: string, power: string, e: int) {
    && text == sign + whole + tail + power
    && Sign(sign) && AllDigits(10, whole) && Fraction(tail) && Power(power, e)
    && whole + PartOf(tail) != ""
  }

  function Denoted(sign: string, digits: string, scale: int): (q: Amount.Exact)
    requires AllDigits(10, digits)
  {
    Amount.Scaled(Value(10, digits), scale, sign == "-")
  }

  /** What `Unsigned` accepts after the digits: a point or none, more digits, a power or none. */
  lemma UnsignedStops(text: string)
    requires Amount.Unsigned(text).Some?
    ensures var (whole, rest) := Amount.TakeDigits(text);
            var (fraction, more) := if rest != "" && rest[0] == '.' then Amount.TakeDigits(rest[1..]) else ("", rest);
            && whole + fraction != "" && Amount.Unsigned(text).value.0 == whole + fraction
            && (more != "" ==> (more[0] == 'e' || more[0] == 'E') && Amount.ReadExponent(more[1..]).Some?)
            && |fraction| - Amount.Unsigned(text).value.1
               == if more == "" then 0 else Amount.ReadExponent(more[1..]).value
  {
    hide Value, AllDigits, Amount.ReadExponent, Amount.TakeDigits;
  }

  /** What stands after the whole part, cut where its fraction ends. */
  lemma TailFound(rest: string) returns (tail: string, power: string)
    ensures rest == tail + power && Fraction(tail) && AllDigits(10, PartOf(tail))
    ensures (PartOf(tail), power) == if rest != "" && rest[0] == '.' then Amount.TakeDigits(rest[1..]) else ("", rest)
  {
    hide AllDigits, IsDigit;
    if rest != "" && rest[0] == '.' {
      var (fraction, more) := Amount.TakeDigits(rest[1..]);
      tail, power := "." + fraction, more;
      assert tail[1..] == fraction && rest == "." + rest[1..];
      hide Amount.TakeDigits;
      Assoc(".", fraction, more);
    } else {
      tail, power := "", rest;
      assert AllDigits(10, "") by { NoDigits(); }
    }
  }

  lemma NoDigits()
    ensures AllDigits(10, "")
  {
  }

  lemma UnsignedParts(text: string) returns (whole: string, tail: string, power: string)
    requires Amount.Unsigned(text).Some?
    ensures text == whole + tail + power && AllDigits(10, whole) && Fraction(tail) && whole + PartOf(tail) != ""
    ensures AllDigits(10, whole + PartOf(tail))
    ensures Power(power, |PartOf(tail)| - Amount.Unsigned(text).value.1)
    ensures Amount.Unsigned(text).value.0 == whole + PartOf(tail)
  {
    UnsignedStops(text);
    hide Value, AllDigits, IsDigit, Fraction, PartOf, Power, Amount.ReadExponent, Amount.Unsigned;
    var (digits, rest) := Amount.TakeDigits(text);
    hide Amount.TakeDigits;
    whole := digits;
    tail, power := TailFound(rest);
    Assoc(whole, tail, power);
    Amount.ConcatDigits(whole, PartOf(tail));
    PowerIs(power, |PartOf(tail)| - Amount.Unsigned(text).value.1);
  }

  lemma PowerIs(power: string, e: int)
    requires if power == "" then e == 0
             else (power[0] == 'e' || power[0] == 'E') && Amount.ReadExponent(power[1..]) == Some(e)
    ensures Power(power, e)
  {
    hide Value, Amount.ReadExponent;
    if power != "" { ExponentExactly(power[1..], e); }
  }

  /** `Unsigned`, given where the digits stop. */
  lemma UnsignedOf(text: string, whole: string, tail: string, power: string)
    requires Amount.TakeDigits(text) == (whole, tail + power) && AllDigits(10, whole + PartOf(tail))
    requires Fraction(tail) && whole + PartOf(tail) != ""
    requires if tail == "" then power == "" || power[0] != '.'
             else Amount.TakeDigits(tail[1..] + power) == (tail[1..], power)
    ensures var e := if power == "" then Some(0)
                     else if power[0] == 'e' || power[0] == 'E' then Amount.ReadExponent(power[1..]) else None;
            Amount.Unsigned(text) == if e.None? then None else Some((whole + PartOf(tail), |PartOf(tail)| - e.value))
  {
    hide Value, AllDigits, Amount.ReadExponent, Amount.TakeDigits;
    if tail == "" { assert tail + power == power; } else { assert (tail + power)[1..] == tail[1..] + power; }
  }

  lemma FractionTaken(tail: string, power: string)
    requires Fraction(tail) && (power != "" ==> power[0] == 'e' || power[0] == 'E')
    ensures AllDigits(10, PartOf(tail))
    ensures tail + power != "" ==> !IsDigit(10, (tail + power)[0])
    ensures tail != "" ==> Amount.TakeDigits(tail[1..] + power) == (tail[1..], power)
  {
    hide Amount.TakeDigits;
    if tail == "" {
      assert tail + power == power;
    } else {
      assert (tail + power)[0] == tail[0];
      Amount.TakeAll(tail[1..], power);
    }
  }

  lemma PowerStarts(power: string, e: int)
    requires Power(power, e)
    ensures power == "" ==> e == 0
    ensures power != "" ==> (power[0] == 'e' || power[0] == 'E') && Amount.ReadExponent(power[1..]) == Some(e)
  {
    hide Value, Amount.ReadExponent;
    if power != "" { ExponentExactly(power[1..], e); }
  }

  lemma PartsUnsigned(whole: string, tail: string, power: string, e: int)
    requires AllDigits(10, whole) && Fraction(tail) && Power(power, e) && whole + PartOf(tail) != ""
    ensures AllDigits(10, whole + PartOf(tail))
    ensures Amount.Unsigned(whole + tail + power) == Some((whole + PartOf(tail), |PartOf(tail)| - e))
  {
    hide Value, AllDigits, IsDigit, Fraction, PartOf, Amount.ReadExponent, Amount.Unsigned, Amount.TakeDigits, Power;
    PowerStarts(power, e);
    FractionTaken(tail, power);
    Amount.ConcatDigits(whole, PartOf(tail));
    assert whole + tail + power == whole + (tail + power);
    Amount.TakeAll(whole, tail + power);
    UnsignedOf(whole + tail + power, whole, tail, power);
  }

  lemma DecimalReads(value: string, sign: string, whole: string, tail: string, power: string, e: int)
    requires Decimal(Trim(value), sign, whole, tail, power, e)
    ensures AllDigits(10, whole + PartOf(tail))
    ensures Amount.ExactDecimal(value) == Some(Denoted(sign, whole + PartOf(tail), |PartOf(tail)| - e))
  {
    hide Value, Amount.Unsigned, Amount.Scaled, Power, Trim, PartOf, Fraction;
    SignIs(Trim(value), sign, whole, tail, power, e);
    PartsUnsigned(whole, tail, power, e);
  }

  lemma DecimalFound(value: string)
      returns (sign: string, whole: string, tail: string, power: string, e: int)
    requires Amount.ExactDecimal(value).Some?
    ensures Decimal(Trim(value), sign, whole, tail, power, e)
  {
    hide Value, Amount.Unsigned, Amount.Scaled, Power, Trim, PartOf, Fraction;
    var text := Trim(value);
    var signed := text != "" && Amount.IsSign(text[0]);
    var body := if signed then text[1..] else text;
    sign := if signed then text[..1] else "";
    whole, tail, power := UnsignedParts(body);
    e := |PartOf(tail)| - Amount.Unsigned(body).value.1;
    assert text == sign + body && sign + body == sign + whole + tail + power;
  }

  /** A text is read as a decimal exactly when, without the blanks around it, it is one; and then
      as the number it denotes. */
  lemma DecimalExactly(value: string, q: Amount.Exact)
    ensures Amount.ExactDecimal(value) == Some(q)
       <==> exists sign, whole, tail, power, e ::
              Decimal(Trim(value), sign, whole, tail, power, e) && AllDigits(10, whole + PartOf(tail))
              && q == Denoted(sign, whole + PartOf(tail), |PartOf(tail)| - e)
  {
    hide Amount.ExactDecimal, Decimal, Trim, Denoted, AllDigits, PartOf;
    forall sign, whole, tail, power, e | Decimal(Trim(value), sign, whole, tail, power, e)
      ensures AllDigits(10, whole + PartOf(tail))
      ensures Amount.ExactDecimal(value) == Some(Denoted(sign, whole + PartOf(tail), |PartOf(tail)| - e))
    {
      DecimalReads(value, sign, whole, tail, power, e);
    }
    if Amount.ExactDecimal(value).Some? {
      var sign, whole, tail, power, e := DecimalFound(value);
      assert Decimal(Trim(value), sign, whole, tail, power, e);
    }
  }

  lemma SignIs(text: string, g: string, whole: string, tail: string, power: string, e: int)
    requires Decimal(text, g, whole, tail, power, e)
    ensures text != "" && (g != "" <==> Amount.IsSign(text[0]))
    ensures g != "" ==> g == text[..1] && text[1..] == whole + tail + power
    ensures g == "" ==> text == whole + tail + power
  {
    hide Power;
    if g == "" {
      if whole != "" { assert text[0] == whole[0] && IsDigit(10, whole[0]); } else { assert text[0] == tail[0]; }
    } else {
      assert text[0] == g[0];
    }
  }

  /** `amountCents`, from the text to the cent: a decimal and a finite rate have one amount, the
      integer nearest their exact product, and nothing else has any. */
  lemma AmountExactly(text: string, rate: Amount.Rate, k: int)
    ensures Amount.AmountCents(text, rate) == Some(k)
       <==> rate.Rate? && exists q, n: int ::
              Amount.ExactDecimal(text) == Some(q) && n as real - 0.5 <= rate.cents < n as real + 0.5
              && Amount.Nearest(q.units * n, Amount.Ten(q.scale), k)
  {
    hide Amount.ExactDecimal, Amount.Nearest, Amount.Worth, Amount.Ten;
    if rate.Rate? {
      forall n: int { Amount.MathRoundExactly(rate.cents, n); }
      var q := Amount.ExactDecimal(text);
      if q.Some? {
        var n := Amount.MathRound(rate.cents);
        Amount.AmountIsNearest(q.value, n, k);
        Amount.MathRoundExactly(rate.cents, n);
      }
    }
  }

  /* ---- plain numbers, as the boxes read them ---- */

  /** A text a box accepts once cleaned: an optional minus, digits, an optional point with more
      of them, and at least one digit somewhere. */
  ghost predicate Plain(s: string, sign: string, whole: string, tail: string) {
    && s == sign + whole + tail && (sign == "" || sign == "-")
    && AllDigits(10, whole) && Fraction(tail) && whole + PartOf(tail) != ""
  }

  function PlainValue(sign: string, digits: string, scale: nat): (q: Amount.Exact)
    requires AllDigits(10, digits)
  {
    Amount.Exact(if sign == "-" then -(Value(10, digits) as int) else Value(10, digits), scale)
  }

  lemma PlainBody(whole: string, tail: string)
    requires AllDigits(10, whole) && Fraction(tail) && whole + PartOf(tail) != ""
    ensures AllDigits(10, whole + PartOf(tail)) && AllDigits(10, PartOf(tail))
    ensures whole + tail != "" && (whole + tail)[0] != '-' && Amount.TakeDigits(whole + tail) == (whole, tail)
  {
    hide Amount.TakeDigits;
    Amount.ConcatDigits(whole, PartOf(tail));
    Amount.TakeAll(whole, tail);
    if whole != "" {
      assert (whole + tail)[0] == whole[0] && IsDigit(10, whole[0]);
    } else {
      assert whole + tail == tail;
    }
  }

  lemma PlainReads(s: string, sign: string, whole: string, tail: string)
    requires Plain(s, sign, whole, tail)
    ensures AllDigits(10, whole + PartOf(tail))
    ensures PesoText.ReadPlain(s) == Some(PlainValue(sign, whole + PartOf(tail), |PartOf(tail)|))
  {
    hide Value, Amount.TakeDigits, AllDigits, PesoText.ReadPlain;
    PlainBody(whole, tail);
    PesoText.TakenReads(whole + tail, whole, tail, PartOf(tail));
    PesoText.SignTakenOff(sign, whole + tail);
    assert s == sign + (whole + tail);
  }

  /** `ReadPlain` accepts what follows the sign only when the digits stop at nothing or at a point
      with digits after it. */
  lemma PlainStops(s: string, body: string)
    requires PesoText.ReadPlain(s).Some? && body == if s != "" && s[0] == '-' then s[1..] else s
    ensures var (whole, rest) := Amount.TakeDigits(body);
            body == whole + rest && AllDigits(10, whole) && Fraction(rest) && whole + PartOf(rest) != ""
  {
    hide Value, AllDigits, Amount.TakeDigits;
  }

  lemma PlainFound(s: string) returns (sign: string, whole: string, tail: string)
    requires PesoText.ReadPlain(s).Some?
    ensures Plain(s, sign, whole, tail)
  {
    var negative := s != "" && s[0] == '-';
    var body := if negative then s[1..] else s;
    assert s == (if negative then "-" else "") + body;
    hide Value, AllDigits, Fraction, PartOf, PesoText.ReadPlain, Amount.TakeDigits;
    PlainStops(s, body);
    sign := if negative then "-" else "";
    var (digits, rest) := Amount.TakeDigits(body);
    whole, tail := digits, rest;
    Assoc(sign, whole, tail);
  }

  lemma Assoc(a: string, b: string, c: string)
    ensures a + (b + c) == a + b + c
  {
  }

  /** A cleaned text is read as a number exactly when it is plain, and then as what it denotes. */
  lemma PlainExactly(s: string, q: Amount.Exact)
    ensures PesoText.ReadPlain(s) == Some(q)
       <==> exists sign, whole, tail ::
              Plain(s, sign, whole, tail) && AllDigits(10, whole + PartOf(tail))
              && q == PlainValue(sign, whole + PartOf(tail), |PartOf(tail)|)
  {
    hide PesoText.ReadPlain, Plain, PlainValue, AllDigits, PartOf;
    forall sign, whole, tail | Plain(s, sign, whole, tail)
      ensures AllDigits(10, whole + PartOf(tail))
      ensures PesoText.ReadPlain(s) == Some(PlainValue(sign, whole + PartOf(tail), |PartOf(tail)|))
    {
      PlainReads(s, sign, whole, tail);
    }
    if PesoText.ReadPlain(s).Some? {
      var sign, whole, tail := PlainFound(s);
      assert Plain(s, sign, whole, tail);
    }
  }

  lemma HalfUpExactly(n: int, d: nat, k: int)
    requires d > 0
    ensures PesoText.RoundHalfUp(n, d) == k <==> (2 * k - 1) * d <= 2 * n < (2 * k + 1) * d
  {
    var m := 2 * n + d;
    var j := m / (2 * d);
    assert m == j * (2 * d) + m % (2 * d);
    assert (2 * j - 1) * d == j * (2 * d) - d && (2 * j + 1) * d == j * (2 * d) + d;
    if (2 * k - 1) * d <= 2 * n < (2 * k + 1) * d {
      if k < j { Amount.MulMono(d, 2 * k + 1, 2 * j - 1); }
      if k > j { Amount.MulMono(d, 2 * j + 1, 2 * k - 1); }
    }
  }

  /* ---- typed days ---- */

  predicate Separators(s: string) { forall i :: 0 <= i < |s| ==> IsSeparator(s[i]) }

  predicate Unbroken(s: string) { forall i :: 0 <= i < |s| ==> !IsSeparator(s[i]) }

  predicate Word(s: string) { s != "" && Unbroken(s) }

  lemma UnbrokenCons(c: char, s: string)
    requires !IsSeparator(c) && Unbroken(s)
    ensures Unbroken([c] + s)
  {
    hide IsSeparator;
  }

  lemma UnbrokenTail(s: string)
    requires s != "" && Unbroken(s)
    ensures !IsSeparator(s[0]) && Unbroken(s[1..]) && [s[0]] + s[1..] == s
  {
    hide IsSeparator;
  }

  /** The words of a text: what stands between separators, however many of those there are, at
      the ends too. */
  ghost predicate Split(s: string, ps: seq<string>)
    decreases |ps|
  {
    if ps == [] then Separators(s)
    else exists lead, rest :: SplitAt(s, lead, ps[0], rest) && Split(rest, ps[1..])
  }

  ghost predicate SplitAt(s: string, lead: string, word: string, rest: string) {
    s == lead + word + rest && Separators(lead) && Word(word) && (rest != "" ==> IsSeparator(rest[0]))
  }

  lemma {:induction false} TakesWord(s: string)
    ensures var (part, rest) := TakePart(s); s == part + rest && Unbroken(part) && (rest != "" ==> IsSeparator(rest[0]))
  {
    hide IsSeparator, Unbroken;
    if s != "" && !IsSeparator(s[0]) {
      var (part, rest) := TakePart(s[1..]);
      TakesWord(s[1..]);
      UnbrokenCons(s[0], part);
      Assoc([s[0]], part, rest);
      assert s == [s[0]] + s[1..];
    } else {
      assert "" + s == s && Unbroken("") by { NothingBroken(); }
    }
  }

  lemma NothingBroken()
    ensures Unbroken("")
  {
  }

  lemma {:induction false} WordTaken(n: string, rest: string)
    requires Unbroken(n) && (rest != "" ==> IsSeparator(rest[0]))
    ensures TakePart(n + rest) == (n, rest)
  {
    hide IsSeparator, Unbroken;
    if n == "" {
      assert n + rest == rest;
    } else {
      UnbrokenTail(n);
      assert (n + rest)[1..] == n[1..] + rest;
      WordTaken(n[1..], rest);
    }
  }

  lemma LongerLead(c: char, s: string, ps: seq<string>)
    requires IsSeparator(c) && Split(s, ps)
    ensures Split([c] + s, ps)
  {
    hide IsSeparator;
    if ps == [] {
      assert Separators([c] + s);
    } else {
      var lead, rest :| SplitAt(s, lead, ps[0], rest) && Split(rest, ps[1..]);
      assert [c] + (lead + ps[0] + rest) == [c] + lead + ps[0] + rest;
      assert SplitAt([c] + s, [c] + lead, ps[0], rest);
    }
  }

  lemma {:induction false} PartsAreSplit(s: string)
    ensures Split(s, Parts(s))
    decreases |s|
  {
    hide IsSeparator, TakePart;
    if s == "" {
      assert Separators(s);
    } else if IsSeparator(s[0]) {
      PartsAreSplit(s[1..]);
      LongerLead(s[0], s[1..], Parts(s[1..]));
      assert s == [s[0]] + s[1..];
    } else {
      TakesWord(s);
      var (part, rest) := TakePart(s);
      assert part == "" ==> s == rest;
      PartsAreSplit(rest);
      assert "" + part + rest == s && SplitAt(s, "", part, rest);
      assert Parts(s) == [part] + Parts(rest) && Parts(s)[0] == part && Parts(s)[1..] == Parts(rest);
    }
  }

  lemma {:induction false} SplitIsParts(s: string, ps: seq<string>)
    requires Split(s, ps)
    ensures Parts(s) == ps
    decreases |s|
  {
    hide IsSeparator, TakePart;
    if s == "" {
      assert forall lead, word, rest :: !SplitAt(s, lead, word, rest);
    } else if ps == [] {
      assert Separators(s[1..]);
      SplitIsParts(s[1..], ps);
    } else {
      var lead, rest :| SplitAt(s, lead, ps[0], rest) && Split(rest, ps[1..]);
      if lead == "" {
        assert s == ps[0] + rest && s[0] == ps[0][0];
        WordTaken(ps[0], rest);
        SplitIsParts(rest, ps[1..]);
      } else {
        assert s[0] == lead[0] && s[1..] == lead[1..] + ps[0] + rest;
        assert SplitAt(s[1..], lead[1..], ps[0], rest);
        SplitIsParts(s[1..], ps);
      }
    }
  }

  /** Three numbers a text can be read as: its first words, when they are two at least and all
      numbers, the year left out being the reference one; or six or eight digits in a row. */
  ghost predicate Reads(text: string, refYear: int, d: nat, m: nat, y: int) {
    || (exists ps :: Split(text, ps) && |ps| >= 2 && AllNumbers(ps) && d == Value(10, ps[0]) && m == Value(10, ps[1])
                     && y == if |ps| >= 3 then Value(10, ps[2]) else refYear)
    || ((|text| == 6 || |text| == 8) && AllDigits(10, text)
        && d == Value(10, text[..2]) && m == Value(10, text[2..4]) && y == Value(10, text[4..]))
  }

  lemma OneWord(text: string)
    requires text != "" && AllDigits(10, text)
    ensures Split(text, [text])
  {
    forall i | 0 <= i < |text| ensures !IsSeparator(text[i]) { DigitIsNoSeparator(text[i]); }
    hide IsSeparator;
    assert "" + text + "" == text && SplitAt(text, "", text, "") && [text][1..] == [];
    assert Split("", [text][1..]);
    assert [text][0] == text;
  }

  lemma ReadsExactly(raw: string, refYear: int, d: nat, m: nat, y: int)
    requires Reads(Trim(raw), refYear, d, m, y)
    ensures ParseTypedDay(raw, refYear) == Assemble(d, m, y, refYear)
  {
    hide Value, Parts, Split, Assemble, Trim, IsSeparator;
    var text := Trim(raw);
    if ps :| Split(text, ps) && |ps| >= 2 && AllNumbers(ps) && d == Value(10, ps[0]) && m == Value(10, ps[1])
             && y == if |ps| >= 3 then Value(10, ps[2]) else refYear
    {
      SplitIsParts(text, ps);
      assert text != "" by { if text == "" { NoParts(); } }
    } else {
      OneWord(text);
      SplitIsParts(text, [text]);
    }
  }

  lemma ReadOrNot(raw: string, refYear: int) returns (d: nat, m: nat, y: int)
    ensures ParseTypedDay(raw, refYear).None? || Reads(Trim(raw), refYear, d, m, y)
  {
    hide Value, Parts, Split, Assemble, Trim, IsSeparator;
    var text := Trim(raw);
    PartsAreSplit(text);
    var ps := Parts(text);
    if |ps| >= 2 && AllNumbers(ps) {
      d, m, y := Value(10, ps[0]), Value(10, ps[1]), if |ps| >= 3 then Value(10, ps[2]) else refYear;
    } else if (|text| == 6 || |text| == 8) && AllDigits(10, text) {
      d, m, y := Value(10, text[..2]), Value(10, text[2..4]), Value(10, text[4..]);
    } else {
      d, m, y := 0, 0, 0;
    }
  }

  /** Whatever is typed is a day exactly when it can be read as three numbers that make one of
      the years 1900 to 2200, a year below a hundred being of the reference year's century. */
  lemma TypedExactly(raw: string, refYear: int, iso: string)
    ensures ParseTypedDay(raw, refYear) == Some(iso)
       <==> exists d: nat, m: nat, y ::
              Reads(Trim(raw), refYear, d, m, y)
              && var date := Date(if y < 100 then refYear / 100 * 100 + y else y, m, d);
                 Exists(date) && 1900 <= date.year <= 2200 && iso == Iso(DayOf(date))
  {
    hide ParseTypedDay, Assemble, Trim, Reads, Iso, DayOf, Exists;
    forall d: nat, m: nat, y | Reads(Trim(raw), refYear, d, m, y)
      ensures ParseTypedDay(raw, refYear) == Assemble(d, m, y, refYear)
    {
      ReadsExactly(raw, refYear, d, m, y);
    }
    forall d: nat, m: nat, y: int { AssembleExactly(d, m, y, refYear); }
    var d, m, y := ReadOrNot(raw, refYear);
  }
}
