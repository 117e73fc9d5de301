/** Money and quantities as a farm writes them: a dot every three digits, a decimal comma; and
    the boxes they are typed back into. */
module PesoText {
  import opened Text
  import Amount

  type Exact = Amount.Exact

  /* ---- grouping ---- */

  /** A dot every three digits, counted from the right. */
  function Grouped(digits: string): (s: string) {
    var n := |digits|;
    if n <= 3 then digits else Grouped(digits[..n - 3]) + "." + digits[n - 3..]
  }

  /** What the loop has printed after `i` digits. */
  function Upto(digits: string, i: nat): (s: string)
    requires i <= |digits|
  {
    if i == 0 then ""
    else Upto(digits, i - 1) + (if i > 1 && (|digits| - (i - 1)) % 3 == 0 then "." else "") + [digits[i - 1]]
  }

  lemma {:induction false} UptoShorter(digits: string, i: nat)
    requires |digits| >= 3 && i <= |digits| - 3
    ensures Upto(digits, i) == Upto(digits[..|digits| - 3], i)
  {
    if i > 0 {
      UptoShorter(digits, i - 1);
      assert (|digits| - (i - 1)) % 3 == (|digits| - 3 - (i - 1)) % 3;
    }
  }

  lemma WithDot(digits: string, i: nat)
    requires 1 < i <= |digits| && (|digits| - (i - 1)) % 3 == 0
    ensures Upto(digits, i) == Upto(digits, i - 1) + "." + [digits[i - 1]]
  {
  }

  lemma WithoutDot(digits: string, i: nat)
    requires 0 < i <= |digits| && (|digits| - (i - 1)) % 3 != 0
    ensures Upto(digits, i) == Upto(digits, i - 1) + [digits[i - 1]]
  {
    assert Upto(digits, i - 1) + "" == Upto(digits, i - 1);
  }

  lemma Joined(u: string, x: char, y: char, z: char)
    ensures u + "." + [x] + [y] + [z] == u + "." + [x, y, z]
  {
  }

  lemma LastThree(digits: string, front: nat)
    requires front > 0 && |digits| == front + 3
    ensures Upto(digits, front + 3) == Upto(digits, front) + "." + digits[front..]
  {
    hide Upto;
    WithDot(digits, front + 1);
    WithoutDot(digits, front + 2);
    WithoutDot(digits, front + 3);
    Joined(Upto(digits, front), digits[front], digits[front + 1], digits[front + 2]);
    assert digits[front..] == [digits[front], digits[front + 1], digits[front + 2]];
  }

  lemma {:induction false} UptoIsGrouped(digits: string)
    ensures Upto(digits, |digits|) == Grouped(digits)
  {
    hide Upto;
    var n := |digits|;
    if n <= 3 {
      UptoShort(digits, n);
      assert digits[..n] == digits;
    } else {
      UptoIsGrouped(digits[..n - 3]);
      UptoShorter(digits, n - 3);
      LastThree(digits, n - 3);
    }
  }

  lemma {:induction false} UptoShort(digits: string, i: nat)
    requires i <= |digits| <= 3
    ensures Upto(digits, i) == digits[..i]
  {
    if i > 0 {
      UptoShort(digits, i - 1);
      assert digits[..i] == digits[..i - 1] + [digits[i - 1]];
    }
  }

  /** `group`: left to right, a dot wherever a multiple of three digits is left. */
  method Group(digits: string) returns (out: string)
    ensures out == Grouped(digits)
  {
    out := "";
    for i := 0 to |digits|
      invariant out == Upto(digits, i)
    {
      if i > 0 && (|digits| - i) % 3 == 0 { out := out + "."; }
      out := out + [digits[i]];
    }
    UptoIsGrouped(digits);
  }

  function Erase(s: string, gone: set<char>): (t: string)
    ensures forall c :: c in t ==> c in s && c !in gone
  {
    if s == "" then ""
    else if s[0] in gone then Erase(s[1..], gone)
    else [s[0]] + Erase(s[1..], gone)
  }

  lemma {:induction false} EraseConcat(s: string, t: string, gone: set<char>)
    ensures Erase(s + t, gone) == Erase(s, gone) + Erase(t, gone)
  {
    if s == "" {
      assert s + t == t;
    } else {
      assert (s + t)[1..] == s[1..] + t;
      EraseConcat(s[1..], t, gone);
    }
  }

  lemma {:induction false} EraseNone(s: string, gone: set<char>)
    requires forall c :: c in s ==> c !in gone
    ensures Erase(s, gone) == s
  {
    if s != "" {
      assert s[0] in s && forall c :: c in s[1..] ==> c in s;
      EraseNone(s[1..], gone);
      assert [s[0]] + s[1..] == s;
    }
  }

  lemma EraseOne(c: char, gone: set<char>)
    ensures Erase([c], gone) == if c in gone then "" else [c]
  {
    assert [c][1..] == "";
  }

  const DOT: set<char> := {'.'}

  lemma DigitsStay(s: string, gone: set<char>)
    requires AllDigits(10, s) && forall c :: c in gone ==> !IsDigit(10, c)
    ensures Erase(s, gone) == s
  {
    hide Erase;
    EraseNone(s, gone);
  }

  lemma SliceDigits(s: string, i: nat)
    requires AllDigits(10, s) && i <= |s|
    ensures AllDigits(10, s[..i]) && AllDigits(10, s[i..])
  {
  }

  /** Grouping only adds separators. */
  lemma {:induction false} GroupedErases(digits: string)
    requires AllDigits(10, digits)
    ensures Erase(Grouped(digits), DOT) == digits
  {
    hide Erase, AllDigits;
    var n := |digits|;
    if n <= 3 {
      DigitsStay(digits, DOT);
    } else {
      var front, back := digits[..n - 3], digits[n - 3..];
      SliceDigits(digits, n - 3);
      GroupedErases(front);
      EraseConcat(Grouped(front) + ".", back, DOT);
      EraseConcat(Grouped(front), ".", DOT);
      EraseOne('.', DOT);
      DigitsStay(back, DOT);
      assert front + "" + back == digits;
    }
  }

  /** The separators stand every fourth place from the right, and nowhere else. */
  lemma {:induction false} GroupedPlaces(digits: string, i: nat)
    requires AllDigits(10, digits) && i < |Grouped(digits)|
    ensures Grouped(digits)[i] == '.' <==> (|Grouped(digits)| - 1 - i) % 4 == 3
  {
    hide AllDigits;
    var n := |digits|;
    if n <= 3 {
      DigitAt(digits, i);
    } else {
      var front := Grouped(digits[..n - 3]);
      SliceDigits(digits, n - 3);
      if i < |front| {
        GroupedPlaces(digits[..n - 3], i);
        assert (|front| + 4 - 1 - i) % 4 == (|front| - 1 - i) % 4;
      } else if i > |front| {
        DigitAt(digits[n - 3..], i - |front| - 1);
      }
    }
  }

  lemma DigitAt(s: string, i: nat)
    requires AllDigits(10, s) && i < |s|
    ensures s[i] != '.'
  {
  }

  /* ---- printing ---- */

  /** Rounded to the peso; a sign only when something is left to sign. */
  function FormatMoney(cents: int): (s: string) {
    var pesos := (Amount.Abs(cents) + 50) / 100;
    (if cents < 0 && pesos > 0 then "-" else "") + "$" + Grouped(Digits(pesos))
  }

  function Tenths(value: real): (n: nat) { (Magnitude(value) * 10.0 + 0.5).Floor }

  function Magnitude(value: real): (m: real)
    ensures m >= 0.0
  {
    if value < 0.0 then -value else value
  }

  /** Rounded once, in tenths: never a second decimal digit. */
  function FormatQuantity(value: real): (s: string) {
    var tenths := Tenths(value);
    (if value < 0.0 && tenths > 0 then "-" else "") + Grouped(Digits(tenths / 10))
    + (if tenths % 10 == 0 then "" else "," + [DigitChar(tenths % 10)])
  }

  /** What goes into a box about to be edited: the cents too, when there are any. */
  function MoneyInputValue(cents: int): (s: string) {
    var abs := Amount.Abs(cents);
    var body := if abs % 100 == 0 then Digits(abs / 100) else Digits(abs / 100) + "," + PadStart(Digits(abs % 100), 2);
    if cents < 0 then "-" + body else body
  }

  lemma NoMarks(s: string)
    requires AllDigits(10, s)
    ensures Bare(s)
  {
  }

  predicate Bare(s: string) { '.' !in s && ',' !in s && '-' !in s && '$' !in s }

  lemma BareParts(a: string, b: string)
    requires Bare(a) && Bare(b)
    ensures var s := a + "," + b; '.' !in s && '-' !in s && '$' !in s && s[|a|] == ',' && s[|a| + 1..] == b
  {
  }

  /** What stands in a box, without its sign. */
  lemma BoxBody(abs: nat)
    ensures var s := MoneyInputValue(abs);
            && s != "" && '.' !in s && '$' !in s && '-' !in s
            && (',' in s <==> abs % 100 != 0)
            && (',' in s ==> |s| >= 3 && s[|s| - 3] == ',' && AllDigits(10, s[|s| - 2..]))
  {
    hide AllDigits, Digits, PadStart;
    var pesos, rest := Digits(abs / 100), PadStart(Digits(abs % 100), 2);
    NoMarks(pesos);
    if abs % 100 != 0 {
      PadDigits(abs % 100, 2) by { assert Pow(10, 2) == 100; }
      NoMarks(rest);
      BareParts(pesos, rest);
    }
  }

  /** A box holds digits alone, but for a minus in front of a debt and, where there are cents, a
      comma before the last two. */
  lemma BoxShape(cents: int)
    ensures var s := MoneyInputValue(cents);
            && s != "" && '.' !in s && '$' !in s && (s[0] == '-' <==> cents < 0) && '-' !in s[1..]
            && (',' in s <==> Amount.Abs(cents) % 100 != 0)
            && (',' in s ==> |s| >= 3 && s[|s| - 3] == ',' && AllDigits(10, s[|s| - 2..]))
  {
    hide AllDigits;
    var body := MoneyInputValue(Amount.Abs(cents));
    BoxBody(Amount.Abs(cents));
    assert MoneyInputValue(cents) == if cents < 0 then "-" + body else body;
    hide MoneyInputValue;
    if cents < 0 { MinusBefore(body); } else { NoMinusIn(body); }
  }

  lemma NoMinusIn(body: string)
    requires body != "" && '-' !in body
    ensures body[0] != '-' && '-' !in body[1..]
  {
    assert body[0] in body && forall c :: c in body[1..] ==> c in body;
  }

  /** A text with a minus put before it. */
  lemma MinusBefore(body: string)
    ensures var s := "-" + body;
            && s[0] == '-' && s[1..] == body
            && ('.' in s <==> '.' in body) && (',' in s <==> ',' in body) && ('$' in s <==> '$' in body)
            && (|body| >= 3 ==> s[|s| - 3] == body[|body| - 3] && s[|s| - 2..] == body[|body| - 2..])
  {
  }

  /** A quantity shows a comma exactly when its tenths do not make units, and then one digit after
      it, not a zero; and a minus exactly when something is left to sign. */
  lemma QuantityShape(value: real)
    ensures var s := FormatQuantity(value);
            && s != "" && (s[0] == '-' <==> value < 0.0 && Tenths(value) > 0)
            && (',' in s <==> Tenths(value) % 10 != 0)
            && (',' in s ==> |s| >= 2 && s[|s| - 2] == ',' && s[|s| - 1] == DigitChar(Tenths(value) % 10)
                             && s[|s| - 1] != '0')
  {
    hide Grouped, Digits, Tenths;
    var tenths := Tenths(value);
    var whole := Grouped(Digits(tenths / 10));
    GroupedMarks(Digits(tenths / 10));
    var sign := if value < 0.0 && tenths > 0 then "-" else "";
    var tail := if tenths % 10 == 0 then "" else "," + [DigitChar(tenths % 10)];
    assert FormatQuantity(value) == sign + whole + tail;
    assert (sign + whole + tail)[0] == if sign == "" then whole[0] else '-';
  }

  lemma {:induction false} GroupedMarks(digits: string)
    requires AllDigits(10, digits) && digits != ""
    ensures var s := Grouped(digits); s != "" && ',' !in s && '-' !in s && s[0] == digits[0]
  {
    NoMarks(digits);
    var n := |digits|;
    if n > 3 {
      SliceDigits(digits, n - 3);
      NoMarks(digits[n - 3..]);
      GroupedMarks(digits[..n - 3]);
    }
  }

  /* ---- reading ---- */

  /** Only the first comma becomes a point. */
  function FirstComma(s: string): (t: string) {
    if s == "" then ""
    else if s[0] == ',' then "." + s[1..]
    else [s[0]] + FirstComma(s[1..])
  }

  /** A number in digits: an optional sign, digits, an optional point and digits, and at least
      one digit somewhere. */
  function ReadPlain(s: string): (q: Option<Exact>) {
    var negative := s != "" && s[0] == '-';
    var body := if negative then s[1..] else s;
    var (whole, rest) := Amount.TakeDigits(body);
    if rest != "" && (rest[0] != '.' || !AllDigits(10, rest[1..])) then None
    else
      var fraction := if rest == "" then "" else rest[1..];
      if whole + fraction == "" then None
      else
        var units: int := (Amount.ConcatDigits(whole, fraction); Value(10, whole + fraction));
        Some(Amount.Exact(if negative then -units else units, |fraction|))
  }

  function Cleaned(raw: string, gone: set<char>): (s: string) { FirstComma(Erase(Erase(raw, gone), DOT)) }

  /** `Math.round`: halves go up, whatever the sign. */
  function RoundHalfUp(n: int, d: nat): (k: int)
    requires d > 0
  {
    (2 * n + d) / (2 * d)
  }

  function ParseMoneyInput(raw: string): (cents: Option<int>) {
    var q := ReadPlain(Cleaned(raw, SPACES + {'$'}));
    if q.None? then None else Some(RoundHalfUp(100 * q.value.units, Amount.Ten(q.value.scale)))
  }

  function ParseQuantityInput(raw: string): (q: Option<Exact>) { ReadPlain(Cleaned(raw, SPACES)) }

  /* ---- reading what was printed ---- */

  /** A printed number: a sign, some digits, perhaps a comma and more digits. */
  function Printed(sign: string, whole: string, fraction: string): (s: string) {
    sign + whole + (if fraction == "" then "" else "," + fraction)
  }

  function Pointed(sign: string, whole: string, fraction: string): (s: string) {
    sign + whole + (if fraction == "" then "" else "." + fraction)
  }

  lemma {:induction false} CommaToPoint(s: string, fraction: string)
    requires forall c :: c in s ==> c != ','
    ensures FirstComma(s + "," + fraction) == s + "." + fraction
  {
    if s == "" {
      FirstIsComma(fraction);
      assert s + "," == "," && s + "." == ".";
    } else {
      hide FirstComma;
      var head, rest := s[0], s[1..];
      assert head in s && (forall c :: c in rest ==> c in s) && s == [head] + rest;
      CommaToPoint(rest, fraction);
      SkipsFirst(head, rest + "," + fraction);
      Regrouped(head, rest, ",", fraction);
      Regrouped(head, rest, ".", fraction);
    }
  }

  lemma Regrouped(head: char, rest: string, mark: string, tail: string)
    ensures [head] + rest + mark + tail == [head] + (rest + mark + tail)
  {
  }

  lemma {:induction false} NoComma(s: string)
    requires forall c :: c in s ==> c != ','
    ensures FirstComma(s) == s
  {
    if s != "" {
      assert s[0] in s && (forall c :: c in s[1..] ==> c in s) && [s[0]] + s[1..] == s;
      NoComma(s[1..]);
    }
  }

  lemma FirstIsComma(fraction: string)
    ensures FirstComma("," + fraction) == "." + fraction
  {
    assert ("," + fraction)[1..] == fraction;
  }

  lemma SkipsFirst(c: char, s: string)
    requires c != ','
    ensures FirstComma([c] + s) == [c] + FirstComma(s)
  {
    assert ([c] + s)[1..] == s;
  }

  predicate Sign(sign: string) { sign == "" || sign == "-" }

  /** `ReadPlain` with its sign taken off. */
  lemma SignTakenOff(sign: string, body: string)
    requires Sign(sign) && (body != "" ==> body[0] != '-')
    ensures var q := ReadPlain(body);
            ReadPlain(sign + body)
            == if q.Some? && sign == "-" then Some(Amount.Exact(-q.value.units, q.value.scale)) else q
  {
    hide Value, AllDigits, Amount.TakeDigits;
    if sign == "-" { assert (sign + body)[1..] == body; } else { assert sign + body == body; }
  }

  lemma PointedIs(whole: string, fraction: string)
    requires whole != ""
    ensures var tail := if fraction == "" then "" else "." + fraction;
            && Pointed("", whole, fraction) == whole + tail && (whole + tail)[0] == whole[0]
            && (fraction != "" ==> tail[0] == '.' && tail[1..] == fraction)
  {
    assert "" + whole == whole;
  }

  lemma DigitsHaveNoSign(s: string)
    requires s != "" && AllDigits(10, s)
    ensures s[0] != '-'
  {
  }

  lemma BodyReads(whole: string, fraction: string)
    requires whole != "" && AllDigits(10, whole) && AllDigits(10, fraction)
    ensures AllDigits(10, whole + fraction)
    ensures ReadPlain(Pointed("", whole, fraction)) == Some(Amount.Exact(Value(10, whole + fraction), |fraction|))
  {
    hide Value, ReadPlain, AllDigits, Pointed, Amount.TakeDigits;
    DigitsHaveNoSign(whole);
    Amount.ConcatDigits(whole, fraction);
    PointedIs(whole, fraction);
    var tail := if fraction == "" then "" else "." + fraction;
    Amount.TakeAll(whole, tail);
    TakenReads(whole + tail, whole, tail, fraction);
  }

  /** What `ReadPlain` makes of a text once its leading digits are taken. */
  lemma TakenReads(body: string, whole: string, tail: string, fraction: string)
    requires body != "" && body[0] != '-' && Amount.TakeDigits(body) == (whole, tail)
    requires AllDigits(10, whole + fraction) && AllDigits(10, fraction) && whole + fraction != ""
    requires if tail == "" then fraction == "" else tail[0] == '.' && tail[1..] == fraction
    ensures ReadPlain(body) == Some(Amount.Exact(Value(10, whole + fraction), |fraction|))
  {
    hide Value, AllDigits, Amount.TakeDigits;
  }

  lemma PointedReads(sign: string, whole: string, fraction: string)
    requires Sign(sign) && whole != "" && AllDigits(10, whole) && AllDigits(10, fraction)
    ensures AllDigits(10, whole + fraction)
    ensures ReadPlain(Pointed(sign, whole, fraction))
         == Some(Amount.Exact(if sign == "-" then -(Value(10, whole + fraction) as int)
                              else Value(10, whole + fraction), |fraction|))
  {
    hide Value, ReadPlain, Amount.TakeDigits;
    BodyReads(whole, fraction);
    var body := Pointed("", whole, fraction);
    assert body[0] == whole[0];
    SignTakenOff(sign, body);
    assert Pointed(sign, whole, fraction) == sign + body;
  }

  /** Every separator, space and peso sign goes; the first comma becomes the point. */
  lemma CleanedPrinted(gone: set<char>, sign: string, mark: string, whole: string, fraction: string)
    requires Sign(sign) && AllDigits(10, whole) && AllDigits(10, fraction) && (mark == "" || mark == "$")
    requires gone == if mark == "" then SPACES else SPACES + {'$'}
    ensures Cleaned(sign + mark + Printed("", Grouped(whole), fraction), gone) == Pointed(sign, whole, fraction)
  {
    hide Grouped, Erase, FirstComma, AllDigits, Blank;
    var tail := if fraction == "" then "" else "," + fraction;
    assert sign + mark + Printed("", Grouped(whole), fraction) == sign + (mark + (Grouped(whole) + tail));
    KeptOf(gone, sign, mark, whole, tail, fraction);
    MarksErased(gone, sign, mark, Grouped(whole), tail);
    DotsErased(sign, whole, tail);
    PointPut(sign, whole, fraction);
    assert Printed(sign, whole, fraction) == sign + whole + tail;
  }

  lemma MarksErased(gone: set<char>, sign: string, mark: string, body: string, tail: string)
    requires Erase(sign, gone) == sign && Erase(mark, gone) == "" && Erase(body, gone) == body
    requires Erase(tail, gone) == tail
    ensures Erase(sign + (mark + (body + tail)), gone) == sign + (body + tail)
  {
    hide Erase;
    EraseConcat(sign, mark + (body + tail), gone);
    EraseConcat(mark, body + tail, gone);
    EraseConcat(body, tail, gone);
    assert "" + (body + tail) == body + tail;
  }

  lemma DotsErased(sign: string, whole: string, tail: string)
    requires AllDigits(10, whole) && Erase(sign, DOT) == sign && Erase(tail, DOT) == tail
    ensures Erase(sign + (Grouped(whole) + tail), DOT) == sign + whole + tail
  {
    hide Erase, Grouped;
    EraseConcat(sign, Grouped(whole) + tail, DOT);
    EraseConcat(Grouped(whole), tail, DOT);
    GroupedErases(whole);
    assert sign + (whole + tail) == sign + whole + tail;
  }

  lemma PointPut(sign: string, whole: string, fraction: string)
    requires Sign(sign) && AllDigits(10, whole)
    ensures FirstComma(Printed(sign, whole, fraction)) == Pointed(sign, whole, fraction)
  {
    hide FirstComma;
    SignedWhole(sign, whole);
    if fraction == "" {
      NoComma(sign + whole);
      assert Printed(sign, whole, fraction) == sign + whole == Pointed(sign, whole, fraction);
    } else {
      CommaToPoint(sign + whole, fraction);
      assert Printed(sign, whole, fraction) == sign + whole + "," + fraction;
      assert Pointed(sign, whole, fraction) == sign + whole + "." + fraction;
    }
  }

  lemma SignedWhole(sign: string, whole: string)
    requires Sign(sign) && AllDigits(10, whole)
    ensures forall c :: c in sign + whole ==> c != ','
  {
  }

  lemma {:induction false} GroupedChars(digits: string)
    requires AllDigits(10, digits)
    ensures forall c :: c in Grouped(digits) ==> c == '.' || IsDigit(10, c)
  {
    var n := |digits|;
    if n > 3 {
      GroupedChars(digits[..n - 3]);
      assert forall c :: c in digits[n - 3..] ==> c in digits;
    }
  }

  lemma KeptOf(gone: set<char>, sign: string, mark: string, whole: string, tail: string, fraction: string)
    requires Sign(sign) && AllDigits(10, whole) && AllDigits(10, fraction) && (mark == "" || mark == "$")
    requires gone == if mark == "" then SPACES else SPACES + {'$'}
    requires tail == if fraction == "" then "" else "," + fraction
    ensures Erase(sign, gone) == sign && Erase(mark, gone) == "" && Erase(Grouped(whole), gone) == Grouped(whole)
    ensures Erase(tail, gone) == tail
    ensures Erase(sign, DOT) == sign && Erase(tail, DOT) == tail
  {
    hide Grouped, Erase;
    StaysGrouped(whole, gone);
    StaysSign(sign, gone);
    StaysTail(fraction, gone);
    if mark == "$" { EraseOne('$', gone); } else { EraseNone(mark, gone); }
  }

  ghost predicate Blank(gone: set<char>) { forall c :: c in gone ==> c in SPACES || c == '$' }

  lemma StaysGrouped(whole: string, gone: set<char>)
    requires AllDigits(10, whole) && Blank(gone)
    ensures Erase(Grouped(whole), gone) == Grouped(whole)
  {
    hide Grouped, Erase;
    GroupedChars(whole);
    EraseNone(Grouped(whole), gone);
  }

  lemma StaysSign(sign: string, gone: set<char>)
    requires Sign(sign) && Blank(gone)
    ensures Erase(sign, gone) == sign && Erase(sign, DOT) == sign
  {
    hide Erase;
    EraseNone(sign, gone);
    EraseNone(sign, DOT);
  }

  lemma StaysTail(fraction: string, gone: set<char>)
    requires AllDigits(10, fraction) && Blank(gone)
    ensures var tail := if fraction == "" then "" else "," + fraction;
            Erase(tail, gone) == tail && Erase(tail, DOT) == tail
  {
    hide Erase;
    var tail := if fraction == "" then "" else "," + fraction;
    EraseNone(tail, gone);
    EraseNone(tail, DOT);
  }

  /** The whole way back from a printed number. */
  lemma PrintedReads(gone: set<char>, sign: string, mark: string, whole: string, fraction: string)
    requires Sign(sign) && whole != "" && AllDigits(10, whole) && AllDigits(10, fraction) && (mark == "" || mark == "$")
    requires gone == if mark == "" then SPACES else SPACES + {'$'}
    ensures AllDigits(10, whole + fraction)
    ensures ReadPlain(Cleaned(sign + mark + Printed("", Grouped(whole), fraction), gone))
         == Some(Amount.Exact(if sign == "-" then -(Value(10, whole + fraction) as int)
                              else Value(10, whole + fraction), |fraction|))
  {
    hide Value, Grouped, Cleaned, ReadPlain, Pointed, Printed;
    CleanedPrinted(gone, sign, mark, whole, fraction);
    PointedReads(sign, whole, fraction);
  }

  lemma RoundWhole(n: int)
    ensures RoundHalfUp(n, 1) == n && RoundHalfUp(100 * n, 100) == n
  {
  }

  lemma TwoPowers()
    ensures Amount.Ten(0) == 1 && Amount.Ten(1) == 10 && Amount.Ten(2) == 100
  {
    assert Pow(10, 0) == 1 && Pow(10, 1) == 10 && Pow(10, 2) == 100;
  }

  /** The box gives back what was put into it: reading the text of any amount of cents yields
      those cents. */
  lemma MoneyBoxRoundTrip(cents: int)
    ensures ParseMoneyInput(MoneyInputValue(cents)) == Some(cents)
  {
    hide Value, Digits, ReadPlain, Grouped, Cleaned, Printed, RoundHalfUp, PadStart, AllDigits;
    var sign := if cents < 0 then "-" else "";
    var (whole, fraction) := BoxParts(cents);
    BoxText(cents);
    BoxValue(cents);
    TwoPowers();
    UngroupedReads(sign, whole, fraction);
    RoundWhole(100 * cents);
    RoundWhole(cents);
  }

  function BoxParts(cents: int): (r: (string, string)) {
    var abs := Amount.Abs(cents);
    (Digits(abs / 100), if abs % 100 == 0 then "" else PadStart(Digits(abs % 100), 2))
  }

  lemma BoxText(cents: int)
    ensures MoneyInputValue(cents) == Printed(if cents < 0 then "-" else "", BoxParts(cents).0, BoxParts(cents).1)
    ensures BoxParts(cents).1 == "" <==> Amount.Abs(cents) % 100 == 0
    ensures Amount.Abs(cents) % 100 != 0 ==> |BoxParts(cents).1| == 2
  {
    hide Digits;
    var abs := Amount.Abs(cents);
    TwoPowers();
    if abs % 100 != 0 { PadDigits(abs % 100, 2); }
  }

  lemma BoxValue(cents: int)
    ensures var (whole, fraction) := BoxParts(cents);
            && whole != "" && AllDigits(10, whole) && AllDigits(10, fraction) && AllDigits(10, whole + fraction)
            && Value(10, whole + fraction) == if fraction == "" then Amount.Abs(cents) / 100 else Amount.Abs(cents)
  {
    hide Value, Digits, PadStart, Fixed;
    var abs := Amount.Abs(cents);
    var (whole, fraction) := BoxParts(cents);
    TwoPowers();
    DigitsValue(abs / 100);
    if abs % 100 != 0 {
      PadDigits(abs % 100, 2);
      FixedValue(10, abs % 100, 2);
    }
    ValueConcat(10, whole, fraction);
    NoDigits();
  }

  /** A box is not grouped, but reads just the same. */
  lemma UngroupedReads(sign: string, whole: string, fraction: string)
    requires Sign(sign) && whole != "" && AllDigits(10, whole) && AllDigits(10, fraction)
    ensures AllDigits(10, whole + fraction)
    ensures ReadPlain(Cleaned(Printed(sign, whole, fraction), SPACES + {'$'}))
         == Some(Amount.Exact(if sign == "-" then -(Value(10, whole + fraction) as int)
                              else Value(10, whole + fraction), |fraction|))
  {
    hide Value, ReadPlain, FirstComma, Erase, Printed, Pointed, AllDigits;
    var s := Printed(sign, whole, fraction);
    PrintedChars(sign, whole, fraction);
    EraseNone(s, SPACES + {'$'});
    EraseNone(s, DOT);
    PointPut(sign, whole, fraction);
    PointedReads(sign, whole, fraction);
  }

  lemma PrintedChars(sign: string, whole: string, fraction: string)
    requires Sign(sign) && AllDigits(10, whole) && AllDigits(10, fraction)
    ensures forall c :: c in Printed(sign, whole, fraction) ==> c !in SPACES + {'$'} && c !in DOT
  {
  }

  /** What is shown is the amount rounded to the peso, half away from zero: reading it back
      loses the cents and nothing else. */
  lemma MoneyShownIsRounded(cents: int)
    ensures ParseMoneyInput(FormatMoney(cents)) == Some(100 * Amount.Round(cents, 100))
  {
    hide Value, Digits, ReadPlain, Grouped, Erase, FirstComma, Cleaned, Amount.Round, RoundHalfUp, Printed, AllDigits;
    var pesos: nat := (Amount.Abs(cents) + 50) / 100;
    var sign := if cents < 0 && pesos > 0 then "-" else "";
    TwoPowers();
    DigitsValue(pesos);
    PrintedReads(SPACES + {'$'}, sign, "$", Digits(pesos), "") by { NoDigits(); }
    assert Digits(pesos) + "" == Digits(pesos);
    ShownText(cents);
    RoundWhole(100 * pesos);
    RoundWhole(-100 * pesos);
    PesoRound(cents);
  }

  lemma NoDigits()
    ensures AllDigits(10, "") && Value(10, "") == 0
  {
  }

  lemma ShownText(cents: int)
    ensures var pesos: nat := (Amount.Abs(cents) + 50) / 100;
            FormatMoney(cents)
            == (if cents < 0 && pesos > 0 then "-" else "") + "$" + Printed("", Grouped(Digits(pesos)), "")
  {
    hide Digits, Grouped;
  }

  lemma PesoRound(cents: int)
    ensures var pesos: nat := (Amount.Abs(cents) + 50) / 100;
            Amount.Round(cents, 100) == if cents < 0 then -(pesos as int) else pesos
  {
    var m: nat := Amount.Abs(cents);
    assert (m + 50) / 100 == if m % 100 * 2 >= 100 then m / 100 + 1 else m / 100;
  }

  /** And it is shown with a separator every three digits from the right. */
  lemma MoneyShownIsGrouped(cents: int, i: nat)
    requires i < |FormatMoney(cents)|
    ensures var s := FormatMoney(cents);
            var head := if s[0] == '-' then 2 else 1;
            && head < |s| && s[head - 1] == '$'
            && (s[i] == '.' <==> i >= head && (|s| - 1 - i) % 4 == 3)
  {
    hide Digits;
    var pesos: nat := (Amount.Abs(cents) + 50) / 100;
    var sign := if cents < 0 && pesos > 0 then "-" else "";
    var body := Grouped(Digits(pesos));
    ShownText(cents);
    hide Grouped;
    var s := sign + "$" + body;
    assert FormatMoney(cents) == s;
    GroupedLonger(Digits(pesos));
    if i >= |sign| + 1 {
      GroupedPlaces(Digits(pesos), i - |sign| - 1);
      assert s[i] == body[i - |sign| - 1];
    }
  }

  lemma {:induction false} GroupedLonger(digits: string)
    ensures |Grouped(digits)| >= |digits|
  {
    if |digits| > 3 { GroupedLonger(digits[..|digits| - 3]); }
  }

  /** What a screen shows is what the box will read exactly when there are no cents. */
  lemma ShownIsExact(cents: int)
    ensures ParseMoneyInput(FormatMoney(cents)) == Some(cents) <==> cents % 100 == 0
  {
    hide ParseMoneyInput, FormatMoney;
    MoneyShownIsRounded(cents);
    var m: nat := Amount.Abs(cents);
    assert cents % 100 == 0 <==> m % 100 == 0;
  }

  /** A quantity is shown rounded once to tenths, with one decimal digit at the most: reading
      it back gives exactly those tenths. */
  lemma QuantityShownInTenths(value: real)
    ensures var q := ParseQuantityInput(FormatQuantity(value));
            && -0.5 <= Magnitude(value) * 10.0 - (Tenths(value) as real) < 0.5
            && q.Some? && q.value.scale <= 1
            && Amount.SameNumber(q.value,
                                  Amount.Exact(if value < 0.0 then -(Tenths(value) as int) else Tenths(value), 1))
  {
    hide Value, Digits, ReadPlain, Grouped, Erase, FirstComma, Cleaned, Tenths;
    var tenths := Tenths(value);
    TenthsNear(value);
    var sign := if value < 0.0 && tenths > 0 then "-" else "";
    var whole := Digits(tenths / 10);
    var fraction := if tenths % 10 == 0 then "" else [DigitChar(tenths % 10)];
    TwoPowers();
    PrintedReads(SPACES, sign, "", whole, fraction);
    assert FormatQuantity(value) == sign + "" + Printed("", Grouped(whole), fraction) by {
      assert FormatQuantity(value) == sign + Grouped(whole) + (if tenths % 10 == 0 then "" else "," + fraction);
    }
    DigitsValue(tenths / 10);
    ValueConcat(10, whole, fraction);
    OneDigit(tenths % 10);
    NoDigits();
  }

  lemma TenthsNear(value: real)
    ensures -0.5 <= Magnitude(value) * 10.0 - (Tenths(value) as real) < 0.5
  {
  }

  lemma OneDigit(d: nat)
    requires d < 10
    ensures AllDigits(10, [DigitChar(d)]) && Value(10, [DigitChar(d)]) == d
  {
    assert [DigitChar(d)][..0] == "";
    assert DigitValue(DigitChar(d)) == d;
  }
}
