/** Digits, zero padding, blanks and code-unit order of strings: what the printers, the
    readers and the generated ids share. */
module Text {

  datatype Option<+T> = None | Some(value: T)

  /** The two bases in use: decimal for numbers and dates, hexadecimal for ids. */
  type Base = b: nat | b == 10 || b == 16 witness 10

  function Times(b: Base, n: int): (r: int) { if b == 10 then 10 * n else 16 * n }

  function Quo(b: Base, n: nat): (q: nat) { if b == 10 then n / 10 else n / 16 }

  function Rem(b: Base, n: nat): (r: nat)
    ensures r < b && n == Times(b, Quo(b, n)) + r
  {
    if b == 10 then n % 10 else n % 16
  }

  function Pow(b: Base, e: nat): (p: nat)
    ensures p > 0
  {
    if e == 0 then 1 else Times(b, Pow(b, e - 1))
  }

  /* ---- one digit ---- */

  function DigitChar(d: nat): (c: char)
    requires d < 16
  {
    if d < 10 then ('0' as int + d) as char else ('a' as int + d - 10) as char
  }

  predicate IsDigit(b: Base, c: char)
  {
    ('0' <= c <= '9' && c as int - '0' as int < b) || ('a' <= c <= 'f' && c as int - 'a' as int + 10 < b)
  }

  function DigitValue(c: char): (d: nat)
    requires IsDigit(16, c)
    ensures d < 16 && DigitChar(d) == c
  {
    if '0' <= c <= '9' then c as int - '0' as int else c as int - 'a' as int + 10
  }

  lemma DigitOrder(i: nat, j: nat)
    requires i < j < 16
    ensures DigitChar(i) < DigitChar(j)
  {
  }

  /* ---- strings of digits ---- */

  predicate AllDigits(b: Base, s: string)
  {
    forall i :: 0 <= i < |s| ==> IsDigit(b, s[i])
  }

  /** The number a string of digits denotes, most significant digit first. */
  function Value(b: Base, s: string): (n: nat)
    requires AllDigits(b, s)
  {
    if s == [] then 0 else Times(b, Value(b, s[..|s| - 1])) + DigitValue(s[|s| - 1])
  }

  /** The last `w` digits of `n`, zeros included. */
  function Fixed(b: Base, n: nat, w: nat): (s: string)
    ensures |s| == w && AllDigits(b, s)
  {
    if w == 0 then "" else Fixed(b, Quo(b, n), w - 1) + [DigitChar(Rem(b, n))]
  }

  lemma {:induction false} FixedValue(b: Base, n: nat, w: nat)
    requires n < Pow(b, w)
    ensures Value(b, Fixed(b, n, w)) == n
  {
    if w > 0 {
      FixedValue(b, Quo(b, n), w - 1);
      var s := Fixed(b, n, w);
      assert s[..|s| - 1] == Fixed(b, Quo(b, n), w - 1);
      assert DigitValue(DigitChar(Rem(b, n))) == Rem(b, n);
    }
  }

  /** Reading `w` digits and printing them again in `w` digits changes nothing. */
  lemma {:induction false} ValueFixed(b: Base, s: string)
    requires AllDigits(b, s)
    ensures Value(b, s) < Pow(b, |s|)
    ensures Fixed(b, Value(b, s), |s|) == s
  {
    if s != [] {
      var t, d := s[..|s| - 1], DigitValue(s[|s| - 1]);
      ValueFixed(b, t);
      assert Quo(b, Value(b, s)) == Value(b, t) && Rem(b, Value(b, s)) == d;
      assert s == t + [s[|s| - 1]];
    }
  }

  lemma {:induction false} ValueConcat(b: Base, s: string, t: string)
    requires AllDigits(b, s) && AllDigits(b, t)
    ensures AllDigits(b, s + t)
    ensures Value(b, s + t) == Value(b, s) * Pow(b, |t|) + Value(b, t)
  {
    if t == [] {
      assert s + t == s;
    } else {
      var u := t[..|t| - 1];
      ValueConcat(b, s, u);
      assert (s + t)[..|s + t| - 1] == s + u;
      TimesMul(b, Value(b, s), Pow(b, |u|), Value(b, u));
      assert (s + t)[|s + t| - 1] == t[|t| - 1];
    }
  }

  lemma TimesMul(b: Base, x: nat, p: nat, y: nat)
    ensures Times(b, x * p + y) == x * Times(b, p) + Times(b, y)
  {
    if b == 10 { assert x * (10 * p) == 10 * (x * p); } else { assert x * (16 * p) == 16 * (x * p); }
  }

  /* ---- decimal numerals, no leading zero ---- */

  function Digits(n: nat): (s: string)
    ensures |s| >= 1 && AllDigits(10, s)
    ensures s[0] == '0' ==> n == 0
  {
    if n < 10 then [DigitChar(n)] else Digits(n / 10) + [DigitChar(n % 10)]
  }

  lemma {:induction false} DigitsValue(n: nat)
    ensures Value(10, Digits(n)) == n
  {
    var s := Digits(n);
    assert DigitValue(DigitChar(n % 10)) == n % 10;
    if n >= 10 {
      DigitsValue(n / 10);
      assert s[..|s| - 1] == Digits(n / 10);
    } else {
      assert s[..|s| - 1] == [];
    }
  }

  function Zeros(n: nat): (s: string)
    ensures |s| == n && (forall i :: 0 <= i < n ==> s[i] == '0')
  {
    seq(n, _ => '0')
  }

  /** `padStart(w, "0")`: never cuts. */
  function PadStart(s: string, w: nat): (t: string)
    ensures |t| == if |s| < w then w else |s|
  {
    if |s| < w then Zeros(w - |s|) + s else s
  }

  lemma {:induction false} FixedZero(b: Base, w: nat)
    ensures Fixed(b, 0, w) == Zeros(w)
  {
    if w > 0 { FixedZero(b, w - 1); }
  }

  /** A number of at most `w` digits, zero padded, is the fixed-width form. */
  lemma {:induction false} PadDigits(n: nat, w: nat)
    requires w >= 1 && n < Pow(10, w)
    ensures PadStart(Digits(n), w) == Fixed(10, n, w)
    ensures |Digits(n)| <= w
  {
    if n < 10 {
      FixedZero(10, w - 1);
      assert Fixed(10, n, w) == Zeros(w - 1) + Digits(n);
    } else {
      PadDigits(n / 10, w - 1);
      assert PadStart(Digits(n), w) == PadStart(Digits(n / 10), w - 1) + [DigitChar(n % 10)];
    }
  }

  /* ---- code-unit order ---- */

  /** JavaScript's `a < b` on strings. */
  predicate LexLess(a: string, b: string)
  {
    b != [] && (a == [] || a[0] < b[0] || (a[0] == b[0] && LexLess(a[1..], b[1..])))
  }

  lemma {:induction false} LexPrefix(p: string, a: string, b: string)
    ensures LexLess(p + a, p + b) <==> LexLess(a, b)
  {
    if p == [] {
      assert p + a == a && p + b == b;
    } else {
      LexPrefix(p[1..], a, b);
      assert (p + a)[1..] == p[1..] + a && (p + b)[1..] == p[1..] + b;
    }
  }

  /** A difference inside prefixes of equal length decides. */
  lemma {:induction false} LexExtend(x: string, y: string, a: string, b: string)
    requires |x| == |y| && LexLess(x, y)
    ensures LexLess(x + a, y + b)
  {
    assert (x + a)[0] == x[0] && (y + b)[0] == y[0];
    if x[0] == y[0] {
      LexExtend(x[1..], y[1..], a, b);
      assert (x + a)[1..] == x[1..] + a && (y + b)[1..] == y[1..] + b;
    }
  }

  /** Strings that agree up to `i` and differ in order between `i` and `j`. */
  lemma LexAt(s: string, t: string, i: nat, j: nat)
    requires i <= j <= |s| && j <= |t|
    requires s[..i] == t[..i] && LexLess(s[i..j], t[i..j])
    ensures LexLess(s, t)
  {
    hide LexLess;
    LexExtend(s[i..j], t[i..j], s[j..], t[j..]);
    LexPrefix(s[..i], s[i..j] + s[j..], t[i..j] + t[j..]);
    Cut(s, i, j);
    Cut(t, i, j);
  }

  lemma Cut(s: string, i: nat, j: nat)
    requires i <= j <= |s|
    ensures s == s[..i] + (s[i..j] + s[j..])
  {
  }

  lemma {:induction false} LexTransitive(a: string, b: string, c: string)
    requires LexLess(a, b) && LexLess(b, c)
    ensures LexLess(a, c)
  {
    if a != [] && a[0] == b[0] && b[0] == c[0] {
      LexTransitive(a[1..], b[1..], c[1..]);
    }
  }

  lemma {:induction false} LexIrreflexive(a: string)
    ensures !LexLess(a, a)
  {
    if a != [] { LexIrreflexive(a[1..]); }
  }

  /** Fixed-width digits sort as the numbers do. */
  lemma {:induction false} FixedOrder(b: Base, n: nat, m: nat, w: nat)
    requires n < m < Pow(b, w)
    ensures LexLess(Fixed(b, n, w), Fixed(b, m, w))
  {
    var p, q := Fixed(b, Quo(b, n), w - 1), Fixed(b, Quo(b, m), w - 1);
    var c, d := [DigitChar(Rem(b, n))], [DigitChar(Rem(b, m))];
    if Quo(b, n) < Quo(b, m) {
      FixedOrder(b, Quo(b, n), Quo(b, m), w - 1);
      LexExtend(p, q, c, d);
    } else {
      DigitOrder(Rem(b, n), Rem(b, m));
      LexPrefix(p, c, d);
    }
  }

  /* ---- blanks ---- */

  /** The characters the runtime's `trim` and `\s` take for blanks. */
  predicate IsSpace(c: char) {
    || c == ' ' || '\t' <= c <= '\r' || c == '\U{00a0}' || c == '\U{1680}' || '\U{2000}' <= c <= '\U{200a}'
    || c == '\U{2028}' || c == '\U{2029}' || c == '\U{202f}' || c == '\U{205f}' || c == '\U{3000}' || c == '\U{feff}'
  }

  const SPACES: set<char> := set c: char | IsSpace(c)

  /** Tab to carriage return, the space, and the blanks of Unicode, by code point. */
  lemma SpacesExactly(c: char)
    ensures IsSpace(c) <==>
              9 <= c as int <= 13 || 8192 <= c as int <= 8202
              || c as int in {32, 160, 5760, 8232, 8233, 8239, 8287, 12288, 65279}
  {
  }

  function Trim(s: string): (t: string)
    ensures t == s || |t| < |s|
  {
    if s == [] then []
    else if IsSpace(s[0]) then Trim(s[1..])
    else if IsSpace(s[|s| - 1]) then Trim(s[..|s| - 1])
    else s
  }

  lemma TrimKeeps(s: string)
    requires s != "" && !IsSpace(s[0]) && !IsSpace(s[|s| - 1])
    ensures Trim(s) == s
  {
  }
}
