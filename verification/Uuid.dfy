/** The monotonic UUIDv7 generator: layout of section 5.7 of RFC 9562, with the counter of
    section 6.2 in the 12 bits after the version. */
module Uuid {
  import opened Text

  const COUNTER_MAX := 0xfff
  const CLOCK_LIMIT := 0x1_0000_0000_0000

  /** What the caller passes as the instant: a number of milliseconds, possibly not finite. */
  datatype Instant = Finite(ms: real) | NotFinite

  function AskedMs(at: Instant): (ms: nat) {
    if at.Finite? && at.ms.Floor > 0 then at.ms.Floor else 0
  }

  /** The 64 random bits offered, of which 62 are used. */
  datatype Random = Random(hi: nat, lo: nat)

  predicate Word(n: nat) { n < 0x1_0000_0000 }

  type Bits = r: Random | Word(r.hi) && Word(r.lo) witness Random(0, 0)

  datatype Clock = Clock(lastMs: int, counter: nat) {
    predicate Valid() { lastMs >= -1 && counter <= COUNTER_MAX }

    /** Position of an id in the sequence the layout sorts by. */
    function Stamp(): (n: int) { lastMs * 4096 + counter }
  }

  const START := Clock(-1, 0)

  function Tick(c: Clock, ms: nat): (d: Clock) {
    if ms > c.lastMs then Clock(ms, 0)
    else if c.counter < COUNTER_MAX then Clock(c.lastMs, c.counter + 1)
    else Clock(c.lastMs + 1, 0)
  }

  function Hex(n: nat, digits: nat): (s: string)
    ensures |s| == digits && AllDigits(16, s)
  {
    Fixed(16, n, digits)
  }

  function Render(c: Clock, r: Bits): (s: string)
    requires c.Valid() && c.lastMs >= 0
    ensures |s| == 36
  {
    var tail := r.hi / 0x4000 % 0x10000 * 0x1_0000_0000 + r.lo;
    Hex(c.lastMs / 0x10000, 8) + "-" + Hex(c.lastMs % 0x10000, 4) + "-" + Hex(0x7000 + c.counter, 4) + "-"
    + Hex(0x8000 + r.hi % 0x4000, 4) + "-" + Hex(tail, 12)
  }

  /* ---- the readers ---- */

  predicate HexAt(s: string, from: nat, to: nat)
    requires from <= to <= |s|
  {
    AllDigits(16, s[from..to])
  }

  predicate IsUuidV7(s: string) {
    && |s| == 36
    && s[8] == s[13] == s[18] == s[23] == '-'
    && s[14] == '7'
    && s[19] in {'8', '9', 'a', 'b'}
    && HexAt(s, 0, 8) && HexAt(s, 9, 13) && HexAt(s, 15, 18) && HexAt(s, 20, 23) && HexAt(s, 24, 36)
  }

  function TimeOf(s: string): (ms: Option<nat>) {
    if !IsUuidV7(s) then None
    else
      assert AllDigits(16, s[..8] + s[9..13]);
      Some(Value(16, s[..8] + s[9..13]))
  }

  function CounterOf(s: string): (c: Option<nat>) {
    if !IsUuidV7(s) then None else Some(Value(16, s[15..18]))
  }

  /* ---- the layout can be read back ---- */

  /** The digit `w` places from the right. */
  function DigitAt(m: nat, w: nat): (d: nat)
    ensures d < 16
  {
    if w == 0 then m % 16 else DigitAt(m / 16, w - 1)
  }

  lemma {:induction false} LeadingDigit(m: nat, w: nat)
    ensures Fixed(16, m, w + 1) == [DigitChar(DigitAt(m, w))] + Fixed(16, m, w)
  {
    if w == 0 {
      assert Fixed(16, m / 16, 0) == "";
    } else {
      LeadingDigit(m / 16, w - 1);
    }
  }

  /** Four digits are the leading one over the other three. */
  lemma FourDigits(m: nat)
    requires m < 0x10000
    ensures Fixed(16, m, 4) == [DigitChar(m / 0x1000)] + Fixed(16, m % 0x1000, 3)
  {
    hide Fixed, Pow, DigitAt;
    TopDigit(m);
    LeadingDigit(m, 3);
    Powers();
    FixedWraps(m % 0x1000, m / 0x1000, 3);
  }

  lemma TopDigit(m: nat)
    requires m < 0x10000
    ensures DigitAt(m, 3) == m / 0x1000
  {
    var a := m / 16;
    var b := a / 16;
    var c := b / 16;
    assert DigitAt(m, 3) == DigitAt(a, 2) && DigitAt(a, 2) == DigitAt(b, 1) && DigitAt(b, 1) == DigitAt(c, 0);
    assert c == m / 0x1000;
  }

  lemma Powers()
    ensures Pow(16, 3) == 0x1000 && Pow(16, 4) == 0x10000 && Pow(16, 8) == 0x1_0000_0000
    ensures Pow(16, 12) == CLOCK_LIMIT
  {
    assert Pow(16, 2) == 256;
    assert Pow(16, 4) == 0x10000;
    assert Pow(16, 6) == 0x100_0000;
    assert Pow(16, 8) == 0x1_0000_0000;
    assert Pow(16, 10) == 0x100_0000_0000;
  }

  lemma Slices(a: string, b: string, c: string, d: string, e: string)
    requires |a| == 8 && |b| == |c| == |d| == 4 && |e| == 12
    ensures var s := a + "-" + b + "-" + c + "-" + d + "-" + e;
            && s[..8] == s[0..8] == a && s[9..13] == b && s[14..18] == c && s[19..23] == d && s[24..36] == e
            && s[8] == s[13] == s[18] == s[23] == '-'
  {
  }

  /** The readers on the five groups an id is written in. */
  lemma ReadGroups(s: string, c: string)
    requires |s| == 36 && s[8] == s[13] == s[18] == s[23] == '-'
    requires s[14..18] == "7" + c && s[19] in {'8', '9', 'a', 'b'}
    requires HexAt(s, 0, 8) && HexAt(s, 9, 13) && AllDigits(16, c) && HexAt(s, 19, 23) && HexAt(s, 24, 36)
    ensures IsUuidV7(s) && CounterOf(s) == Some(Value(16, c))
    ensures TimeOf(s) == Some(Value(16, s[0..8]) * Pow(16, 4) + Value(16, s[9..13]))
  {
    assert s[15..18] == s[14..18][1..] == c;
    assert s[14] == s[14..18][0] == '7';
    assert s[20..23] == s[19..23][1..];
    assert s[0..8] == s[..8];
    ValueConcat(16, s[..8], s[9..13]);
  }

  lemma Groups(c: Clock, r: Bits)
    requires c.Valid() && 0 <= c.lastMs
    ensures var s := Render(c, r);
            && s[0..8] == Hex(c.lastMs / 0x10000, 8) && s[9..13] == Hex(c.lastMs % 0x10000, 4)
            && s[14..18] == Hex(0x7000 + c.counter, 4) && s[19..23] == Hex(0x8000 + r.hi % 0x4000, 4)
            && s[8] == s[13] == s[18] == s[23] == '-' && HexAt(s, 24, 36)
  {
    var tail := r.hi / 0x4000 % 0x10000 * 0x1_0000_0000 + r.lo;
    Slices(Hex(c.lastMs / 0x10000, 8), Hex(c.lastMs % 0x10000, 4), Hex(0x7000 + c.counter, 4),
           Hex(0x8000 + r.hi % 0x4000, 4), Hex(tail, 12));
  }

  lemma VersionAndVariant(counter: nat, v: nat)
    requires counter <= COUNTER_MAX && 0x8000 <= v < 0xc000
    ensures Hex(0x7000 + counter, 4) == "7" + Hex(counter, 3)
    ensures Hex(v, 4)[0] in {'8', '9', 'a', 'b'}
  {
    hide Fixed;
    FourDigits(0x7000 + counter);
    FourDigits(v);
    assert 8 <= v / 0x1000 < 12;
  }

  /** Only the low 48 bits of the millisecond are printed. */
  function Wrapped(c: Clock): (w: Clock)
    requires c.lastMs >= 0
    ensures 0 <= w.lastMs < CLOCK_LIMIT
  {
    Clock(c.lastMs % CLOCK_LIMIT, c.counter)
  }

  lemma {:induction false} FixedWraps(n: nat, k: nat, w: nat)
    ensures Fixed(16, n + k * Pow(16, w), w) == Fixed(16, n, w)
  {
    if w > 0 {
      var p := Pow(16, w - 1);
      Sixteens(k, p);
      LowDigit(n, k * p);
      FixedWraps(n / 16, k, w - 1);
    }
  }

  lemma Sixteens(k: nat, p: nat)
    ensures k * (16 * p) == 16 * (k * p) && k * p >= 0
  {
  }

  lemma LowDigit(n: nat, m: nat)
    ensures (n + 16 * m) / 16 == n / 16 + m && (n + 16 * m) % 16 == n % 16
  {
  }

  /** An id is the id of its wrapped clock. */
  lemma RenderWraps(c: Clock, r: Bits)
    requires c.Valid() && 0 <= c.lastMs
    ensures Wrapped(c).Valid() && Render(c, r) == Render(Wrapped(c), r)
  {
    hide Fixed;
    Powers();
    var k, m := c.lastMs / CLOCK_LIMIT, c.lastMs % CLOCK_LIMIT;
    assert c.lastMs / 0x10000 == m / 0x10000 + k * 0x1_0000_0000 && c.lastMs % 0x10000 == m % 0x10000;
    FixedWraps(m / 0x10000, k, 8);
  }

  lemma ReadBelowLimit(c: Clock, r: Bits)
    requires c.Valid() && 0 <= c.lastMs < CLOCK_LIMIT
    ensures IsUuidV7(Render(c, r))
    ensures TimeOf(Render(c, r)) == Some(c.lastMs)
    ensures CounterOf(Render(c, r)) == Some(c.counter)
  {
    hide Render, Fixed, Value, IsUuidV7, TimeOf, CounterOf;
    var s := Render(c, r);
    Groups(c, r);
    VersionAndVariant(c.counter, 0x8000 + r.hi % 0x4000);
    assert s[19] == s[19..23][0];
    ReadGroups(s, Hex(c.counter, 3));
    Powers();
    FixedValue(16, c.lastMs / 0x10000, 8);
    FixedValue(16, c.lastMs % 0x10000, 4);
    FixedValue(16, c.counter, 3);
  }

  /** Every printed id is well formed and gives back its counter, and the low 48 bits of its
      millisecond: the millisecond itself exactly below 2^48. */
  lemma ReadBack(c: Clock, r: Bits)
    requires c.Valid() && 0 <= c.lastMs
    ensures IsUuidV7(Render(c, r))
    ensures TimeOf(Render(c, r)) == Some(c.lastMs % CLOCK_LIMIT)
    ensures TimeOf(Render(c, r)) == Some(c.lastMs) <==> c.lastMs < CLOCK_LIMIT
    ensures CounterOf(Render(c, r)) == Some(c.counter)
  {
    hide Render, IsUuidV7, TimeOf, CounterOf;
    RenderWraps(c, r);
    ReadBelowLimit(Wrapped(c), r);
  }

  function TailBits(r: Bits): (n: nat)
    ensures n < CLOCK_LIMIT
  {
    r.hi / 0x4000 % 0x10000 * 0x1_0000_0000 + r.lo
  }

  /** The random groups of an id. */
  lemma RandomGroups(c: Clock, r: Bits)
    requires c.Valid() && 0 <= c.lastMs
    ensures var s := Render(c, r); s[19..23] == Hex(0x8000 + r.hi % 0x4000, 4) && s[24..36] == Hex(TailBits(r), 12)
  {
    Slices(Hex(c.lastMs / 0x10000, 8), Hex(c.lastMs % 0x10000, 4), Hex(0x7000 + c.counter, 4),
           Hex(0x8000 + r.hi % 0x4000, 4), Hex(TailBits(r), 12));
  }

  /** Two ids of one clock reading are the same text exactly when all 62 random bits used in them
      are the same. */
  lemma RandomExactly(c: Clock, r: Bits, q: Bits)
    requires c.Valid() && 0 <= c.lastMs
    ensures Render(c, r) == Render(c, q)
       <==> r.hi % 0x4000_0000 == q.hi % 0x4000_0000 && r.lo == q.lo
  {
    hide Render, Fixed, Value, Pow;
    RandomGroups(c, r);
    RandomGroups(c, q);
    Powers();
    FixedValue(16, 0x8000 + r.hi % 0x4000, 4);
    FixedValue(16, 0x8000 + q.hi % 0x4000, 4);
    FixedValue(16, TailBits(r), 12);
    FixedValue(16, TailBits(q), 12);
    SameTail(r, q);
    if r.hi % 0x4000 == q.hi % 0x4000 && TailBits(r) == TailBits(q) { SameBits(c, r, q); }
  }

  lemma SameTail(r: Bits, q: Bits)
    ensures r.hi % 0x4000 == q.hi % 0x4000 && TailBits(r) == TailBits(q)
       <==> r.hi % 0x4000_0000 == q.hi % 0x4000_0000 && r.lo == q.lo
  {
    Parted(r);
    Parted(q);
  }

  lemma Parted(r: Bits)
    ensures r.hi % 0x4000_0000 == r.hi / 0x4000 % 0x10000 * 0x4000 + r.hi % 0x4000
  {
  }

  lemma SameBits(c: Clock, r: Bits, q: Bits)
    requires c.Valid() && 0 <= c.lastMs && r.hi % 0x4000 == q.hi % 0x4000 && TailBits(r) == TailBits(q)
    ensures Render(c, r) == Render(c, q)
  {
    hide Fixed;
  }

  /** The three groups that decide the order of two ids. */
  ghost predicate Laid(s: string, high: nat, low: nat, counter: nat) {
    && |s| == 36 && s[8] == s[13] == '-'
    && s[0..8] == Hex(high, 8) && s[9..13] == Hex(low, 4) && s[14..18] == Hex(0x7000 + counter, 4)
  }

  lemma LaidOut(c: Clock, r: Bits)
    requires c.Valid() && 0 <= c.lastMs
    ensures Laid(Render(c, r), c.lastMs / 0x10000, c.lastMs % 0x10000, c.counter)
  {
    Groups(c, r);
  }

  lemma LaidOrder(s: string, t: string, h: nat, l: nat, x: nat, k: nat, m: nat, y: nat)
    requires Laid(s, h, l, x) && Laid(t, k, m, y)
    requires k < Pow(16, 8) && m < Pow(16, 4) && x <= COUNTER_MAX && y <= COUNTER_MAX
    requires h < k || (h == k && (l < m || (l == m && x < y)))
    ensures LexLess(s, t)
  {
    if h < k {
      FixedOrder(16, h, k, 8);
      LexAt(s, t, 0, 8);
    } else {
      assert s[..9] == s[0..8] + "-" && t[..9] == t[0..8] + "-";
      if l < m {
        FixedOrder(16, l, m, 4);
        LexAt(s, t, 9, 13);
      } else {
        Powers();
        FixedOrder(16, 0x7000 + x, 0x7000 + y, 4);
        assert s[..14] == s[..9] + s[9..13] + "-" && t[..14] == t[..9] + t[9..13] + "-";
        LexAt(s, t, 14, 18);
      }
    }
  }

  /** A later stamp is a greater string, whatever the random bits are. */
  lemma StampOrder(c: Clock, d: Clock, r: Bits, q: Bits)
    requires c.Valid() && d.Valid() && 0 <= c.lastMs && d.lastMs < CLOCK_LIMIT
    requires c.Stamp() < d.Stamp()
    ensures d.lastMs >= 0 && LexLess(Render(c, r), Render(d, q))
  {
    Powers();
    LaidOut(c, r);
    LaidOut(d, q);
    LaidOrder(Render(c, r), Render(d, q), c.lastMs / 0x10000, c.lastMs % 0x10000, c.counter,
              d.lastMs / 0x10000, d.lastMs % 0x10000, d.counter);
  }

  /** Two ids sort as their wrapped stamps do, whenever those differ. */
  lemma OrderExactly(c: Clock, d: Clock, r: Bits, q: Bits)
    requires c.Valid() && d.Valid() && 0 <= c.lastMs && 0 <= d.lastMs
    requires Wrapped(c).Stamp() != Wrapped(d).Stamp()
    ensures LexLess(Render(c, r), Render(d, q)) <==> Wrapped(c).Stamp() < Wrapped(d).Stamp()
  {
    hide Render;
    RenderWraps(c, r);
    RenderWraps(d, q);
    if Wrapped(c).Stamp() < Wrapped(d).Stamp() {
      StampOrder(Wrapped(c), Wrapped(d), r, q);
    } else {
      StampOrder(Wrapped(d), Wrapped(c), q, r);
      NotBoth(Render(d, q), Render(c, r));
    }
  }

  lemma NotBoth(a: string, b: string)
    requires LexLess(a, b)
    ensures !LexLess(b, a)
  {
    if LexLess(b, a) {
      LexTransitive(a, b, a);
      LexIrreflexive(a);
    }
  }

  /** So the order is lost where the 48 bits run out: the id after the last of them sorts
      before it. */
  lemma OrderLostPastLimit(c: Clock, d: Clock, r: Bits, q: Bits)
    requires c.Valid() && c.lastMs == CLOCK_LIMIT - 1 && d == Tick(c, CLOCK_LIMIT)
    ensures c.Stamp() < d.Stamp() && LexLess(Render(d, q), Render(c, r))
  {
    OrderExactly(d, c, q, r);
  }

  /* ---- whole runs of one generator ---- */

  function Run(c: Clock, asked: seq<nat>): (cs: seq<Clock>)
    ensures |cs| == |asked|
    decreases asked
  {
    if asked == [] then [] else var d := Tick(c, asked[0]); [d] + Run(d, asked[1..])
  }

  function Max(asked: seq<nat>): (m: int)
    ensures m >= -1
  {
    if asked == [] then -1
    else var m := Max(asked[..|asked| - 1]); if m < asked[|asked| - 1] then asked[|asked| - 1] else m
  }

  lemma TickAdvances(c: Clock, ms: nat)
    requires c.Valid()
    ensures Tick(c, ms).Valid() && Tick(c, ms).lastMs >= 0
    ensures c.Stamp() < Tick(c, ms).Stamp() && ms <= Tick(c, ms).lastMs
  {
  }

  lemma {:induction false} RunAscends(c: Clock, asked: seq<nat>, i: nat, j: nat)
    requires c.Valid() && i < j < |asked|
    ensures c.Stamp() < Run(c, asked)[i].Stamp() < Run(c, asked)[j].Stamp()
    ensures Run(c, asked)[i].Valid() && Run(c, asked)[j].Valid()
    ensures 0 <= Run(c, asked)[i].lastMs <= Run(c, asked)[j].lastMs
    decreases asked
  {
    var d := Tick(c, asked[0]);
    TickAdvances(c, asked[0]);
    if i > 0 {
      RunAscends(d, asked[1..], i - 1, j - 1);
    } else if j > 1 {
      RunAscends(d, asked[1..], 0, j - 1);
    } else {
      TickAdvances(d, asked[1]);
    }
  }

  lemma {:induction false} RunSnoc(c: Clock, asked: seq<nat>, ms: nat)
    ensures var cs := Run(c, asked);
            Run(c, asked + [ms]) == cs + [Tick(if cs == [] then c else cs[|cs| - 1], ms)]
    decreases asked
  {
    if asked == [] {
      assert asked + [ms] == [ms];
    } else {
      RunSnoc(Tick(c, asked[0]), asked[1..], ms);
      assert (asked + [ms])[1..] == asked[1..] + [ms];
    }
  }

  /** The clock runs ahead of the largest instant asked for by at most one millisecond for
      every 4096 calls, and never falls behind it. */
  lemma {:induction false} Drift(asked: seq<nat>)
    requires asked != []
    ensures var last := Run(START, asked)[|asked| - 1];
            last.Valid() && Max(asked) <= last.lastMs <= Max(asked) + (|asked| - 1) / 4096
    ensures Run(START, asked)[|asked| - 1].Stamp() <= Max(asked) * 4096 + |asked| - 1
  {
    var n := |asked| - 1;
    var front := asked[..n];
    assert asked == front + [asked[n]];
    RunSnoc(START, front, asked[n]);
    if n > 0 { Drift(front); }
  }

  /** What one generator emits over a whole run: every id is well formed and carries its own
      clock reading, and the ids strictly increase as strings. */
  lemma IdsIncrease(asked: seq<nat>, random: seq<Bits>, i: nat, j: nat)
    requires |random| == |asked| && i < j < |asked|
    requires Run(START, asked)[j].lastMs < CLOCK_LIMIT
    ensures var cs := Run(START, asked);
            && cs[i].Valid() && cs[j].Valid() && 0 <= cs[i].lastMs <= cs[j].lastMs
            && LexLess(Render(cs[i], random[i]), Render(cs[j], random[j]))
            && TimeOf(Render(cs[i], random[i])) == Some(cs[i].lastMs)
            && CounterOf(Render(cs[i], random[i])) == Some(cs[i].counter)
  {
    var cs := Run(START, asked);
    RunAscends(START, asked, i, j);
    ReadBack(cs[i], random[i]);
    StampOrder(cs[i], cs[j], random[i], random[j]);
  }

  /** Instants fed in strictly ascending order come back out of the ids unchanged. */
  lemma {:induction false} AscendingIsExact(c: Clock, asked: seq<nat>, k: nat)
    requires c.Valid() && k < |asked| && c.lastMs < asked[0]
    requires forall i, j :: 0 <= i < j < |asked| ==> asked[i] < asked[j]
    ensures Run(c, asked)[k] == Clock(asked[k], 0)
    decreases asked
  {
    if k > 0 { AscendingIsExact(Clock(asked[0], 0), asked[1..], k - 1); }
  }

  /* ---- the generator itself ---- */

  class Generator {
    var lastMs: int
    var counter: nat

    function Now(): Clock
      reads this
    {
      Clock(lastMs, counter)
    }

    constructor ()
      ensures Now() == START
    {
      lastMs, counter := -1, 0;
    }

    method Next(at: Instant, r: Bits) returns (id: string)
      requires Now().Valid()
      modifies this
      ensures Now() == Tick(old(Now()), AskedMs(at)) && Now().Valid() && lastMs >= 0
      ensures id == Render(Now(), r)
      ensures IsUuidV7(id) && TimeOf(id) == Some(lastMs % CLOCK_LIMIT) && CounterOf(id) == Some(counter)
      ensures old(Now()).Stamp() < Now().Stamp()
    {
      hide IsUuidV7, TimeOf, CounterOf, AllDigits, Fixed;
      var ms := AskedMs(at);
      if ms > lastMs {
        lastMs := ms;
        counter := 0;
      } else if counter < COUNTER_MAX {
        counter := counter + 1;
      } else {
        lastMs := lastMs + 1;
        counter := 0;
      }
      var tail := r.hi / 0x4000 % 0x10000 * 0x1_0000_0000 + r.lo;
      id := Hex(lastMs / 0x10000, 8) + "-" + Hex(lastMs % 0x10000, 4) + "-" + Hex(0x7000 + counter, 4) + "-"
        + Hex(0x8000 + r.hi % 0x4000, 4) + "-" + Hex(tail, 12);
      ReadBack(Now(), r);
    }
  }
}
