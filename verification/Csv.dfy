/** The CSV file a farm office opens, and a reader of it: section 2 of RFC 4180 with a
    semicolon for the comma. */
module Csv {
  import opened Text
  import opened PesoText
  import Amount

  datatype Cell = Empty | Label(text: string) | Number(value: real) | NotFinite

  /* ---- printing ---- */

  const STARTERS: set<char> := {'=', '+', '-', '@', '\t', '\r', '\U{ff1d}', '\U{ff0b}', '\U{ff0d}', '\U{ff20}'}

  predicate LooksLikeFormula(s: string) { s != "" && s[0] in STARTERS }

  /** The signs a formula starts with, the plain ones and the full-width ones, a tab and a
      carriage return, by code point. */
  lemma StartersExactly(s: string)
    ensures LooksLikeFormula(s) <==> s != "" && s[0] as int in {9, 13, 43, 45, 61, 64, 0xff0b, 0xff0d, 0xff1d, 0xff20}
  {
  }

  /** `-?\d+([.,]\d+)?`, whole. */
  predicate IsPlainNumber(s: string) { IsPlainBody(if s != "" && s[0] == '-' then s[1..] else s) }

  predicate IsPlainBody(body: string) {
    var (whole, rest) := Amount.TakeDigits(body);
    whole != "" && (rest == "" || ((rest[0] == '.' || rest[0] == ',') && rest[1..] != "" && AllDigits(10, rest[1..])))
  }

  function NeutralizeFormula(s: string): (t: string) {
    if LooksLikeFormula(s) && !IsPlainNumber(s) then "'" + s else s
  }

  function TrimZeros(s: string): (t: string)
    ensures AllDigits(10, s) ==> AllDigits(10, t)
  {
    if s != "" && s[|s| - 1] == '0' then TrimZeros(s[..|s| - 1]) else s
  }

  /** A number in thousandths as the runtime prints it, the point turned into a comma. */
  function NumberText(k: int): (s: string) {
    var m := Amount.Abs(k);
    Printed(if k < 0 then "-" else "", Digits(m / 1000), TrimZeros(Fixed(10, m, 3)))
  }

  /** `Math.round` to thousandths. */
  function Thousandths(value: real): (k: int) { (value * 1000.0 + 0.5).Floor }

  /** The text of a cell before it is quoted. */
  function Shown(c: Cell): (s: string) {
    match c
    case Empty => ""
    case Label(text) => NeutralizeFormula(text)
    case Number(value) => NumberText(Thousandths(value))
    case NotFinite => ""
  }

  predicate NeedsQuotes(s: string) { '"' in s || ';' in s || '\n' in s || '\r' in s }

  function Doubled(s: string): (t: string) {
    if s == "" then "" else (if s[0] == '"' then "\"\"" else [s[0]]) + Doubled(s[1..])
  }

  function Field(s: string): (t: string) { if NeedsQuotes(s) then "\"" + Doubled(s) + "\"" else s }

  function ShownRow(row: seq<Cell>): (texts: seq<string>)
    ensures |texts| == |row| && forall i :: 0 <= i < |row| ==> texts[i] == Shown(row[i])
  {
    seq(|row|, i requires 0 <= i < |row| => Shown(row[i]))
  }

  /** Fields joined by the separator. */
  function Line(texts: seq<string>): (s: string) {
    if texts == [] then ""
    else if |texts| == 1 then Field(texts[0])
    else Field(texts[0]) + ";" + Line(texts[1..])
  }

  const CRLF := "\r\n"

  const BOM := "\U{feff}"

  function Lines(rows: seq<seq<string>>): (s: string) {
    if rows == [] then "" else Line(rows[0]) + CRLF + Lines(rows[1..])
  }

  function ShownRows(rows: seq<seq<Cell>>): (texts: seq<seq<string>>)
    ensures |texts| == |rows| && forall i :: 0 <= i < |rows| ==> texts[i] == ShownRow(rows[i])
  {
    seq(|rows|, i requires 0 <= i < |rows| => ShownRow(rows[i]))
  }

  function Labels(header: seq<string>): (row: seq<Cell>)
    ensures |row| == |header| && forall i :: 0 <= i < |header| ==> row[i] == Label(header[i])
  {
    seq(|header|, i requires 0 <= i < |header| => Label(header[i]))
  }

  /** `toCsv`: every line ended, the last one too. */
  function ToCsv(header: seq<string>, rows: seq<seq<Cell>>): (s: string) {
    BOM + Lines(ShownRows([Labels(header)] + rows))
  }

  /* ---- reading ---- */

  /** Inside quotes: a doubled quote is one quote, a single one closes. */
  function ReadQuoted(s: string): (r: Option<(string, string)>)
    ensures r.Some? ==> |r.value.1| < |s|
  {
    if s == "" then None
    else if s[0] != '"' then
      var r := ReadQuoted(s[1..]);
      if r.None? then None else Some(([s[0]] + r.value.0, r.value.1))
    else if |s| > 1 && s[1] == '"' then
      var r := ReadQuoted(s[2..]);
      if r.None? then None else Some(("\"" + r.value.0, r.value.1))
    else Some(("", s[1..]))
  }

  predicate EndsField(c: char) { c == ';' || c == '"' || c == '\r' || c == '\n' }

  function ReadBare(s: string): (r: (string, string))
    ensures |r.1| <= |s|
  {
    if s == "" || EndsField(s[0]) then ("", s) else var r := ReadBare(s[1..]); ([s[0]] + r.0, r.1)
  }

  function ReadField(s: string): (r: Option<(string, string)>)
    ensures r.Some? ==> |r.value.1| <= |s|
  {
    if s != "" && s[0] == '"' then ReadQuoted(s[1..]) else Some(ReadBare(s))
  }

  /** One record: fields between separators, up to and including the line break. */
  function ReadRecord(s: string): (r: Option<(seq<string>, string)>)
    ensures r.Some? ==> |r.value.1| < |s|
    decreases |s|
  {
    var f := ReadField(s);
    if f.None? then None
    else
      var (text, rest) := f.value;
      if rest != "" && rest[0] == ';' then
        var more := ReadRecord(rest[1..]);
        if more.None? then None else Some(([text] + more.value.0, more.value.1))
      else if CRLF <= rest then Some(([text], rest[2..]))
      else None
  }

  function ReadRecords(s: string): (rows: Option<seq<seq<string>>>)
    decreases |s|
  {
    if s == "" then Some([])
    else
      var r := ReadRecord(s);
      if r.None? then None
      else
        var more := ReadRecords(r.value.1);
        if more.None? then None else Some([r.value.0] + more.value)
  }

  function ReadCsv(s: string): (rows: Option<seq<seq<string>>>) {
    if BOM <= s then ReadRecords(s[|BOM|..]) else None
  }

  /** Quotes stand around a field exactly when it holds one, a separator or a line break. */
  lemma PlainFieldExactly(s: string)
    ensures Field(s) == s <==> forall c :: c in s ==> c != '"' && c != ';' && c != '\n' && c != '\r'
  {
    DoubledIsLonger(s);
  }

  lemma {:induction false} DoubledIsLonger(s: string)
    ensures |Doubled(s)| >= |s|
  {
    if s != "" { DoubledIsLonger(s[1..]); }
  }

  /* ---- one field ---- */

  lemma {:induction false} QuotedReads(s: string, rest: string)
    requires rest != "" ==> rest[0] != '"'
    ensures ReadQuoted(Doubled(s) + "\"" + rest) == Some((s, rest))
  {
    var t := Doubled(s) + "\"" + rest;
    if s == "" {
      assert t == "\"" + rest && t[1..] == rest;
    } else {
      QuotedReads(s[1..], rest);
      var tail := Doubled(s[1..]) + "\"" + rest;
      if s[0] == '"' {
        assert t == "\"\"" + tail && t[2..] == tail;
        assert s == "\"" + s[1..];
      } else {
        assert t == [s[0]] + tail && t[1..] == tail;
        assert s == [s[0]] + s[1..];
      }
    }
  }

  lemma {:induction false} BareReads(s: string, rest: string)
    requires (forall c :: c in s ==> !EndsField(c)) && (rest != "" ==> EndsField(rest[0]))
    ensures ReadBare(s + rest) == (s, rest)
  {
    if s == "" {
      assert s + rest == rest;
    } else {
      assert s[0] in s && forall c :: c in s[1..] ==> c in s;
      assert (s + rest)[1..] == s[1..] + rest;
      BareReads(s[1..], rest);
      assert [s[0]] + s[1..] == s;
    }
  }

  lemma BareHasNoEnds(s: string)
    requires !NeedsQuotes(s)
    ensures forall c :: c in s ==> !EndsField(c)
  {
  }

  /** A field written, whatever is in it, reads back as it was. */
  lemma FieldReads(s: string, rest: string)
    requires rest != "" && (rest[0] == ';' || rest[0] == '\r')
    ensures ReadField(Field(s) + rest) == Some((s, rest))
  {
    hide ReadQuoted, ReadBare;
    if NeedsQuotes(s) {
      QuotedReads(s, rest);
      assert Field(s) + rest == "\"" + (Doubled(s) + "\"" + rest);
      assert (Field(s) + rest)[1..] == Doubled(s) + "\"" + rest;
    } else {
      BareHasNoEnds(s);
      BareReads(s, rest);
      if s != "" { assert s[0] in s && (s + rest)[0] == s[0]; } else { assert s + rest == rest; }
    }
  }

  /* ---- rows and files ---- */

  lemma LastField(s: string, rest: string)
    ensures ReadRecord(Field(s) + (CRLF + rest)) == Some(([s], rest))
  {
    hide ReadField, Field;
    var end := CRLF + rest;
    assert CRLF <= end && end[2..] == rest && end[0] == '\r';
    FieldReads(s, end);
  }

  lemma FieldBefore(s: string, tail: string)
    requires ReadRecord(tail).Some?
    ensures var r := ReadRecord(tail).value; ReadRecord(Field(s) + (";" + tail)) == Some(([s] + r.0, r.1))
  {
    hide ReadField, Field;
    var after := ";" + tail;
    assert after[1..] == tail && after[0] == ';';
    FieldReads(s, after);
  }

  /** A line of one field or more reads back whole; a line of none reads as one empty field. */
  lemma {:induction false} LineReads(texts: seq<string>, rest: string)
    ensures ReadRecord(Line(texts) + (CRLF + rest)) == Some((if texts == [] then [""] else texts, rest))
  {
    hide ReadRecord, Field;
    if |texts| <= 1 {
      var s := if texts == [] then "" else texts[0];
      EmptyField();
      LastField(s, rest);
      assert [s] == if texts == [] then [""] else texts;
    } else {
      var tail := Line(texts[1..]) + (CRLF + rest);
      LineReads(texts[1..], rest);
      FieldBefore(texts[0], tail);
      assert Line(texts) + (CRLF + rest) == Field(texts[0]) + (";" + tail);
      assert [texts[0]] + texts[1..] == texts;
    }
  }

  lemma EmptyField()
    ensures Field("") == ""
  {
  }

  /** What a row comes back as. */
  function Kept(rows: seq<seq<string>>): (out: seq<seq<string>>)
    ensures |out| == |rows| && forall i :: 0 <= i < |rows| ==> out[i] == if rows[i] == [] then [""] else rows[i]
  {
    seq(|rows|, i requires 0 <= i < |rows| => if rows[i] == [] then [""] else rows[i])
  }

  lemma LinesCons(row: seq<string>, rows: seq<seq<string>>)
    ensures Lines([row] + rows) == Line(row) + (CRLF + Lines(rows)) != ""
    ensures Kept([row] + rows) == [if row == [] then [""] else row] + Kept(rows)
  {
    hide Line;
    assert ([row] + rows)[1..] == rows;
  }

  lemma {:induction false} LinesRead(rows: seq<seq<string>>)
    ensures ReadRecords(Lines(rows)) == Some(Kept(rows))
  {
    if rows == [] {
      assert Kept(rows) == [];
    } else {
      hide ReadRecord, Line, Lines, Kept;
      LineReads(rows[0], Lines(rows[1..]));
      LinesRead(rows[1..]);
      assert rows == [rows[0]] + rows[1..];
      LinesCons(rows[0], rows[1..]);
    }
  }

  lemma {:induction false} LinesEnd(rows: seq<seq<string>>)
    requires rows != []
    ensures var s := Lines(rows); |s| >= 2 && s[|s| - 2] as int == 13 && s[|s| - 1] as int == 10
  {
    hide Line;
    if |rows| > 1 {
      LinesEnd(rows[1..]);
    } else {
      assert Lines(rows[1..]) == "";
    }
  }

  /** A file starts with the byte-order mark and every line of it, the last one too, ends with a
      carriage return and a line feed. */
  lemma CsvShape(header: seq<string>, rows: seq<seq<Cell>>)
    ensures var s := ToCsv(header, rows);
            |s| >= 3 && s[0] as int == 0xfeff && s[|s| - 2] as int == 13 && s[|s| - 1] as int == 10
  {
    hide Lines;
    LinesEnd(ShownRows([Labels(header)] + rows));
  }

  /** The file gives back every row and every cell as it was rendered. */
  lemma CsvRoundTrip(header: seq<string>, rows: seq<seq<Cell>>)
    ensures ReadCsv(ToCsv(header, rows)) == Some(Kept(ShownRows([Labels(header)] + rows)))
  {
    hide ReadRecords, Lines, Kept;
    LinesRead(ShownRows([Labels(header)] + rows));
    var body := Lines(ShownRows([Labels(header)] + rows));
    assert (BOM + body)[|BOM|..] == body;
  }

  /** Only a row of no cells is not told from a row of one empty cell. */
  lemma CsvIsExact(header: seq<string>, rows: seq<seq<Cell>>)
    ensures ReadCsv(ToCsv(header, rows)) == Some(ShownRows([Labels(header)] + rows))
       <==> header != [] && forall row :: row in rows ==> row != []
  {
    hide ReadCsv, ToCsv;
    CsvRoundTrip(header, rows);
    var all := [Labels(header)] + rows;
    var texts := ShownRows(all);
    if header != [] && forall row :: row in rows ==> row != [] {
      forall i | 0 <= i < |all| ensures texts[i] != [] {
        if i > 0 { assert all[i] == rows[i - 1] && rows[i - 1] in rows; }
        assert |texts[i]| == |all[i]| > 0;
      }
      assert Kept(texts) == texts;
    } else if header == [] {
      assert Kept(texts)[0] == [""] && texts[0] == [];
    } else {
      var row :| row in rows && row == [];
      var i :| 0 <= i < |rows| && rows[i] == row;
      assert all[i + 1] == row && texts[i + 1] == [] && Kept(texts)[i + 1] == [""];
    }
  }

  /* ---- text cells ---- */

  /** What may follow the digits of a typed number: nothing, or a point or a comma with digits. */
  predicate Decimals(mark: string, fraction: string) {
    AllDigits(10, fraction) && if fraction == "" then mark == "" else mark == "." || mark == ","
  }

  predicate TypedBody(s: string, whole: string, mark: string, fraction: string) {
    whole != "" && AllDigits(10, whole) && Decimals(mark, fraction) && s == whole + (mark + fraction)
  }

  /** A number as people type it: an optional minus, digits, and perhaps a point or a comma with
      digits after it. */
  predicate TypedNumber(s: string, sign: string, whole: string, mark: string, fraction: string) {
    Sign(sign) && TypedBody(whole + (mark + fraction), whole, mark, fraction) && s == sign + (whole + (mark + fraction))
  }

  lemma BodyParts(body: string) returns (whole: string, mark: string, fraction: string)
    requires IsPlainBody(body)
    ensures TypedBody(body, whole, mark, fraction)
  {
    hide Amount.TakeDigits;
    whole := Amount.TakeDigits(body).0;
    var rest := Amount.TakeDigits(body).1;
    mark, fraction := "", "";
    if rest != "" {
      mark, fraction := [rest[0]], rest[1..];
      assert rest == mark + fraction;
    } else {
      assert mark + fraction == rest;
    }
  }

  lemma BodyIsPlain(whole: string, mark: string, fraction: string)
    requires TypedBody(whole + (mark + fraction), whole, mark, fraction)
    ensures IsPlainBody(whole + (mark + fraction)) && (whole + (mark + fraction))[0] != '-'
  {
    hide Amount.TakeDigits;
    var rest := mark + fraction;
    if fraction != "" { assert rest[0] == mark[0] && rest[1..] == fraction; }
    assert (whole + rest)[0] == whole[0] && IsDigit(10, whole[0]);
    Amount.TakeAll(whole, rest);
  }

  /** What the pattern decides, scanning once from the left: whether the text is such a number. */
  lemma PlainNumberExactly(s: string)
    ensures IsPlainNumber(s) <==> exists sign, whole, mark, fraction :: TypedNumber(s, sign, whole, mark, fraction)
  {
    hide IsPlainBody, TypedBody;
    if IsPlainNumber(s) {
      var sign := if s != "" && s[0] == '-' then "-" else "";
      var body := if s != "" && s[0] == '-' then s[1..] else s;
      var whole, mark, fraction := BodyParts(body);
      SameBody(body, whole, mark, fraction);
      assert s == sign + body;
      assert TypedNumber(s, sign, whole, mark, fraction);
    }
    if exists sign, whole, mark, fraction :: TypedNumber(s, sign, whole, mark, fraction) {
      var sign, whole, mark, fraction :| TypedNumber(s, sign, whole, mark, fraction);
      var body := whole + (mark + fraction);
      BodyIsPlain(whole, mark, fraction);
      if sign == "-" { assert s[1..] == body; } else { assert s == body; }
    }
  }

  lemma SameBody(body: string, whole: string, mark: string, fraction: string)
    requires TypedBody(body, whole, mark, fraction)
    ensures body == whole + (mark + fraction)
  {
  }

  /** A text cell is what was typed, or that with one apostrophe in front: the apostrophe is
      there exactly when the text begins like a formula and is no number anybody would type. */
  lemma TextCellExactly(s: string)
    ensures Shown(Label(s)) == s || Shown(Label(s)) == "'" + s
    ensures Shown(Label(s)) != s <==>
              s != "" && s[0] in STARTERS
              && !exists sign, whole, mark, fraction :: TypedNumber(s, sign, whole, mark, fraction)
  {
    hide IsPlainNumber, TypedNumber;
    PlainNumberExactly(s);
    assert |"'" + s| == |s| + 1;
  }

  /** No cell a spreadsheet would run is left, whichever text it came from; guarding twice is
      guarding once. */
  lemma NeverRuns(s: string)
    ensures !LooksLikeFormula(NeutralizeFormula(s)) || IsPlainNumber(NeutralizeFormula(s))
    ensures NeutralizeFormula(NeutralizeFormula(s)) == NeutralizeFormula(s)
  {
    assert ("'" + s)[0] == '\'';
  }

  /** Two texts share a cell exactly when they are one text, or one is a guarded text with its
      apostrophe typed in. */
  lemma NeutralizedClash(s: string, t: string)
    ensures NeutralizeFormula(s) == NeutralizeFormula(t)
       <==> || s == t
            || (LooksLikeFormula(s) && !IsPlainNumber(s) && t == "'" + s)
            || (LooksLikeFormula(t) && !IsPlainNumber(t) && s == "'" + t)
  {
    hide IsPlainNumber;
    assert ("'" + s)[1..] == s && ("'" + t)[1..] == t;
    assert !LooksLikeFormula("'" + s) && !LooksLikeFormula("'" + t);
  }

  /* ---- number cells ---- */

  lemma {:induction false} TrimmedValue(s: string)
    requires AllDigits(10, s)
    ensures |TrimZeros(s)| <= |s|
    ensures Value(10, s) == Value(10, TrimZeros(s)) * Pow(10, |s| - |TrimZeros(s)|)
  {
    if s != "" && s[|s| - 1] == '0' {
      var front := s[..|s| - 1];
      TrimmedValue(front);
      assert Value(10, s) == 10 * Value(10, front) + DigitValue('0');
      var k := |front| - |TrimZeros(front)|;
      assert Pow(10, k + 1) == 10 * Pow(10, k);
      Amount.Regroup(10, Value(10, TrimZeros(front)), Pow(10, k));
      Amount.Regroup(Value(10, TrimZeros(front)), 10, Pow(10, k));
    } else {
      assert Pow(10, 0) == 1;
    }
  }

  /** A number cell is a plain number for the spreadsheet, rounded once to thousandths, with no
      separator to turn it into text: it is never quoted, and it reads as that number. */
  lemma NumberReads(value: real)
    ensures var s, k := Shown(Number(value)), Thousandths(value);
            var q := ParseQuantityInput(s);
            && -0.5 <= value * 1000.0 - (k as real) < 0.5
            && !NeedsQuotes(s) && (k >= 0 ==> !LooksLikeFormula(s))
            && q.Some? && q.value.scale <= 3 && Amount.SameNumber(q.value, Amount.Exact(k, 3))
  {
    hide Value, Digits, Fixed, TrimZeros, Cleaned, ReadPlain, Printed, AllDigits, NeedsQuotes, LooksLikeFormula;
    var k := Thousandths(value);
    var m := Amount.Abs(k);
    var sign := if k < 0 then "-" else "";
    var whole, fraction := Digits(m / 1000), TrimZeros(Fixed(10, m, 3));
    NumberChars(k);
    NumberValue(m);
    NumberPlainReads(sign, whole, fraction);
  }

  /** A number cell is as short as it can be: a comma exactly when there are thousandths beyond the
      units, and no zero at the end of them. */
  lemma NumberShape(value: real)
    ensures var s, k := Shown(Number(value)), Thousandths(value);
            && (',' in s <==> k % 1000 != 0) && '.' !in s
            && (',' in s ==> s[|s| - 1] != '0')
  {
    hide Digits, Fixed, TrimZeros, AllDigits, AllZeros, Thousandths;
    var k := Thousandths(value);
    var m := Amount.Abs(k);
    var whole, fraction := Digits(m / 1000), TrimZeros(Fixed(10, m, 3));
    NoMarks(whole);
    NoMarks(fraction);
    TrimmedExactly(Fixed(10, m, 3));
    ThousandthsZero(m);
    assert k % 1000 == 0 <==> m % 1000 == 0;
    var sign := if k < 0 then "-" else "";
    var tail := if fraction == "" then "" else "," + fraction;
    assert NumberText(k) == sign + whole + tail;
    assert fraction == "" <==> m % 1000 == 0;
    assert fraction != "" ==> tail[0] == ',';
    assert ',' in tail <==> fraction != "";
    assert ',' in sign + whole + tail <==> ',' in tail;
    assert '.' !in sign + whole + tail;
    assert Shown(Number(value)) == sign + whole + tail;
  }

  predicate AllZeros(s: string) { forall i :: 0 <= i < |s| ==> s[i] == '0' }

  /** Trimming stops at a digit that is not zero, and leaves nothing exactly when all are. */
  lemma {:induction false} TrimmedExactly(s: string)
    ensures TrimZeros(s) != "" ==> TrimZeros(s)[|TrimZeros(s)| - 1] != '0'
    ensures TrimZeros(s) == "" <==> AllZeros(s)
  {
    if s != "" && s[|s| - 1] == '0' { TrimmedExactly(s[..|s| - 1]); }
  }

  lemma Step(n: nat, d: nat, w: nat)
    requires d < 10
    ensures Fixed(10, 10 * n + d, w + 1) == Fixed(10, n, w) + [DigitChar(d)]
  {
    assert (10 * n + d) / 10 == n && (10 * n + d) % 10 == d;
  }

  lemma ThreeDigits(q: nat, a: nat, b: nat, c: nat)
    requires a < 10 && b < 10 && c < 10
    ensures Fixed(10, 10 * (10 * (10 * q + a) + b) + c, 3) == [DigitChar(a), DigitChar(b), DigitChar(c)]
  {
    hide Fixed, DigitChar;
    Step(q, a, 0);
    Step(10 * q + a, b, 1);
    Step(10 * (10 * q + a) + b, c, 2);
    assert Fixed(10, q, 0) == "";
  }

  lemma OnlyZero(d: nat)
    requires d < 10
    ensures DigitChar(d) == '0' <==> d == 0
  {
  }

  lemma ThousandthsZero(m: nat)
    ensures AllZeros(Fixed(10, m, 3)) <==> m % 1000 == 0
  {
    hide Fixed, DigitChar;
    var n := m / 10;
    var k := n / 10;
    var a, b, c := k % 10, n % 10, m % 10;
    assert m == 10 * (10 * (10 * (k / 10) + a) + b) + c;
    ThreeDigits(k / 10, a, b, c);
    OnlyZero(a);
    OnlyZero(b);
    OnlyZero(c);
    Remainder(k / 10, 100 * a + 10 * b + c);
    var s := Fixed(10, m, 3);
    assert AllZeros(s) <==> s[0] == '0' && s[1] == '0' && s[2] == '0';
  }

  lemma Remainder(q: nat, r: nat)
    requires r < 1000
    ensures (1000 * q + r) % 1000 == r
  {
  }

  lemma NumberChars(k: int)
    ensures !NeedsQuotes(NumberText(k)) && (k >= 0 ==> !LooksLikeFormula(NumberText(k)))
  {
    hide Digits, Fixed, TrimZeros;
    var m := Amount.Abs(k);
    assert AllDigits(10, Digits(m / 1000)) && AllDigits(10, TrimZeros(Fixed(10, m, 3)));
    PrintedIsPlain(if k < 0 then "-" else "", Digits(m / 1000), TrimZeros(Fixed(10, m, 3)));
  }

  lemma PrintedIsPlain(sign: string, whole: string, fraction: string)
    requires Sign(sign) && whole != "" && AllDigits(10, whole) && AllDigits(10, fraction)
    ensures !NeedsQuotes(Printed(sign, whole, fraction))
    ensures sign == "" ==> !LooksLikeFormula(Printed(sign, whole, fraction))
  {
    var s := Printed(sign, whole, fraction);
    forall c | c in s ensures c != '"' && c != ';' && c != '\n' && c != '\r' {
      assert c in sign || c in whole || c in fraction || c == ',';
    }
    if sign == "" { assert s[0] == whole[0]; }
  }

  lemma NumberPlainReads(sign: string, whole: string, fraction: string)
    requires Sign(sign) && whole != "" && AllDigits(10, whole) && AllDigits(10, fraction)
    ensures AllDigits(10, whole + fraction)
    ensures ReadPlain(Cleaned(Printed(sign, whole, fraction), SPACES))
         == Some(Amount.Exact(if sign == "-" then -(Value(10, whole + fraction) as int)
                              else Value(10, whole + fraction), |fraction|))
  {
    hide Value, ReadPlain, FirstComma, Erase, Printed, Pointed, AllDigits;
    var s := Printed(sign, whole, fraction);
    PrintedChars(sign, whole, fraction);
    EraseNone(s, SPACES);
    EraseNone(s, DOT);
    PointPut(sign, whole, fraction);
    PointedReads(sign, whole, fraction);
  }

  lemma NumberValue(m: nat)
    ensures var whole, fraction := Digits(m / 1000), TrimZeros(Fixed(10, m, 3));
            && |fraction| <= 3 && AllDigits(10, whole) && AllDigits(10, fraction) && AllDigits(10, whole + fraction)
            && Value(10, whole + fraction) * Pow(10, 3) == m * Pow(10, |fraction|)
  {
    hide Value, Digits, TrimZeros, Pow;
    var whole, full := Digits(m / 1000), Fixed(10, m, 3);
    var fraction := TrimZeros(full);
    LastThreeDigits(m);
    TrimmedValue(full);
    DigitsValue(m / 1000);
    ValueConcat(10, whole, fraction);
    Amount.TenAdd(|fraction|, 3 - |fraction|);
    Split(m / 1000, Value(10, fraction), Pow(10, |fraction|), Pow(10, 3 - |fraction|), m % 1000, m);
  }

  lemma LastThreeDigits(m: nat)
    ensures Value(10, Fixed(10, m, 3)) == m % 1000 && Pow(10, 3) == 1000
  {
    assert Pow(10, 0) == 1 && Pow(10, 1) == 10 && Pow(10, 2) == 100 && Pow(10, 3) == 1000;
    FixedMod(m);
    FixedValue(10, m % 1000, 3);
  }

  lemma FixedMod(m: nat)
    ensures Fixed(10, m, 3) == Fixed(10, m % 1000, 3)
  {
    hide Fixed, DigitChar;
    Three(m);
    Three(m % 1000);
    LowDigits(m / 1000, m % 1000);
    assert m == 1000 * (m / 1000) + m % 1000;
  }

  lemma LowDigits(q: nat, r: nat)
    ensures (1000 * q + r) % 10 == r % 10
    ensures (1000 * q + r) / 10 % 10 == r / 10 % 10
    ensures (1000 * q + r) / 10 / 10 % 10 == r / 10 / 10 % 10
  {
    assert (1000 * q + r) / 10 == 100 * q + r / 10;
    assert (1000 * q + r) / 10 / 10 == 10 * q + r / 10 / 10;
  }

  lemma Three(m: nat)
    ensures Fixed(10, m, 3) == [DigitChar(m / 10 / 10 % 10)] + [DigitChar(m / 10 % 10)] + [DigitChar(m % 10)]
  {
    assert Fixed(10, m / 10 / 10, 1) == Fixed(10, m / 10 / 10 / 10, 0) + [DigitChar(m / 10 / 10 % 10)];
    assert Fixed(10, m / 10, 2) == Fixed(10, m / 10 / 10, 1) + [DigitChar(m / 10 % 10)];
  }

  lemma Split(w: nat, f: nat, p: nat, q: nat, r: nat, m: nat)
    requires p * q == 1000 && r == f * q && m == 1000 * w + r
    ensures (w * p + f) * 1000 == m * p
  {
    assert f * 1000 == (f * q) * p;
    assert (w * p + f) * 1000 == 1000 * w * p + f * 1000;
  }
}
