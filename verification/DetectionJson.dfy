/**
 The detection payload {"v":1,"r":[{"dt":N,"b":[[x,y,w,h,"class",score],...]},...]}:
 its printer, a parser for the documented grammar, and the proof that the parser
 recovers every printed result list.

 Coordinates and scores are integers in units of 1/10000, the precision the
 contract fixes; strings are byte strings.
 */
module DetectionJson {
  import opened Common

  datatype Box = Box(x: int, y: int, w: int, h: int, name: seq<byte>, score: int)

  datatype Result = Result(dt: nat, boxes: seq<Box>)

  const QUOTE: byte := 34
  const COMMA: byte := 44
  const MINUS: byte := 45
  const POINT: byte := 46
  const OPEN: byte := 91
  const BACKSLASH: byte := 92
  const CLOSE: byte := 93
  // {"v":1,"r":[
  const DOC_HEAD: seq<byte> := [123, 34, 118, 34, 58, 49, 44, 34, 114, 34, 58, 91]
  // {"dt":
  const DT_HEAD: seq<byte> := [123, 34, 100, 116, 34, 58]
  // ,"b":[
  const BOXES_HEAD: seq<byte> := [44, 34, 98, 34, 58, 91]
  // ]}
  const TAIL: seq<byte> := [93, 125]

  // ----- numbers -----

  /** Values beyond 1e9 are printed as zero. */
  const LIMIT := 10_000_000_000_000

  function Clipped(v: int): int { if -LIMIT <= v <= LIMIT then v else 0 }

  /** Powers of ten up to the four fraction digits. */
  function Scale(d: nat): nat {
    if d == 0 then 1 else if d == 1 then 10 else if d == 2 then 100 else if d == 3 then 1000 else 10000
  }

  /** A fraction and its digit count without trailing zeros. */
  function Stripped(f: nat, digits: nat): (r: (nat, nat))
    requires 0 < f < Scale(digits) && digits <= 4
    ensures 0 < r.1 <= digits && 0 < r.0 < Scale(r.1) && r.0 % 10 != 0
    ensures Weighted(f, 4 - digits) == Weighted(r.0, 4 - r.1)
  {
    if f % 10 == 0 then Stripped(f / 10, digits - 1) else (f, digits)
  }

  /** `f` printed with exactly `d` digits. */
  function Padded(f: nat, d: nat): seq<byte> {
    if d == 0 then [] else Padded(f / 10, d - 1) + [48 + f % 10]
  }

  function Fraction(f: nat): seq<byte>
    requires f < 10000
  {
    if f == 0 then [] else
      var s := Stripped(f, 4);
      [POINT] + Padded(s.0, s.1)
  }

  function Magnitude(whole: nat, f: nat): seq<byte>
    requires f < 10000
  {
    Decimal(whole) + Fraction(f)
  }

  function Number(v: int): seq<byte> {
    var c := Clipped(v);
    var a := if c < 0 then -c else c;
    Signed(c < 0, a / 10000, a % 10000)
  }

  function Sign(negative: bool): seq<byte> { if negative then [MINUS] else [] }

  function Signed(negative: bool, whole: nat, f: nat): seq<byte>
    requires f < 10000
  {
    Sign(negative) + Magnitude(whole, f)
  }

  method AppendFraction(out: seq<byte>, f: nat) returns (r: seq<byte>)
    requires f < 10000
    ensures r == out + Fraction(f)
  {
    if f == 0 { return out; }
    var fraction, digits: nat := f, 4;
    while fraction % 10 == 0
      invariant digits <= 4 && 0 < fraction < Scale(digits)
      invariant Stripped(fraction, digits) == Stripped(f, 4)
      decreases fraction
    {
      fraction := fraction / 10;
      digits := digits - 1;
    }
    r := out + ([POINT] + Padded(fraction, digits));
  }

  method AppendMagnitude(out: seq<byte>, whole: nat, f: nat) returns (r: seq<byte>)
    requires f < 10000
    ensures r == out + Magnitude(whole, f)
  {
    r := out + Decimal(whole);
    Assoc(out, Decimal(whole), Fraction(f));
    r := AppendFraction(r, f);
  }

  /** Rounding to an integer, halves away from zero. */
  function RoundAway(v: real): int { if v >= 0.0 then (v + 0.5).Floor else -(0.5 - v).Floor }

  predicate InRangeToPrint(v: Float) { v.Finite? && -1_000_000_000.0 <= v.r <= 1_000_000_000.0 }

  /** The units printed for a value; zero if it is not finite or too large. */
  function Units(v: Float): int { if InRangeToPrint(v) then RoundAway(v.r * 10000.0) else 0 }

  /** The value of so many units. */
  function OfUnits(n: int): Float { Finite(n as real / 10000.0) }

  lemma UnitsOf(n: int)
    ensures Units(OfUnits(n)) == Clipped(n)
  {
    var v := n as real / 10000.0;
    assert v * 10000.0 == n as real;
  }

  lemma NumberOfClipped(n: int)
    ensures Number(Clipped(n)) == Number(n)
  {}

  method AppendNumber(out: seq<byte>, value: Float) returns (r: seq<byte>)
    ensures r == out + Number(Units(value))
  {
    var v := if !value.Finite? || value.r > 1_000_000_000.0 || value.r < -1_000_000_000.0 then 0.0 else value.r;
    var scaled := RoundAway(v * 10000.0);
    UnitsInRange(value);
    assert scaled == Units(value);
    r := AppendUnits(out, scaled);
  }

  method AppendUnits(out: seq<byte>, n: int) returns (r: seq<byte>)
    requires Clipped(n) == n
    ensures r == out + Number(n)
  {
    var scaled := n;
    r := out;
    if scaled < 0 {
      r := r + [MINUS];
      scaled := -scaled;
    }
    assert r == out + Sign(n < 0);
    Assoc(out, Sign(n < 0), Magnitude(scaled / 10000, scaled % 10000));
    r := AppendMagnitude(r, scaled / 10000, scaled % 10000);
  }

  lemma UnitsInRange(v: Float)
    ensures Clipped(Units(v)) == Units(v)
    ensures InRangeToPrint(v) ==> -0.5 <= Units(v) as real - v.r * 10000.0 <= 0.5
  {}

  // ----- strings -----

  function Hex(d: nat): byte
    requires d < 16
  {
    if d < 10 then 48 + d else 87 + d
  }

  function EscapedChar(c: byte): seq<byte> {
    if c == QUOTE || c == BACKSLASH then [BACKSLASH, c]
    else if c < 0x20 then [BACKSLASH, 117, 48, 48, Hex(c / 16), Hex(c % 16)]
    else [c]
  }

  function EscapedText(s: seq<byte>): seq<byte> {
    if s == [] then [] else EscapedChar(s[0]) + EscapedText(s[1..])
  }

  function Text(s: seq<byte>): seq<byte> { [QUOTE] + EscapedText(s) + [QUOTE] }

  method AppendEscaped(out: seq<byte>, c: byte) returns (r: seq<byte>)
    ensures r == out + EscapedChar(c)
  {
    if c == QUOTE || c == BACKSLASH {
      r := out + [BACKSLASH];
      r := r + [c];
    } else if c < 0x20 {
      r := out + [BACKSLASH, 117, 48, 48, Hex(c / 16), Hex(c % 16)];
    } else {
      r := out + [c];
    }
  }

  method AppendString(out: seq<byte>, s: seq<byte>) returns (r: seq<byte>)
    ensures r == out + Text(s)
  {
    r := out + [QUOTE];
    for i := 0 to |s|
      invariant r + EscapedText(s[i..]) == (out + [QUOTE]) + EscapedText(s)
    {
      assert s[i..][1..] == s[i + 1..];
      Assoc(r, EscapedChar(s[i]), EscapedText(s[i + 1..]));
      r := AppendEscaped(r, s[i]);
    }
    assert EscapedText(s[|s|..]) == [];
    Assoc(out, [QUOTE], EscapedText(s));
    Assoc(out, [QUOTE] + EscapedText(s), [QUOTE]);
    r := r + [QUOTE];
  }

  // ----- document -----

  // Each function gives the text of its value followed by `rest`.

  function FieldText(b: Box, field: nat): seq<byte> {
    if field == 4 then Text(b.name)
    else Number(if field == 0 then b.x else if field == 1 then b.y else if field == 2 then b.w
                else if field == 3 then b.h else b.score)
  }

  function BoxFrom(b: Box, field: nat, rest: seq<byte>): seq<byte>
    requires field <= 5
    decreases 5 - field
  {
    FieldText(b, field) + (if field == 5 then [CLOSE] + rest else [COMMA] + BoxFrom(b, field + 1, rest))
  }

  function BoxText(b: Box, rest: seq<byte>): seq<byte> { [OPEN] + BoxFrom(b, 0, rest) }

  /** Boxes that follow another one. */
  function MoreBoxes(bs: seq<Box>, rest: seq<byte>): seq<byte> {
    if bs == [] then rest else [COMMA] + BoxText(bs[0], MoreBoxes(bs[1..], rest))
  }

  function BoxesText(bs: seq<Box>, rest: seq<byte>): seq<byte> {
    if bs == [] then rest else BoxText(bs[0], MoreBoxes(bs[1..], rest))
  }

  function ResultText(r: Result, rest: seq<byte>): seq<byte> {
    DT_HEAD + (Decimal(r.dt) + (BOXES_HEAD + BoxesText(r.boxes, TAIL + rest)))
  }

  function MoreResults(rs: seq<Result>, rest: seq<byte>): seq<byte> {
    if rs == [] then rest else [COMMA] + ResultText(rs[0], MoreResults(rs[1..], rest))
  }

  function ResultsText(rs: seq<Result>, rest: seq<byte>): seq<byte> {
    if rs == [] then rest else ResultText(rs[0], MoreResults(rs[1..], rest))
  }

  function Json(rs: seq<Result>): seq<byte> { DOC_HEAD + ResultsText(rs, TAIL) }

  /** Appends one field of a box and its separator; `rest` is whatever is appended later. */
  method AppendField(out: seq<byte>, b: Box, field: nat, separator: byte, ghost rest: seq<byte>)
    returns (r: seq<byte>)
    requires field <= 5 && separator == (if field == 5 then CLOSE else COMMA)
    ensures r + (if field == 5 then rest else BoxFrom(b, field + 1, rest)) == out + BoxFrom(b, field, rest)
  {
    ghost var later := if field == 5 then rest else BoxFrom(b, field + 1, rest);
    ghost var text := FieldText(b, field);
    if field == 4 {
      r := AppendString(out, b.name);
    } else {
      var units := if field == 0 then b.x else if field == 1 then b.y else if field == 2 then b.w
                   else if field == 3 then b.h else b.score;
      UnitsOf(units);
      NumberOfClipped(units);
      r := AppendNumber(out, OfUnits(units));
    }
    Assoc(out, text, [separator] + later);
    Assoc(out + text, [separator], later);
    r := r + [separator];
  }

  method AppendCorners(out: seq<byte>, b: Box, ghost rest: seq<byte>) returns (r: seq<byte>)
    ensures r + BoxFrom(b, 3, rest) == out + BoxText(b, rest)
  {
    ghost var whole := out + BoxText(b, rest);
    Assoc(out, [OPEN], BoxFrom(b, 0, rest));
    r := out + [OPEN];
    assert r + BoxFrom(b, 0, rest) == whole;
    r := AppendField(r, b, 0, COMMA, rest);
    assert r + BoxFrom(b, 1, rest) == whole;
    r := AppendField(r, b, 1, COMMA, rest);
    assert r + BoxFrom(b, 2, rest) == whole;
    r := AppendField(r, b, 2, COMMA, rest);
  }

  method AppendBox(out: seq<byte>, b: Box, ghost rest: seq<byte>) returns (r: seq<byte>)
    ensures r + rest == out + BoxText(b, rest)
  {
    r := AppendCorners(out, b, rest);
    r := AppendField(r, b, 3, COMMA, rest);
    r := AppendField(r, b, 4, COMMA, rest);
    r := AppendField(r, b, 5, CLOSE, rest);
  }

  method AppendBoxes(out: seq<byte>, bs: seq<Box>, ghost rest: seq<byte>) returns (r: seq<byte>)
    ensures r + rest == out + BoxesText(bs, rest)
  {
    r := out;
    for i := 0 to |bs|
      invariant r + (if i == 0 then BoxesText(bs, rest) else MoreBoxes(bs[i..], rest)) == out + BoxesText(bs, rest)
    {
      ghost var later := MoreBoxes(bs[i + 1..], rest);
      if i > 0 {
        assert bs[i..][1..] == bs[i + 1..];
        Assoc(r, [COMMA], BoxText(bs[i], later));
        r := r + [COMMA];
      }
      r := AppendBox(r, bs[i], later);
    }
  }

  method AppendResult(out: seq<byte>, x: Result, ghost rest: seq<byte>) returns (r: seq<byte>)
    ensures r + rest == out + ResultText(x, rest)
  {
    ghost var boxes := BoxesText(x.boxes, TAIL + rest);
    Assoc(out, DT_HEAD, Decimal(x.dt) + (BOXES_HEAD + boxes));
    Assoc(out + DT_HEAD, Decimal(x.dt), BOXES_HEAD + boxes);
    Assoc(out + DT_HEAD + Decimal(x.dt), BOXES_HEAD, boxes);
    r := out + DT_HEAD + Decimal(x.dt) + BOXES_HEAD;
    r := AppendBoxes(r, x.boxes, TAIL + rest);
    Assoc(r, TAIL, rest);
    r := r + TAIL;
  }

  method DetectionSeiJson(rs: seq<Result>) returns (out: seq<byte>)
    ensures out == Json(rs)
  {
    out := DOC_HEAD;
    for i := 0 to |rs|
      invariant out + (if i == 0 then ResultsText(rs, TAIL) else MoreResults(rs[i..], TAIL)) == Json(rs)
    {
      ghost var later := MoreResults(rs[i + 1..], TAIL);
      if i > 0 {
        assert rs[i..][1..] == rs[i + 1..];
        Assoc(out, [COMMA], ResultText(rs[i], later));
        out := out + [COMMA];
      }
      out := AppendResult(out, rs[i], later);
    }
    out := out + TAIL;
  }

  // ----- the parser -----

  datatype Parse<+T> = Fail | Got(value: T, rest: seq<byte>) {
    predicate IsFailure() { Fail? }
    function PropagateFailure<U>(): Parse<U> requires Fail? { Fail }
    function Extract(): (T, seq<byte>) requires Got? { (value, rest) }
  }

  predicate IsDigit(c: byte) { 48 <= c <= 57 }

  function Expect(s: seq<byte>, literal: seq<byte>): Parse<()> {
    if literal <= s then Got((), s[|literal|..]) else Fail
  }

  function ReadDigits(acc: nat, s: seq<byte>): (r: (nat, seq<byte>))
    ensures |r.1| <= |s|
    decreases |s|
  {
    if s == [] || !IsDigit(s[0]) then (acc, s) else ReadDigits(10 * acc + (s[0] - 48), s[1..])
  }

  function ParseNat(s: seq<byte>): (r: Parse<nat>)
    ensures r.Got? ==> |r.rest| < |s|
  {
    if s == [] || !IsDigit(s[0]) then Fail
    else
      var d := ReadDigits(s[0] - 48, s[1..]);
      Got(d.0, d.1)
  }

  /** One to four fraction digits. */
  function ReadFraction(s: seq<byte>): (r: Parse<nat>)
    ensures r.Got? ==> |r.rest| < |s|
  {
    var d := ReadDigits(0, s);
    var n := |s| - |d.1|;
    if 1 <= n <= 4 then Got(Weighted(d.0, 4 - n), d.1) else Fail
  }

  function Weighted(c: nat, d: nat): nat {
    if d == 0 then c else if d == 1 then 10 * c else if d == 2 then 100 * c
    else if d == 3 then 1000 * c else 10000 * c
  }

  /** digits(.digits)?, in units of 1/10000. */
  function ParseMagnitude(s: seq<byte>): (r: Parse<nat>)
    ensures r.Got? ==> |r.rest| < |s|
  {
    var (whole, s1) :- ParseNat(s);
    if s1 == [] || s1[0] != POINT then Got(10000 * whole, s1)
    else
      var (f, rest) :- ReadFraction(s1[1..]);
      Got(10000 * whole + f, rest)
  }

  function ParseNumber(s: seq<byte>): (r: Parse<int>)
    ensures r.Got? ==> |r.rest| < |s|
  {
    if s != [] && s[0] == MINUS then
      var (a, rest) :- ParseMagnitude(s[1..]);
      Got(-(a as int), rest)
    else
      var (a, rest) :- ParseMagnitude(s);
      Got(a, rest)
  }

  function HexValue(c: byte): Option<nat> {
    if IsDigit(c) then Some(c - 48) else if 97 <= c <= 102 then Some(c - 87) else None
  }

  /** The characters of a string up to and including its closing quote. */
  function ParseChars(s: seq<byte>): (r: Parse<seq<byte>>)
    ensures r.Got? ==> |r.rest| < |s|
    decreases |s|
  {
    if s == [] || s[0] < 0x20 then Fail
    else if s[0] == QUOTE then Got([], s[1..])
    else if s[0] != BACKSLASH then
      var (t, rest) :- ParseChars(s[1..]);
      Got([s[0]] + t, rest)
    else if |s| >= 6 && s[1] == 117 && s[2] == 48 && s[3] == 48 then
      match (HexValue(s[4]), HexValue(s[5]))
      case (Some(hi), Some(lo)) =>
        var (t, rest) :- ParseChars(s[6..]);
        Got([16 * hi + lo] + t, rest)
      case _ => Fail
    else if |s| >= 2 && (s[1] == QUOTE || s[1] == BACKSLASH) then
      var (t, rest) :- ParseChars(s[2..]);
      Got([s[1]] + t, rest)
    else Fail
  }

  function ParseText(s: seq<byte>): (r: Parse<seq<byte>>)
    ensures r.Got? ==> |r.rest| < |s|
  {
    var (_, s1) :- Expect(s, [QUOTE]);
    ParseChars(s1)
  }

  function ParseBox(s: seq<byte>): (r: Parse<Box>)
    ensures r.Got? ==> |r.rest| < |s|
  {
    var (_, s0) :- Expect(s, [OPEN]);
    var (x, s1) :- ParseNumber(s0);
    var (_, s2) :- Expect(s1, [COMMA]);
    var (y, s3) :- ParseNumber(s2);
    var (_, s4) :- Expect(s3, [COMMA]);
    var (w, s5) :- ParseNumber(s4);
    var (_, s6) :- Expect(s5, [COMMA]);
    var (h, s7) :- ParseNumber(s6);
    var (_, s8) :- Expect(s7, [COMMA]);
    var (name, s9) :- ParseText(s8);
    var (_, s10) :- Expect(s9, [COMMA]);
    var (score, s11) :- ParseNumber(s10);
    var (_, rest) :- Expect(s11, [CLOSE]);
    Got(Box(x, y, w, h, name, score), rest)
  }

  function ParseMoreBoxes(s: seq<byte>): (r: Parse<seq<Box>>)
    ensures r.Got? ==> |r.rest| <= |s|
    decreases |s|
  {
    if Expect(s, [COMMA]).Fail? then Got([], s)
    else
      var (b, s1) :- ParseBox(s[1..]);
      var (bs, rest) :- ParseMoreBoxes(s1);
      Got([b] + bs, rest)
  }

  function ParseBoxes(s: seq<byte>): (r: Parse<seq<Box>>)
    ensures r.Got? ==> |r.rest| <= |s|
  {
    if Expect(s, [OPEN]).Fail? then Got([], s)
    else
      var (b, s1) :- ParseBox(s);
      var (bs, rest) :- ParseMoreBoxes(s1);
      Got([b] + bs, rest)
  }

  function ParseResult(s: seq<byte>): (r: Parse<Result>)
    ensures r.Got? ==> |r.rest| < |s|
  {
    var (_, s1) :- Expect(s, DT_HEAD);
    var (dt, s2) :- ParseNat(s1);
    var (_, s3) :- Expect(s2, BOXES_HEAD);
    var (boxes, s4) :- ParseBoxes(s3);
    var (_, rest) :- Expect(s4, TAIL);
    Got(Result(dt, boxes), rest)
  }

  function ParseMoreResults(s: seq<byte>): (r: Parse<seq<Result>>)
    ensures r.Got? ==> |r.rest| <= |s|
    decreases |s|
  {
    if Expect(s, [COMMA]).Fail? then Got([], s)
    else
      var (x, s1) :- ParseResult(s[1..]);
      var (xs, rest) :- ParseMoreResults(s1);
      Got([x] + xs, rest)
  }

  function ParseResults(s: seq<byte>): (r: Parse<seq<Result>>) {
    if Expect(s, TAIL).Got? then Got([], s)
    else
      var (x, s1) :- ParseResult(s);
      var (xs, rest) :- ParseMoreResults(s1);
      Got([x] + xs, rest)
  }

  function ParseDocument(s: seq<byte>): Option<seq<Result>> {
    match Expect(s, DOC_HEAD)
    case Fail => None
    case Got(_, s1) =>
      match ParseResults(s1)
      case Fail => None
      case Got(rs, s2) => if s2 == TAIL then Some(rs) else None
  }

  // ----- the parser inverts the printer -----

  ghost predicate EndsNumber(rest: seq<byte>) {
    rest != [] && !IsDigit(rest[0]) && rest[0] != POINT
  }

  lemma {:induction false} DigitsRoundTrip(n: nat, rest: seq<byte>)
    ensures ReadDigits(0, Decimal(n) + rest) == ReadDigits(n, rest)
    ensures Decimal(n) != [] && IsDigit(Decimal(n)[0])
  {
    if n < 10 {
      assert (Decimal(n) + rest)[1..] == rest;
    } else {
      var last: seq<byte> := [48 + n % 10];
      assert Decimal(n) + rest == Decimal(n / 10) + (last + rest);
      DigitsRoundTrip(n / 10, last + rest);
      assert (last + rest)[1..] == rest;
      assert 10 * (n / 10) + n % 10 == n;
    }
  }

  lemma NatRoundTrip(n: nat, rest: seq<byte>)
    requires rest != [] && !IsDigit(rest[0])
    ensures ParseNat(Decimal(n) + rest) == Got(n, rest)
  {
    DigitsRoundTrip(n, rest);
    var s := Decimal(n) + rest;
    assert ReadDigits(0, s) == ReadDigits(s[0] - 48, s[1..]);
  }

  lemma {:induction false} PaddedRoundTrip(f: nat, d: nat, rest: seq<byte>)
    requires d <= 4 && f < Scale(d)
    ensures |Padded(f, d)| == d
    ensures ReadDigits(0, Padded(f, d) + rest) == ReadDigits(f, rest)
  {
    if d == 0 {
      assert Padded(f, d) + rest == rest;
    } else {
      var last: seq<byte> := [48 + f % 10];
      assert Padded(f, d) + rest == Padded(f / 10, d - 1) + (last + rest);
      PaddedRoundTrip(f / 10, d - 1, last + rest);
      assert (last + rest)[1..] == rest;
      assert 10 * (f / 10) + f % 10 == f;
    }
  }

  lemma FractionRoundTrip(f: nat, rest: seq<byte>)
    requires 0 < f < 10000 && EndsNumber(rest)
    ensures var s := Fraction(f) + rest; s[0] == POINT && ReadFraction(s[1..]) == Got(f, rest)
  {
    var p := Stripped(f, 4);
    var digits := Padded(p.0, p.1);
    assert (Fraction(f) + rest)[1..] == digits + rest;
    PaddedRoundTrip(p.0, p.1, rest);
    assert ReadDigits(0, digits + rest) == (p.0, rest);
  }

  lemma MagnitudeRoundTrip(whole: nat, f: nat, rest: seq<byte>)
    requires f < 10000 && EndsNumber(rest)
    ensures ParseMagnitude(Magnitude(whole, f) + rest) == Got(10000 * whole + f, rest)
    ensures Magnitude(whole, f) != [] && IsDigit(Magnitude(whole, f)[0])
  {
    DigitsRoundTrip(whole, []);
    var tail := Fraction(f) + rest;
    Assoc(Decimal(whole), Fraction(f), rest);
    if f == 0 {
      assert tail == rest;
      NatRoundTrip(whole, tail);
    } else {
      FractionRoundTrip(f, rest);
      NatRoundTrip(whole, tail);
    }
    MagnitudeStarts(whole, f);
  }

  lemma MagnitudeStarts(whole: nat, f: nat)
    requires f < 10000
    ensures Magnitude(whole, f) != [] && IsDigit(Magnitude(whole, f)[0])
  {
    DigitsRoundTrip(whole, []);
  }

  lemma SignedRoundTrip(negative: bool, whole: nat, f: nat, rest: seq<byte>)
    requires f < 10000 && EndsNumber(rest)
    ensures ParseNumber(Signed(negative, whole, f) + rest)
         == Got(if negative then -(10000 * whole + f) else 10000 * whole + f, rest)
  {
    var m := Magnitude(whole, f);
    MagnitudeRoundTrip(whole, f, rest);
    Assoc(Sign(negative), m, rest);
    SignRoundTrip(negative, m + rest, 10000 * whole + f, rest);
  }

  /** A sign is read as one, and nothing else is. */
  lemma SignRoundTrip(negative: bool, s: seq<byte>, n: int, rest: seq<byte>)
    requires s != [] && s[0] != MINUS && n >= 0 && ParseMagnitude(s) == Got(n, rest)
    ensures ParseNumber(Sign(negative) + s) == Got(if negative then -n else n, rest)
  {
    assert [] + s == s && ([MINUS] + s)[1..] == s;
  }

  lemma NumberRoundTrip(v: int, rest: seq<byte>)
    requires EndsNumber(rest)
    ensures ParseNumber(Number(v) + rest) == Got(Clipped(v), rest)
  {
    var w, f := NumberParts(v);
    SignedRoundTrip(Clipped(v) < 0, w, f, rest);
  }

  /** Sign, whole part and fraction of a printed number. */
  lemma NumberParts(v: int) returns (whole: nat, f: nat)
    ensures f < 10000
    ensures Clipped(v) == if Clipped(v) < 0 then -(10000 * whole + f) else 10000 * whole + f
    ensures Number(v) == Signed(Clipped(v) < 0, whole, f)
  {
    var c := Clipped(v);
    var a := if c < 0 then -c else c;
    whole, f := a / 10000, a % 10000;
    assert a == 10000 * whole + f;
  }

  /** What is printed for a value is read back as the nearest unit, or as zero if it is not finite or too large. */
  lemma ValueRoundTrip(v: Float, rest: seq<byte>)
    requires EndsNumber(rest)
    ensures var p := ParseNumber(Number(Units(v)) + rest);
            && p.Got? && p.rest == rest
            && (if InRangeToPrint(v) then -0.5 <= p.value as real - v.r * 10000.0 <= 0.5 else p.value == 0)
  {
    UnitsInRange(v);
    NumberRoundTrip(Units(v), rest);
  }

  /** A printed fraction never ends in the digit zero. */
  lemma NoTrailingZero(v: int)
    ensures POINT in Number(v) ==> Number(v)[|Number(v)| - 1] != 48
  {
    var w, f := NumberParts(v);
    MagnitudeLast(w, f);
  }

  lemma MagnitudeLast(whole: nat, f: nat)
    requires f < 10000
    ensures var m := Magnitude(whole, f); m != [] && (POINT in m ==> m[|m| - 1] != 48)
  {
    DecimalIsDigits(whole);
    DigitsRoundTrip(whole, []);
    if f > 0 {
      var p := Stripped(f, 4);
      var digits := Padded(p.0, p.1);
      assert digits[|digits| - 1] == 48 + p.0 % 10;
      assert Magnitude(whole, f) == Decimal(whole) + [POINT] + digits;
    }
  }

  lemma {:induction false} DecimalIsDigits(n: nat)
    ensures forall i :: 0 <= i < |Decimal(n)| ==> IsDigit(Decimal(n)[i])
  {
    if n >= 10 { DecimalIsDigits(n / 10); }
  }

  lemma {:induction false} CharsRoundTrip(s: seq<byte>, rest: seq<byte>)
    ensures ParseChars(EscapedText(s) + ([QUOTE] + rest)) == Got(s, rest)
  {
    var tail := [QUOTE] + rest;
    if s == [] {
      assert EscapedText(s) + tail == tail && tail[1..] == rest;
    } else {
      CharsRoundTrip(s[1..], rest);
      var head, more := EscapedChar(s[0]), EscapedText(s[1..]) + tail;
      Assoc(head, EscapedText(s[1..]), tail);
      CharRoundTrip(s[0], more);
      assert [s[0]] + s[1..] == s;
    }
  }

  lemma CharRoundTrip(c: byte, more: seq<byte>)
    requires ParseChars(more).Got?
    ensures ParseChars(EscapedChar(c) + more) == Got([c] + ParseChars(more).value, ParseChars(more).rest)
  {
    if c == QUOTE || c == BACKSLASH {
      PairRoundTrip(c, more);
    } else if c < 0x20 {
      assert 16 * (c / 16) + c % 16 == c;
      ControlRoundTrip(Hex(c / 16), Hex(c % 16), c / 16, c % 16, more);
    } else {
      PlainRoundTrip(c, more);
    }
  }

  lemma PlainRoundTrip(c: byte, more: seq<byte>)
    requires c >= 0x20 && c != QUOTE && c != BACKSLASH && ParseChars(more).Got?
    ensures ParseChars([c] + more) == Got([c] + ParseChars(more).value, ParseChars(more).rest)
  {
    assert ([c] + more)[1..] == more;
  }

  lemma PairRoundTrip(c: byte, more: seq<byte>)
    requires (c == QUOTE || c == BACKSLASH) && ParseChars(more).Got?
    ensures ParseChars([BACKSLASH, c] + more) == Got([c] + ParseChars(more).value, ParseChars(more).rest)
  {
    var s := [BACKSLASH, c] + more;
    assert s[2..] == more && s[1] == c;
  }

  lemma ControlRoundTrip(h: byte, l: byte, hi: nat, lo: nat, more: seq<byte>)
    requires HexValue(h) == Some(hi) && HexValue(l) == Some(lo) && 16 * hi + lo < 256 && ParseChars(more).Got?
    ensures ParseChars([BACKSLASH, 117, 48, 48, h, l] + more)
         == Got([16 * hi + lo] + ParseChars(more).value, ParseChars(more).rest)
  {
    var s := [BACKSLASH, 117, 48, 48, h, l] + more;
    assert s[6..] == more;
  }

  lemma TextRoundTrip(s: seq<byte>, rest: seq<byte>)
    ensures ParseText(Text(s) + rest) == Got(s, rest)
  {
    var chars: seq<byte> := EscapedText(s);
    Assoc([QUOTE] + chars, [QUOTE], rest);
    Assoc([QUOTE], chars, [QUOTE] + rest);
    ExpectFinds([QUOTE], chars + ([QUOTE] + rest));
    CharsRoundTrip(s, rest);
  }

  lemma ExpectFinds(literal: seq<byte>, rest: seq<byte>)
    ensures Expect(literal + rest, literal) == Got((), rest)
  {}

  function ClippedBox(b: Box): Box {
    Box(Clipped(b.x), Clipped(b.y), Clipped(b.w), Clipped(b.h), b.name, Clipped(b.score))
  }

  lemma BoxRoundTrip(b: Box, rest: seq<byte>)
    ensures ParseBox(BoxText(b, rest)) == Got(ClippedBox(b), rest)
  {
    var s1, s2, s3 := BoxFrom(b, 1, rest), BoxFrom(b, 2, rest), BoxFrom(b, 3, rest);
    var s4, s5 := BoxFrom(b, 4, rest), BoxFrom(b, 5, rest);
    ExpectFinds([OPEN], BoxFrom(b, 0, rest));
    NumberRoundTrip(b.x, [COMMA] + s1);
    ExpectFinds([COMMA], s1);
    NumberRoundTrip(b.y, [COMMA] + s2);
    ExpectFinds([COMMA], s2);
    NumberRoundTrip(b.w, [COMMA] + s3);
    ExpectFinds([COMMA], s3);
    NumberRoundTrip(b.h, [COMMA] + s4);
    ExpectFinds([COMMA], s4);
    TextRoundTrip(b.name, [COMMA] + s5);
    ExpectFinds([COMMA], s5);
    NumberRoundTrip(b.score, [CLOSE] + rest);
    ExpectFinds([CLOSE], rest);
  }

  function ClippedBoxes(bs: seq<Box>): seq<Box> {
    if bs == [] then [] else [ClippedBox(bs[0])] + ClippedBoxes(bs[1..])
  }

  lemma {:induction false} MoreBoxesRoundTrip(bs: seq<Box>, rest: seq<byte>)
    requires rest != [] && rest[0] == CLOSE
    ensures ParseMoreBoxes(MoreBoxes(bs, rest)) == Got(ClippedBoxes(bs), rest)
  {
    if bs != [] {
      var later := MoreBoxes(bs[1..], rest);
      ExpectFinds([COMMA], BoxText(bs[0], later));
      assert MoreBoxes(bs, rest)[1..] == BoxText(bs[0], later);
      BoxRoundTrip(bs[0], later);
      MoreBoxesRoundTrip(bs[1..], rest);
    }
  }

  lemma BoxesRoundTrip(bs: seq<Box>, rest: seq<byte>)
    requires rest != [] && rest[0] == CLOSE
    ensures ParseBoxes(BoxesText(bs, rest)) == Got(ClippedBoxes(bs), rest)
  {
    if bs != [] {
      var later := MoreBoxes(bs[1..], rest);
      ExpectFinds([OPEN], BoxFrom(bs[0], 0, later));
      BoxRoundTrip(bs[0], later);
      MoreBoxesRoundTrip(bs[1..], rest);
    }
  }

  function ClippedResults(rs: seq<Result>): seq<Result> {
    if rs == [] then [] else [Result(rs[0].dt, ClippedBoxes(rs[0].boxes))] + ClippedResults(rs[1..])
  }

  lemma ResultRoundTrip(r: Result, rest: seq<byte>)
    ensures ParseResult(ResultText(r, rest)) == Got(Result(r.dt, ClippedBoxes(r.boxes)), rest)
  {
    var boxes := BoxesText(r.boxes, TAIL + rest);
    ExpectFinds(DT_HEAD, Decimal(r.dt) + (BOXES_HEAD + boxes));
    NatRoundTrip(r.dt, BOXES_HEAD + boxes);
    ExpectFinds(BOXES_HEAD, boxes);
    BoxesRoundTrip(r.boxes, TAIL + rest);
    ExpectFinds(TAIL, rest);
  }

  lemma {:induction false} MoreResultsRoundTrip(rs: seq<Result>)
    ensures ParseMoreResults(MoreResults(rs, TAIL)) == Got(ClippedResults(rs), TAIL)
  {
    assert TAIL[0] != COMMA;
    if rs != [] {
      var later := MoreResults(rs[1..], TAIL);
      ExpectFinds([COMMA], ResultText(rs[0], later));
      assert MoreResults(rs, TAIL)[1..] == ResultText(rs[0], later);
      ResultRoundTrip(rs[0], later);
      MoreResultsRoundTrip(rs[1..]);
    }
  }

  lemma ResultsRoundTrip(rs: seq<Result>)
    ensures ParseResults(ResultsText(rs, TAIL)) == Got(ClippedResults(rs), TAIL)
  {
    if rs == [] {
      assert TAIL <= TAIL;
    } else {
      var later := MoreResults(rs[1..], TAIL);
      assert ResultsText(rs, TAIL)[0] == DT_HEAD[0] != TAIL[0];
      ResultRoundTrip(rs[0], later);
      MoreResultsRoundTrip(rs[1..]);
    }
  }

  /** The parser recovers every printed list, with out-of-range values read back as zero. */
  lemma DocumentRoundTrip(rs: seq<Result>)
    ensures ParseDocument(Json(rs)) == Some(ClippedResults(rs))
  {
    ExpectFinds(DOC_HEAD, ResultsText(rs, TAIL));
    ResultsRoundTrip(rs);
  }

  ghost predicate InRange(b: Box) {
    Clipped(b.x) == b.x && Clipped(b.y) == b.y && Clipped(b.w) == b.w && Clipped(b.h) == b.h &&
    Clipped(b.score) == b.score
  }

  lemma {:induction false} BoxesExact(bs: seq<Box>)
    ensures ClippedBoxes(bs) == bs <==> forall b :: b in bs ==> InRange(b)
  {
    if bs != [] {
      BoxesExact(bs[1..]);
      assert bs == [bs[0]] + bs[1..];
      var c := ClippedBoxes(bs);
      assert c[0] == ClippedBox(bs[0]) && c[1..] == ClippedBoxes(bs[1..]);
      if forall b :: b in bs ==> InRange(b) {
        assert InRange(bs[0]);
        assert c == bs;
      }
      if c == bs {
        assert ClippedBoxes(bs[1..]) == bs[1..] && ClippedBox(bs[0]) == bs[0];
        forall b | b in bs ensures InRange(b) { assert b == bs[0] || b in bs[1..]; }
      }
    }
  }

  lemma {:induction false} ResultsExact(rs: seq<Result>)
    ensures ClippedResults(rs) == rs <==> forall r, b :: r in rs && b in r.boxes ==> InRange(b)
  {
    if rs != [] {
      ResultsExact(rs[1..]);
      BoxesExact(rs[0].boxes);
      assert rs == [rs[0]] + rs[1..];
      var c := ClippedResults(rs);
      assert c[1..] == ClippedResults(rs[1..]);
      if c == rs {
        assert c[0] == rs[0] && ClippedResults(rs[1..]) == rs[1..];
      }
    }
  }

  /** The payload is read back exactly when, and only when, every value lies within the printable range. */
  lemma ExactRoundTrip(rs: seq<Result>)
    ensures ParseDocument(Json(rs)) == Some(rs) <==> forall r, b :: r in rs && b in r.boxes ==> InRange(b)
  {
    DocumentRoundTrip(rs);
    ResultsExact(rs);
  }

  // ----- normalisation -----

  function ClampUnit(v: Float): real {
    if v.NonFinite? || v.r < 0.0 then 0.0 else if v.r > 1.0 then 1.0 else v.r
  }

  /** Rounding of a non-negative value to units of 1/10000, halves upward. */
  function Round4(v: real): int { (v * 10000.0 + 0.5).Floor }

  function Ratio(v: Float, extent: int): Float
    requires extent > 0
  {
    if v.NonFinite? then NonFinite else Finite(v.r / extent as real)
  }

  function Extent(low: real, high: real): real { if high > low then high - low else 0.0 }

  function NormalizeBox(x1: Float, y1: Float, x2: Float, y2: Float, width: int, height: int,
                        name: seq<byte>, score: Float): Box
  {
    var s := Round4(ClampUnit(score));
    if width <= 0 || height <= 0 then Box(0, 0, 0, 0, name, s)
    else
      var left, top := ClampUnit(Ratio(x1, width)), ClampUnit(Ratio(y1, height));
      var right, bottom := ClampUnit(Ratio(x2, width)), ClampUnit(Ratio(y2, height));
      Box(Round4(left), Round4(top), Round4(Extent(left, right)), Round4(Extent(top, bottom)), name, s)
  }

  /** A fraction of the frame that lies exactly between two units. */
  predicate Halfway(v: real) { 0.0 <= v <= 1.0 && (v * 10000.0).Floor as real + 0.5 == v * 10000.0 }

  /** A box that reaches the far edge of the frame from exactly between two units: both its corner and its size round up. */
  predicate RoundsTwiceUp(low: Float, high: Float, whole: int)
    requires whole > 0
  {
    low.Finite? && high.Finite? && high.r >= whole as real && Halfway(low.r / whole as real)
  }

  /**
   Every normalised value lies in the frame, and so does the far edge of the box,
   except exactly when corner and size both round up; then it is one unit outside.
   */
  lemma NormalizedInFrame(x1: Float, y1: Float, x2: Float, y2: Float, width: int, height: int,
                          name: seq<byte>, score: Float)
    ensures var b := NormalizeBox(x1, y1, x2, y2, width, height, name, score);
            && InRange(b) && 0 <= b.score <= 10000
            && 0 <= b.x <= 10000 && 0 <= b.w <= 10000 && 0 <= b.y <= 10000 && 0 <= b.h <= 10000
            && b.x + b.w <= 10001 && b.y + b.h <= 10001
            && (b.x + b.w > 10000 <==> width > 0 && height > 0 && RoundsTwiceUp(x1, x2, width))
            && (b.y + b.h > 10000 <==> width > 0 && height > 0 && RoundsTwiceUp(y1, y2, height))
  {
    RoundUnit(ClampUnit(score));
    if width > 0 && height > 0 {
      AxisInFrame(x1, x2, width);
      AxisInFrame(y1, y2, height);
    }
  }

  lemma RoundUnit(v: real)
    requires 0.0 <= v <= 1.0
    ensures 0 <= Round4(v) <= 10000
    ensures v * 10000.0 - 0.5 < Round4(v) as real <= v * 10000.0 + 0.5
  {}

  /** One axis, in clamped fractions of the frame. */
  lemma EdgeUnits(low: real, high: real)
    requires 0.0 <= low <= 1.0 && 0.0 <= high <= 1.0
    ensures 0 <= Round4(low) <= 10000 && 0 <= Round4(Extent(low, high)) <= 10000
    ensures Round4(low) + Round4(Extent(low, high)) <= 10001
    ensures Round4(low) + Round4(Extent(low, high)) > 10000 <==> high == 1.0 && Halfway(low)
  {
    var extent := Extent(low, high);
    RoundUnit(low);
    RoundUnit(extent);
    var sum := Round4(low) + Round4(extent);
    assert sum as real <= 10001.0;
    if high <= low {
      assert Round4(extent) == 0;
      assert Halfway(1.0) == false;
    } else {
      var a := low * 10000.0;
      assert extent * 10000.0 == high * 10000.0 - a;
      if sum > 10000 {
        assert Round4(low) as real == a + 0.5;
        assert a.Floor == Round4(low) - 1;
      }
      if high == 1.0 && Halfway(low) {
        assert Round4(low) == a.Floor + 1;
        assert extent * 10000.0 + 0.5 == (10000 - a.Floor) as real;
      }
    }
  }

  /** One axis, in the detector's coordinates. */
  lemma AxisInFrame(low: Float, high: Float, whole: int)
    requires whole > 0
    ensures var l, h := ClampUnit(Ratio(low, whole)), ClampUnit(Ratio(high, whole));
            && 0 <= Round4(l) <= 10000 && 0 <= Round4(Extent(l, h)) <= 10000
            && Round4(l) + Round4(Extent(l, h)) <= 10001
            && (Round4(l) + Round4(Extent(l, h)) > 10000 <==> RoundsTwiceUp(low, high, whole))
  {
    var l, h := ClampUnit(Ratio(low, whole)), ClampUnit(Ratio(high, whole));
    EdgeUnits(l, h);
    assert !Halfway(0.0) && !Halfway(1.0);
    if high.Finite? { ReachesEdge(high.r, whole as real); }
  }

  lemma ReachesEdge(v: real, n: real)
    requires n > 0.0
    ensures v / n >= 1.0 <==> v >= n
  {
    var q := v / n;
    Divided(v, n);
    if q >= 1.0 { assert (q - 1.0) * n >= 0.0; } else { assert (1.0 - q) * n > 0.0; }
  }

  /** `units` is the fraction `part / whole` to the nearest 1/10000. */
  ghost predicate NearestUnit(units: int, part: real, whole: int)
    requires whole > 0
  {
    -0.5 <= units as real - part / whole as real * 10000.0 <= 0.5
  }

  /** A coordinate moved to the nearest point between 0 and `whole`; a non-finite one goes to 0. */
  function Within(v: Float, whole: real): real {
    if v.NonFinite? || v.r < 0.0 then 0.0 else if v.r > whole then whole else v.r
  }

  /**
   Every box: with its corners moved into the frame, its place and size are kept to the
   nearest unit, each in its own dimension, and so is its score, moved into [0, 1]. A
   box without a frame has no place, and corners in the wrong order give no size.
   */
  lemma NormalizedAccurate(x1: Float, y1: Float, x2: Float, y2: Float, width: int, height: int, name: seq<byte>, score: Float)
    ensures var b := NormalizeBox(x1, y1, x2, y2, width, height, name, score);
            && b.name == name && NearestUnit(b.score, Within(score, 1.0), 1)
            && (width <= 0 || height <= 0 ==> b.x == b.y == b.w == b.h == 0)
            && (width > 0 && height > 0 ==>
                  var l, r := Within(x1, width as real), Within(x2, width as real);
                  var t, d := Within(y1, height as real), Within(y2, height as real);
                  && NearestUnit(b.x, l, width) && NearestUnit(b.w, if r > l then r - l else 0.0, width)
                  && NearestUnit(b.y, t, height) && NearestUnit(b.h, if d > t then d - t else 0.0, height))
  {
    ScoreAccurate(score);
    if width > 0 && height > 0 {
      SpanAccurate(x1, x2, width);
      SpanAccurate(y1, y2, height);
    }
  }

  lemma ScoreAccurate(score: Float)
    ensures NearestUnit(Round4(ClampUnit(score)), Within(score, 1.0), 1)
  {
    RoundUnit(ClampUnit(score));
    Undivided(Within(score, 1.0));
  }

  lemma Undivided(v: real)
    ensures v / 1.0 == v
  {}

  lemma SpanAccurate(low: Float, high: Float, whole: int)
    requires whole > 0
    ensures var l, h := ClampUnit(Ratio(low, whole)), ClampUnit(Ratio(high, whole));
            var a, b := Within(low, whole as real), Within(high, whole as real);
            NearestUnit(Round4(l), a, whole) && NearestUnit(Round4(Extent(l, h)), if b > a then b - a else 0.0, whole)
  {
    ClampedRatio(low, whole);
    ClampedRatio(high, whole);
    var n := whole as real;
    var a, b := Within(low, n), Within(high, n);
    RoundUnit(a / n);
    ExtentRatio(a, b, n);
    RoundUnit(Extent(a / n, b / n));
  }

  lemma ClampedRatio(v: Float, whole: int)
    requires whole > 0
    ensures var n := whole as real; ClampUnit(Ratio(v, whole)) == Within(v, n) / n && 0.0 <= Within(v, n) / n <= 1.0
  {
    var n := whole as real;
    Divided(0.0, n);
    Divided(n, n);
    Cancel(1.0, n / n, n);
    Cancel(n / n, 1.0, n);
    if v.Finite? {
      Divided(v.r, n);
      if v.r < 0.0 { assert v.r / n < 0.0 by { Below(v.r / n, 0.0, n); } }
      else { Cancel(0.0, v.r / n, n); }
      ReachesEdge(v.r, n);
      if v.r <= n { Cancel(v.r / n, 1.0, n); }
    }
  }

  lemma Below(a: real, b: real, n: real)
    requires n > 0.0 && a * n < b * n
    ensures a < b
  {
    assert a >= b ==> (a - b) * n >= 0.0;
  }

  lemma ExtentRatio(a: real, b: real, n: real)
    requires 0.0 <= a <= n && 0.0 <= b <= n && n > 0.0
    ensures Extent(a / n, b / n) == (if b > a then b - a else 0.0) / n && 0.0 <= Extent(a / n, b / n) <= 1.0
  {
    Divided(0.0, n);
    if b > a { Fractions(a, b, n); } else { Fractions(b, a, n); }
  }

  lemma Fractions(low: real, high: real, n: real)
    requires 0.0 <= low <= high <= n && n > 0.0
    ensures 0.0 <= low / n <= high / n <= 1.0 && high / n - low / n == (high - low) / n
  {
    var l, h, d := low / n, high / n, (high - low) / n;
    Divided(low, n);
    Divided(high, n);
    Divided(high - low, n);
    Cancel(0.0, l, n);
    Cancel(l, h, n);
    Cancel(h, 1.0, n);
    assert (h - l) * n == h * n - l * n;
    Cancel(h - l, d, n);
    Cancel(d, h - l, n);
  }

  lemma Divided(a: real, n: real)
    requires n > 0.0
    ensures a / n * n == a
  {}

  lemma Cancel(a: real, b: real, n: real)
    requires n > 0.0 && a * n <= b * n
    ensures a <= b
  {
    assert a > b ==> (a - b) * n > 0.0;
  }

  /** The exception occurs at ordinary sizes: a box from column 4 to the right edge of a frame 640 wide. */
  lemma NormalizedOvershoot(y1: Float, y2: Float, height: int, name: seq<byte>, score: Float)
    requires height > 0
    ensures var b := NormalizeBox(Finite(4.0), y1, Finite(640.0), y2, 640, height, name, score);
            b.x + b.w == 10001
  {
    assert 4.0 / 640.0 == 0.00625;
    assert Halfway(0.00625);
    NormalizedInFrame(Finite(4.0), y1, Finite(640.0), y2, 640, height, name, score);
  }
}
