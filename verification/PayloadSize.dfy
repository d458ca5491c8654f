/**
 How large a detection SEI unit is. Detection payloads never need emulation
 prevention, so the unit's size is an exact function of the text length and grows
 strictly with every box and every result.
 */
module PayloadSize {
  import opened Common
  import opened SeiNal
  import opened DetectionJson
  import StableSort

  const MAX_BYTES := 1024

  const UUID: seq<byte> := [0x19, 0x7c, 0x65, 0xee, 0xa1, 0x32, 0x4f, 0x53,
                            0x85, 0xa0, 0x8a, 0xf9, 0xad, 0x15, 0x3c, 0x4b]

  function EncodedResults(rs: seq<Result>): seq<byte> { EncodedNal(UUID, Json(rs)) }

  predicate Fits(rs: seq<Result>) { |EncodedResults(rs)| <= MAX_BYTES }

  // ----- no byte of a payload is zero -----

  ghost predicate Printable(s: seq<byte>) { forall i :: 0 <= i < |s| ==> s[i] >= 0x20 }

  lemma PrintableConcat(a: seq<byte>, b: seq<byte>)
    requires Printable(a) && Printable(b)
    ensures Printable(a + b)
  {}

  lemma {:induction false} PaddedPrintable(f: nat, d: nat)
    ensures Printable(Padded(f, d))
  {
    if d > 0 { PaddedPrintable(f / 10, d - 1); }
  }

  lemma NumberPrintable(v: int)
    ensures Printable(Number(v))
  {
    var w, f := NumberParts(v);
    MagnitudePrintable(w, f);
    PrintableConcat(Sign(Clipped(v) < 0), Magnitude(w, f));
  }

  lemma MagnitudePrintable(whole: nat, f: nat)
    requires f < 10000
    ensures Printable(Magnitude(whole, f))
  {
    DecimalPrintable(whole);
    if f > 0 {
      var p := Stripped(f, 4);
      PaddedPrintable(p.0, p.1);
      PrintableConcat([POINT], Padded(p.0, p.1));
    }
    PrintableConcat(Decimal(whole), Fraction(f));
  }

  lemma {:induction false} EscapedPrintable(s: seq<byte>)
    ensures Printable(EscapedText(s))
  {
    if s != [] {
      EscapedPrintable(s[1..]);
      PrintableConcat(EscapedChar(s[0]), EscapedText(s[1..]));
    }
  }

  lemma {:induction false} BoxPrintable(b: Box, field: nat, rest: seq<byte>)
    requires field <= 5 && Printable(rest)
    ensures Printable(BoxFrom(b, field, rest))
    decreases 5 - field
  {
    FieldPrintable(b, field);
    if field == 5 {
      PrintableConcat([CLOSE], rest);
      PrintableConcat(FieldText(b, field), [CLOSE] + rest);
    } else {
      var later := BoxFrom(b, field + 1, rest);
      BoxPrintable(b, field + 1, rest);
      PrintableConcat([COMMA], later);
      PrintableConcat(FieldText(b, field), [COMMA] + later);
    }
  }

  lemma FieldPrintable(b: Box, field: nat)
    ensures Printable(FieldText(b, field))
  {
    if field == 4 {
      EscapedPrintable(b.name);
    } else {
      NumberPrintable(if field == 0 then b.x else if field == 1 then b.y else if field == 2 then b.w
                      else if field == 3 then b.h else b.score);
    }
  }

  lemma {:induction false} MoreBoxesPrintable(bs: seq<Box>, rest: seq<byte>)
    requires Printable(rest)
    ensures Printable(MoreBoxes(bs, rest))
  {
    if bs != [] {
      var later := MoreBoxes(bs[1..], rest);
      MoreBoxesPrintable(bs[1..], rest);
      BoxPrintable(bs[0], 0, later);
      PrintableConcat([OPEN], BoxFrom(bs[0], 0, later));
      PrintableConcat([COMMA], BoxText(bs[0], later));
    }
  }

  lemma ResultPrintable(r: Result, rest: seq<byte>)
    requires Printable(rest)
    ensures Printable(ResultText(r, rest))
  {
    var boxes := BoxesText(r.boxes, TAIL + rest);
    MarksPrintable();
    DecimalPrintable(r.dt);
    PrintableConcat(TAIL, rest);
    BoxesPrintable(r.boxes, TAIL + rest);
    PrintableConcat(BOXES_HEAD, boxes);
    PrintableConcat(Decimal(r.dt), BOXES_HEAD + boxes);
    PrintableConcat(DT_HEAD, Decimal(r.dt) + (BOXES_HEAD + boxes));
  }

  lemma MarksPrintable()
    ensures Printable(DOC_HEAD) && Printable(DT_HEAD) && Printable(BOXES_HEAD) && Printable(TAIL)
  {}

  lemma DecimalPrintable(n: nat)
    ensures Printable(Decimal(n))
  {
    DecimalIsDigits(n);
  }

  lemma BoxesPrintable(bs: seq<Box>, rest: seq<byte>)
    requires Printable(rest)
    ensures Printable(BoxesText(bs, rest))
  {
    if bs != [] {
      MoreBoxesPrintable(bs[1..], rest);
      BoxPrintable(bs[0], 0, MoreBoxes(bs[1..], rest));
      PrintableConcat([OPEN], BoxFrom(bs[0], 0, MoreBoxes(bs[1..], rest)));
    }
  }

  lemma {:induction false} MoreResultsPrintable(rs: seq<Result>)
    ensures Printable(MoreResults(rs, TAIL))
  {
    if rs != [] {
      MoreResultsPrintable(rs[1..]);
      ResultPrintable(rs[0], MoreResults(rs[1..], TAIL));
    }
  }

  lemma JsonPrintable(rs: seq<Result>)
    ensures Printable(Json(rs))
  {
    if rs != [] {
      MoreResultsPrintable(rs[1..]);
      ResultPrintable(rs[0], MoreResults(rs[1..], TAIL));
    }
  }

  // ----- so escaping changes nothing -----

  ghost predicate NoZeroPair(s: seq<byte>) {
    forall i :: 0 <= i < |s| - 1 ==> s[i] != 0 || s[i + 1] != 0
  }

  lemma {:induction false} EscapeIsIdentity(zeros: nat, s: seq<byte>)
    requires zeros <= 1 && (zeros == 1 && s != [] ==> s[0] != 0)
    requires NoZeroPair(s)
    ensures Escape(zeros, s) == s
    decreases |s|
  {
    if s != [] {
      forall i | 0 <= i < |s[1..]| - 1 ensures s[1..][i] != 0 || s[1..][i + 1] != 0 {
        assert s[i + 1] != 0 || s[i + 2] != 0;
      }
      EscapeIsIdentity(if s[0] == 0 then zeros + 1 else 0, s[1..]);
    }
  }

  lemma {:induction false} SizeBytesShape(n: nat)
    ensures |SizeBytes(n)| == n / 255 + 1
    ensures forall i :: 0 <= i < |SizeBytes(n)| - 1 ==> SizeBytes(n)[i] == 0xff
  {
    if n >= 255 {
      SizeBytesShape(n - 255);
      assert n / 255 == (n - 255) / 255 + 1;
    }
  }

  lemma PrintableRbsp(payload: seq<byte>)
    requires Printable(payload)
    ensures NoZeroPair(Rbsp(UUID, payload))
  {
    var size := SizeBytes(|UUID| + |payload|);
    SizeBytesShape(|UUID| + |payload|);
    var tail := UUID + payload + [0x80];
    assert forall i :: 0 <= i < |tail| ==> tail[i] != 0;
    assert Rbsp(UUID, payload) == [5] + size + tail;
  }

  /** The size of a detection SEI unit in terms of its text. */
  lemma EncodedSize(rs: seq<Result>)
    ensures |EncodedResults(rs)| == 24 + (16 + |Json(rs)|) / 255 + |Json(rs)|
  {
    JsonPrintable(rs);
    PrintableRbsp(Json(rs));
    EscapeIsIdentity(0, Rbsp(UUID, Json(rs)));
    SizeBytesShape(|UUID| + |Json(rs)|);
  }

  /** A message fits exactly if its unit, with escaping and all, has at most 1024 bytes. */
  lemma FitsIff(rs: seq<Result>)
    ensures Fits(rs) <==> 24 + (16 + |Json(rs)|) / 255 + |Json(rs)| <= 1024
  {
    EncodedSize(rs);
  }

  lemma LongerTextIsLarger(a: seq<Result>, b: seq<Result>)
    requires |Json(a)| < |Json(b)|
    ensures |EncodedResults(a)| < |EncodedResults(b)|
  {
    EncodedSize(a);
    EncodedSize(b);
  }

  // ----- text length -----

  /** A box and its separating comma. */
  function BoxWeight(b: Box): nat { 1 + |BoxText(b, [])| }

  function MoreBoxesLength(bs: seq<Box>): nat { StableSort.Total(bs, BoxWeight) }

  lemma {:induction false} BoxLength(b: Box, field: nat, rest: seq<byte>)
    requires field <= 5
    ensures |BoxFrom(b, field, rest)| == |BoxFrom(b, field, [])| + |rest|
    decreases 5 - field
  {
    if field < 5 { BoxLength(b, field + 1, rest); }
  }

  lemma {:induction false} MoreBoxesLengthIs(bs: seq<Box>, rest: seq<byte>)
    ensures |MoreBoxes(bs, rest)| == MoreBoxesLength(bs) + |rest|
  {
    if bs != [] {
      MoreBoxesLengthIs(bs[1..], rest);
      BoxLength(bs[0], 0, MoreBoxes(bs[1..], rest));
    }
  }

  lemma MoreBoxesGrow(bs: seq<Box>, i: nat, j: nat)
    requires i < j <= |bs|
    ensures MoreBoxesLength(bs[..i]) < MoreBoxesLength(bs[..j])
  {
    var more := bs[i..j];
    assert bs[..j] == bs[..i] + more;
    StableSort.TotalOfConcat(bs[..i], more, BoxWeight);
    assert MoreBoxesLength(more) == BoxWeight(more[0]) + MoreBoxesLength(more[1..]);
  }

  function BoxesLength(bs: seq<Box>): nat {
    if bs == [] then 0 else MoreBoxesLength(bs) - 1
  }

  lemma BoxesLengthIs(bs: seq<Box>, rest: seq<byte>)
    ensures |BoxesText(bs, rest)| == BoxesLength(bs) + |rest|
  {
    if bs != [] {
      MoreBoxesLengthIs(bs[1..], rest);
      BoxLength(bs[0], 0, MoreBoxes(bs[1..], rest));
    }
  }

  lemma BoxesGrow(bs: seq<Box>, i: nat, j: nat)
    requires i < j <= |bs|
    ensures BoxesLength(bs[..i]) < BoxesLength(bs[..j])
  {
    MoreBoxesGrow(bs, i, j);
    assert |BoxText(bs[0], [])| > 0;
  }

  /** The unit for one result grows strictly with the number of boxes kept. */
  lemma SizeGrowsWithBoxes(dt: nat, bs: seq<Box>, i: nat, j: nat)
    requires i < j <= |bs|
    ensures |EncodedResults([Result(dt, bs[..i])])| < |EncodedResults([Result(dt, bs[..j])])|
  {
    BoxesGrow(bs, i, j);
    BoxesLengthIs(bs[..i], TAIL + TAIL);
    BoxesLengthIs(bs[..j], TAIL + TAIL);
    SingleLength(Result(dt, bs[..i]));
    SingleLength(Result(dt, bs[..j]));
    LongerTextIsLarger([Result(dt, bs[..i])], [Result(dt, bs[..j])]);
  }

  lemma SingleLength(r: Result)
    ensures |Json([r])| == 24 + |Decimal(r.dt)| + |BoxesText(r.boxes, TAIL + TAIL)|
  {
    assert [r][1..] == [];
    assert MoreResults([], TAIL) == TAIL;
    assert ResultsText([r], TAIL) == ResultText(r, TAIL);
  }

  lemma {:induction false} DecimalLength(n: nat, d: nat)
    requires 1 <= d <= 5 && n < (if d == 1 then 10 else if d == 2 then 100 else if d == 3 then 1000
                                 else if d == 4 then 10000 else 100000)
    ensures |Decimal(n)| <= d
  {
    if n >= 10 { DecimalLength(n / 10, d - 1); }
  }

  /** A result without boxes always fits. */
  lemma EmptyResultFits(dt: nat)
    requires dt <= 90000
    ensures Fits([Result(dt, [])])
  {
    DecimalLength(dt, 5);
    SingleLength(Result(dt, []));
    EncodedSize([Result(dt, [])]);
  }
}
