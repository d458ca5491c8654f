/**
 Splicing a NAL unit into an access unit. The splicer scans raw bytes for the
 first start code whose header is a VCL type; the theorem says what a reader of
 the edited bytes sees: the same units, with the new one placed immediately
 before the first VCL unit, whatever start-code lengths and stray zeros occur.
 */
module Splice {
  import opened Common
  import opened AnnexB
  import SeiNal

  predicate IsVcl(kind: nat) { 1 <= kind <= 5 }

  /** A start code at `i` followed by the header of a VCL unit. */
  predicate VclCodeAt(b: seq<byte>, i: nat) {
    CodeAt(b, i) && i + 3 < |b| && IsVcl(b[i + 3] % 32)
  }

  ghost predicate HasVcl(nals: seq<Nal>) {
    exists k :: 0 <= k < |nals| && IsVcl(nals[k].kind)
  }

  /** `nals` with `unit` placed immediately before the first VCL unit, if there is one. */
  function Spliced(nals: seq<Nal>, unit: Nal): seq<Nal> {
    if nals == [] then []
    else if IsVcl(nals[0].kind) then [unit] + nals
    else [nals[0]] + Spliced(nals[1..], unit)
  }

  lemma {:induction false} SplicedAt(a: seq<Nal>, b: seq<Nal>, unit: Nal)
    requires !HasVcl(a)
    requires b != [] ==> IsVcl(b[0].kind)
    ensures Spliced(a + b, unit) == if b == [] then a else a + [unit] + b
  {
    if a == [] {
      assert a + b == b && a + [unit] + b == [unit] + b;
    } else {
      var x, rest := a[0], a[1..];
      HasVclTail(a);
      SplicedAt(rest, b, unit);
      SplicedAfter(x, rest + b, unit);
      assert a == [x] + rest;
      Assoc([x], rest, b);
      Assoc([x], rest + [unit], b);
      Assoc([x], rest, [unit]);
    }
  }

  lemma HasVclTail(nals: seq<Nal>)
    requires nals != []
    ensures HasVcl(nals) <==> IsVcl(nals[0].kind) || HasVcl(nals[1..])
  {
    var tail := nals[1..];
    if k :| 0 <= k < |nals| && IsVcl(nals[k].kind) { assert k > 0 ==> tail[k - 1] == nals[k]; }
    if k :| 0 <= k < |tail| && IsVcl(tail[k].kind) { assert nals[k + 1] == tail[k]; }
  }

  lemma SplicedAfter(x: Nal, s: seq<Nal>, unit: Nal)
    requires !IsVcl(x.kind)
    ensures Spliced([x] + s, unit) == [x] + Spliced(s, unit)
  {
    assert ([x] + s)[1..] == s;
  }

  // ----- chunks of a concatenation -----

  function Glue(a: seq<seq<byte>>, b: seq<seq<byte>>): seq<seq<byte>>
    requires |a| >= 1 && |b| >= 1
  {
    a[..|a| - 1] + [a[|a| - 1] + b[0]] + b[1..]
  }

  /** No start code of `a + b` lies across the seam. */
  ghost predicate NoStraddle(a: seq<byte>, b: seq<byte>) {
    forall i: nat :: CodeAt(a + b, i) ==> i + 3 <= |a| || |a| <= i
  }

  lemma PrependChunk(x: byte, s: seq<byte>)
    requires !CodeAt([x] + s, 0)
    ensures Chunks([x] + s) == [[x] + Chunks(s)[0]] + Chunks(s)[1..]
  {
    assert ([x] + s)[1..] == s;
    if |s| < 2 { assert Chunks(s) == [s]; }
  }

  lemma {:induction false} ChunksOfConcat(a: seq<byte>, b: seq<byte>)
    requires NoStraddle(a, b)
    ensures Chunks(a + b) == Glue(Chunks(a), Chunks(b))
  {
    if a == [] {
      assert a + b == b;
      assert [] + Chunks(b)[0] == Chunks(b)[0];
    } else if CodeAt(a + b, 0) {
      assert CodeAt(a, 0);
      assert (a + b)[3..] == a[3..] + b;
      StraddleShift(a, b, 3);
      ChunksOfConcat(a[3..], b);
      CodeGlue(Chunks(a[3..]), Chunks(b));
    } else {
      var t := a[1..];
      assert a == [a[0]] + t && a + b == [a[0]] + (t + b);
      StraddleShift(a, b, 1);
      ChunksOfConcat(t, b);
      PrependChunk(a[0], t + b);
      assert !CodeAt(a, 0);
      PrependChunk(a[0], t);
      PrependGlue(a[0], Chunks(t), Chunks(b));
    }
  }

  lemma StraddleShift(a: seq<byte>, b: seq<byte>, n: nat)
    requires NoStraddle(a, b) && n <= |a|
    ensures NoStraddle(a[n..], b)
  {
    assert a + b == a[..n] + (a[n..] + b);
    forall i: nat | CodeAt(a[n..] + b, i) ensures i + 3 <= |a[n..]| || |a[n..]| <= i {
      assert CodeAt(a + b, i + n);
    }
  }

  lemma CodeGlue(a: seq<seq<byte>>, b: seq<seq<byte>>)
    requires |a| >= 1 && |b| >= 1
    ensures [[]] + Glue(a, b) == Glue([[]] + a, b)
  {
    assert ([[]] + a)[..|a|] == [[]] + a[..|a| - 1];
  }

  lemma PrependGlue(x: byte, a: seq<seq<byte>>, b: seq<seq<byte>>)
    requires |a| >= 1 && |b| >= 1
    ensures var g := Glue(a, b); [[x] + g[0]] + g[1..] == Glue([[x] + a[0]] + a[1..], b)
  {
    var g := Glue(a, b);
    var xa := [[x] + a[0]] + a[1..];
    if |a| == 1 {
      assert a[..0] == [] && g == [a[0] + b[0]] + b[1..];
      assert xa == [[x] + a[0]] && xa[..0] == [];
      assert [x] + (a[0] + b[0]) == ([x] + a[0]) + b[0];
    } else {
      assert xa[..|xa| - 1] == [[x] + a[0]] + a[1..|a| - 1];
      assert g[0] == a[0] && g[1..] == a[1..|a| - 1] + [a[|a| - 1] + b[0]] + b[1..];
    }
  }

  lemma {:induction false} UnitsOfConcat(a: seq<seq<byte>>, b: seq<seq<byte>>)
    ensures Units(a + b) == Units(a) + Units(b)
  {
    if b == [] {
      assert a + b == a;
    } else {
      var n := |b| - 1;
      assert (a + b)[..|a + b| - 1] == a + b[..n];
      UnitsOfConcat(a, b[..n]);
    }
  }

  lemma TrailingZeroIgnored(s: seq<byte>)
    ensures ChunkUnit(s + [0]) == ChunkUnit(s)
  {
    assert (s + [0])[..|s|] == s;
  }

  // ----- headers -----

  ghost predicate PlainHead(chunk: seq<byte>) { chunk == [] || !IsVcl(chunk[0] % 32) }

  lemma {:induction false} ChunksWithoutVcl(b: seq<byte>)
    requires forall j: nat :: !VclCodeAt(b, j)
    ensures forall k :: 1 <= k < |Chunks(b)| ==> PlainHead(Chunks(b)[k])
  {
    if |b| >= 3 {
      if CodeAt(b, 0) {
        forall j: nat ensures !VclCodeAt(b[3..], j) { assert !VclCodeAt(b, j + 3); }
        ChunksWithoutVcl(b[3..]);
        assert !VclCodeAt(b, 0);
        assert PlainHead(Chunks(b[3..])[0]);
      } else {
        forall j: nat ensures !VclCodeAt(b[1..], j) { assert !VclCodeAt(b, j + 1); }
        ChunksWithoutVcl(b[1..]);
      }
    }
  }

  lemma {:induction false} PlainUnits(chunks: seq<seq<byte>>)
    requires forall k :: 0 <= k < |chunks| ==> PlainHead(chunks[k])
    ensures !HasVcl(Units(chunks))
  {
    if chunks != [] {
      var n := |chunks| - 1;
      PlainUnits(chunks[..n]);
      assert PlainHead(chunks[n]);
    }
  }

  lemma VclHeadUnit(s: seq<byte>)
    requires s != [] && IsVcl(s[0] % 32)
    ensures Chunks(s)[0] != [] && Chunks(s)[0][0] == s[0]
    ensures var u := Units(Chunks(s)); u != [] && IsVcl(u[0].kind)
  {
    var c := Chunks(s);
    assert !CodeAt(s, 0);
    assert c[0] != [] && c[0][0] == s[0];
    VclChunkUnit(c[0]);
    assert c == [c[0]] + c[1..];
    UnitsOfConcat([c[0]], c[1..]);
    assert Units([c[0]]) == Units([]) + ChunkUnit(c[0]);
  }

  lemma {:induction false} VclChunkUnit(chunk: seq<byte>)
    requires chunk != [] && IsVcl(chunk[0] % 32)
    ensures |ChunkUnit(chunk)| == 1 && IsVcl(ChunkUnit(chunk)[0].kind)
  {
    if chunk[|chunk| - 1] == 0 {
      VclChunkUnit(chunk[..|chunk| - 1]);
    }
  }

  // ----- the splice theorem -----

  function InsertPoint(au: seq<byte>, i: nat): nat
    requires i < |au|
  {
    if i > 0 && au[i - 1] == 0 then i - 1 else i
  }

  /** The insertion never splits a four-byte start code: what follows it starts with a whole one. */
  lemma StartCodeKept(au: seq<byte>, i: nat)
    requires VclCodeAt(au, i)
    ensures var at := InsertPoint(au, i);
            || au[at..i + 3] == [0, 0, 0, 1]
            || (au[at..i + 3] == [0, 0, 1] && (at == 0 || au[at - 1] != 0))
  {}

  /** What precedes the insertion point, read as units, with or without a stray zero at its end. */
  lemma LeadUnits(cp: seq<seq<byte>>, zero: seq<byte>)
    requires |cp| >= 1 && (zero == [] || zero == [0])
    ensures Units(Glue(cp, [zero])[1..]) == Units(cp[1..])
  {
    var n := |cp| - 1;
    var g := Glue(cp, [zero]);
    assert [zero][1..] == [];
    if n == 0 {
      assert g[1..] == [] == cp[1..];
    } else {
      assert g[1..] == cp[1..n] + [cp[n] + zero];
      assert cp[1..] == cp[1..n] + [cp[n]];
      UnitsOfConcat(cp[1..n], [cp[n] + zero]);
      UnitsOfConcat(cp[1..n], [cp[n]]);
      assert Units([cp[n] + zero]) == Units([]) + ChunkUnit(cp[n] + zero);
      assert Units([cp[n]]) == Units([]) + ChunkUnit(cp[n]);
      if zero == [] { assert cp[n] + zero == cp[n]; } else { TrailingZeroIgnored(cp[n]); }
    }
  }

  /** The tail of the access unit from the insertion point: its lead zero, then the VCL unit and the rest. */
  lemma TailChunks(au: seq<byte>, i: nat) returns (zero: seq<byte>)
    requires VclCodeAt(au, i)
    ensures zero == [] || zero == [0]
    ensures Chunks(au[InsertPoint(au, i)..]) == [zero] + Chunks(au[i + 3..])
  {
    var at := InsertPoint(au, i);
    var code := au[i..];
    assert CodeAt(code, 0) && code[3..] == au[i + 3..];
    assert Chunks(code) == [[]] + Chunks(au[i + 3..]);
    if at == i {
      zero := [];
    } else {
      zero := [0];
      assert au[at..] == [0] + code;
      assert !CodeAt([0] + code, 0);
      PrependChunk(0, code);
      assert [0] + [] == [0];
    }
  }

  lemma SeamsAreClean(au: seq<byte>, i: nat, body: seq<byte>)
    requires VclCodeAt(au, i)
    requires body != [] && body[|body| - 1] != 0
    ensures var at := InsertPoint(au, i); var nal := [0, 0, 0, 1] + body;
            && NoStraddle(au[..at], au[at..])
            && NoStraddle(nal, au[at..])
            && NoStraddle(au[..at], nal + au[at..])
  {
    var at := InsertPoint(au, i);
    assert au[..at] + au[at..] == au;
    var nal := [0, 0, 0, 1] + body;
    assert nal[|nal| - 1] != 0;
    var rest := nal + au[at..];
    assert rest[0] == 0 && rest[1] == 0;
  }

  lemma SpliceCorrect(au: seq<byte>, i: nat, body: seq<byte>)
    requires VclCodeAt(au, i) && forall j: nat :: j < i ==> !VclCodeAt(au, j)
    requires SeiNal.Protected(body) && body != [] && body[|body| - 1] != 0
    ensures var at := InsertPoint(au, i);
            Split(au[..at] + ([0, 0, 0, 1] + body) + au[at..])
              == Spliced(Split(au), Nal(body[0] % 32, body[1..]))
    ensures HasVcl(Split(au))
  {
    var at := InsertPoint(au, i);
    var unit := Nal(body[0] % 32, body[1..]);
    var lead := au[..at];
    var before, after := Units(Chunks(lead)[1..]), Units(Chunks(au[i + 3..]));
    var nal: seq<byte> := [0, 0, 0, 1] + body;
    OriginalSplit(au, i);
    EditedSplit(au, i, body, nal);
    assert lead + nal + au[at..] == lead + (nal + au[at..]);
    forall j: nat ensures !VclCodeAt(lead, j) { assert VclCodeAt(lead, j) ==> VclCodeAt(au, j); }
    ChunksWithoutVcl(lead);
    PlainUnits(Chunks(lead)[1..]);
    VclHeadUnit(au[i + 3..]);
    SplicedAt(before, after, unit);
    assert Split(au)[|before|] == after[0];
  }

  lemma OriginalSplit(au: seq<byte>, i: nat)
    requires VclCodeAt(au, i)
    ensures Split(au) == Units(Chunks(au[..InsertPoint(au, i)])[1..]) + Units(Chunks(au[i + 3..]))
  {
    var at := InsertPoint(au, i);
    SeamsAreClean(au, i, [1]);
    var zero := TailChunks(au, i);
    ChunksOfConcat(au[..at], au[at..]);
    assert au[..at] + au[at..] == au;
    SplitOfGlued(au, Chunks(au[..at]), zero, Chunks(au[i + 3..]));
  }

  lemma EditedSplit(au: seq<byte>, i: nat, body: seq<byte>, nal: seq<byte>)
    requires VclCodeAt(au, i)
    requires SeiNal.Protected(body) && body != [] && body[|body| - 1] != 0
    requires nal == [0, 0, 0, 1] + body
    ensures var at := InsertPoint(au, i);
            Split(au[..at] + (nal + au[at..]))
              == Units(Chunks(au[..at])[1..]) + [Nal(body[0] % 32, body[1..])] + Units(Chunks(au[i + 3..]))
  {
    var at := InsertPoint(au, i);
    SeamsAreClean(au, i, body);
    SeiNal.UnitChunks(body);
    var zero := TailChunks(au, i);
    GluedEdit(au[..at], nal, body, au[at..], zero, Chunks(au[i + 3..]));
    SplitEdited(au[..at] + (nal + au[at..]), Chunks(au[..at]), body, zero, Chunks(au[i + 3..]));
  }

  lemma GluedEdit(lead: seq<byte>, nal: seq<byte>, body: seq<byte>, tail: seq<byte>,
                  zero: seq<byte>, ct: seq<seq<byte>>)
    requires Chunks(nal) == [[0], body] && Chunks(tail) == [zero] + ct
    requires NoStraddle(nal, tail) && NoStraddle(lead, nal + tail)
    ensures Chunks(lead + (nal + tail)) == Glue(Chunks(lead), [[0]] + ([body + zero] + ct))
  {
    ChunksOfConcat(nal, tail);
    GlueUnit(body, zero, ct);
    ChunksOfConcat(lead, nal + tail);
  }

  lemma SplitEdited(b: seq<byte>, before: seq<seq<byte>>, body: seq<byte>, zero: seq<byte>, ct: seq<seq<byte>>)
    requires body != [] && body[|body| - 1] != 0 && (zero == [] || zero == [0])
    requires |before| >= 1 && Chunks(b) == Glue(before, [[0]] + ([body + zero] + ct))
    ensures Split(b) == Units(before[1..]) + [Nal(body[0] % 32, body[1..])] + Units(ct)
  {
    var lead, rest := Units(before[1..]), Units(ct);
    var head := [Nal(body[0] % 32, body[1..])];
    assert Split(b) == lead + (head + rest) by {
      SplitOfGlued(b, before, [0], [body + zero] + ct);
      BodyUnits(body, zero, ct);
    }
    assert lead + (head + rest) == lead + head + rest;
  }

  lemma GlueUnit(body: seq<byte>, zero: seq<byte>, ct: seq<seq<byte>>)
    ensures Glue([[0], body], [zero] + ct) == [[0]] + ([body + zero] + ct)
  {
    var a: seq<seq<byte>> := [[0], body];
    assert a[..1] == [[0]];
    assert ([zero] + ct)[1..] == ct;
  }

  lemma BodyUnits(body: seq<byte>, zero: seq<byte>, ct: seq<seq<byte>>)
    requires body != [] && body[|body| - 1] != 0 && (zero == [] || zero == [0])
    ensures Units([body + zero] + ct) == [Nal(body[0] % 32, body[1..])] + Units(ct)
  {
    UnitsOfConcat([body + zero], ct);
    SingleUnit(body + zero);
    SeiNal.TrimNothing(body);
    if zero == [] { assert body + zero == body; } else { TrailingZeroIgnored(body); }
  }

  lemma SingleUnit(chunk: seq<byte>)
    ensures Units([chunk]) == ChunkUnit(chunk)
  {
    assert [chunk][..0] == [];
  }

  lemma GlueTail(cp: seq<seq<byte>>, zero: seq<byte>, ct: seq<seq<byte>>)
    requires |cp| >= 1
    ensures Glue(cp, [zero] + ct)[1..] == Glue(cp, [zero])[1..] + ct
  {
    var g := Glue(cp, [zero]);
    assert ([zero] + ct)[1..] == ct && [zero][1..] == [];
    assert Glue(cp, [zero] + ct) == g + ct;
  }

  lemma SplitOfGlued(b: seq<byte>, cp: seq<seq<byte>>, zero: seq<byte>, ct: seq<seq<byte>>)
    requires |cp| >= 1 && (zero == [] || zero == [0])
    requires Chunks(b) == Glue(cp, [zero] + ct)
    ensures Split(b) == Units(cp[1..]) + Units(ct)
  {
    GlueTail(cp, zero, ct);
    UnitsOfConcat(Glue(cp, [zero])[1..], ct);
    LeadUnits(cp, zero);
  }

  lemma NothingToSplice(au: seq<byte>, unit: Nal)
    requires forall j: nat :: !VclCodeAt(au, j)
    ensures !HasVcl(Split(au)) && Spliced(Split(au), unit) == Split(au)
  {
    ChunksWithoutVcl(au);
    PlainUnits(Chunks(au)[1..]);
    SplicedAt(Split(au), [], unit);
    assert Split(au) + [] == Split(au);
  }

  /** A unit behind a four-byte start code whose body holds no start code and does not end in zero. */
  ghost predicate IsUnit(nal: seq<byte>) {
    |nal| > 4 && nal[..4] == [0, 0, 0, 1] && SeiNal.Protected(nal[4..]) && nal[|nal| - 1] != 0
  }

  /** The first start code that introduces a VCL unit. */
  ghost predicate FirstVclCode(au: seq<byte>, i: nat) {
    VclCodeAt(au, i) && forall j: nat :: j < i ==> !VclCodeAt(au, j)
  }

  /**
   The byte scan of `insert_before_first_vcl`. It finds an insertion point exactly when
   a reader of the access unit sees a VCL unit, and otherwise changes nothing; and if
   the inserted bytes are a unit, the reader sees that unit immediately before the
   first VCL one.
   */
  method InsertBeforeFirstVcl(au: seq<byte>, nal: seq<byte>) returns (ok: bool, out: seq<byte>)
    ensures ok <==> exists k :: 0 <= k < |Split(au)| && 1 <= Split(au)[k].kind <= 5
    ensures !ok ==> out == au
    ensures ok ==> exists i :: FirstVclCode(au, i) &&
                     out == au[..InsertPoint(au, i)] + nal + au[InsertPoint(au, i)..]
    ensures IsUnit(nal) ==> Split(out) == Spliced(Split(au), Nal(nal[4] % 32, nal[5..]))
  {
    var i := 0;
    while i + 3 < |au|
      invariant forall j: nat :: j < i ==> !VclCodeAt(au, j)
    {
      if au[i] == 0 && au[i + 1] == 0 && au[i + 2] == 1 {
        if IsVcl(au[i + 3] % 32) {
          var at := if i > 0 && au[i - 1] == 0 then i - 1 else i;
          assert FirstVclCode(au, i);
          SpliceOutcome(au, i, nal);
          return true, au[..at] + nal + au[at..];
        }
        i := i + 2;
      }
      i := i + 1;
    }
    NothingToSplice(au, if |nal| > 4 then Nal(nal[4] % 32, nal[5..]) else Nal(0, []));
    return false, au;
  }

  lemma SpliceOutcome(au: seq<byte>, i: nat, nal: seq<byte>)
    requires FirstVclCode(au, i)
    ensures HasVcl(Split(au))
    ensures IsUnit(nal) ==>
              var at := InsertPoint(au, i);
              Split(au[..at] + nal + au[at..]) == Spliced(Split(au), Nal(nal[4] % 32, nal[5..]))
  {
    if IsUnit(nal) {
      var body := nal[4..];
      assert nal == [0, 0, 0, 1] + body && body[1..] == nal[5..] && body[|body| - 1] == nal[|nal| - 1];
      SpliceCorrect(au, i, body);
    } else {
      SpliceCorrect(au, i, [1]);
    }
  }

  /** Every detection SEI unit meets the splicer's demands, so a reader of the edited unit finds the message. */
  lemma EncodedUnitsCanBeSpliced(uuid: seq<byte>, payload: seq<byte>)
    requires |uuid| == 16
    ensures var nal := SeiNal.EncodedNal(uuid, payload);
            && IsUnit(nal)
            && Split(nal) == [Nal(nal[4] % 32, nal[5..])]
            && ParsedNal(Nal(nal[4] % 32, nal[5..])) == Some(ParsedSei(uuid, payload, true))
  {
    var nal := SeiNal.EncodedNal(uuid, payload);
    var body := SeiNal.UnitBody(uuid, payload);
    assert nal[4..] == body && nal[5..] == body[1..];
    SeiNal.SeiRoundTrip(uuid, payload);
    SeiNal.UnitChunks(body);
    SeiNal.TrimNothing(body);
    assert Chunks(nal)[1..] == [body];
    assert Units([body]) == Units([]) + ChunkUnit(body);
  }
}
