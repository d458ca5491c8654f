/**
 The sender of the detection uplink: a user_data_unregistered SEI message wrapped
 in one Annex-B NAL unit with emulation prevention, and the proof that the
 independently written reader recovers every UUID and payload.
 */
module SeiNal {
  import opened Common
  import opened AnnexB

  const START_AND_HEADER: seq<byte> := [0, 0, 0, 1, 6]

  /** An ff-coded size: one ff per full 255, then the rest. */
  function SizeBytes(n: nat): seq<byte> {
    if n >= 255 then [0xff] + SizeBytes(n - 255) else [n]
  }

  function Rbsp(uuid: seq<byte>, payload: seq<byte>): seq<byte> {
    [5] + SizeBytes(|uuid| + |payload|) + uuid + payload + [0x80]
  }

  /** `s` with an emulation prevention byte before every byte that would complete 00 00 0x, x <= 3. */
  function Escape(zeros: nat, s: seq<byte>): seq<byte>
    decreases |s|
  {
    if s == [] then []
    else if zeros >= 2 && s[0] <= 3 then [3, s[0]] + Escape(if s[0] == 0 then 1 else 0, s[1..])
    else [s[0]] + Escape(if s[0] == 0 then zeros + 1 else 0, s[1..])
  }

  function EncodedNal(uuid: seq<byte>, payload: seq<byte>): seq<byte> {
    START_AND_HEADER + Escape(0, Rbsp(uuid, payload))
  }

  method BuildRbsp(uuid: seq<byte>, payload: seq<byte>) returns (rbsp: seq<byte>)
    ensures rbsp == Rbsp(uuid, payload)
  {
    rbsp := [5];
    var size: nat := |uuid| + |payload|;
    while size >= 255
      invariant rbsp + SizeBytes(size) == [5] + SizeBytes(|uuid| + |payload|)
    {
      rbsp := rbsp + [0xff];
      size := size - 255;
    }
    rbsp := rbsp + [size];
    rbsp := rbsp + uuid;
    rbsp := rbsp + payload;
    rbsp := rbsp + [0x80];
  }

  method EncodeUserDataSeiNal(uuid: seq<byte>, payload: seq<byte>) returns (nal: seq<byte>)
    ensures nal == EncodedNal(uuid, payload)
  {
    var rbsp := BuildRbsp(uuid, payload);
    nal := START_AND_HEADER;
    var zeros: nat := 0;
    for i := 0 to |rbsp|
      invariant nal + Escape(zeros, rbsp[i..]) == START_AND_HEADER + Escape(0, rbsp)
    {
      var octet := rbsp[i];
      assert rbsp[i..][1..] == rbsp[i + 1..];
      if zeros >= 2 && octet <= 3 {
        nal := nal + [3];
        zeros := 0;
      }
      nal := nal + [octet];
      zeros := if octet == 0 then zeros + 1 else 0;
    }
  }

  // ----- stripping undoes escaping -----

  lemma {:induction false} UnescapeInvertsEscape(zeros: nat, s: seq<byte>)
    ensures Unescape(zeros, Escape(zeros, s)) == s
    decreases |s|
  {
    if s != [] {
      if zeros >= 2 && s[0] <= 3 {
        var z := if s[0] == 0 then 1 else 0;
        var rest := Escape(z, s[1..]);
        var e := Escape(zeros, s);
        assert e[1..] == [s[0]] + rest && ([s[0]] + rest)[1..] == rest;
        UnescapeInvertsEscape(z, s[1..]);
      } else {
        var z := if s[0] == 0 then zeros + 1 else 0;
        assert Escape(zeros, s)[1..] == Escape(z, s[1..]);
        UnescapeInvertsEscape(z, s[1..]);
      }
    }
  }

  // ----- no start code survives inside the unit -----

  /** No 00 00 00, 00 00 01 or 00 00 02 anywhere in `s` (section 7.4.1). */
  ghost predicate Protected(s: seq<byte>) {
    forall i :: 0 <= i && i + 2 < |s| ==> !(s[i] == 0 && s[i + 1] == 0 && s[i + 2] <= 2)
  }

  function Zeros(n: nat): seq<byte> { seq(n, _ => 0) }

  /** Leading zeros are harmless before a byte that cannot complete a forbidden pattern. */
  lemma ZerosProtect(n: nat, t: seq<byte>)
    requires n <= 2 && t != [] && t[0] != 0 && (n == 2 ==> t[0] > 2) && Protected(t)
    ensures Protected(Zeros(n) + t)
  {
    var s := Zeros(n) + t;
    forall i | 0 <= i && i + 2 < |s| ensures !(s[i] == 0 && s[i + 1] == 0 && s[i + 2] <= 2) {
      if i >= n { assert s[i] == t[i - n] && s[i + 1] == t[i - n + 1] && s[i + 2] == t[i - n + 2]; }
    }
  }

  /** An inserted 03 protects what follows it. */
  lemma InsertedProtects(x: byte, rest: seq<byte>)
    requires Protected(Zeros(if x == 0 then 1 else 0) + rest)
    ensures Protected(Zeros(2) + ([3] + ([x] + rest)))
  {
    var tail := [x] + rest;
    if x == 0 {
      assert Zeros(1) + rest == tail;
    } else {
      assert Zeros(0) + rest == rest;
      HeaderProtects(x, rest);
    }
    HeaderProtects(3, tail);
    ZerosProtect(2, [3] + tail);
  }

  lemma {:induction false} EscapeProtects(zeros: nat, s: seq<byte>)
    requires zeros <= 2
    ensures Protected(Zeros(zeros) + Escape(zeros, s))
    decreases |s|
  {
    if s != [] {
      var e := Zeros(zeros) + Escape(zeros, s);
      var hit := zeros >= 2 && s[0] <= 3;
      var z := if s[0] != 0 then 0 else if hit then 1 else zeros + 1;
      var rest := Escape(z, s[1..]);
      EscapeProtects(z, s[1..]);
      var t := Zeros(z) + rest;
      if hit {
        InsertedProtects(s[0], rest);
        assert e == Zeros(2) + ([3] + ([s[0]] + rest));
      } else if s[0] == 0 {
        assert e == t;
      } else {
        assert t == rest;
        HeaderProtects(s[0], rest);
        ZerosProtect(zeros, [s[0]] + rest);
        assert e == Zeros(zeros) + ([s[0]] + rest);
      }
    }
  }

  /** A byte of at most 03 right behind two zeros, `zeros` of which may lie before `s`. */
  ghost predicate NeedsEscape(zeros: nat, s: seq<byte>) { exists i :: HitAt(zeros, s, i) }

  ghost predicate HitAt(zeros: nat, s: seq<byte>, i: int) {
    0 <= i < |s| && s[i] <= 3 && ZeroAt(zeros, s, i - 1) && ZeroAt(zeros, s, i - 2)
  }

  /** Position `i` holds a zero; negative positions are those before `s`. */
  ghost predicate ZeroAt(zeros: nat, s: seq<byte>, i: int) {
    if i < 0 then -i <= zeros else i < |s| && s[i] == 0
  }

  /** Escaping inserts nothing unless it must. */
  lemma {:induction false} EscapesOnlyIfNeeded(zeros: nat, s: seq<byte>)
    ensures Escape(zeros, s) == s <==> !NeedsEscape(zeros, s)
    ensures |Escape(zeros, s)| >= |s|
    decreases |s|
  {
    if s != [] {
      var rest := s[1..];
      if zeros >= 2 && s[0] <= 3 {
        EscapesOnlyIfNeeded(if s[0] == 0 then 1 else 0, rest);
        assert HitAt(zeros, s, 0);
      } else {
        var z := if s[0] == 0 then zeros + 1 else 0;
        EscapesOnlyIfNeeded(z, rest);
        assert Escape(zeros, s) == [s[0]] + Escape(z, rest) && s == [s[0]] + rest;
        NeedShifts(zeros, s, z);
      }
    }
  }

  lemma NeedShifts(zeros: nat, s: seq<byte>, z: nat)
    requires s != [] && !(zeros >= 2 && s[0] <= 3) && z == if s[0] == 0 then zeros + 1 else 0
    ensures NeedsEscape(zeros, s) <==> NeedsEscape(z, s[1..])
  {
    forall i | 0 <= i < |s| ensures HitAt(zeros, s, i) <==> HitAt(z, s[1..], i - 1) {}
    if i :| HitAt(zeros, s, i) { assert HitAt(z, s[1..], i - 1); }
    if i :| HitAt(z, s[1..], i) { assert HitAt(zeros, s, i + 1); }
  }

  lemma {:induction false} EscapeKeepsLast(zeros: nat, s: seq<byte>)
    requires s != [] && s[|s| - 1] > 3
    ensures var e := Escape(zeros, s); e != [] && e[|e| - 1] == s[|s| - 1]
    decreases |s|
  {
    if |s| > 1 {
      assert s[1..][|s| - 2] == s[|s| - 1];
      if zeros >= 2 && s[0] <= 3 {
        EscapeKeepsLast(if s[0] == 0 then 1 else 0, s[1..]);
      } else {
        EscapeKeepsLast(if s[0] == 0 then zeros + 1 else 0, s[1..]);
      }
    }
  }

  lemma HeaderProtects(header: byte, e: seq<byte>)
    requires header != 0 && Protected(e)
    ensures Protected([header] + e)
  {
    var body := [header] + e;
    forall i | 0 <= i && i + 2 < |body|
      ensures !(body[i] == 0 && body[i + 1] == 0 && body[i + 2] <= 2)
    {
      if i > 0 { assert body[i] == e[i - 1] && body[i + 1] == e[i] && body[i + 2] == e[i + 1]; }
    }
  }

  lemma EscapedBody(rbsp: seq<byte>)
    requires rbsp != [] && rbsp[|rbsp| - 1] == 0x80
    ensures var body := [6] + Escape(0, rbsp); Protected(body) && body[|body| - 1] == 0x80
  {
    var e := Escape(0, rbsp);
    EscapeProtects(0, rbsp);
    assert Zeros(0) + e == e;
    EscapeKeepsLast(0, rbsp);
    HeaderProtects(6, e);
  }

  /** The NAL bytes after the start code: header, then a body free of start codes that ends in 0x80. */
  lemma UnitBody(uuid: seq<byte>, payload: seq<byte>) returns (body: seq<byte>)
    ensures body == [6] + Escape(0, Rbsp(uuid, payload))
    ensures EncodedNal(uuid, payload) == [0, 0, 0, 1] + body
    ensures Protected(body) && body[|body| - 1] == 0x80
  {
    var rbsp := Rbsp(uuid, payload);
    assert rbsp[|rbsp| - 1] == 0x80;
    EscapedBody(rbsp);
    body := [6] + Escape(0, rbsp);
    assert START_AND_HEADER == [0, 0, 0, 1] + [6];
  }

  lemma {:induction false} CodelessIsOneChunk(b: seq<byte>)
    requires forall i: nat :: !CodeAt(b, i)
    ensures Chunks(b) == [b]
  {
    if |b| >= 3 {
      var t := b[1..];
      forall i: nat ensures !CodeAt(t, i) { assert !CodeAt(b, i + 1); }
      CodelessIsOneChunk(t);
      assert !CodeAt(b, 0);
      var c: seq<seq<byte>> := [t];
      assert Chunks(b) == [[b[0]] + c[0]] + c[1..];
      assert c[1..] == [] && [b[0]] + t == b;
    }
  }

  /** A unit behind a four-byte start code is one chunk after a lead of one zero byte. */
  lemma UnitChunks(body: seq<byte>)
    requires Protected(body)
    ensures Chunks([0, 0, 0, 1] + body) == [[0], body]
  {
    var b: seq<byte> := [0, 0, 0, 1] + body;
    assert b[1..] == [0, 0, 1] + body && ([0, 0, 1] + body)[3..] == body;
    assert CodeAt(b[1..], 0) && !CodeAt(b, 0);
    forall i: nat ensures !CodeAt(body, i) {}
    CodelessIsOneChunk(body);
    var t := Chunks(b[1..]);
    assert t == [[]] + [body];
    assert Chunks(b) == [[b[0]] + t[0]] + t[1..];
    assert [b[0]] + t[0] == [0];
  }

  lemma TrimNothing(s: seq<byte>)
    requires s != [] && s[|s| - 1] != 0
    ensures TrimZeros(s) == s
  {}

  // ----- the reader finds the message -----

  lemma {:induction false} ReadSize(n: nat, rest: seq<byte>)
    ensures ReadCoded(SizeBytes(n) + rest) == Some((n, |SizeBytes(n)|))
  {
    if n >= 255 {
      assert (SizeBytes(n) + rest)[1..] == SizeBytes(n - 255) + rest;
      ReadSize(n - 255, rest);
    }
  }

  lemma MessageOfRbsp(uuid: seq<byte>, payload: seq<byte>)
    requires |uuid| == 16
    ensures SeiMessage(Rbsp(uuid, payload)) == Some(ParsedSei(uuid, payload, true))
  {
    var rbsp := Rbsp(uuid, payload);
    var n := |uuid| + |payload|;
    var tail := uuid + payload + [0x80];
    assert rbsp == [5] + (SizeBytes(n) + tail);
    assert rbsp[1..] == SizeBytes(n) + tail;
    ReadSize(n, tail);
    assert rbsp[1 + |SizeBytes(n)|..] == tail;
    assert tail[..16] == uuid && tail[16..n] == payload && tail[n..] == [0x80];
  }

  /** The encoded bytes are one protected type-6 unit from which the reader recovers UUID and payload. */
  lemma SeiRoundTrip(uuid: seq<byte>, payload: seq<byte>)
    requires |uuid| == 16
    ensures Protected(EncodedNal(uuid, payload)[4..])
    ensures |Split(EncodedNal(uuid, payload))| == 1
    ensures Split(EncodedNal(uuid, payload))[0].kind == 6
    ensures ParsedNal(Split(EncodedNal(uuid, payload))[0]) == Some(ParsedSei(uuid, payload, true))
  {
    var rbsp := Rbsp(uuid, payload);
    var body := UnitBody(uuid, payload);
    var nal := EncodedNal(uuid, payload);
    assert nal[4..] == body;
    UnitChunks(body);
    TrimNothing(body);
    assert Chunks(nal)[1..] == [body];
    assert body[1..] == Escape(0, rbsp);
    assert Units([body]) == Units([]) + ChunkUnit(body);
    assert Split(nal) == [Nal(6, Escape(0, rbsp))];
    UnescapeInvertsEscape(0, rbsp);
    MessageOfRbsp(uuid, payload);
  }
}
