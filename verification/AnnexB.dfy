/**
 The viewer-side reader of the detection uplink: Annex-B splitting, removal of
 emulation prevention (section 7.4.1 of ITU-T H.264) and parsing of a
 user_data_unregistered SEI message (sections 7.3.2.3.1 and D.1.6).

 Each reader is a loop over the bytes; the function it is proved against is the
 structural reading that the theorems about the encoder and the splicer use.
 */
module AnnexB {
  import opened Common

  /** One NAL unit: its five-bit type and the bytes after its header. */
  datatype Nal = Nal(kind: nat, ebsp: seq<byte>)

  datatype ParsedSei = ParsedSei(uuid: seq<byte>, payload: seq<byte>, trailingBitsOk: bool)

  predicate CodeAt(b: seq<byte>, i: nat) {
    i + 2 < |b| && b[i] == 0 && b[i + 1] == 0 && b[i + 2] == 1
  }

  /** The byte strings between start codes; the first one precedes every start code. */
  function Chunks(b: seq<byte>): (c: seq<seq<byte>>)
    ensures |c| >= 1
  {
    if |b| < 3 then [b]
    else if CodeAt(b, 0) then [[]] + Chunks(b[3..])
    else
      var t := Chunks(b[1..]);
      [[b[0]] + t[0]] + t[1..]
  }

  /** A chunk without its trailing zero bytes. */
  function TrimZeros(s: seq<byte>): (t: seq<byte>)
    ensures t <= s
    ensures t != [] ==> t[|t| - 1] != 0
  {
    if s != [] && s[|s| - 1] == 0 then TrimZeros(s[..|s| - 1]) else s
  }

  function ChunkUnit(chunk: seq<byte>): seq<Nal> {
    var t := TrimZeros(chunk);
    if t == [] then [] else [Nal(t[0] % 32, t[1..])]
  }

  function Units(chunks: seq<seq<byte>>): seq<Nal> {
    if chunks == [] then []
    else Units(chunks[..|chunks| - 1]) + ChunkUnit(chunks[|chunks| - 1])
  }

  /** The NAL units of a byte stream: every non-empty chunk that follows a start code. */
  function Split(b: seq<byte>): seq<Nal> {
    Units(Chunks(b)[1..])
  }

  /** The chunks with a start code between any two. */
  function Rejoined(chunks: seq<seq<byte>>): seq<byte>
    requires |chunks| >= 1
  {
    if |chunks| == 1 then chunks[0] else chunks[0] + ([0, 0, 1] + Rejoined(chunks[1..]))
  }

  /** Chunks lose nothing: put back together they are the stream, and none of them holds a start code. */
  lemma {:induction false} ChunksRejoin(b: seq<byte>)
    ensures Rejoined(Chunks(b)) == b
    ensures forall k, i: nat :: 0 <= k < |Chunks(b)| ==> !CodeAt(Chunks(b)[k], i)
  {
    if |b| >= 3 {
      if CodeAt(b, 0) {
        ChunksRejoin(b[3..]);
        assert Chunks(b)[1..] == Chunks(b[3..]);
        assert [] + ([0, 0, 1] + b[3..]) == b;
      } else {
        var t := Chunks(b[1..]);
        ChunksRejoin(b[1..]);
        RejoinPrepend(b[0], t);
        assert [b[0]] + b[1..] == b;
        FirstChunkIsPrefix(t);
        forall i: nat ensures !CodeAt([b[0]] + t[0], i) {
          assert i > 0 ==> (CodeAt([b[0]] + t[0], i) ==> CodeAt(t[0], i - 1));
          assert CodeAt([b[0]] + t[0], 0) ==> CodeAt(b, 0);
        }
      }
    }
  }

  lemma RejoinPrepend(x: byte, t: seq<seq<byte>>)
    requires |t| >= 1
    ensures Rejoined([[x] + t[0]] + t[1..]) == [x] + Rejoined(t)
  {
    var u := [[x] + t[0]] + t[1..];
    if |t| == 1 {
      assert u == [[x] + t[0]];
    } else {
      assert u[1..] == t[1..];
      Assoc([x], t[0], [0, 0, 1] + Rejoined(t[1..]));
    }
  }

  lemma FirstChunkIsPrefix(t: seq<seq<byte>>)
    requires |t| >= 1
    ensures t[0] <= Rejoined(t)
  {}

  /** A chunk of zeros is no unit; any other is one, up to its last byte that is not zero. */
  lemma {:induction false} ChunkUnitIs(chunk: seq<byte>) returns (end: nat)
    ensures end <= |chunk| && forall i :: end <= i < |chunk| ==> chunk[i] == 0
    ensures end == 0 ==> ChunkUnit(chunk) == []
    ensures end > 0 ==> chunk[end - 1] != 0 && ChunkUnit(chunk) == [Nal(chunk[0] % 32, chunk[1..end])]
  {
    end := |chunk|;
    if chunk != [] && chunk[|chunk| - 1] == 0 {
      var shorter := chunk[..|chunk| - 1];
      end := ChunkUnitIs(shorter);
      assert TrimZeros(chunk) == TrimZeros(shorter);
      if end > 0 { assert shorter[1..end] == chunk[1..end]; }
    } else if chunk != [] {
      assert TrimZeros(chunk) == chunk && chunk[1..] == chunk[1..end];
    }
  }

  // ----- the index-driven form of the reader -----

  function StartsFrom(b: seq<byte>, i: nat): seq<nat>
    decreases |b| - i
  {
    if i + 2 >= |b| then []
    else if CodeAt(b, i) then [i + 3] + StartsFrom(b, i + 3)
    else StartsFrom(b, i + 1)
  }

  function EndOf(b: seq<byte>, starts: seq<nat>, k: nat): int {
    if k < |starts| then starts[k] - 3 else |b|
  }

  /** Chunk `k + 1` is what lies between start `k` and the next one. */
  ghost predicate Delimited(b: seq<byte>, i: nat, s: seq<nat>, c: seq<seq<byte>>, k: nat)
    requires k < |s| && |c| == |s| + 1
  {
    i <= s[k] <= EndOf(b, s, k + 1) <= |b| && c[k + 1] == b[s[k]..EndOf(b, s, k + 1)]
  }

  ghost predicate AllDelimited(b: seq<byte>, i: nat, s: seq<nat>, c: seq<seq<byte>>) {
    && |c| == |s| + 1
    && i <= EndOf(b, s, 0) <= |b| && c[0] == b[i..EndOf(b, s, 0)]
    && forall k :: 0 <= k < |s| ==> Delimited(b, i, s, c, k)
  }

  lemma DelimitAfterCode(b: seq<byte>, i: nat, s: seq<nat>, c: seq<seq<byte>>)
    requires i + 3 <= |b| && AllDelimited(b, i + 3, s, c)
    ensures AllDelimited(b, i, [i + 3] + s, [[]] + c)
  {
    var s1, c1 := [i + 3] + s, [[]] + c;
    forall k | 0 <= k < |s1| ensures Delimited(b, i, s1, c1, k) {
      assert EndOf(b, s1, k + 1) == EndOf(b, s, k);
      if k > 0 { assert Delimited(b, i + 3, s, c, k - 1); }
    }
  }

  lemma DelimitAfterByte(b: seq<byte>, i: nat, s: seq<nat>, c: seq<seq<byte>>)
    requires i < |b| && AllDelimited(b, i + 1, s, c)
    ensures AllDelimited(b, i, s, [[b[i]] + c[0]] + c[1..])
  {
    var c1 := [[b[i]] + c[0]] + c[1..];
    assert c1[0] == b[i..EndOf(b, s, 0)];
    forall k | 0 <= k < |s| ensures Delimited(b, i, s, c1, k) { assert Delimited(b, i + 1, s, c, k); }
  }

  lemma {:induction false} StartsDelimitChunks(b: seq<byte>, i: nat)
    requires i <= |b|
    ensures AllDelimited(b, i, StartsFrom(b, i), Chunks(b[i..]))
    decreases |b| - i
  {
    if i + 2 >= |b| {
      assert b[i..] == b[i..|b|];
    } else if CodeAt(b, i) {
      assert CodeAt(b[i..], 0) && b[i..][3..] == b[i + 3..];
      StartsDelimitChunks(b, i + 3);
      DelimitAfterCode(b, i, StartsFrom(b, i + 3), Chunks(b[i + 3..]));
    } else {
      assert !CodeAt(b[i..], 0) && b[i..][1..] == b[i + 1..];
      StartsDelimitChunks(b, i + 1);
      DelimitAfterByte(b, i, StartsFrom(b, i + 1), Chunks(b[i + 1..]));
    }
  }

  method FindStarts(bytes: seq<byte>) returns (starts: seq<nat>)
    ensures starts == StartsFrom(bytes, 0)
  {
    starts := [];
    var i := 0;
    while i + 2 < |bytes|
      invariant starts + StartsFrom(bytes, i) == StartsFrom(bytes, 0)
    {
      if bytes[i] == 0 && bytes[i + 1] == 0 && bytes[i + 2] == 1 {
        starts := starts + [i + 3];
        i := i + 2;
      }
      i := i + 1;
    }
  }

  method TrimmedEnd(bytes: seq<byte>, start: nat, stop: nat) returns (end: nat)
    requires start <= stop <= |bytes|
    ensures start <= end <= stop
    ensures TrimZeros(bytes[start..stop]) == bytes[start..end]
  {
    end := stop;
    while end > start && bytes[end - 1] == 0
      invariant start <= end <= stop
      invariant TrimZeros(bytes[start..end]) == TrimZeros(bytes[start..stop])
    {
      assert bytes[start..end][..end - start - 1] == bytes[start..end - 1];
      end := end - 1;
    }
  }

  /** The unit between two positions, if any is left after its trailing zeros. */
  method UnitAt(bytes: seq<byte>, start: nat, stop: nat) returns (unit: seq<Nal>)
    requires start <= stop <= |bytes|
    ensures unit == ChunkUnit(bytes[start..stop])
  {
    var end := TrimmedEnd(bytes, start, stop);
    if end == start { return []; }
    assert bytes[start..end][1..] == bytes[start + 1..end];
    unit := [Nal(bytes[start] % 32, bytes[start + 1..end])];
  }

  method SplitAnnexB(bytes: seq<byte>) returns (nals: seq<Nal>)
    ensures nals == Split(bytes)
  {
    var starts := FindStarts(bytes);
    StartsDelimitChunks(bytes, 0);
    assert bytes[0..] == bytes;
    ghost var chunks := Chunks(bytes)[1..];
    nals := [];
    for n := 0 to |starts|
      invariant nals == Units(chunks[..n])
    {
      var stop := if n + 1 < |starts| then starts[n + 1] - 3 else |bytes|;
      assert Delimited(bytes, 0, starts, Chunks(bytes), n);
      assert chunks[n] == bytes[starts[n]..stop];
      var unit := UnitAt(bytes, starts[n], stop);
      assert chunks[..n + 1][..n] == chunks[..n];
      nals := nals + unit;
    }
    assert chunks[..|starts|] == chunks;
  }

  // ----- emulation prevention -----

  /** Bytes of an RBSP recovered from its encapsulated form after `zeros` zero bytes. */
  function Unescape(zeros: nat, ebsp: seq<byte>): seq<byte>
    decreases |ebsp|
  {
    if ebsp == [] then []
    else if zeros >= 2 && ebsp[0] == 3 then Unescape(0, ebsp[1..])
    else [ebsp[0]] + Unescape(if ebsp[0] == 0 then zeros + 1 else 0, ebsp[1..])
  }

  method RemoveEmulationPrevention(ebsp: seq<byte>) returns (rbsp: seq<byte>)
    ensures rbsp == Unescape(0, ebsp)
  {
    rbsp := [];
    var zeros: nat := 0;
    for i := 0 to |ebsp|
      invariant rbsp + Unescape(zeros, ebsp[i..]) == Unescape(0, ebsp)
    {
      var octet := ebsp[i];
      assert ebsp[i..][1..] == ebsp[i + 1..];
      if zeros >= 2 && octet == 3 {
        zeros := 0;
      } else {
        rbsp := rbsp + [octet];
        zeros := if octet == 0 then zeros + 1 else 0;
      }
    }
  }

  // ----- SEI message -----

  /** An ff-coded number at the head of `s`, with the number of bytes it occupies. */
  function ReadCoded(s: seq<byte>): Option<(nat, nat)> {
    if s == [] then None
    else if s[0] != 255 then Some((s[0], 1))
    else match ReadCoded(s[1..])
      case None => None
      case Some((v, n)) => Some((v + 255, n + 1))
  }

  lemma ReadCodedBounds(s: seq<byte>)
    ensures ReadCoded(s).Some? ==> 1 <= ReadCoded(s).value.1 <= |s|
  {}

  /** The user_data_unregistered message at the head of an RBSP. */
  function SeiMessage(rbsp: seq<byte>): Option<ParsedSei> {
    match ReadCoded(rbsp)
    case None => None
    case Some((kind, n)) =>
      ReadCodedBounds(rbsp);
      match ReadCoded(rbsp[n..])
      case None => None
      case Some((size, m)) =>
        ReadCodedBounds(rbsp[n..]);
        MessageBody(kind, size, rbsp[n + m..])
  }

  function ParsedNal(nal: Nal): Option<ParsedSei> {
    if nal.kind != 6 then None else SeiMessage(Unescape(0, nal.ebsp))
  }

  method ReadCodedLoop(rbsp: seq<byte>, from: nat) returns (ok: bool, value: nat, pos: nat)
    requires from <= |rbsp|
    ensures ok == ReadCoded(rbsp[from..]).Some?
    ensures ok ==> from <= pos <= |rbsp| && ReadCoded(rbsp[from..]) == Some((value, pos - from))
  {
    value, pos := 0, from;
    while pos < |rbsp| && rbsp[pos] == 0xff
      invariant from <= pos <= |rbsp|
      invariant match ReadCoded(rbsp[pos..])
                case None => ReadCoded(rbsp[from..]).None?
                case Some((v, n)) => ReadCoded(rbsp[from..]) == Some((value + v, pos - from + n))
    {
      assert rbsp[pos..][1..] == rbsp[pos + 1..];
      value := value + rbsp[pos];
      pos := pos + 1;
    }
    if pos >= |rbsp| {
      ok := false;
    } else {
      ok := true;
      value := value + rbsp[pos];
      pos := pos + 1;
    }
  }

  /** The rest of a message whose type and size have been read. */
  function MessageBody(kind: nat, size: nat, body: seq<byte>): Option<ParsedSei> {
    if kind != 5 || size < 16 || size > |body| then None
    else Some(ParsedSei(body[..16], body[16..size], body[size..] == [0x80]))
  }

  method ReadBody(rbsp: seq<byte>, kind: nat, size: nat, start: nat) returns (sei: Option<ParsedSei>)
    requires start <= |rbsp|
    ensures sei == MessageBody(kind, size, rbsp[start..])
  {
    var pos := start;
    if kind != 5 || size < 16 || pos + size > |rbsp| { return None; }
    var uuid := rbsp[pos..pos + 16];
    var payload := rbsp[pos + 16..pos + size];
    ghost var body := rbsp[start..];
    assert uuid == body[..16] && payload == body[16..size];
    pos := pos + size;
    assert body[size..] == rbsp[pos..];
    var trailing := pos + 1 == |rbsp| && rbsp[pos] == 0x80;
    assert trailing <==> rbsp[pos..] == [0x80];
    sei := Some(ParsedSei(uuid, payload, trailing));
  }

  method ParseUserDataSei(nal: Nal) returns (sei: Option<ParsedSei>)
    ensures sei == ParsedNal(nal)
  {
    if nal.kind != 6 { return None; }
    var rbsp := RemoveEmulationPrevention(nal.ebsp);
    assert rbsp[0..] == rbsp;
    var ok, kind, pos := ReadCodedLoop(rbsp, 0);
    if !ok { return None; }
    var size: nat;
    ok, size, pos := ReadCodedLoop(rbsp, pos);
    if !ok { return None; }
    sei := ReadBody(rbsp, kind, size, pos);
  }
}
