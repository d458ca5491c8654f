/**
 The end-to-end uplink of detections: what the send loop does to a unit with a
 PTS, and what a viewer reads out of it.
 */
module Uplink {
  import opened Common
  import opened AnnexB
  import DetectionJson
  import PayloadSize
  import RtpClock
  import SeiNal
  import SeiSelector
  import Splice

  /** What a viewer reads from one access unit: every detection message it carries. */
  function Messages(nals: seq<Nal>): seq<seq<DetectionJson.Result>> {
    if nals == [] then []
    else
      var n := |nals| - 1;
      Messages(nals[..n]) + Message(nals[n])
  }

  function Message(nal: Nal): seq<seq<DetectionJson.Result>> {
    match ParsedNal(nal)
    case None => []
    case Some(sei) =>
      if sei.uuid != PayloadSize.UUID then []
      else match DetectionJson.ParseDocument(sei.payload)
           case None => []
           case Some(rs) => [rs]
  }

  /** No unit carries a detection message. */
  ghost predicate Silent(nals: seq<Nal>) { forall i :: 0 <= i < |nals| ==> Message(nals[i]) == [] }

  lemma {:induction false} MessagesOfConcat(a: seq<Nal>, b: seq<Nal>)
    ensures Messages(a + b) == Messages(a) + Messages(b)
  {
    if b == [] {
      assert a + b == a;
    } else {
      var n := |b| - 1;
      assert (a + b)[..|a + b| - 1] == a + b[..n];
      MessagesOfConcat(a, b[..n]);
    }
  }

  /** A VCL unit never reads as a message, so splicing puts exactly one message before the first one. */
  lemma {:induction false} MessagesOfSpliced(nals: seq<Nal>, unit: Nal)
    requires Silent(nals)
    ensures Messages(nals) == []
    ensures Messages(Splice.Spliced(nals, unit)) == if Splice.HasVcl(nals) then Message(unit) else []
  {
    if nals != [] {
      var tail := nals[1..];
      assert nals == [nals[0]] + tail;
      MessagesAfter(nals[0], tail);
      MessagesOfSpliced(tail, unit);
      Splice.HasVclTail(nals);
      if Splice.IsVcl(nals[0].kind) {
        MessagesAfter(unit, nals);
      } else {
        MessagesAfter(nals[0], Splice.Spliced(tail, unit));
      }
    }
  }

  lemma MessagesAfter(nal: Nal, rest: seq<Nal>)
    ensures Messages([nal] + rest) == Message(nal) + Messages(rest)
  {
    MessagesOfConcat([nal], rest);
    OneMessage(nal);
  }

  lemma OneMessage(nal: Nal)
    ensures Messages([nal]) == Message(nal)
  {
    assert [nal][..0] == [];
  }

  /** The unit of a message reads back as exactly that message. */
  lemma UnitReadsBack(rs: seq<DetectionJson.Result>)
    ensures var nal := PayloadSize.EncodedResults(rs);
            |nal| > 4 && Message(Nal(nal[4] % 32, nal[5..])) == [DetectionJson.ClippedResults(rs)]
  {
    DetectionJson.DocumentRoundTrip(rs);
    MessageOf(PayloadSize.UUID, DetectionJson.Json(rs));
  }

  lemma MessageOf(uuid: seq<byte>, payload: seq<byte>)
    requires |uuid| == 16
    ensures var nal := SeiNal.EncodedNal(uuid, payload);
            |nal| > 4 && ParsedNal(Nal(nal[4] % 32, nal[5..])) == Some(ParsedSei(uuid, payload, true))
  {
    Splice.EncodedUnitsCanBeSpliced(uuid, payload);
  }

  /**
   Attaching detections to a unit that is about to be sent: a viewer reads the unit's
   own NAL units in order, with the selector's message immediately before the first
   VCL unit, and no other message if there was none. A unit without a VCL NAL, or
   with nothing due, is sent unchanged.
   */
  method AttachDetections(selector: SeiSelector.SeiResultSelector, bytes: seq<byte>, pts: nat, generation: nat)
    returns (out: seq<byte>)
    modifies selector
    ensures var e := SeiSelector.TakeFor(old(selector.View()), pts, generation);
            && selector.View() == e.state
            && (e.message == [] || !Splice.HasVcl(Split(bytes)) ==> out == bytes)
            && (e.message != [] && Splice.HasVcl(Split(bytes)) ==>
                  && (exists unit :: Message(unit) == [DetectionJson.ClippedResults(e.message)]
                                     && Split(out) == Splice.Spliced(Split(bytes), unit))
                  && (Silent(Split(bytes)) ==> Messages(Split(out)) == [DetectionJson.ClippedResults(e.message)]))
  {
    var sei := selector.TakeNext(pts, generation);
    ghost var e := SeiSelector.TakeFor(old(selector.View()), pts, generation);
    if |sei| == 0 {
      assert e.message == [] by { if e.message != [] { UnitReadsBack(e.message); } }
      return bytes;
    }
    Splice.EncodedUnitsCanBeSpliced(PayloadSize.UUID, DetectionJson.Json(e.message));
    UnitReadsBack(e.message);
    var ok, spliced := Splice.InsertBeforeFirstVcl(bytes, sei);
    if Silent(Split(bytes)) { MessagesOfSpliced(Split(bytes), Nal(sei[4] % 32, sei[5..])); }
    out := spliced;
  }

  lemma {:induction false} ClippedEntries(rs: seq<DetectionJson.Result>)
    ensures |DetectionJson.ClippedResults(rs)| == |rs|
    ensures forall i :: 0 <= i < |rs| ==> DetectionJson.ClippedResults(rs)[i].dt == rs[i].dt
  {
    if rs != [] {
      ClippedEntries(rs[1..]);
      forall i | 0 <= i < |rs| ensures DetectionJson.ClippedResults(rs)[i].dt == rs[i].dt {
        if i > 0 { assert DetectionJson.ClippedResults(rs)[i] == DetectionJson.ClippedResults(rs[1..])[i - 1]; }
      }
    }
  }

  /**
   The purpose of the uplink. A viewer reads a message from unit `a` of a session;
   for each of its results, the RTP time of the unit minus the result's `dt` is the
   RTP time at which the result's own frame, unit `f`, was sent: within one tick, and
   exactly if they are a whole number of ticks apart.
   */
  lemma ViewerLocatesResults(st: SeiSelector.State, start: nat, units: seq<RtpClock.Unit>, f: nat, a: nat,
                             attached: seq<SeiSelector.Source>, message: seq<DetectionJson.Result>, i: nat)
    requires start < RtpClock.WRAP && f <= a < |units| && units[f].hasPts && units[a].hasPts
    requires forall j :: f <= j <= a ==> units[j].generation == units[a].generation
    requires attached == SeiSelector.TakeFor(st, units[a].pts, units[a].generation).attached
    requires message == SeiSelector.TakeFor(st, units[a].pts, units[a].generation).message
    requires i < |attached| && attached[i].pts == units[f].pts
    ensures var read := DetectionJson.ClippedResults(message);
            && |read| == |attached| && units[f].pts <= units[a].pts
            && RtpClock.Locates(start, units, f, a, read[i].dt)
  {
    SeiSelector.EntryTimes(st, units[a].pts, units[a].generation, attached, message);
    ClippedEntries(message);
    assert SeiSelector.IsDue(attached[i], units[a].pts, units[a].generation);
    RtpClock.SessionRecoversTime(start, units, f, a);
  }
}
