/** The reader undoes the writer, over whole streams of fragmented and interleaved frames. */
module Framing {
  import opened Collections
  import opened Frames

  // ---- one frame ------------------------------------------------------------

  lemma HeadBits(mask: Option<Mask>, form: Form, n: nat)
    requires n < form.Capacity()
    ensures var b := MaskBit(mask) | LengthBits(form, n);
            && (b & 0x80 != 0 <==> mask.Some?)
            && b & 0x7F == LengthBits(form, n)
            && (form.Short? ==> ToNat(b & 0x7F) == n && b & 0x7F != 126 && b & 0x7F != 127)
  {
    LengthBitsClear(form, n);
    MaskedBits(LengthBits(form, n));
  }

  lemma LengthBitsClear(form: Form, n: nat)
    requires n < form.Capacity()
    ensures var b := LengthBits(form, n);
            b & 0x80 == 0 && (form.Short? ==> ToNat(b) == n && b != 126 && b != 127)
  {
    if form.Short? {
      ByteOfNat(n);
      assert ToNat(126) == 126 && ToNat(127) == 127;
    }
  }

  lemma MaskedBits(b: Byte)
    requires b & 0x80 == 0
    ensures (0x80 | b) & 0x80 != 0 && (0x80 | b) & 0x7F == b && (0 | b) & 0x80 == 0 && (0 | b) & 0x7F == b
  {
  }

  lemma ReadFullOf(a: Bytes, rest: Bytes)
    ensures ReadFull(a + rest, |a|) == Full(a, rest)
  {
    assert (a + rest)[..|a|] == a && (a + rest)[|a|..] == rest;
  }

  lemma BodyReadsBack(f: Frame, head: Bytes, rest: Bytes)
    requires |head| == 2 && head[0] == f.first && (head[1] & 0x80 != 0 <==> f.mask.Some?)
    ensures ReadBody(head, MaskKey(f.mask) + Body(f) + rest, |f.payload|) == Got(f.first, f.payload, rest)
  {
    ReadFullOf(Body(f), rest);
    if f.mask.Some? {
      assert MaskKey(f.mask) + Body(f) + rest == f.mask.value + (Body(f) + rest);
      ReadFullOf(f.mask.value, Body(f) + rest);
      XoredTwice(f.payload, f.mask.value);
    } else {
      assert MaskKey(f.mask) + Body(f) + rest == [] + (Body(f) + rest);
      ReadFullOf([], Body(f) + rest);
    }
  }

  lemma SizeReadsBack(f: Frame, rest: Bytes)
    requires f.Fits()
    ensures var b := MaskBit(f.mask) | LengthBits(f.form, |f.payload|);
            ReadSize(b & 0x7F, ToBigEndian(|f.payload|, f.form.ExtraBytes()) + rest) == Size(|f.payload|, rest)
  {
    var n := |f.payload|;
    HeadBits(f.mask, f.form, n);
    if f.form.Short? {
      assert ToBigEndian(n, 0) + rest == rest;
    } else {
      Powers();
      BigEndianReadsBack(n, f.form.ExtraBytes());
      ReadFullOf(ToBigEndian(n, f.form.ExtraBytes()), rest);
    }
  }

  lemma WireThen(f: Frame, rest: Bytes)
    requires f.Fits()
    ensures Wire(f) + rest == [f.first, MaskBit(f.mask) | LengthBits(f.form, |f.payload|)]
                              + (ToBigEndian(|f.payload|, f.form.ExtraBytes()) + (MaskKey(f.mask) + Body(f) + rest))
  {
    var head := [f.first, MaskBit(f.mask) | LengthBits(f.form, |f.payload|)];
    var size := ToBigEndian(|f.payload|, f.form.ExtraBytes());
    Assoc(head, size + (MaskKey(f.mask) + Body(f)), rest);
    Assoc(size, MaskKey(f.mask) + Body(f), rest);
  }

  /** Any frame on the wire, whatever its length form and mask, reads back as itself and ends where it
      ends; one whose size does not pass is refused before its body is read. */
  lemma FrameReadsBack(f: Frame, have: nat, rest: Bytes)
    requires f.Fits() && have <= MAX_FRAME_BYTES
    ensures ReadFrame(Wire(f) + rest, have) ==
            if have + |f.payload| <= MAX_FRAME_BYTES then Got(f.first, f.payload, rest)
            else Bad(TooLarge, MaskKey(f.mask) + Body(f) + rest)
  {
    var body := MaskKey(f.mask) + Body(f) + rest;
    var head, tail := HeadReadsBack(f, rest);
    ReadsOn(Wire(f) + rest, head, tail, |f.payload|, body, have);
    BodyReadsBack(f, head, rest);
  }

  lemma ReadsOn(input: Bytes, head: Bytes, tail: Bytes, length: nat, body: Bytes, have: nat)
    requires ReadFull(input, 2) == Full(head, tail) && |head| == 2 && have <= MAX_FRAME_BYTES
    requires ReadSize(head[1] & 0x7F, tail) == Size(length, body)
    ensures ReadFrame(input, have) ==
            if have + length <= MAX_FRAME_BYTES then ReadBody(head, body, length) else Bad(TooLarge, body)
  {
    TooBigIsExact(length, have);
  }

  lemma HeadReadsBack(f: Frame, rest: Bytes) returns (head: Bytes, tail: Bytes)
    requires f.Fits()
    ensures ReadFull(Wire(f) + rest, 2) == Full(head, tail)
    ensures |head| == 2 && head[0] == f.first && (head[1] & 0x80 != 0 <==> f.mask.Some?)
    ensures ReadSize(head[1] & 0x7F, tail) == Size(|f.payload|, MaskKey(f.mask) + Body(f) + rest)
  {
    var body := MaskKey(f.mask) + Body(f) + rest;
    head := [f.first, MaskBit(f.mask) | LengthBits(f.form, |f.payload|)];
    tail := ToBigEndian(|f.payload|, f.form.ExtraBytes()) + body;
    WireThen(f, rest);
    ReadFullOf(head, tail);
    HeadBits(f.mask, f.form, |f.payload|);
    SizeReadsBack(f, body);
  }

  // ---- a connection cut inside a frame --------------------------------------------

  /** Reading `|a|` bytes of `a + rest` cut after `k`. */
  lemma ReadFullCut(a: Bytes, rest: Bytes, k: nat)
    requires k <= |a| + |rest|
    ensures ReadFull((a + rest)[..k], |a|) ==
            if k >= |a| then Full(a, rest[..k - |a|]) else Cut(if k == 0 then Eof else UnexpectedEof)
  {
    if k >= |a| {
      assert (a + rest)[..k] == a + rest[..k - |a|];
      ReadFullOf(a, rest[..k - |a|]);
    }
  }

  /** Where one field of a frame ends and the next begins. */
  ghost predicate IsFieldStart(f: Frame, k: nat) {
    || k == 0 || k == 2 || k == 2 + f.form.ExtraBytes()
    || k == 2 + f.form.ExtraBytes() + |MaskKey(f.mask)|
  }

  /** A body cut short, its mask first. */
  lemma CutBody(f: Frame, head: Bytes, k: nat)
    requires |head| == 2 && (head[1] & 0x80 != 0 <==> f.mask.Some?) && k < |MaskKey(f.mask)| + |f.payload|
    ensures ReadBody(head, (MaskKey(f.mask) + Body(f))[..k], |f.payload|) ==
            Bad(if k == 0 || k == |MaskKey(f.mask)| then Eof else UnexpectedEof, [])
  {
    ReadFullCut(MaskKey(f.mask), Body(f), k);
    if k >= |MaskKey(f.mask)| {
      ReadFullCut(Body(f), [], k - |MaskKey(f.mask)|);
      assert Body(f) + [] == Body(f);
    }
  }

  /** A length cut short, or whole. */
  lemma CutSize(f: Frame, rest: Bytes, k: nat)
    requires f.Fits() && k <= f.form.ExtraBytes() + |rest|
    ensures var b := MaskBit(f.mask) | LengthBits(f.form, |f.payload|);
            ReadSize(b & 0x7F, (ToBigEndian(|f.payload|, f.form.ExtraBytes()) + rest)[..k]) ==
            if k >= f.form.ExtraBytes() then Size(|f.payload|, rest[..k - f.form.ExtraBytes()])
            else NoSize(if k == 0 then Eof else UnexpectedEof)
  {
    var extra := f.form.ExtraBytes();
    var size := ToBigEndian(|f.payload|, extra);
    HeadBits(f.mask, f.form, |f.payload|);
    ReadFullCut(size, rest, k);
    if k >= extra {
      assert (size + rest)[..k] == size + rest[..k - extra];
      SizeReadsBack(f, rest[..k - extra]);
    }
  }

  /** The head read, and what is left of the cut frame after it. */
  lemma CutAfterHead(f: Frame, k: nat) returns (head: Bytes)
    requires f.Fits() && k <= |Wire(f)|
    ensures |head| == 2 && head[1] == MaskBit(f.mask) | LengthBits(f.form, |f.payload|)
    ensures k < 2 ==> ReadFull(Wire(f)[..k], 2) == Cut(if k == 0 then Eof else UnexpectedEof)
    ensures k >= 2 ==> ReadFull(Wire(f)[..k], 2) ==
                       Full(head, (ToBigEndian(|f.payload|, f.form.ExtraBytes()) + (MaskKey(f.mask) + Body(f)))[..k - 2])
  {
    head := [f.first, MaskBit(f.mask) | LengthBits(f.form, |f.payload|)];
    var rest := ToBigEndian(|f.payload|, f.form.ExtraBytes()) + (MaskKey(f.mask) + Body(f));
    assert Wire(f) == head + rest;
    ReadFullCut(head, rest, k);
  }

  /** A cut within the length. */
  lemma CutInSize(input: Bytes, head: Bytes, tail: Bytes, error: Error, have: nat)
    requires |head| == 2 && ReadFull(input, 2) == Full(head, tail) && ReadSize(head[1] & 0x7F, tail) == NoSize(error)
    ensures ReadFrame(input, have) == Bad(error, [])
  {
  }

  lemma CutLater(f: Frame, input: Bytes, head: Bytes, size: Bytes, body: Bytes, at: nat, have: nat)
    requires f.Fits() && have + |f.payload| <= MAX_FRAME_BYTES && at < |size| + |body|
    requires |head| == 2 && head[1] == MaskBit(f.mask) | LengthBits(f.form, |f.payload|)
    requires size == ToBigEndian(|f.payload|, f.form.ExtraBytes()) && body == MaskKey(f.mask) + Body(f)
    requires ReadFull(input, 2) == Full(head, (size + body)[..at])
    ensures ReadFrame(input, have) == Bad(if IsFieldStart(f, at + 2) then Eof else UnexpectedEof, [])
  {
    CutSize(f, body, at);
    if at < |size| {
      CutInSize(input, head, (size + body)[..at], if at == 0 then Eof else UnexpectedEof, have);
    } else {
      HeadBits(f.mask, f.form, |f.payload|);
      ReadsOn(input, head, (size + body)[..at], |f.payload|, body[..at - |size|], have);
      CutBody(f, head, at - |size|);
    }
  }

  lemma WireLength(f: Frame)
    requires f.Fits()
    ensures |Wire(f)| == 2 + f.form.ExtraBytes() + |MaskKey(f.mask) + Body(f)|
  {
  }

  /** Any frame cut short is an error: the end of the stream where a field would begin, a clean end though
      the frame is not over; a broken read anywhere else. */
  lemma CutFrame(f: Frame, have: nat, k: nat)
    requires f.Fits() && have + |f.payload| <= MAX_FRAME_BYTES && k < |Wire(f)|
    ensures ReadFrame(Wire(f)[..k], have) == Bad(if IsFieldStart(f, k) then Eof else UnexpectedEof, [])
  {
    var head := CutAfterHead(f, k);
    WireLength(f);
    if k >= 2 {
      CutLater(f, Wire(f)[..k], head, ToBigEndian(|f.payload|, f.form.ExtraBytes()), MaskKey(f.mask) + Body(f), k - 2, have);
    }
  }

  // ---- streams --------------------------------------------------------------

  /** Payloads of the data frames, joined. */
  function DataOf(fs: seq<Frame>): Bytes {
    if fs == [] then []
    else (if fs[0].IsControl() then [] else fs[0].payload) + DataOf(fs[1..])
  }

  /** Payloads of the pings, in order. */
  function PingsOf(fs: seq<Frame>): seq<Bytes> {
    if fs == [] then []
    else (if Opcode(fs[0].first) == 0x9 then [fs[0].payload] else []) + PingsOf(fs[1..])
  }

  predicate AllFit(fs: seq<Frame>) {
    forall f :: f in fs ==> f.Fits()
  }

  /** Frames the reader goes past: pings, pongs and fragments that do not end the message. */
  predicate Passing(fs: seq<Frame>) {
    forall f :: f in fs ==> !f.IsClose() && !f.IsFinalData()
  }

  /** The size check passes at every frame, `have` bytes being buffered before the first. */
  ghost predicate Sized(fs: seq<Frame>, have: nat) {
    forall i :: 0 <= i < |fs| ==> have + |DataOf(fs[..i])| + |fs[i].payload| <= MAX_FRAME_BYTES
  }

  lemma SizedTail(fs: seq<Frame>, have: nat)
    requires fs != [] && Sized(fs, have)
    ensures have + |fs[0].payload| <= MAX_FRAME_BYTES
    ensures Sized(fs[1..], have + if fs[0].IsControl() then 0 else |fs[0].payload|)
  {
    assert fs[..0] == [];
    assert have + |DataOf(fs[..0])| + |fs[0].payload| <= MAX_FRAME_BYTES;
    forall i | 0 <= i < |fs[1..]|
      ensures (have + if fs[0].IsControl() then 0 else |fs[0].payload|) + |DataOf(fs[1..][..i])| + |fs[1..][i].payload|
           <= MAX_FRAME_BYTES
    {
      assert fs[..i + 1][1..] == fs[1..][..i];
      assert have + |DataOf(fs[..i + 1])| + |fs[i + 1].payload| <= MAX_FRAME_BYTES;
    }
  }

  /** The reader goes past fragments and control frames: it buffers their data, answers their pings
      in order, and stands at the frame after them. */
  lemma {:induction false} ReadsPast(fs: seq<Frame>, message: Bytes, rest: Bytes)
    requires AllFit(fs) && Passing(fs) && Sized(fs, |message|)
    ensures var after := ReadFrom(rest, message + DataOf(fs));
            ReadFrom(WireAll(fs) + rest, message) == after.(pongs := PingsOf(fs) + after.pongs)
  {
    if fs == [] {
      assert WireAll(fs) + rest == rest && message + DataOf(fs) == message;
      assert PingsOf(fs) + ReadFrom(rest, message).pongs == ReadFrom(rest, message).pongs;
    } else {
      var f, tail := fs[0], fs[1..];
      var data := if f.IsControl() then [] else f.payload;
      var pings := if Opcode(f.first) == 0x9 then [f.payload] else [];
      SizedTail(fs, |message|);
      ReadsPast(tail, message + data, rest);
      Assoc(message, data, DataOf(tail));
      ReadsOne(f, message, WireAll(tail) + rest);
      Assoc(Wire(f), WireAll(tail), rest);
      var after := ReadFrom(rest, message + DataOf(fs));
      assert pings + (PingsOf(tail) + after.pongs) == PingsOf(fs) + after.pongs;
    }
  }

  /** One frame gone past. */
  lemma ReadsOne(f: Frame, message: Bytes, later: Bytes)
    requires f.Fits() && !f.IsClose() && !f.IsFinalData() && |message| + |f.payload| <= MAX_FRAME_BYTES
    ensures var next := ReadFrom(later, message + if f.IsControl() then [] else f.payload);
            ReadFrom(Wire(f) + later, message) ==
            next.(pongs := (if Opcode(f.first) == 0x9 then [f.payload] else []) + next.pongs)
  {
    FrameReadsBack(f, |message|, later);
    ReadsPassed(f, Wire(f) + later, message, later);
  }

  lemma ReadsPassed(f: Frame, input: Bytes, message: Bytes, later: Bytes)
    requires !f.IsClose() && !f.IsFinalData() && |message| <= MAX_FRAME_BYTES
    requires ReadFrame(input, |message|) == Got(f.first, f.payload, later)
    ensures var next := ReadFrom(later, message + if f.IsControl() then [] else f.payload);
            ReadFrom(input, message) ==
            next.(pongs := (if Opcode(f.first) == 0x9 then [f.payload] else []) + next.pongs)
  {
    assert message + [] == message;
    var next := ReadFrom(later, message + if f.IsControl() then [] else f.payload);
    assert [] + next.pongs == next.pongs;
  }

  /** What one read of any stream of frames comes to, decided by its first frame that is not passed:
      a final fragment ends the message, a close ends the stream, a size that does not pass ends it
      with an error. Every ping before is answered with its own payload. */
  lemma ReadsToFirstStop(fs: seq<Frame>, f: Frame, rest: Bytes)
    requires AllFit(fs) && Passing(fs) && Sized(fs, 0) && f.Fits() && (f.IsClose() || f.IsFinalData() || !Sized(fs + [f], 0))
    ensures var have := DataOf(fs);
            var stream := WireAll(fs) + (Wire(f) + rest);
            ReadFrom(stream, []) ==
            if !Sized(fs + [f], 0) then Outcome(Failed(TooLarge), MaskKey(f.mask) + Body(f) + rest, PingsOf(fs))
            else if f.IsClose() then Outcome(Failed(Eof), rest, PingsOf(fs))
            else Outcome(Message(have + f.payload), rest, PingsOf(fs))
  {
    SizedSnoc(fs, f);
    ReadsPast(fs, [], Wire(f) + rest);
    assert [] + DataOf(fs) == DataOf(fs);
    DataWithin(fs, 0);
    FrameReadsBack(f, |DataOf(fs)|, rest);
    assert PingsOf(fs) + [] == PingsOf(fs);
  }

  lemma SizedSnoc(fs: seq<Frame>, f: Frame)
    requires Sized(fs, 0)
    ensures Sized(fs + [f], 0) <==> |DataOf(fs)| + |f.payload| <= MAX_FRAME_BYTES
  {
    var all := fs + [f];
    assert all[..|fs|] == fs;
    forall i | 0 <= i < |fs|
      ensures all[..i] == fs[..i] && all[i] == fs[i]
    {
    }
    if |DataOf(fs)| + |f.payload| <= MAX_FRAME_BYTES {
      forall i | 0 <= i < |all|
        ensures 0 + |DataOf(all[..i])| + |all[i].payload| <= MAX_FRAME_BYTES
      {
        assert i < |fs| ==> 0 + |DataOf(fs[..i])| + |fs[i].payload| <= MAX_FRAME_BYTES;
      }
    } else {
      assert 0 + |DataOf(all[..|fs|])| + |all[|fs|].payload| > MAX_FRAME_BYTES;
    }
  }

  lemma {:induction false} DataWithin(fs: seq<Frame>, have: nat)
    requires Sized(fs, have) && have <= MAX_FRAME_BYTES
    ensures have + |DataOf(fs)| <= MAX_FRAME_BYTES
  {
    if fs != [] {
      SizedTail(fs, have);
      DataWithin(fs[1..], have + if fs[0].IsControl() then 0 else |fs[0].payload|);
    }
  }

  /** On any bytes at all, a message that comes back extends what was buffered and is within the bound. */
  lemma {:induction false} MessageWithin(input: Bytes, message: Bytes)
    requires |message| <= MAX_FRAME_BYTES
    ensures var r := ReadFrom(input, message).result;
            r.Message? ==> message <= r.bytes && |r.bytes| <= MAX_FRAME_BYTES
    decreases |input|
  {
    match ReadFrame(input, |message|)
    case Bad(_, _) =>
    case Got(first, data, rest) =>
      if Opcode(first) == 0x9 || Opcode(first) == 0xA {
        MessageWithin(rest, message);
      } else if Opcode(first) != 0x8 && !IsFinal(first) {
        MessageWithin(rest, message + data);
      }
  }

  // ---- the client's own messages --------------------------------------------

  function TextFrames(payloads: seq<Bytes>, masks: seq<Mask>): (r: seq<Frame>)
    requires |payloads| == |masks|
    ensures |r| == |payloads|
    ensures forall i :: 0 <= i < |r| ==> r[i] == ClientFrame(0x1, payloads[i], masks[i])
  {
    seq(|payloads|, i requires 0 <= i < |payloads| => ClientFrame(0x1, payloads[i], masks[i]))
  }

  /** `n` reads in a row. */
  function ReadMessages(input: Bytes, n: nat): (seq<Bytes>, Bytes)
    decreases n
  {
    if n == 0 then ([], input)
    else
      var one := ReadFrom(input, []);
      match one.result
      case Failed(_) => ([], one.rest)
      case Message(bytes) =>
        var (more, rest) := ReadMessages(one.rest, n - 1);
        ([bytes] + more, rest)
  }

  /** Text frames written one after the other read back as the same messages, and reading stops
      exactly at the end of the last. */
  lemma MessagesReadBack(payloads: seq<Bytes>, masks: seq<Mask>, rest: Bytes)
    requires |payloads| == |masks| && forall p :: p in payloads ==> |p| <= MAX_FRAME_BYTES
    ensures AllFit(TextFrames(payloads, masks))
    ensures ReadMessages(WireAll(TextFrames(payloads, masks)) + rest, |payloads|) == (payloads, rest)
  {
    TextFramesFit(payloads, masks);
    StreamReadsBack(payloads, masks, rest, WireAll(TextFrames(payloads, masks)) + rest);
  }

  lemma {:induction false} StreamReadsBack(payloads: seq<Bytes>, masks: seq<Mask>, rest: Bytes, stream: Bytes)
    requires |payloads| == |masks| && AllFit(TextFrames(payloads, masks))
    requires stream == WireAll(TextFrames(payloads, masks)) + rest
    requires forall i :: 0 <= i < |payloads| ==> |payloads[i]| <= MAX_FRAME_BYTES
    ensures ReadMessages(stream, |payloads|) == (payloads, rest)
  {
    if payloads == [] {
      assert WireAll([]) + rest == rest;
    } else {
      var later := FirstText(payloads, masks, rest, stream);
      StreamReadsBack(payloads[1..], masks[1..], rest, later);
      NextMessage(stream, |payloads|, payloads[0], later);
      assert payloads == [payloads[0]] + payloads[1..];
    }
  }

  lemma FirstText(payloads: seq<Bytes>, masks: seq<Mask>, rest: Bytes, stream: Bytes) returns (later: Bytes)
    requires |payloads| == |masks| && payloads != [] && AllFit(TextFrames(payloads, masks))
    requires stream == WireAll(TextFrames(payloads, masks)) + rest
    requires |payloads[0]| <= MAX_FRAME_BYTES
    ensures AllFit(TextFrames(payloads[1..], masks[1..]))
    ensures later == WireAll(TextFrames(payloads[1..], masks[1..])) + rest
    ensures ReadFrom(stream, []) == Outcome(Message(payloads[0]), later, [])
  {
    var fs := TextFrames(payloads, masks);
    assert fs[1..] == TextFrames(payloads[1..], masks[1..]);
    later := WireAll(fs[1..]) + rest;
    Assoc(Wire(fs[0]), WireAll(fs[1..]), rest);
    TextReadsBack(payloads[0], masks[0], later);
  }

  lemma TextFramesFit(payloads: seq<Bytes>, masks: seq<Mask>)
    requires |payloads| == |masks| && forall p :: p in payloads ==> |p| <= MAX_FRAME_BYTES
    ensures AllFit(TextFrames(payloads, masks))
  {
    var fs := TextFrames(payloads, masks);
    forall f | f in fs
      ensures f.Fits()
    {
      var i :| 0 <= i < |fs| && f == fs[i];
      assert payloads[i] in payloads;
    }
  }

  lemma NextMessage(input: Bytes, n: nat, bytes: Bytes, rest: Bytes)
    requires n > 0 && ReadFrom(input, []) == Outcome(Message(bytes), rest, [])
    ensures ReadMessages(input, n) == ([bytes] + ReadMessages(rest, n - 1).0, ReadMessages(rest, n - 1).1)
  {
  }

  lemma TextReadsBack(payload: Bytes, mask: Mask, later: Bytes)
    requires |payload| <= MAX_FRAME_BYTES
    ensures ClientFrame(0x1, payload, mask).Fits()
    ensures ReadFrom(Wire(ClientFrame(0x1, payload, mask)) + later, []) == Outcome(Message(payload), later, [])
  {
    var f := ClientFrame(0x1, payload, mask);
    assert Opcode(0x80 | 0x1) == 0x1 && IsFinal(0x80 | 0x1);
    FrameReadsBack(f, 0, later);
    assert [] + payload == payload;
  }
}
