/** The connection the change feed reads and writes, as the source runs it. */
module Connection {
  import opened Collections
  import opened Frames
  import opened Framing

  lemma {:induction false} WireAllSnoc(fs: seq<Frame>, f: Frame)
    requires AllFit(fs) && f.Fits()
    ensures AllFit(fs + [f]) && WireAll(fs + [f]) == WireAll(fs) + Wire(f)
  {
    if fs == [] {
      assert fs + [f] == [f] && WireAll([f]) == Wire(f) + WireAll([]);
    } else {
      WireAllSnoc(fs[1..], f);
      assert (fs + [f])[1..] == fs[1..] + [f];
      Assoc(Wire(fs[0]), WireAll(fs[1..]), Wire(f));
    }
  }

  /** `sent` grew by one pong for each payload, in order, each in a client frame of some mask. */
  ghost predicate Answers(before: seq<Frame>, sent: seq<Frame>, pongs: seq<Bytes>) {
    && |sent| == |before| + |pongs|
    && sent[..|before|] == before
    && forall i :: 0 <= i < |pongs| ==> IsClientFrame(sent[|before| + i], 0xA, pongs[i])
  }

  ghost predicate IsClientFrame(f: Frame, opcode: Byte, payload: Bytes) {
    exists mask: Mask :: f == ClientFrame(opcode, payload, mask)
  }

  /** Mask in place, byte by byte. */
  method Unmask(data: array<Byte>, mask: Mask)
    modifies data
    ensures data[..] == Xored(old(data[..]), mask)
  {
    var i := 0;
    while i < data.Length
      invariant 0 <= i <= data.Length
      invariant forall k :: 0 <= k < i ==> data[k] == old(data[k]) ^ mask[k % 4]
      invariant forall k :: i <= k < data.Length ==> data[k] == old(data[k])
    {
      data[i] := data[i] ^ mask[i % 4];
      i := i + 1;
    }
  }

  method Masked(payload: Bytes, mask: Mask) returns (masked: Bytes)
    ensures masked == Xored(payload, mask)
  {
    var data := new Byte[|payload|](i requires 0 <= i < |payload| => payload[i]);
    assert data[..] == payload;
    Unmask(data, mask);
    masked := data[..];
  }

  /** The first byte and the length, in the shortest form it takes. */
  method Header(opcode: Byte, n: nat) returns (header: Bytes)
    requires n < TWO_64
    ensures header == [0x80 | opcode, 0x80 | LengthBits(FormFor(n), n)] + ToBigEndian(n, FormFor(n).ExtraBytes())
  {
    header := [0x80 | opcode];
    if n < 126 {
      header := header + [0x80 | ToByte(n)];
    } else if n < 65536 {
      header := header + [0x80 | 126];
      header := header + ToBigEndian(n, 2);
    } else {
      header := header + [0x80 | 127];
      header := header + ToBigEndian(n, 8);
    }
  }

  lemma HeaderIsWire(opcode: Byte, payload: Bytes, mask: Mask)
    requires |payload| < TWO_64
    ensures var n := |payload|;
            ([0x80 | opcode, 0x80 | LengthBits(FormFor(n), n)] + ToBigEndian(n, FormFor(n).ExtraBytes())) + mask
            + Xored(payload, mask) == Wire(ClientFrame(opcode, payload, mask))
  {
    var n := |payload|;
    var head := [0x80 | opcode, 0x80 | LengthBits(FormFor(n), n)];
    var size := ToBigEndian(n, FormFor(n).ExtraBytes());
    Assoc(head + size, mask, Xored(payload, mask));
    Assoc(head, size, mask + Xored(payload, mask));
  }

  class WsConn {
    /** Bytes the peer sent that have not been read yet. */
    var input: Bytes
    /** Bytes written to the peer. */
    var output: Bytes
    /** The frames `output` is made of. */
    ghost var sent: seq<Frame>

    constructor (received: Bytes)
      ensures Valid() && input == received && sent == []
    {
      input, output, sent := received, [], [];
    }

    ghost predicate Valid()
      reads this
    {
      AllFit(sent) && output == WireAll(sent)
    }

    method WriteFrame(opcode: Byte, payload: Bytes)
      requires Valid() && |payload| < TWO_64
      modifies this`output, this`sent
      ensures Valid() && Answered(old(sent), sent, opcode, payload)
    {
      var header := Header(opcode, |payload|);
      var mask: Mask := *;
      header := header + mask;
      var masked := Masked(payload, mask);
      output := output + (header + masked);
      HeaderIsWire(opcode, payload, mask);
      WireAllSnoc(sent, ClientFrame(opcode, payload, mask));
      sent := sent + [ClientFrame(opcode, payload, mask)];
    }

    /** `io.ReadFull` on the connection. */
    method Read(k: nat) returns (r: Full)
      modifies this`input
      ensures r == ReadFull(old(input), k)
      ensures input == if r.Full? then r.rest else []
    {
      r := ReadFull(input, k);
      input := if r.Full? then r.rest else [];
    }

    /** The next complete message: `ReadFrom` of the input, the pongs of which have been sent. */
    method ReadText() returns (r: Result)
      requires Valid()
      modifies this
      ensures Valid()
      ensures var spec := ReadFrom(old(input), []);
              r == spec.result && input == spec.rest && Answers(old(sent), sent, spec.pongs)
    {
      var message: Bytes := [];
      ghost var pongs: seq<Bytes> := [];
      while true
        invariant Valid() && |message| <= MAX_FRAME_BYTES
        invariant Answers(old(sent), sent, pongs)
        invariant Continues(old(input), [], input, message, pongs)
        decreases |input|
      {
        ghost var before := input;
        var parsed := NextFrame(message);
        if parsed.Bad? {
          return Failed(parsed.error);
        }
        var data := parsed.data;
        OneStep(before, message, old(input), pongs);
        if Opcode(parsed.first) == 0x8 {
          return Failed(Eof);
        } else if Opcode(parsed.first) == 0x9 {
          ghost var mid := sent;
          WriteFrame(0xA, data);
          AnswersOne(old(sent), mid, sent, pongs, data);
          pongs := pongs + [data];
        } else if Opcode(parsed.first) != 0xA {
          message := message + data;
          if IsFinal(parsed.first) {
            return Message(message);
          }
        }
      }
    }

    /** Header, size check, mask and body of one frame. */
    method NextFrame(message: Bytes) returns (r: Parsed)
      requires |message| <= MAX_FRAME_BYTES
      modifies this`input
      ensures r == ReadFrame(old(input), |message|)
      ensures input == if r.Got? then r.rest else r.left
    {
      var h := Read(2);
      if h.Cut? {
        return Bad(h.error, []);
      }
      var size := Length(h.bytes[1] & 0x7F);
      if size.NoSize? {
        return Bad(size.error, []);
      }
      if TooBig(size.length, |message|) {
        return Bad(TooLarge, input);
      }
      r := Payload(h.bytes, size.length);
    }

    method Length(bits: Byte) returns (r: Size)
      modifies this`input
      ensures r == ReadSize(bits, old(input))
      ensures input == if r.Size? then r.rest else []
    {
      if bits == 126 || bits == 127 {
        var b := Read(if bits == 126 then 2 else 8);
        if b.Cut? {
          return NoSize(b.error);
        }
        return Size(FromBigEndian(b.bytes), input);
      }
      return Size(ToNat(bits), input);
    }

    method Payload(head: Bytes, length: nat) returns (r: Parsed)
      requires |head| == 2
      modifies this`input
      ensures r == ReadBody(head, old(input), length)
      ensures input == if r.Got? then r.rest else r.left
    {
      var masked := head[1] & 0x80 != 0;
      var mask: Mask := [0, 0, 0, 0];
      assert input == input[0..];
      if masked {
        var m := Read(4);
        if m.Cut? {
          return Bad(m.error, []);
        }
        mask := m.bytes;
      }
      var body := Read(length);
      if body.Cut? {
        return Bad(body.error, []);
      }
      var data := body.bytes;
      if masked {
        data := Masked(data, mask);
      }
      r := Got(head[0], data, input);
    }
  }

  /** One more client frame was sent. */
  ghost predicate Answered(before: seq<Frame>, sent: seq<Frame>, opcode: Byte, payload: Bytes) {
    |sent| == |before| + 1 && sent[..|before|] == before && IsClientFrame(sent[|before|], opcode, payload)
  }

  lemma AnswersOne(before: seq<Frame>, mid: seq<Frame>, sent: seq<Frame>, pongs: seq<Bytes>, data: Bytes)
    requires Answers(before, mid, pongs) && Answered(mid, sent, 0xA, data)
    ensures Answers(before, sent, pongs + [data])
  {
    assert sent[..|before|] == mid[..|before|];
    forall i | 0 <= i < |pongs| + 1
      ensures IsClientFrame(sent[|before| + i], 0xA, (pongs + [data])[i])
    {
      if i < |pongs| {
        assert sent[|before| + i] == mid[|before| + i];
      }
    }
  }

  lemma PongIsFinal(payload: Bytes, mask: Mask)
    ensures var f := ClientFrame(0xA, payload, mask); f.IsControl() && IsFinal(f.first)
  {
  }

  /** A pong sent is a control frame the standard allows exactly when the ping it answers is no longer than
      one: the reader passes longer pings, and they are echoed whole. */
  lemma PongLegalIff(before: seq<Frame>, sent: seq<Frame>, pongs: seq<Bytes>, i: nat)
    requires Answers(before, sent, pongs) && i < |pongs|
    ensures sent[|before| + i].IsLegalControl() <==> |pongs[i]| <= 125
  {
    assert IsClientFrame(sent[|before| + i], 0xA, pongs[i]);
    var mask: Mask :| sent[|before| + i] == ClientFrame(0xA, pongs[i], mask);
    PongIsFinal(pongs[i], mask);
  }

  /** Any ping within the message bound is answered with its payload, whatever its length. */
  lemma PingEchoed(f: Frame, later: Bytes)
    requires f.Fits() && Opcode(f.first) == 0x9 && |f.payload| <= MAX_FRAME_BYTES
    ensures ReadFrom(Wire(f) + later, []).pongs != [] && ReadFrom(Wire(f) + later, []).pongs[0] == f.payload
  {
    ReadsOne(f, [], later);
  }

  /** Reading `all` comes to the pongs sent so far and then whatever reading `input` comes to. */
  ghost predicate Continues(all: Bytes, start: Bytes, input: Bytes, message: Bytes, pongs: seq<Bytes>) {
    var later := ReadFrom(input, message);
    ReadFrom(all, start) == later.(pongs := pongs + later.pongs)
  }

  /** One frame on, the read continues from what the frame leaves. */
  lemma OneStep(input: Bytes, message: Bytes, all: Bytes, pongs: seq<Bytes>)
    requires Continues(all, [], input, message, pongs) && ReadFrame(input, |message|).Got?
    ensures var f := ReadFrame(input, |message|);
            var spec := ReadFrom(all, []);
            if Opcode(f.first) == 0x8 then spec == Outcome(Failed(Eof), f.rest, pongs)
            else if Opcode(f.first) == 0x9 then Continues(all, [], f.rest, message, pongs + [f.data])
            else if Opcode(f.first) == 0xA then Continues(all, [], f.rest, message, pongs)
            else if IsFinal(f.first) then spec == Outcome(Message(message + f.data), f.rest, pongs)
            else Continues(all, [], f.rest, message + f.data, pongs)
  {
    var f := ReadFrame(input, |message|);
    assert pongs + [] == pongs;
    if Opcode(f.first) == 0x9 {
      var later := ReadFrom(f.rest, message).pongs;
      assert pongs + ([f.data] + later) == (pongs + [f.data]) + later;
    }
  }
}
