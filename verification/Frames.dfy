/** WebSocket frames at byte level (RFC 6455): the client's writer and its de-fragmenting reader,
    as functions of the bytes. */
module Frames {
  import opened Collections

  type Byte = bv8
  type Bytes = seq<Byte>

  type Mask = m: Bytes | |m| == 4 witness [0, 0, 0, 0]

  /** Bounds one message the change feed will buffer: 16 << 20. */
  const MAX_FRAME_BYTES: nat := 0x100_0000

  const TWO_64: nat := 0x1_0000_0000_0000_0000

  /** The three length forms of section 5.2 of RFC 6455. */
  datatype Form = Short | Medium | Long {
    function Capacity(): nat {
      match this case Short => 126 case Medium => 0x1_0000 case Long => TWO_64
    }

    function ExtraBytes(): nat {
      match this case Short => 0 case Medium => 2 case Long => 8
    }
  }

  /** A frame on the wire: its first byte whole, its mask if it has one, and how its length is written. */
  datatype Frame = Frame(first: Byte, mask: Option<Mask>, form: Form, payload: Bytes) {
    predicate Fits() {
      |payload| < form.Capacity()
    }

    predicate IsClose() {
      Opcode(first) == 0x8
    }

    predicate IsControl() {
      Opcode(first) in {0x8, 0x9, 0xA}
    }

    /** Section 5.5 of RFC 6455: whole, and of at most 125 bytes. */
    predicate IsLegalControl() {
      IsControl() && IsFinal(first) && |payload| <= 125
    }

    predicate IsFinalData() {
      !IsControl() && IsFinal(first)
    }
  }

  predicate IsFinal(first: Byte) {
    first & 0x80 != 0
  }

  function Opcode(first: Byte): Byte {
    first & 0x0F
  }

  // ---- bytes and numbers ----------------------------------------------------

  /** The bits of a byte, the highest first. */
  datatype Bits = Bits(b7: bool, b6: bool, b5: bool, b4: bool, b3: bool, b2: bool, b1: bool, b0: bool) {
    function Packed(): Byte {
      (if b7 then 0x80 else 0) | (if b6 then 0x40 else 0) | (if b5 then 0x20 else 0) | (if b4 then 0x10 else 0)
      | (if b3 then 0x08 else 0) | (if b2 then 0x04 else 0) | (if b1 then 0x02 else 0) | (if b0 then 0x01 else 0)
    }

    function Weight(): nat {
      (if b7 then 128 else 0) + (if b6 then 64 else 0) + (if b5 then 32 else 0) + (if b4 then 16 else 0)
      + (if b3 then 8 else 0) + (if b2 then 4 else 0) + (if b1 then 2 else 0) + (if b0 then 1 else 0)
    }
  }

  function Less(n: nat, w: nat): nat {
    if n >= w then n - w else n
  }

  function BitsOf(n: nat): Bits {
    var n6 := Less(n, 128);
    var n5 := Less(n6, 64);
    var n4 := Less(n5, 32);
    var n3 := Less(n4, 16);
    var n2 := Less(n3, 8);
    var n1 := Less(n2, 4);
    var n0 := Less(n1, 2);
    Bits(n >= 128, n6 >= 64, n5 >= 32, n4 >= 16, n3 >= 8, n2 >= 4, n1 >= 2, n0 >= 1)
  }

  /** The byte whose value is `n`. */
  function ToByte(n: nat): Byte
    requires n < 256
  {
    BitsOf(n).Packed()
  }

  function ToNat(b: Byte): nat {
    (if b & 0x80 != 0 then 128 else 0) + (if b & 0x40 != 0 then 64 else 0)
    + (if b & 0x20 != 0 then 32 else 0) + (if b & 0x10 != 0 then 16 else 0)
    + (if b & 0x08 != 0 then 8 else 0) + (if b & 0x04 != 0 then 4 else 0)
    + (if b & 0x02 != 0 then 2 else 0) + (if b & 0x01 != 0 then 1 else 0)
  }

  // ---- big-endian lengths ---------------------------------------------------

  function ToBigEndian(n: nat, width: nat): (r: Bytes)
    ensures |r| == width
  {
    if width == 0 then [] else ToBigEndian(n / 256, width - 1) + [ToByte(n % 256)]
  }

  function FromBigEndian(s: Bytes): nat {
    if s == [] then 0 else FromBigEndian(s[..|s| - 1]) * 256 + ToNat(s[|s| - 1])
  }

  function Pow256(k: nat): nat {
    if k == 0 then 1 else 256 * Pow256(k - 1)
  }

  lemma PackedBits(x: Bits)
    ensures var b := x.Packed();
            && (b & 0x80 != 0 <==> x.b7) && (b & 0x40 != 0 <==> x.b6) && (b & 0x20 != 0 <==> x.b5)
            && (b & 0x10 != 0 <==> x.b4) && (b & 0x08 != 0 <==> x.b3) && (b & 0x04 != 0 <==> x.b2)
            && (b & 0x02 != 0 <==> x.b1) && (b & 0x01 != 0 <==> x.b0)
  {
  }

  lemma PackedReads(x: Bits, n: nat)
    requires x.Weight() == n
    ensures ToNat(x.Packed()) == n
    ensures n < 128 ==> x.Packed() & 0x80 == 0
  {
    PackedBits(x);
  }

  lemma BitsWeigh(n: nat)
    requires n < 256
    ensures BitsOf(n).Weight() == n
  {
  }

  lemma ByteOfNat(n: nat)
    requires n < 256
    ensures ToNat(ToByte(n)) == n
    ensures n < 128 ==> ToByte(n) & 0x80 == 0
  {
    BitsWeigh(n);
    PackedReads(BitsOf(n), n);
  }

  lemma {:induction false} BigEndianReadsBack(n: nat, width: nat)
    requires n < Pow256(width)
    ensures FromBigEndian(ToBigEndian(n, width)) == n
  {
    if width > 0 {
      BigEndianReadsBack(n / 256, width - 1);
      var s := ToBigEndian(n, width);
      assert s[..|s| - 1] == ToBigEndian(n / 256, width - 1);
      ByteOfNat(n % 256);
    }
  }

  lemma Powers()
    ensures Pow256(2) == 0x1_0000 && Pow256(8) == TWO_64
  {
    assert Pow256(1) == 256 && Pow256(2) == 0x1_0000;
    assert Pow256(3) == 0x100_0000 && Pow256(4) == 0x1_0000_0000;
    assert Pow256(5) == 0x100_0000_0000 && Pow256(6) == 0x1_0000_0000_0000;
    assert Pow256(7) == 0x100_0000_0000_0000;
  }

  // ---- masking --------------------------------------------------------------

  function Xored(data: Bytes, mask: Mask): (r: Bytes)
    ensures |r| == |data|
  {
    seq(|data|, i requires 0 <= i < |data| => data[i] ^ mask[i % 4])
  }

  lemma XorTwice(a: Byte, b: Byte)
    ensures (a ^ b) ^ b == a
  {
  }

  /** Masking is its own inverse (section 5.3). */
  lemma XoredTwice(data: Bytes, mask: Mask)
    ensures Xored(Xored(data, mask), mask) == data
  {
    forall i | 0 <= i < |data|
      ensures (data[i] ^ mask[i % 4]) ^ mask[i % 4] == data[i]
    {
      XorTwice(data[i], mask[i % 4]);
    }
  }

  // ---- writing --------------------------------------------------------------

  function LengthBits(form: Form, n: nat): Byte
    requires n < form.Capacity()
  {
    match form case Short => ToByte(n) case Medium => 126 case Long => 127
  }

  function MaskBit(mask: Option<Mask>): Byte {
    if mask.Some? then 0x80 else 0
  }

  function MaskKey(mask: Option<Mask>): Bytes {
    if mask.Some? then mask.value else []
  }

  function Body(f: Frame): (r: Bytes)
    ensures |r| == |f.payload|
  {
    if f.mask.Some? then Xored(f.payload, f.mask.value) else f.payload
  }

  /** A frame's bytes. */
  function Wire(f: Frame): Bytes
    requires f.Fits()
  {
    [f.first, MaskBit(f.mask) | LengthBits(f.form, |f.payload|)]
    + (ToBigEndian(|f.payload|, f.form.ExtraBytes()) + (MaskKey(f.mask) + Body(f)))
  }

  function WireAll(fs: seq<Frame>): Bytes
    requires forall f :: f in fs ==> f.Fits()
  {
    if fs == [] then [] else Wire(fs[0]) + WireAll(fs[1..])
  }

  /** The form the client writes. */
  function FormFor(n: nat): Form {
    if n < 126 then Short else if n < 65536 then Medium else Long
  }

  /** The frame the client writes: final, masked, in the form its length takes. */
  function ClientFrame(opcode: Byte, payload: Bytes, mask: Mask): Frame {
    Frame(0x80 | opcode, Some(mask), FormFor(|payload|), payload)
  }

  /** The length is written in the fewest bytes it can be (section 5.2). */
  lemma ClientFrameIsMinimal(opcode: Byte, payload: Bytes, mask: Mask, other: Form)
    requires |payload| < TWO_64 && |payload| < other.Capacity()
    ensures ClientFrame(opcode, payload, mask).Fits()
    ensures FormFor(|payload|).ExtraBytes() <= other.ExtraBytes()
    ensures |Wire(ClientFrame(opcode, payload, mask))|
         <= |Wire(Frame(0x80 | opcode, Some(mask), other, payload))|
  {
  }

  /** One byte more, after those that weigh more. */
  lemma LastByte(s: Bytes, k: nat)
    requires 0 < k <= |s|
    ensures FromBigEndian(s[..k]) == 256 * FromBigEndian(s[..k - 1]) + ToNat(s[k - 1])
  {
    assert s[..k][..k - 1] == s[..k - 1];
  }

  /** The most significant byte comes first: the two bytes of a length ... */
  lemma TwoBytes(n: nat)
    requires n < 0x1_0000
    ensures var s := ToBigEndian(n, 2); n == 256 * ToNat(s[0]) + ToNat(s[1])
  {
    var s := ToBigEndian(n, 2);
    Powers();
    BigEndianReadsBack(n, 2);
    LastByte(s, 2);
    LastByte(s, 1);
    assert s[..2] == s && s[..0] == [];
  }

  /** ... and the eight. */
  lemma EightBytes(n: nat)
    requires n < TWO_64
    ensures var s := ToBigEndian(n, 8);
            n == 256 * (256 * (256 * (256 * (256 * (256 * (256 * ToNat(s[0]) + ToNat(s[1])) + ToNat(s[2])) + ToNat(s[3]))
                 + ToNat(s[4])) + ToNat(s[5])) + ToNat(s[6])) + ToNat(s[7])
  {
    var s := ToBigEndian(n, 8);
    Powers();
    BigEndianReadsBack(n, 8);
    forall k | 0 < k <= 8
      ensures FromBigEndian(s[..k]) == 256 * FromBigEndian(s[..k - 1]) + ToNat(s[k - 1])
    {
      LastByte(s, k);
    }
    assert s[..8] == s && s[..0] == [];
  }

  lemma PartsStand(front: Bytes, mask: Bytes, body: Bytes)
    requires |mask| == 4
    ensures var w := front + (mask + body);
            var at := |w| - |body|;
            w[at - 4..at] == mask && w[at..] == body && at == |front| + 4
  {
  }

  /** A client frame, byte by byte: final, masked, and its payload under the mask. */
  lemma ClientFrameBytes(opcode: Byte, payload: Bytes, mask: Mask)
    requires |payload| < TWO_64
    ensures var w := Wire(ClientFrame(opcode, payload, mask));
            var at := |w| - |payload|;
            && at >= 6 && w[0] == 0x80 | opcode && w[1] & 0x80 != 0 && w[at - 4..at] == mask
            && forall i :: 0 <= i < |payload| ==> w[at..][i] == payload[i] ^ mask[i % 4]
  {
    var form := FormFor(|payload|);
    var bits := LengthBits(form, |payload|);
    var head: Bytes := [0x80 | opcode, 0x80 | bits];
    var size := ToBigEndian(|payload|, form.ExtraBytes());
    WireOf(ClientFrame(opcode, payload, mask), head, size, mask, Xored(payload, mask));
    SetBit(bits);
    WireParts(head, size, mask, Xored(payload, mask), Wire(ClientFrame(opcode, payload, mask)));
  }

  lemma WireParts(head: Bytes, size: Bytes, mask: Mask, body: Bytes, w: Bytes)
    requires |head| == 2 && w == (head + size) + (mask + body)
    ensures var at := |w| - |body|; at >= 6 && w[0] == head[0] && w[1] == head[1] && w[at - 4..at] == mask && w[at..] == body
  {
    PartsStand(head + size, mask, body);
  }

  lemma WireOf(f: Frame, head: Bytes, size: Bytes, key: Bytes, body: Bytes)
    requires f.Fits() && head == [f.first, MaskBit(f.mask) | LengthBits(f.form, |f.payload|)]
    requires size == ToBigEndian(|f.payload|, f.form.ExtraBytes()) && key == MaskKey(f.mask) && body == Body(f)
    ensures Wire(f) == (head + size) + (key + body)
  {
    Assoc(head, size, key + body);
  }

  lemma SetBit(b: Byte)
    ensures (0x80 | b) & 0x80 != 0
  {
  }

  // ---- reading --------------------------------------------------------------

  datatype Error = Eof | UnexpectedEof | TooLarge

  /** `io.ReadFull`: all `k` bytes, or what ran out. */
  datatype Full = Full(bytes: Bytes, rest: Bytes) | Cut(error: Error)

  function ReadFull(input: Bytes, k: nat): (r: Full)
    ensures r.Full? ==> |r.bytes| == k && input == r.bytes + r.rest
  {
    if k <= |input| then Full(input[..k], input[k..])
    else if input == [] then Cut(Eof) else Cut(UnexpectedEof)
  }

  datatype Parsed = Got(first: Byte, data: Bytes, rest: Bytes) | Bad(error: Error, left: Bytes)

  datatype Size = Size(length: nat, rest: Bytes) | NoSize(error: Error)

  /** The length: seven bits, or the two or eight bytes those bits announce. */
  function ReadSize(bits: Byte, input: Bytes): (r: Size)
    ensures r.Size? ==> |r.rest| <= |input| && r.length < TWO_64
  {
    if bits == 126 || bits == 127 then
      var size := ReadFull(input, if bits == 126 then 2 else 8);
      if size.Cut? then NoSize(size.error)
      else
        BigEndianBound(size.bytes);
        Size(FromBigEndian(size.bytes), size.rest)
    else Size(ToNat(bits), input)
  }

  lemma {:induction false} BigEndianBelow(s: Bytes)
    ensures FromBigEndian(s) < Pow256(|s|)
  {
    if s != [] {
      BigEndianBelow(s[..|s| - 1]);
    }
  }

  lemma BigEndianBound(s: Bytes)
    requires |s| == 2 || |s| == 8
    ensures FromBigEndian(s) < TWO_64
  {
    BigEndianBelow(s);
    Powers();
  }

  /** Too big: the length claimed alone, or added to what is buffered in 64 bits, which may wrap. */
  predicate TooBig(length: nat, have: nat) {
    length > MAX_FRAME_BYTES || (have + length) % TWO_64 > MAX_FRAME_BYTES
  }

  /** The uint64 sum never wraps, so the check is the one meant. */
  lemma TooBigIsExact(length: nat, have: nat)
    requires have <= MAX_FRAME_BYTES
    ensures TooBig(length, have) <==> have + length > MAX_FRAME_BYTES
  {
  }

  /** One frame, with `have` bytes already buffered. */
  function ReadFrame(input: Bytes, have: nat): (r: Parsed)
    ensures r.Got? ==> |r.rest| + 2 <= |input|
    ensures r.Got? && have <= MAX_FRAME_BYTES ==> have + |r.data| <= MAX_FRAME_BYTES
  {
    var head := ReadFull(input, 2);
    if head.Cut? then Bad(head.error, [])
    else
      var size := ReadSize(head.bytes[1] & 0x7F, head.rest);
      if size.NoSize? then Bad(size.error, [])
      else if TooBig(size.length, have) then Bad(TooLarge, size.rest)
      else ReadBody(head.bytes, size.rest, size.length)
  }

  function ReadBody(head: Bytes, input: Bytes, length: nat): (r: Parsed)
    requires |head| == 2
    ensures r.Got? ==> |r.rest| <= |input| && |r.data| == length
  {
    var masked := head[1] & 0x80 != 0;
    var key := ReadFull(input, if masked then 4 else 0);
    if key.Cut? then Bad(key.error, [])
    else
      var body := ReadFull(key.rest, length);
      if body.Cut? then Bad(body.error, [])
      else Got(head[0], if masked then Xored(body.bytes, key.bytes) else body.bytes, body.rest)
  }

  /** What one call of the reader comes to: its result, what it left unread, and the pings it answered. */
  datatype Outcome = Outcome(result: Result, rest: Bytes, pongs: seq<Bytes>)

  datatype Result = Message(bytes: Bytes) | Failed(error: Error)

  function ReadFrom(input: Bytes, message: Bytes): Outcome
    decreases |input|
  {
    match ReadFrame(input, |message|)
    case Bad(error, left) => Outcome(Failed(error), left, [])
    case Got(first, data, rest) =>
      if Opcode(first) == 0x8 then Outcome(Failed(Eof), rest, [])
      else if Opcode(first) == 0x9 then
        var more := ReadFrom(rest, message);
        more.(pongs := [data] + more.pongs)
      else if Opcode(first) == 0xA then ReadFrom(rest, message)
      else if IsFinal(first) then Outcome(Message(message + data), rest, [])
      else ReadFrom(rest, message + data)
  }
}
