/** HMC1 framing: one 16-byte prefix, the JSON header and the payload, as three programs write and read it. */
module Envelope {
  import opened Wrappers

  type Byte = b: int | 0 <= b < 256

  const PREFIX_LENGTH: nat := 16
  const MAGIC: seq<Byte> := [0x48, 0x4d, 0x43, 0x31]
  const VERSION: nat := 1
  const RGBD_FRAME: nat := 1
  const CHARACTER_FRAME: nat := 2
  const MAX_HEADER_BYTES: nat := 65_536
  const MAX_RGBD_PAYLOAD_BYTES: nat := 16 * 1024 * 1024
  const MAX_CHARACTER_PAYLOAD_BYTES: nat := 8 * 1024 * 1024

  datatype Error = InvalidMessage | UnsupportedVersion | FrameTooLarge | PackError

  // --- little-endian integers ------------------------------------------------------------------------

  function Power256(width: nat): (r: nat)
    ensures r >= 1
  {
    if width == 0 then 1 else 256 * Power256(width - 1)
  }

  function LittleEndian(value: nat, width: nat): (r: seq<Byte>)
    ensures |r| == width
  {
    if width == 0 then [] else [value % 256] + LittleEndian(value / 256, width - 1)
  }

  function FromLittleEndian(bytes: seq<Byte>): nat {
    if bytes == [] then 0 else bytes[0] + 256 * FromLittleEndian(bytes[1..])
  }

  lemma {:induction false} LittleEndianRoundTrip(value: nat, width: nat)
    requires value < Power256(width)
    ensures FromLittleEndian(LittleEndian(value, width)) == value
  {
    if width > 0 {
      assert value / 256 < Power256(width - 1);
      LittleEndianRoundTrip(value / 256, width - 1);
      assert LittleEndian(value, width)[1..] == LittleEndian(value / 256, width - 1);
    }
  }

  lemma {:induction false} FromLittleEndianRoundTrip(bytes: seq<Byte>)
    ensures FromLittleEndian(bytes) < Power256(|bytes|)
    ensures LittleEndian(FromLittleEndian(bytes), |bytes|) == bytes
  {
    if bytes != [] {
      FromLittleEndianRoundTrip(bytes[1..]);
      var v := FromLittleEndian(bytes[1..]);
      assert (bytes[0] + 256 * v) % 256 == bytes[0] && (bytes[0] + 256 * v) / 256 == v;
    }
  }

  lemma Widths()
    ensures Power256(2) == 65_536 && Power256(4) == 0x1_0000_0000
  {
    assert Power256(1) == 256 * Power256(0);
    assert Power256(2) == 256 * Power256(1);
    assert Power256(3) == 256 * Power256(2);
    assert Power256(4) == 256 * Power256(3);
  }

  // --- the format ----------------------------------------------------------------------------------------

  datatype Message = Message(messageType: nat, header: seq<Byte>, payload: seq<Byte>)

  function Prefix(messageType: nat, headerLength: nat, payloadLength: nat): (r: seq<Byte>)
    ensures |r| == PREFIX_LENGTH
  {
    MAGIC + LittleEndian(VERSION, 2) + LittleEndian(messageType, 2) + LittleEndian(headerLength, 4)
      + LittleEndian(payloadLength, 4)
  }

  function Frame(m: Message): seq<Byte> {
    Prefix(m.messageType, |m.header|, |m.payload|) + m.header + m.payload
  }

  // --- what each program admits --------------------------------------------------------------------------

  function PythonMaxPayload(messageType: int): nat {
    if messageType == RGBD_FRAME then MAX_RGBD_PAYLOAD_BYTES
    else if messageType == CHARACTER_FRAME then MAX_CHARACTER_PAYLOAD_BYTES
    else MAX_RGBD_PAYLOAD_BYTES
  }

  /** The Java client only ever assembles character messages and applies their limit to every type. */
  function JavaMaxPayload(messageType: int): nat {
    MAX_CHARACTER_PAYLOAD_BYTES
  }

  predicate KnownType(messageType: int) {
    messageType == RGBD_FRAME || messageType == CHARACTER_FRAME
  }

  predicate InLimits(m: Message, maxPayload: int -> nat) {
    KnownType(m.messageType) && |m.header| <= MAX_HEADER_BYTES && |m.payload| <= maxPayload(m.messageType)
  }

  // --- decoding: fixed prefix, limits, exact length, then slices ---------------------------------------------

  function Decode(data: seq<Byte>, maxPayload: int -> nat): (r: Result<Message, Error>) {
    if |data| < PREFIX_LENGTH then Err(InvalidMessage)
    else if data[..4] != MAGIC then Err(InvalidMessage)
    else if FromLittleEndian(data[4..6]) != VERSION then Err(UnsupportedVersion)
    else
      var messageType := FromLittleEndian(data[6..8]);
      var headerLength := FromLittleEndian(data[8..12]);
      var payloadLength := FromLittleEndian(data[12..16]);
      if !KnownType(messageType) then Err(InvalidMessage)
      else if headerLength > MAX_HEADER_BYTES then Err(FrameTooLarge)
      else if payloadLength > maxPayload(messageType) then Err(FrameTooLarge)
      else if |data| != PREFIX_LENGTH + headerLength + payloadLength then Err(InvalidMessage)
      else Ok(Message(messageType, data[PREFIX_LENGTH..PREFIX_LENGTH + headerLength],
                      data[PREFIX_LENGTH + headerLength..]))
  }

  function PythonDecode(data: seq<Byte>): Result<Message, Error> {
    Decode(data, PythonMaxPayload)
  }

  function JavaDecode(data: seq<Byte>): Result<Message, Error> {
    Decode(data, JavaMaxPayload)
  }

  lemma PrefixFields(messageType: nat, headerLength: nat, payloadLength: nat, rest: seq<Byte>)
    requires messageType < 0x1_0000 && headerLength < 0x1_0000_0000 && payloadLength < 0x1_0000_0000
    ensures var data := Prefix(messageType, headerLength, payloadLength) + rest;
            && |data| >= PREFIX_LENGTH && data[..4] == MAGIC && FromLittleEndian(data[4..6]) == VERSION
            && FromLittleEndian(data[6..8]) == messageType && FromLittleEndian(data[8..12]) == headerLength
            && FromLittleEndian(data[12..16]) == payloadLength && data[16..] == rest
  {
    Widths();
    LittleEndianRoundTrip(VERSION, 2);
    LittleEndianRoundTrip(messageType, 2);
    LittleEndianRoundTrip(headerLength, 4);
    LittleEndianRoundTrip(payloadLength, 4);
    var v, t, h, p := LittleEndian(VERSION, 2), LittleEndian(messageType, 2), LittleEndian(headerLength, 4),
                      LittleEndian(payloadLength, 4);
    hide LittleEndian, FromLittleEndian;
    var data := Prefix(messageType, headerLength, payloadLength) + rest;
    assert data == MAGIC + v + t + h + p + rest;
    assert data[..4] == MAGIC && data[4..6] == v && data[6..8] == t && data[8..12] == h && data[12..16] == p;
    assert data[16..] == rest;
  }

  /** Where each part of a frame lies: the magic word, the four numbers, then header and payload to the end. */
  lemma FrameLayout(m: Message)
    requires m.messageType < 0x1_0000 && |m.header| < 0x1_0000_0000 && |m.payload| < 0x1_0000_0000
    ensures var data, split := Frame(m), 16 + |m.header|;
            && |data| == split + |m.payload|
            && data[0] == 'H' as int && data[1] == 'M' as int && data[2] == 'C' as int && data[3] == '1' as int
            && FromLittleEndian(data[4..6]) == 1 && FromLittleEndian(data[6..8]) == m.messageType
            && FromLittleEndian(data[8..12]) == |m.header| && FromLittleEndian(data[12..16]) == |m.payload|
            && data[16..split] == m.header && data[split..] == m.payload
  {
    PrefixFields(m.messageType, |m.header|, |m.payload|, m.header + m.payload);
    var prefix := Prefix(m.messageType, |m.header|, |m.payload|);
    assert Frame(m) == prefix + (m.header + m.payload);
    hide Frame, Prefix, FromLittleEndian;
    assert forall i | 0 <= i < 4 :: Frame(m)[i] == Frame(m)[..4][i];
  }

  lemma FieldsPrefix(data: seq<Byte>)
    requires |data| >= PREFIX_LENGTH && data[..4] == MAGIC && FromLittleEndian(data[4..6]) == VERSION
    ensures data[..16] == Prefix(FromLittleEndian(data[6..8]), FromLittleEndian(data[8..12]), FromLittleEndian(data[12..16]))
  {
    FromLittleEndianRoundTrip(data[4..6]);
    FromLittleEndianRoundTrip(data[6..8]);
    FromLittleEndianRoundTrip(data[8..12]);
    FromLittleEndianRoundTrip(data[12..16]);
    hide LittleEndian, FromLittleEndian;
    assert data[..16] == data[..4] + data[4..6] + data[6..8] + data[8..12] + data[12..16];
  }

  lemma FrameDecodes(m: Message, maxPayload: int -> nat)
    requires maxPayload(RGBD_FRAME) < 0x1_0000_0000 && maxPayload(CHARACTER_FRAME) < 0x1_0000_0000
    requires InLimits(m, maxPayload)
    ensures Decode(Frame(m), maxPayload) == Ok(m)
  {
    PrefixFields(m.messageType, |m.header|, |m.payload|, m.header + m.payload);
    var data := Prefix(m.messageType, |m.header|, |m.payload|) + (m.header + m.payload);
    assert Frame(m) == data;
    hide Prefix, FromLittleEndian, Frame;
    assert data[16..16 + |m.header|] == data[16..][..|m.header|] == m.header;
    assert data[16 + |m.header|..] == data[16..][|m.header|..] == m.payload;
  }

  lemma DecodedIsFrame(data: seq<Byte>, m: Message, maxPayload: int -> nat)
    requires Decode(data, maxPayload) == Ok(m)
    ensures data == Frame(m) && InLimits(m, maxPayload)
  {
    FieldsPrefix(data);
    hide Prefix, FromLittleEndian;
    assert data == data[..16] + m.header + m.payload;
  }

  /** A decoder accepts exactly the frames of in-limit messages, and gives back the message framed. */
  lemma DecodeExactlyFrames(data: seq<Byte>, m: Message, maxPayload: int -> nat)
    requires maxPayload(RGBD_FRAME) < 0x1_0000_0000 && maxPayload(CHARACTER_FRAME) < 0x1_0000_0000
    ensures Decode(data, maxPayload) == Ok(m) <==> data == Frame(m) && InLimits(m, maxPayload)
  {
    hide Decode, Frame, InLimits;
    if InLimits(m, maxPayload) {
      FrameDecodes(m, maxPayload);
    }
    if Decode(data, maxPayload) == Ok(m) {
      DecodedIsFrame(data, m, maxPayload);
    }
  }

  /** A well-formed prefix declaring an RGBD payload between the two programs' limits. */
  predicate DeclaresLargeRgbd(data: seq<Byte>) {
    && |data| >= PREFIX_LENGTH && data[..4] == MAGIC && FromLittleEndian(data[4..6]) == VERSION
    && FromLittleEndian(data[6..8]) == RGBD_FRAME && FromLittleEndian(data[8..12]) <= MAX_HEADER_BYTES
    && MAX_CHARACTER_PAYLOAD_BYTES < FromLittleEndian(data[12..16]) <= MAX_RGBD_PAYLOAD_BYTES
  }

  /**
   * On any bytes at all the two decoders give the same result, error codes included, unless a large RGBD payload is
   * declared; on character messages they always agree.
   */
  lemma PythonAndJavaAgree(data: seq<Byte>)
    ensures PythonDecode(data) == JavaDecode(data) <==> !DeclaresLargeRgbd(data)
    ensures forall m: Message | m.messageType == CHARACTER_FRAME :: PythonDecode(data) == Ok(m) <==> JavaDecode(data) == Ok(m)
  {
    hide FromLittleEndian;
  }

  /** The low byte comes first: byte i counts the 256^i. */
  lemma {:induction false} LittleEndianAt(value: nat, width: nat, i: nat)
    requires i < width
    ensures LittleEndian(value, width)[i] == value / Power256(i) % 256
  {
    if i > 0 {
      LittleEndianAt(value / 256, width - 1, i - 1);
      DivideTwice(value, Power256(i - 1));
      assert Power256(i) == 256 * Power256(i - 1);
    }
  }

  lemma DivideTwice(n: nat, m: nat)
    requires m > 0
    ensures n / (256 * m) == n / 256 / m
  {
    var q, r := n / 256, n % 256;
    var d, e := q / m, q % m;
    assert n == 256 * q + r && q == m * d + e;
    assert n == (256 * m) * d + (256 * e + r);
    assert 256 * e + r < 256 * m;
    QuotientIs(n, 256 * m, d, 256 * e + r);
  }

  lemma QuotientIs(n: nat, m: nat, d: nat, r: nat)
    requires m > 0 && n == m * d + r && r < m
    ensures n / m == d
  {
    var q, e := n / m, n % m;
    assert n == m * q + e;
    assert m * (q - d) == m * q - m * d;
    MultipleApart(m, q - d, m * (q - d));
  }

  lemma MultipleApart(m: int, k: int, product: int)
    requires m > 0 && product == m * k
    ensures k == 0 || product >= m || product <= -m
  {
    if k >= 1 {
      assert product == m * (k - 1) + m && m * (k - 1) >= 0;
    } else if k <= -1 {
      assert product == -m - m * (-1 - k) && m * (-1 - k) >= 0;
    }
  }

  /** Why a message is refused: another version; a stranger or a wrong length; a header or a payload over its limit. */
  lemma RefusedAs(messageType: nat, headerLength: nat, payloadLength: nat, rest: seq<Byte>, maxPayload: int -> nat)
    requires messageType < 0x1_0000 && headerLength < 0x1_0000_0000 && payloadLength < 0x1_0000_0000
    ensures var r := Decode(Prefix(messageType, headerLength, payloadLength) + rest, maxPayload);
            && (r == Err(FrameTooLarge) <==>
                  KnownType(messageType) && (headerLength > MAX_HEADER_BYTES || payloadLength > maxPayload(messageType)))
            && (r == Err(InvalidMessage) <==>
                  || !KnownType(messageType)
                  || (headerLength <= MAX_HEADER_BYTES && payloadLength <= maxPayload(messageType)
                      && |rest| != headerLength + payloadLength))
            && r != Err(UnsupportedVersion) && r != Err(PackError)
  {
    PrefixFields(messageType, headerLength, payloadLength, rest);
    hide Prefix, FromLittleEndian;
  }

  /** Bytes without the magic word are no message at all; with it and another version they are of that version. */
  lemma RefusedEarly(data: seq<Byte>, maxPayload: int -> nat)
    ensures |data| < PREFIX_LENGTH || data[..4] != MAGIC ==> Decode(data, maxPayload) == Err(InvalidMessage)
    ensures Decode(data, maxPayload) == Err(UnsupportedVersion) <==>
              |data| >= PREFIX_LENGTH && data[..4] == MAGIC && data[4..6] != LittleEndian(VERSION, 2)
  {
    if |data| >= PREFIX_LENGTH {
      FromLittleEndianRoundTrip(data[4..6]);
      Widths();
      LittleEndianRoundTrip(VERSION, 2);
    }
    hide LittleEndian, FromLittleEndian;
  }

  // --- encoding --------------------------------------------------------------------------------------------------

  /** Any integer is taken as the type; an unknown one gets the larger limit, and packing fails beyond 16 bits. */
  function PythonEncode(messageType: int, header: seq<Byte>, payload: seq<Byte>): Result<seq<Byte>, Error> {
    if |header| > MAX_HEADER_BYTES then Err(FrameTooLarge)
    else if |payload| > PythonMaxPayload(messageType) then Err(FrameTooLarge)
    else if messageType < 0 || messageType > 0xFFFF then Err(PackError)
    else Ok(Frame(Message(messageType, header, payload)))
  }

  /**
   * What the encoder emits its own decoder takes back unchanged, exactly when the type is one of the two known ones. The
   * encoder itself does not check that, so its promise to emit nothing its decoder rejects fails for every other type.
   */
  lemma DecodeAfterEncode(messageType: int, header: seq<Byte>, payload: seq<Byte>)
    requires PythonEncode(messageType, header, payload).Ok?
    ensures var decoded := PythonDecode(PythonEncode(messageType, header, payload).value);
            if KnownType(messageType) then decoded == Ok(Message(messageType, header, payload))
            else decoded == Err(InvalidMessage)
  {
    var m := Message(messageType, header, payload);
    if KnownType(messageType) {
      DecodeExactlyFrames(Frame(m), m, PythonMaxPayload);
    } else {
      PrefixFields(messageType, |header|, |payload|, header + payload);
      assert Frame(m) == Prefix(messageType, |header|, |payload|) + (header + payload);
      hide FromLittleEndian, Prefix;
    }
  }

  /** The encoder refuses exactly what is over a limit, and a type that does not fit its field. */
  lemma EncodeRefuses(messageType: int, header: seq<Byte>, payload: seq<Byte>)
    ensures var r := PythonEncode(messageType, header, payload);
            var large := |header| > MAX_HEADER_BYTES || |payload| > PythonMaxPayload(messageType);
            && (r == Err(FrameTooLarge) <==> large) && (r == Err(PackError) <==> !large && !(0 <= messageType < 0x1_0000))
            && (r.Ok? ==> r.value[6..8] == LittleEndian(messageType, 2))
  {
    hide LittleEndian;
  }

  lemma UnknownTypeIsEmitted(header: seq<Byte>, payload: seq<Byte>)
    requires |header| <= MAX_HEADER_BYTES && |payload| <= MAX_RGBD_PAYLOAD_BYTES
    ensures PythonEncode(3, header, payload).Ok?
    ensures PythonDecode(PythonEncode(3, header, payload).value) == Err(InvalidMessage)
  {
    DecodeAfterEncode(3, header, payload);
  }

  /** The header as a parsed object: `load` is the JSON reader, which may refuse the bytes. */
  function DecodeEnvelope<H>(data: seq<Byte>, load: seq<Byte> -> Option<H>): Result<(nat, H, seq<Byte>), Error> {
    match PythonDecode(data)
    case Err(e) => Err(e)
    case Ok(m) => if load(m.header).Some? then Ok((m.messageType, load(m.header).value, m.payload)) else Err(InvalidMessage)
  }

  /** With a header printer its reader undoes, decode after encode is the identity on every in-limit message. */
  lemma EnvelopeRoundTrip<H>(messageType: nat, header: H, payload: seq<Byte>, dump: H -> seq<Byte>, load: seq<Byte> -> Option<H>)
    requires load(dump(header)) == Some(header)
    requires InLimits(Message(messageType, dump(header), payload), PythonMaxPayload)
    ensures PythonEncode(messageType, dump(header), payload).Ok?
    ensures DecodeEnvelope(PythonEncode(messageType, dump(header), payload).value, load) == Ok((messageType, header, payload))
  {
    DecodeAfterEncode(messageType, dump(header), payload);
  }

  /** The phone writes field by field into a growing buffer; its messages are always RGBD. */
  method SwiftEncode(header: seq<Byte>, buffers: seq<seq<Byte>>) returns (r: Result<seq<Byte>, Error>)
    ensures |header| <= MAX_HEADER_BYTES && |Concat(buffers, |buffers|)| <= MAX_RGBD_PAYLOAD_BYTES ==>
              r == Ok(Frame(Message(RGBD_FRAME, header, Concat(buffers, |buffers|))))
    ensures |header| > MAX_HEADER_BYTES || |Concat(buffers, |buffers|)| > MAX_RGBD_PAYLOAD_BYTES ==> r == Err(FrameTooLarge)
  {
    var payloadLength := 0;
    for i := 0 to |buffers|
      invariant payloadLength == |Concat(buffers, i)|
    {
      payloadLength := payloadLength + |buffers[i]|;
    }
    if |header| > MAX_HEADER_BYTES || payloadLength > MAX_RGBD_PAYLOAD_BYTES {
      return Err(FrameTooLarge);
    }
    var result: seq<Byte> := [0x48, 0x4d, 0x43, 0x31];
    result := result + LittleEndian(VERSION, 2);
    result := result + LittleEndian(RGBD_FRAME, 2);
    result := result + LittleEndian(|header|, 4);
    result := result + LittleEndian(payloadLength, 4);
    result := result + header;
    ghost var head := result;
    for i := 0 to |buffers|
      invariant result == head + Concat(buffers, i)
    {
      result := result + buffers[i];
    }
    return Ok(result);
  }

  /** The first n pieces, end to end. */
  function Concat(pieces: seq<seq<Byte>>, n: nat): seq<Byte>
    requires n <= |pieces|
  {
    if n == 0 then [] else Concat(pieces, n - 1) + pieces[n - 1]
  }

  /** What the phone sends the backend decodes to the same header and the buffers joined in order. */
  lemma SwiftToPython(header: seq<Byte>, buffers: seq<seq<Byte>>)
    requires |header| <= MAX_HEADER_BYTES && |Concat(buffers, |buffers|)| <= MAX_RGBD_PAYLOAD_BYTES
    ensures var m := Message(RGBD_FRAME, header, Concat(buffers, |buffers|)); PythonDecode(Frame(m)) == Ok(m)
  {
    var m := Message(RGBD_FRAME, header, Concat(buffers, |buffers|));
    DecodeExactlyFrames(Frame(m), m, PythonMaxPayload);
  }

  /** The Java writer checks nothing and keeps the low 16 bits of the type. */
  method JavaEncode(messageType: int, header: seq<Byte>, payload: seq<Byte>) returns (out: seq<Byte>)
    requires |header| < 0x8000_0000 && |payload| < 0x8000_0000
    ensures out == Frame(Message(messageType % 0x1_0000, header, payload))
  {
    out := MAGIC;
    out := out + LittleEndian(VERSION, 2);
    out := out + LittleEndian(messageType % 0x1_0000, 2);
    out := out + LittleEndian(|header|, 4);
    out := out + LittleEndian(|payload|, 4);
    out := out + header;
    out := out + payload;
  }
}
