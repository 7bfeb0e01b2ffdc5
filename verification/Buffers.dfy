/** Buffer descriptors: named slices that tile the payload, as the phone writes and the two readers check them. */
module Buffers {
  import opened Wrappers
  import opened Envelope

  datatype Encoding = Jpeg | Float32 | Uint8 | XyzRgba16

  datatype Descriptor = Descriptor(name: string, encoding: Encoding, offset: nat, length: nat, shape: Option<seq<nat>>)

  datatype RangeError = DuplicateName | EndsAfterPayload | NotTight | WrongLength | NotCovered | NoBuffers | NoPoints | PointsFormat

  const UINT32_MAX: nat := 0xFFFF_FFFF
  const INT64_MAX: nat := 0x7FFF_FFFF_FFFF_FFFF

  function ElementSize(encoding: Encoding): nat {
    match encoding
    case Jpeg => 0
    case Float32 => 4
    case Uint8 => 1
    case XyzRgba16 => 16
  }

  function Product(dims: seq<nat>): nat {
    if dims == [] then 1 else Product(dims[..|dims| - 1]) * dims[|dims| - 1]
  }

  /** The byte length a fixed-size buffer must have. */
  function Expected(d: Descriptor): Option<nat> {
    if d.encoding.Jpeg? || d.shape.None? then None else Some(Product(d.shape.value) * ElementSize(d.encoding))
  }

  /** A depth raster has four bytes a pixel, a confidence raster one, and a list of n points sixteen a point. */
  lemma RasterLengths(name: string, offset: nat, length: nat, height: nat, width: nat)
    ensures Expected(Descriptor(name, Float32, offset, length, Some([height, width]))) == Some(4 * (height * width))
    ensures Expected(Descriptor(name, Uint8, offset, length, Some([height, width]))) == Some(height * width)
    ensures Expected(Descriptor(name, XyzRgba16, offset, length, Some([width]))) == Some(16 * width)
    ensures Expected(Descriptor(name, Jpeg, offset, length, Some([height, width]))) == None
  {
    assert [height, width][..1] == [height] && [height][..0] == [] && [width][..0] == [];
    assert Product([]) == 1 && Product([height]) == height && Product([width]) == width;
    assert Product([height, width]) == height * width;
  }

  method ExpectedLength(d: Descriptor) returns (r: Option<nat>)
    ensures r == Expected(d)
  {
    if d.encoding.Jpeg? || d.shape.None? {
      return None;
    }
    var shape := d.shape.value;
    var count := 1;
    for i := 0 to |shape|
      invariant count == Product(shape[..i])
    {
      assert shape[..i + 1][..i] == shape[..i];
      count := count * shape[i];
    }
    assert shape[..|shape|] == shape;
    return Some(count * ElementSize(d.encoding));
  }

  /** What parsing one descriptor guarantees: 32-bit fields, and a positive shape wherever one is needed. */
  predicate WellFormed(d: Descriptor) {
    && d.name != "" && d.offset <= UINT32_MAX && d.length <= UINT32_MAX
    && (d.shape.None? ==> d.encoding.Jpeg?)
    && (d.shape.Some? ==> d.shape.value != [] && forall i | 0 <= i < |d.shape.value| :: 0 < d.shape.value[i] <= UINT32_MAX)
  }

  // --- tiling, independent of any loop ----------------------------------------------------------------------

  /** Where buffer n has to start: at zero, or at the end of the one before it. */
  function Start(descriptors: seq<Descriptor>, n: nat): nat
    requires n <= |descriptors|
  {
    if n == 0 then 0 else descriptors[n - 1].offset + descriptors[n - 1].length
  }

  predicate DistinctNames(descriptors: seq<Descriptor>) {
    forall i, j | 0 <= i < j < |descriptors| :: descriptors[i].name != descriptors[j].name
  }

  /** Each buffer starts where the ones before it end. */
  predicate Tight(descriptors: seq<Descriptor>) {
    forall i {:trigger Start(descriptors, i)} | 0 <= i < |descriptors| :: descriptors[i].offset == Start(descriptors, i)
  }

  predicate Matches(d: Descriptor) {
    Expected(d).Some? ==> Expected(d).value == d.length
  }

  predicate AllMatch(descriptors: seq<Descriptor>) {
    forall i | 0 <= i < |descriptors| :: Matches(descriptors[i])
  }

  predicate Tiles(descriptors: seq<Descriptor>, payloadLength: nat) {
    DistinctNames(descriptors) && Tight(descriptors) && Start(descriptors, |descriptors|) == payloadLength
  }

  lemma {:induction false} StartMonotone(descriptors: seq<Descriptor>, i: nat, j: nat)
    requires Tight(descriptors) && i <= j <= |descriptors|
    ensures Start(descriptors, i) <= Start(descriptors, j)
  {
    if i < j {
      StartMonotone(descriptors, i, j - 1);
    }
  }

  predicate TightSoFar(descriptors: seq<Descriptor>, n: nat)
    requires n <= |descriptors|
  {
    forall k {:trigger Start(descriptors, k)} | 0 <= k < n :: descriptors[k].offset == Start(descriptors, k)
  }

  lemma TightStep(descriptors: seq<Descriptor>, payloadLength: nat, i: nat)
    requires i < |descriptors|
    ensures var d := descriptors[i];
            && Start(descriptors, i + 1) == d.offset + d.length
            && (TightSoFar(descriptors, i + 1) <==> TightSoFar(descriptors, i) && d.offset == Start(descriptors, i))
            && (d.offset != Start(descriptors, i) ==> !Tight(descriptors))
            && (EndsBeyond(d, payloadLength) ==> !Tiles(descriptors, payloadLength))
    ensures TightSoFar(descriptors, |descriptors|) <==> Tight(descriptors)
  {
    assert descriptors[i].offset == Start(descriptors, i) || !Tight(descriptors);
    if Tight(descriptors) {
      StartMonotone(descriptors, i + 1, |descriptors|);
    }
    hide DistinctNames;
  }

  predicate EndsBeyond(d: Descriptor, payloadLength: nat) {
    d.offset + d.length > payloadLength
  }

  /** The fault an error names is there; bytes left over are reported only where nothing else is wrong. */
  predicate BackendFault(descriptors: seq<Descriptor>, payloadLength: nat, e: RangeError) {
    match e
    case DuplicateName => !DistinctNames(descriptors)
    case EndsAfterPayload => exists i :: 0 <= i < |descriptors| && EndsBeyond(descriptors[i], payloadLength)
    case NotTight => !Tight(descriptors)
    case WrongLength => exists i :: 0 <= i < |descriptors| && !Matches(descriptors[i])
    case NotCovered =>
      && DistinctNames(descriptors) && Tight(descriptors) && AllMatch(descriptors)
      && Start(descriptors, |descriptors|) < payloadLength
    case _ => false
  }

  /** The backend's validation: it passes exactly the tilings whose fixed-size buffers have the length of their shape. */
  method ValidateDescriptors(descriptors: seq<Descriptor>, payloadLength: nat) returns (r: Option<RangeError>)
    ensures r.None? <==> Tiles(descriptors, payloadLength) && AllMatch(descriptors)
    ensures r.Some? ==> BackendFault(descriptors, payloadLength, r.value)
  {
    var names: set<string> := {};
    var cursor := 0;
    for i := 0 to |descriptors|
      invariant names == NamesOf(descriptors[..i])
      invariant cursor == Start(descriptors, i) <= payloadLength
      invariant DistinctNames(descriptors[..i])
      invariant TightSoFar(descriptors, i)
      invariant AllMatch(descriptors[..i])
    {
      var d := descriptors[i];
      NamesStep(descriptors, i);
      MatchStep(descriptors, i);
      TightStep(descriptors, payloadLength, i);
      hide DistinctNames, NamesOf, AllMatch, Expected, Tight, TightSoFar, Start;
      if d.name in names {
        return Some(DuplicateName);
      }
      names := names + {d.name};
      var end := d.offset + d.length;
      if end > payloadLength {
        return Some(EndsAfterPayload);
      }
      if d.offset != cursor {
        return Some(NotTight);
      }
      var expected := ExpectedLength(d);
      if expected.Some? && expected.value != d.length {
        return Some(WrongLength);
      }
      cursor := end;
    }
    assert descriptors[..|descriptors|] == descriptors;
    if cursor != payloadLength {
      return Some(NotCovered);
    }
    return None;
  }

  lemma MatchStep(descriptors: seq<Descriptor>, i: nat)
    requires i < |descriptors|
    ensures AllMatch(descriptors[..i + 1]) <==> AllMatch(descriptors[..i]) && Matches(descriptors[i])
    ensures !Matches(descriptors[i]) ==> !AllMatch(descriptors)
  {
    hide Matches;
    assert descriptors[..i + 1] == descriptors[..i] + [descriptors[i]];
  }

  function NamesOf(descriptors: seq<Descriptor>): set<string> {
    set i | 0 <= i < |descriptors| :: descriptors[i].name
  }

  lemma NamesStep(descriptors: seq<Descriptor>, i: nat)
    requires i < |descriptors|
    ensures NamesOf(descriptors[..i + 1]) == NamesOf(descriptors[..i]) + {descriptors[i].name}
    ensures DistinctNames(descriptors[..i]) && descriptors[i].name !in NamesOf(descriptors[..i]) ==>
              DistinctNames(descriptors[..i + 1])
    ensures descriptors[i].name in NamesOf(descriptors[..i]) ==> !DistinctNames(descriptors)
  {
    assert descriptors[..i + 1] == descriptors[..i] + [descriptors[i]];
    if descriptors[i].name in NamesOf(descriptors[..i]) {
      var k :| 0 <= k < i && descriptors[..i][k].name == descriptors[i].name;
      assert descriptors[k].name == descriptors[i].name;
    }
  }

  // --- reading the tiles back ----------------------------------------------------------------------------------

  predicate Covers(d: Descriptor, k: nat) {
    d.offset <= k < d.offset + d.length
  }

  /** Every payload byte lies in exactly one buffer. */
  lemma {:induction false} EachByteInOneBuffer(descriptors: seq<Descriptor>, payloadLength: nat, k: nat)
    requires Tiles(descriptors, payloadLength) && k < payloadLength
    ensures exists i :: 0 <= i < |descriptors| && Covers(descriptors[i], k)
    ensures forall i, j | 0 <= i < |descriptors| && 0 <= j < |descriptors| && Covers(descriptors[i], k) && Covers(descriptors[j], k)
              :: i == j
  {
    var i := Locate(descriptors, k, |descriptors|);
    forall a, b | 0 <= a < b < |descriptors| && Covers(descriptors[a], k)
      ensures !Covers(descriptors[b], k)
    {
      assert descriptors[b].offset == Start(descriptors, b);
      StartMonotone(descriptors, a + 1, b);
    }
  }

  lemma {:induction false} Locate(descriptors: seq<Descriptor>, k: nat, n: nat) returns (i: nat)
    requires Tight(descriptors) && n <= |descriptors| && k < Start(descriptors, n)
    ensures i < n && Covers(descriptors[i], k)
  {
    assert descriptors[n - 1].offset == Start(descriptors, n - 1);
    if k >= Start(descriptors, n - 1) {
      i := n - 1;
    } else {
      i := Locate(descriptors, k, n - 1);
    }
  }

  /** The bytes of a buffer, by position in the list. */
  function Slice(d: Descriptor, payload: seq<Byte>): seq<Byte>
    requires d.offset + d.length <= |payload|
  {
    payload[d.offset..d.offset + d.length]
  }

  /** Lookup by name: a dictionary keeps the last descriptor of a name. */
  function Find(descriptors: seq<Descriptor>, name: string): Option<Descriptor> {
    if descriptors == [] then None
    else if descriptors[|descriptors| - 1].name == name then Some(descriptors[|descriptors| - 1])
    else Find(descriptors[..|descriptors| - 1], name)
  }

  /** Python's slicing stops at the end of the payload. */
  function Raw(descriptors: seq<Descriptor>, payload: seq<Byte>, name: string): Option<seq<Byte>> {
    match Find(descriptors, name)
    case None => None
    case Some(d) =>
      var from := if d.offset <= |payload| then d.offset else |payload|;
      var to := if d.offset + d.length <= |payload| then d.offset + d.length else |payload|;
      Some(payload[from..to])
  }

  lemma {:induction false} FindByName(descriptors: seq<Descriptor>, i: nat)
    requires DistinctNames(descriptors) && i < |descriptors|
    ensures Find(descriptors, descriptors[i].name) == Some(descriptors[i])
  {
    if i < |descriptors| - 1 {
      FindByName(descriptors[..|descriptors| - 1], i);
    }
  }

  lemma TileEnds(descriptors: seq<Descriptor>, payloadLength: nat, i: nat)
    requires Tiles(descriptors, payloadLength) && i < |descriptors|
    ensures descriptors[i].offset == Start(descriptors, i)
    ensures descriptors[i].offset + descriptors[i].length == Start(descriptors, i + 1) <= payloadLength
  {
    StartMonotone(descriptors, i + 1, |descriptors|);
  }

  lemma RawIsSlice(descriptors: seq<Descriptor>, payload: seq<Byte>, i: nat)
    requires Tiles(descriptors, |payload|) && i < |descriptors|
    ensures descriptors[i].offset + descriptors[i].length <= |payload|
    ensures Raw(descriptors, payload, descriptors[i].name) == Some(Slice(descriptors[i], payload))
  {
    FindByName(descriptors, i);
    TileEnds(descriptors, |payload|, i);
  }

  /** The first n buffers, fetched by name and joined. */
  function Joined(descriptors: seq<Descriptor>, payload: seq<Byte>, n: nat): seq<Byte>
    requires n <= |descriptors|
  {
    if n == 0 then []
    else
      var raw := Raw(descriptors, payload, descriptors[n - 1].name);
      Joined(descriptors, payload, n - 1) + (if raw.Some? then raw.value else [])
  }

  lemma JoinedStep(descriptors: seq<Descriptor>, payload: seq<Byte>, n: nat)
    requires Tiles(descriptors, |payload|) && 0 < n <= |descriptors|
    ensures descriptors[n - 1].offset + descriptors[n - 1].length <= |payload|
    ensures Joined(descriptors, payload, n) == Joined(descriptors, payload, n - 1) + Slice(descriptors[n - 1], payload)
  {
    RawIsSlice(descriptors, payload, n - 1);
    hide Tiles, Raw, Slice;
  }

  lemma SlicesMeet(payload: seq<Byte>, a: nat, b: nat)
    requires a <= b <= |payload|
    ensures payload[..a] + payload[a..b] == payload[..b]
  {
  }

  lemma {:induction false} JoinedIsPrefix(descriptors: seq<Descriptor>, payload: seq<Byte>, n: nat)
    requires Tiles(descriptors, |payload|) && n <= |descriptors|
    ensures Start(descriptors, n) <= |payload|
    ensures Joined(descriptors, payload, n) == payload[..Start(descriptors, n)]
  {
    assert Joined(descriptors, payload, 0) == [] && Start(descriptors, 0) == 0;
    hide Joined, Tiles, Start;
    if n > 0 {
      JoinedIsPrefix(descriptors, payload, n - 1);
      JoinedStep(descriptors, payload, n);
      TileEnds(descriptors, |payload|, n - 1);
      var d := descriptors[n - 1];
      SlicesMeet(payload, d.offset, d.offset + d.length);
    }
  }

  /** Joining the named buffers in order gives the payload back. */
  lemma JoinedIsPayload(descriptors: seq<Descriptor>, payload: seq<Byte>)
    requires Tiles(descriptors, |payload|)
    ensures Joined(descriptors, payload, |descriptors|) == payload
  {
    JoinedIsPrefix(descriptors, payload, |descriptors|);
  }

  // --- the phone's side ---------------------------------------------------------------------------------------------

  datatype PayloadBuffer = PayloadBuffer(name: string, encoding: Encoding, data: seq<Byte>, shape: Option<seq<nat>>)

  datatype DescribeError = EmptyBufferName | DuplicateBufferName | InvalidShape | IntegerOverflow

  /** The bytes of the first n buffers. */
  function TotalData(buffers: seq<PayloadBuffer>, n: nat): nat
    requires n <= |buffers|
  {
    if n == 0 then 0 else TotalData(buffers, n - 1) + |buffers[n - 1].data|
  }

  function Datas(buffers: seq<PayloadBuffer>): seq<seq<Byte>> {
    seq(|buffers|, i requires 0 <= i < |buffers| => buffers[i].data)
  }

  /** The payload: all data end to end. */
  function PayloadOf(buffers: seq<PayloadBuffer>): seq<Byte> {
    Concat(Datas(buffers), |buffers|)
  }

  function DescribedAt(buffers: seq<PayloadBuffer>, i: nat): Descriptor
    requires i < |buffers|
  {
    Descriptor(buffers[i].name, buffers[i].encoding, TotalData(buffers, i), |buffers[i].data|, buffers[i].shape)
  }

  function Described(buffers: seq<PayloadBuffer>): seq<Descriptor> {
    seq(|buffers|, i requires 0 <= i < |buffers| => DescribedAt(buffers, i))
  }

  predicate ShapeOk(b: PayloadBuffer) {
    b.shape.Some? ==> b.shape.value != [] && 0 !in b.shape.value
  }

  predicate Describable(buffers: seq<PayloadBuffer>) {
    && (forall i | 0 <= i < |buffers| :: buffers[i].name != "" && ShapeOk(buffers[i]))
    && (forall i, j | 0 <= i < j < |buffers| :: buffers[i].name != buffers[j].name)
    && TotalData(buffers, |buffers|) <= UINT32_MAX
  }

  function BufferNames(buffers: seq<PayloadBuffer>): set<string> {
    set i | 0 <= i < |buffers| :: buffers[i].name
  }

  lemma {:induction false} TotalDataMonotone(buffers: seq<PayloadBuffer>, n: nat, m: nat)
    requires n <= m <= |buffers|
    ensures TotalData(buffers, n) <= TotalData(buffers, m)
  {
    if n < m {
      TotalDataMonotone(buffers, n, m - 1);
    }
  }

  predicate DistinctBufferNames(buffers: seq<PayloadBuffer>) {
    forall i, j | 0 <= i < j < |buffers| :: buffers[i].name != buffers[j].name
  }

  lemma BufferNamesStep(buffers: seq<PayloadBuffer>, i: nat)
    requires i < |buffers|
    ensures BufferNames(buffers[..i + 1]) == BufferNames(buffers[..i]) + {buffers[i].name}
    ensures DistinctBufferNames(buffers[..i]) && buffers[i].name !in BufferNames(buffers[..i]) ==>
              DistinctBufferNames(buffers[..i + 1])
    ensures buffers[i].name in BufferNames(buffers[..i]) ==> !DistinctBufferNames(buffers)
  {
    assert buffers[..i + 1] == buffers[..i] + [buffers[i]];
    if buffers[i].name in BufferNames(buffers[..i]) {
      var k :| 0 <= k < i && buffers[..i][k].name == buffers[i].name;
      assert buffers[k].name == buffers[i].name;
    }
  }

  predicate DescribeFault(buffers: seq<PayloadBuffer>, e: DescribeError) {
    match e
    case EmptyBufferName => exists i :: 0 <= i < |buffers| && buffers[i].name == ""
    case DuplicateBufferName => !DistinctBufferNames(buffers)
    case InvalidShape => exists i :: 0 <= i < |buffers| && !ShapeOk(buffers[i])
    case IntegerOverflow => TotalData(buffers, |buffers|) > UINT32_MAX
  }

  /** Lay the buffers end to end, refusing unnamed, repeated, misshapen or oversized ones. */
  method Descriptors(buffers: seq<PayloadBuffer>) returns (r: Result<seq<Descriptor>, DescribeError>)
    ensures r.Ok? <==> Describable(buffers)
    ensures r.Ok? ==> r.value == Described(buffers)
    ensures r.Err? ==> DescribeFault(buffers, r.error)
  {
    var names: set<string> := {};
    var offset := 0;
    var descriptors: seq<Descriptor> := [];
    for i := 0 to |buffers|
      invariant names == BufferNames(buffers[..i]) && offset == TotalData(buffers, i)
      invariant |descriptors| == i && forall k | 0 <= k < i :: descriptors[k] == DescribedAt(buffers, k)
      invariant forall k | 0 <= k < i :: buffers[k].name != "" && ShapeOk(buffers[k])
      invariant DistinctBufferNames(buffers[..i])
    {
      var buffer := buffers[i];
      BufferNamesStep(buffers, i);
      TotalDataMonotone(buffers, i + 1, |buffers|);
      hide DistinctBufferNames, BufferNames;
      if buffer.name == "" {
        return Err(EmptyBufferName);
      }
      if buffer.name in names {
        return Err(DuplicateBufferName);
      }
      names := names + {buffer.name};
      if buffer.shape.Some? && (buffer.shape.value == [] || 0 in buffer.shape.value) {
        assert !ShapeOk(buffer);
        return Err(InvalidShape);
      }
      if offset > UINT32_MAX || |buffer.data| > UINT32_MAX {
        return Err(IntegerOverflow);
      }
      descriptors := descriptors + [Descriptor(buffer.name, buffer.encoding, offset, |buffer.data|, buffer.shape)];
      offset := offset + |buffer.data|;
    }
    assert buffers[..|buffers|] == buffers;
    if offset > UINT32_MAX {
      return Err(IntegerOverflow);
    }
    return Ok(descriptors);
  }

  lemma {:induction false} DescribedTotals(buffers: seq<PayloadBuffer>, n: nat)
    requires n <= |buffers|
    ensures Start(Described(buffers), n) == TotalData(buffers, n) == |Concat(Datas(buffers), n)|
  {
    if n > 0 {
      DescribedTotals(buffers, n - 1);
    }
  }

  predicate DataMatchesShape(b: PayloadBuffer) {
    b.shape.Some? && !b.encoding.Jpeg? ==> |b.data| == Product(b.shape.value) * ElementSize(b.encoding)
  }

  /** What the phone describes always tiles; it passes the backend's checks exactly when every shape fits its data. */
  lemma PhoneTilesForBackend(buffers: seq<PayloadBuffer>)
    requires Describable(buffers)
    ensures Tiles(Described(buffers), |PayloadOf(buffers)|)
    ensures AllMatch(Described(buffers)) <==> forall i | 0 <= i < |buffers| :: DataMatchesShape(buffers[i])
  {
    var ds := Described(buffers);
    DescribedTotals(buffers, |buffers|);
    forall i | 0 <= i < |ds|
      ensures ds[i].offset == Start(ds, i)
    {
      DescribedTotals(buffers, i);
    }
    assert AllMatch(ds) <==> forall i | 0 <= i < |buffers| :: DataMatchesShape(buffers[i]) by {
      DescribedMatch(buffers);
    }
    hide AllMatch, DataMatchesShape, TotalData, Concat;
  }

  lemma DescribedMatch(buffers: seq<PayloadBuffer>)
    ensures AllMatch(Described(buffers)) <==> forall i | 0 <= i < |buffers| :: DataMatchesShape(buffers[i])
  {
    var ds := Described(buffers);
    forall i | 0 <= i < |buffers|
      ensures Matches(ds[i]) <==> DataMatchesShape(buffers[i])
    {
    }
    hide Matches, DataMatchesShape, Described;
    if AllMatch(ds) {
      forall i | 0 <= i < |buffers|
        ensures DataMatchesShape(buffers[i])
      {
        assert Matches(ds[i]);
      }
    }
  }

  lemma {:induction false} ConcatSlice(pieces: seq<seq<Byte>>, i: nat, n: nat)
    requires i < n <= |pieces|
    ensures |Concat(pieces, i)| + |pieces[i]| <= |Concat(pieces, n)|
    ensures Concat(pieces, n)[|Concat(pieces, i)|..|Concat(pieces, i)| + |pieces[i]|] == pieces[i]
  {
    if i < n - 1 {
      ConcatSlice(pieces, i, n - 1);
    }
  }

  /** And the backend reads back, under each name, the very bytes the phone put there. */
  lemma PhoneDataArrives(buffers: seq<PayloadBuffer>, i: nat)
    requires Describable(buffers) && i < |buffers|
    ensures Raw(Described(buffers), PayloadOf(buffers), buffers[i].name) == Some(buffers[i].data)
  {
    hide Raw, Tiles, Describable, Concat, TotalData, AllMatch;
    PhoneTilesForBackend(buffers);
    DescribedTotals(buffers, i);
    RawIsSlice(Described(buffers), PayloadOf(buffers), i);
    ConcatSlice(Datas(buffers), i, |buffers|);
    assert Described(buffers)[i] == DescribedAt(buffers, i);
  }

  datatype SendError = InvalidHeader | Undescribable(error: DescribeError) | NonContiguousOffset | NotFramed(frameError: Error)

  /** The declared descriptors are the ones of the buffers as laid out, and everything is within the limits. */
  predicate Sendable(declared: seq<Descriptor>, printed: seq<Byte>, buffers: seq<PayloadBuffer>) {
    && Describable(buffers) && declared == Described(buffers)
    && |printed| <= MAX_HEADER_BYTES && |PayloadOf(buffers)| <= MAX_RGBD_PAYLOAD_BYTES
  }

  /** The phone's encoder: `valid` is what the header says of its own fields, `declared` its buffers, `printed` its JSON text. */
  method EncodeRgbd(valid: bool, declared: seq<Descriptor>, printed: seq<Byte>, buffers: seq<PayloadBuffer>)
    returns (r: Result<seq<Byte>, SendError>)
    ensures r.Ok? <==> valid && Sendable(declared, printed, buffers)
    ensures r.Ok? ==> r.value == Frame(Message(RGBD_FRAME, printed, PayloadOf(buffers)))
    ensures r == Err(InvalidHeader) <==> !valid
    ensures r.Err? && r.error.Undescribable? ==> valid && DescribeFault(buffers, r.error.error)
    ensures r == Err(NonContiguousOffset) <==> valid && Describable(buffers) && declared != Described(buffers)
  {
    hide Describable, Frame, Concat, DescribeFault;
    if !valid {
      return Err(InvalidHeader);
    }
    var expected := Descriptors(buffers);
    if expected.Err? {
      return Err(Undescribable(expected.error));
    }
    if declared != expected.value {
      return Err(NonContiguousOffset);
    }
    var framed := SwiftEncode(printed, Datas(buffers));
    if framed.Err? {
      return Err(NotFramed(framed.error));
    }
    return Ok(framed.value);
  }

  /**
   * From the phone to the backend: what the encoder sends decodes to the same header text and payload, the declared
   * descriptors tile that payload, and under each name lie the bytes the phone put there.
   */
  lemma PhoneFrameIsRead(declared: seq<Descriptor>, printed: seq<Byte>, buffers: seq<PayloadBuffer>)
    requires Sendable(declared, printed, buffers)
    ensures var payload := PayloadOf(buffers);
            && PythonDecode(Frame(Message(RGBD_FRAME, printed, payload))) == Ok(Message(RGBD_FRAME, printed, payload))
            && Tiles(declared, |payload|)
            && (AllMatch(declared) <==> forall i | 0 <= i < |buffers| :: DataMatchesShape(buffers[i]))
            && forall i | 0 <= i < |buffers| :: Raw(declared, payload, buffers[i].name) == Some(buffers[i].data)
  {
    hide Raw, Tiles, Describable, Concat, Described, AllMatch, DataMatchesShape, Frame, PythonDecode;
    SwiftToPython(printed, Datas(buffers));
    PhoneTilesForBackend(buffers);
    forall i | 0 <= i < |buffers|
      ensures Raw(declared, PayloadOf(buffers), buffers[i].name) == Some(buffers[i].data)
    {
      PhoneDataArrives(buffers, i);
    }
  }

  // --- the game client's side ------------------------------------------------------------------------------------------

  /** Two's-complement 64-bit multiplication by the record size. */
  function TimesRecord(n: nat): int {
    var m := n * 16 % 0x1_0000_0000_0000_0000;
    if m > INT64_MAX then m - 0x1_0000_0000_0000_0000 else m
  }

  predicate IsPoints(d: Descriptor) {
    d.name == "points"
  }

  predicate PointsOk(d: Descriptor) {
    && d.encoding.XyzRgba16? && d.shape.Some? && |d.shape.value| == 1 && d.length == TimesRecord(d.shape.value[0])
  }

  /** What the client's descriptor record guarantees; unlike the backend it lets dimensions reach 63 bits. */
  predicate WellFormedForClient(d: Descriptor) {
    && d.name != "" && d.offset <= UINT32_MAX && d.length <= UINT32_MAX
    && (d.shape.None? ==> d.encoding.Jpeg?)
    && (d.shape.Some? ==> forall i | 0 <= i < |d.shape.value| :: 0 < d.shape.value[i] <= INT64_MAX)
  }

  predicate HasPoints(descriptors: seq<Descriptor>) {
    exists i :: 0 <= i < |descriptors| && IsPoints(descriptors[i])
  }

  predicate AllPointsOk(descriptors: seq<Descriptor>, n: nat)
    requires n <= |descriptors|
  {
    forall i | 0 <= i < n && IsPoints(descriptors[i]) :: PointsOk(descriptors[i])
  }

  predicate PointsFormatOk(d: Descriptor) {
    d.encoding.XyzRgba16? && d.shape.Some? && |d.shape.value| == 1
  }

  /** As on the backend, but a wrong length or format is one of a points buffer. */
  predicate ClientFault(buffers: seq<Descriptor>, payloadLength: nat, e: RangeError) {
    match e
    case NoBuffers => buffers == []
    case DuplicateName => !DistinctNames(buffers)
    case NotTight => !Tight(buffers)
    case EndsAfterPayload => exists i :: 0 <= i < |buffers| && EndsBeyond(buffers[i], payloadLength)
    case PointsFormat => exists i :: 0 <= i < |buffers| && IsPoints(buffers[i]) && !PointsFormatOk(buffers[i])
    case WrongLength =>
      exists i :: 0 <= i < |buffers| && IsPoints(buffers[i]) && PointsFormatOk(buffers[i]) && !PointsOk(buffers[i])
    case NotCovered => DistinctNames(buffers) && Tight(buffers) && Start(buffers, |buffers|) < payloadLength
    case NoPoints => Tiles(buffers, payloadLength) && !HasPoints(buffers)
  }

  /** The points buffer checks of one descriptor. */
  method CheckPoints(b: Descriptor) returns (r: Option<RangeError>)
    requires WellFormedForClient(b)
    ensures r.None? <==> PointsOk(b)
    ensures r.Some? ==> r.value == (if PointsFormatOk(b) then WrongLength else PointsFormat)
  {
    if !b.encoding.XyzRgba16? {
      return Some(PointsFormat);
    }
    if |b.shape.value| != 1 {
      return Some(PointsFormat);
    }
    var expected := TimesRecord(b.shape.value[0]);
    if b.length != expected {
      return Some(WrongLength);
    }
    return None;
  }

  predicate NoneIsPoints(descriptors: seq<Descriptor>, n: nat)
    requires n <= |descriptors|
  {
    forall i | 0 <= i < n :: !IsPoints(descriptors[i])
  }

  lemma PointsStep(descriptors: seq<Descriptor>, i: nat)
    requires i < |descriptors|
    ensures var d := descriptors[i];
            && (AllPointsOk(descriptors, i + 1) <==> AllPointsOk(descriptors, i) && (IsPoints(d) ==> PointsOk(d)))
            && (IsPoints(d) && !PointsOk(d) ==> !AllPointsOk(descriptors, |descriptors|))
            && (NoneIsPoints(descriptors, i + 1) <==> NoneIsPoints(descriptors, i) && !IsPoints(d))
            && (NoneIsPoints(descriptors, |descriptors|) <==> !HasPoints(descriptors))
            && (IsPoints(d) ==> HasPoints(descriptors))
  {
    hide PointsOk, IsPoints;
  }

  lemma ClientFaults(buffers: seq<Descriptor>, payloadLength: nat, i: nat)
    ensures buffers == [] ==> ClientFault(buffers, payloadLength, NoBuffers)
    ensures !DistinctNames(buffers) ==> ClientFault(buffers, payloadLength, DuplicateName)
    ensures !Tight(buffers) ==> ClientFault(buffers, payloadLength, NotTight)
    ensures i < |buffers| && EndsBeyond(buffers[i], payloadLength) ==> ClientFault(buffers, payloadLength, EndsAfterPayload)
    ensures i < |buffers| && IsPoints(buffers[i]) && !PointsOk(buffers[i]) ==>
              ClientFault(buffers, payloadLength, if PointsFormatOk(buffers[i]) then WrongLength else PointsFormat)
  {
    hide DistinctNames, Tight, EndsBeyond, PointsOk, PointsFormatOk;
  }

  lemma ClientFaultsAtEnd(buffers: seq<Descriptor>, payloadLength: nat)
    ensures DistinctNames(buffers) && Tight(buffers) && Start(buffers, |buffers|) < payloadLength ==>
              ClientFault(buffers, payloadLength, NotCovered)
    ensures Tiles(buffers, payloadLength) && !HasPoints(buffers) ==> ClientFault(buffers, payloadLength, NoPoints)
  {
    hide DistinctNames, Tight, HasPoints;
  }

  /** The client accepts exactly the tilings with a well-formed points buffer, and returns it. */
  method ValidateBuffers(buffers: seq<Descriptor>, payloadLength: nat) returns (r: Result<Descriptor, RangeError>)
    requires forall i | 0 <= i < |buffers| :: WellFormedForClient(buffers[i])
    ensures r.Ok? <==> Tiles(buffers, payloadLength) && HasPoints(buffers) && AllPointsOk(buffers, |buffers|)
    ensures r.Ok? ==> r.value in buffers && IsPoints(r.value) && PointsOk(r.value)
    ensures r.Err? ==> ClientFault(buffers, payloadLength, r.error)
  {
    ClientFaults(buffers, payloadLength, 0);
    ClientFaultsAtEnd(buffers, payloadLength);
    hide ClientFault;
    if buffers == [] {
      return Err(NoBuffers);
    }
    var cursor := 0;
    var points: Option<Descriptor> := None;
    var names: set<string> := {};
    hide PointsOk, PointsFormatOk;
    for i := 0 to |buffers|
      invariant names == NamesOf(buffers[..i])
      invariant cursor == Start(buffers, i) <= payloadLength
      invariant DistinctNames(buffers[..i])
      invariant TightSoFar(buffers, i)
      invariant AllPointsOk(buffers, i)
      invariant points.None? ==> NoneIsPoints(buffers, i)
      invariant points.Some? ==> points.value in buffers && IsPoints(points.value) && PointsOk(points.value) && HasPoints(buffers)
    {
      var b := buffers[i];
      NamesStep(buffers, i);
      ClientFaults(buffers, payloadLength, i);
      PointsStep(buffers, i);
      TightStep(buffers, payloadLength, i);
      hide DistinctNames, NamesOf, AllPointsOk, NoneIsPoints, HasPoints, Tight, TightSoFar, Start;
      if b.name in names {
        return Err(DuplicateName);
      }
      names := names + {b.name};
      if b.offset != cursor {
        return Err(NotTight);
      }
      if b.offset + b.length > payloadLength {
        return Err(EndsAfterPayload);
      }
      cursor := b.offset + b.length;
      if b.name == "points" {
        var wrong := CheckPoints(b);
        if wrong.Some? {
          return Err(wrong.value);
        }
        points := Some(b);
      }
    }
    assert buffers[..|buffers|] == buffers;
    if cursor != payloadLength {
      return Err(NotCovered);
    }
    if points.None? {
      return Err(NoPoints);
    }
    return Ok(points.value);
  }

  lemma OneDimension(d: Descriptor)
    requires WellFormed(d) && Matches(d) && d.encoding.XyzRgba16? && d.shape.Some? && |d.shape.value| == 1
    ensures PointsOk(d)
  {
    var n := d.shape.value[0];
    assert Product([n]) == n by {
      assert [n][..0] == [];
      assert Product([]) == 1;
    }
    assert d.shape.value == [n];
  }

  predicate PointsShaped(d: Descriptor) {
    IsPoints(d) && d.encoding.XyzRgba16? && d.shape.Some? && |d.shape.value| == 1
  }

  /** Of what the backend's rules pass, the client accepts exactly the frames with a one-dimensional points buffer. */
  lemma BackendImpliesClient(descriptors: seq<Descriptor>, payloadLength: nat)
    requires forall i | 0 <= i < |descriptors| :: WellFormed(descriptors[i])
    requires Tiles(descriptors, payloadLength) && AllMatch(descriptors)
    ensures forall i | 0 <= i < |descriptors| :: WellFormedForClient(descriptors[i])
    ensures Tiles(descriptors, payloadLength) && HasPoints(descriptors) && AllPointsOk(descriptors, |descriptors|)
            <==> exists i :: 0 <= i < |descriptors| && PointsShaped(descriptors[i])
  {
    hide Tight, Start, Matches, TimesRecord;
    if i :| 0 <= i < |descriptors| && PointsShaped(descriptors[i]) {
      assert IsPoints(descriptors[i]);
      forall j | 0 <= j < |descriptors| && IsPoints(descriptors[j])
        ensures PointsOk(descriptors[j])
      {
        assert descriptors[i].name == descriptors[j].name;
        assert i == j;
        assert Matches(descriptors[i]);
        OneDimension(descriptors[i]);
      }
    }
    if HasPoints(descriptors) && AllPointsOk(descriptors, |descriptors|) {
      var i :| 0 <= i < |descriptors| && IsPoints(descriptors[i]);
      assert PointsOk(descriptors[i]);
      assert PointsShaped(descriptors[i]);
    }
  }

  /** Once the point count is within the client's limit of 100000, the 64-bit product is the true one. */
  lemma CountLimitMakesExact(d: Descriptor)
    requires PointsOk(d) && d.shape.value[0] <= 100_000
    ensures d.length == 16 * d.shape.value[0]
  {
  }

  /** Before that limit is checked it need not be: a count of 2^60 records passes as an empty buffer. */
  lemma WrappedCountPasses()
    ensures var d := Descriptor("points", XyzRgba16, 0, 0, Some([0x1000_0000_0000_0000]));
            WellFormedForClient(d) && PointsOk(d) && d.length != 16 * d.shape.value[0]
  {
  }

  /** The client's check of a declared length gives the verdict of the unwrapped product. */
  predicate CheckIsTrue(n: nat, length: nat) {
    TimesRecord(n) == length <==> 16 * n == length
  }

  /**
   * In general the wrapped check agrees with the true one, whatever 32-bit length is declared, exactly when the count is
   * below 2^60 or lies at least 2^28 above a multiple of 2^60: then the wrapped product is negative or no 32-bit length.
   */
  lemma LengthCheckExact(n: nat)
    requires n <= INT64_MAX
    ensures (forall length: nat | length <= UINT32_MAX :: CheckIsTrue(n, length))
            <==> n < 0x1000_0000_0000_0000 || n % 0x1000_0000_0000_0000 >= 0x1000_0000
  {
    var low := n % 0x1000_0000_0000_0000;
    WrappedProduct(n, low);
    if n >= 0x1000_0000_0000_0000 && low < 0x1000_0000 {
      assert !CheckIsTrue(n, 16 * low);
    }
  }

  /** Only the low sixty bits of the count survive the product. */
  lemma WrappedProduct(n: nat, low: nat)
    requires low == n % 0x1000_0000_0000_0000
    ensures TimesRecord(n) == if 16 * low > INT64_MAX then 16 * low - 0x1_0000_0000_0000_0000 else 16 * low
  {
    var high := n / 0x1000_0000_0000_0000;
    assert n * 16 == high * 0x1_0000_0000_0000_0000 + 16 * low;
  }
}
