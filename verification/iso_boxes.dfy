/** The length-prefixed boxes of ISO/IEC 14496-12, section 4.2: parser, printer and grammar. */
module IsoBoxes {
  import opened Bytes
  import opened MachineInts
  import opened Wrappers

  const MAX_BOXES := 4_096

  /** The condition behind each error the fragmented-MP4 parser can return. */
  datatype Error =
    | BoxCountBudget
    | TruncatedBoxHeader
    | TruncatedInteger
    | BoxSmallerThanHeader
    | BoxSizeOverflow
    | BoxExceedsSegment
    | SegmentSizeBudget
    | MissingBox(kind: seq<Byte>)
    | TrackBudget
    | NoTracks
    | DuplicateTrackIds
    | ZeroTrackId
    | InvalidTimescale
    | TruncatedBox(kind: seq<Byte>)
    | NoSampleEntry
    | TruncatedOptionalField
    | SampleCountBudget
    | TimestampOverflow
    | NoTrackConfiguration
    | UnknownTrack
    | EmptySample
    | SampleExceedsMdat
    | DurationRoundsToZero
    | UnreferencedPayload

  datatype Box = Box(kind: seq<Byte>, payload: seq<Byte>)

  /** One parsed header: `header` bytes of size and kind, `size` bytes in all. */
  datatype Header = Header(kind: seq<Byte>, header: nat, size: nat)

  /** Checks a declared box size against the `tail` of the slice that starts at `offset`. */
  function Sized(tail: seq<Byte>, offset: nat, header: nat, size: nat): (r: Result<Header, Error>)
    requires |tail| >= 8
  {
    if size < header then Err(BoxSmallerThanHeader)
    else if offset + size >= U64_LIMIT then Err(BoxSizeOverflow)
    else if size > |tail| then Err(BoxExceedsSegment)
    else Ok(Header(tail[4..8], header, size))
  }

  function HeaderOf(tail: seq<Byte>, offset: nat): (r: Result<Header, Error>)
    ensures r.Ok? ==> 8 <= r.value.header <= r.value.size <= |tail|
  {
    if |tail| < 8 then Err(TruncatedBoxHeader) else
    var size32 := FromBe(tail[..4]);
    if size32 == 1 then
      if |tail| < 16 then Err(TruncatedInteger) else Sized(tail, offset, 16, FromBe(tail[8..16]))
    else if size32 == 0 then Sized(tail, offset, 8, |tail|)
    else Sized(tail, offset, 8, size32)
  }

  /** What the loop of `parse_boxes` still returns at `offset`, with `count` boxes read and `tail` left. */
  function ParseTail(tail: seq<Byte>, offset: nat, count: nat): (r: Result<seq<Box>, Error>)
    decreases |tail|
  {
    if tail == [] then Ok([])
    else if count >= MAX_BOXES then Err(BoxCountBudget)
    else
      var h :- HeaderOf(tail, offset);
      var rest :- ParseTail(tail[h.size..], offset + h.size, count + 1);
      Ok([Box(h.kind, tail[h.header..h.size])] + rest)
  }

  function BoxesOf(bytes: seq<Byte>): (r: Result<seq<Box>, Error>) {
    ParseTail(bytes, 0, 0)
  }

  /** The boxes already read, in front of what the rest of the input yields. */
  function After(read: seq<Box>, rest: Result<seq<Box>, Error>): (r: Result<seq<Box>, Error>)
    ensures read == [] ==> r == rest
    ensures rest == Ok([]) ==> r == Ok(read)
  {
    if rest.Err? then rest
    else
      assert read == [] ==> read + rest.value == rest.value;
      assert read + [] == read;
      Ok(read + rest.value)
  }

  lemma LoopStep(bytes: seq<Byte>, offset: nat, read: seq<Box>)
    requires offset < |bytes| && |read| < MAX_BOXES
    requires HeaderOf(bytes[offset..], offset).Ok?
    ensures var h := HeaderOf(bytes[offset..], offset).value;
            var box := Box(h.kind, bytes[offset + h.header..offset + h.size]);
            var next := offset + h.size;
            After(read, ParseTail(bytes[offset..], offset, |read|))
            == After(read + [box], ParseTail(bytes[next..], next, |read| + 1))
  {
    var h := HeaderOf(bytes[offset..], offset).value;
    var next := offset + h.size;
    TailOnce(bytes, offset, |read|, h);
    var box := Box(h.kind, bytes[offset + h.header..next]);
    var rest := ParseTail(bytes[next..], next, |read| + 1);
    assert ParseTail(bytes[offset..], offset, |read|) == Cons(box, rest);
    AfterOne(read, box, rest);
  }

  function Cons(box: Box, rest: Result<seq<Box>, Error>): (r: Result<seq<Box>, Error>) {
    if rest.Err? then rest else Ok([box] + rest.value)
  }

  lemma TailOnce(bytes: seq<Byte>, offset: nat, count: nat, h: Header)
    requires offset < |bytes| && count < MAX_BOXES && HeaderOf(bytes[offset..], offset) == Ok(h)
    ensures offset + h.size <= |bytes|
    ensures ParseTail(bytes[offset..], offset, count)
            == Cons(Box(h.kind, bytes[offset + h.header..offset + h.size]),
                    ParseTail(bytes[offset + h.size..], offset + h.size, count + 1))
  {
    assert bytes[offset..][h.header..h.size] == bytes[offset + h.header..offset + h.size];
    assert bytes[offset..][h.size..] == bytes[offset + h.size..];
  }

  lemma AfterOne(read: seq<Box>, box: Box, rest: Result<seq<Box>, Error>)
    ensures After(read, Cons(box, rest)) == After(read + [box], rest)
  {
    assert rest.Ok? ==> read + ([box] + rest.value) == (read + [box]) + rest.value;
  }

  /** `r` is what the boxes read so far and the bytes from `offset` on come to. */
  predicate Leads(bytes: seq<Byte>, offset: nat, read: seq<Box>, r: Result<seq<Box>, Error>)
    requires offset <= |bytes|
  {
    r == After(read, ParseTail(bytes[offset..], offset, |read|))
  }

  lemma LeadsOn(bytes: seq<Byte>, offset: nat, read: seq<Box>, r: Result<seq<Box>, Error>)
    requires offset < |bytes| && |read| < MAX_BOXES && Leads(bytes, offset, read, r)
    requires HeaderOf(bytes[offset..], offset).Ok?
    ensures var h := HeaderOf(bytes[offset..], offset).value;
            Leads(bytes, offset + h.size, read + [Box(h.kind, bytes[offset + h.header..offset + h.size])], r)
  {
    LoopStep(bytes, offset, read);
  }

  lemma LeadsOut(bytes: seq<Byte>, offset: nat, read: seq<Box>, r: Result<seq<Box>, Error>)
    requires offset <= |bytes| && Leads(bytes, offset, read, r)
    ensures offset == |bytes| ==> r == Ok(read)
    ensures offset < |bytes| && |read| >= MAX_BOXES ==> r == Err(BoxCountBudget)
    ensures offset < |bytes| && |read| < MAX_BOXES && HeaderOf(bytes[offset..], offset).Err? ==>
              r == Err(HeaderOf(bytes[offset..], offset).error)
  {
  }

  method ParseBoxes(bytes: seq<Byte>) returns (r: Result<seq<Box>, Error>)
    ensures r == BoxesOf(bytes)
  {
    var boxes: seq<Box> := [];
    var offset := 0;
    assert bytes[0..] == bytes;
    while offset < |bytes|
      invariant offset <= |bytes| && Leads(bytes, offset, boxes, BoxesOf(bytes))
    {
      LeadsOut(bytes, offset, boxes, BoxesOf(bytes));
      if |boxes| >= MAX_BOXES {
        return Err(BoxCountBudget);
      }
      var h := HeaderOf(bytes[offset..], offset);
      if h.Err? {
        return Err(h.error);
      }
      LeadsOn(bytes, offset, boxes, BoxesOf(bytes));
      boxes := boxes + [Box(h.value.kind, bytes[offset + h.value.header..offset + h.value.size])];
      offset := offset + h.value.size;
    }
    LeadsOut(bytes, offset, boxes, BoxesOf(bytes));
    return Ok(boxes);
  }

  // ---- Grammar --------------------------------------------------------------------------

  predicate Slices(tail: seq<Byte>, box: Box, header: nat, n: nat) {
    && header >= 8 && n == header + |box.payload| && n <= |tail|
    && tail[4..8] == box.kind
    && tail[header..n] == box.payload
  }

  /** A 32-bit size, the kind, the payload. */
  predicate SmallForm(tail: seq<Byte>, box: Box, n: nat) {
    Slices(tail, box, 8, n) && n < U32_LIMIT && tail[..4] == ToBe(n, 4)
  }

  /** The marker 1, the kind, a 64-bit size, the payload. */
  predicate LargeForm(tail: seq<Byte>, box: Box, n: nat) {
    Slices(tail, box, 16, n) && n < U64_LIMIT && tail[..4] == ToBe(1, 4) && tail[8..16] == ToBe(n, 8)
  }

  /** The marker 0, the kind, and a payload that runs to the end: only a container's last box. */
  predicate OpenForm(tail: seq<Byte>, box: Box, n: nat) {
    Slices(tail, box, 8, n) && n == |tail| && tail[..4] == ToBe(0, 4)
  }

  /** The first `n` bytes of `tail` are one of the three wire forms of `box` in section 4.2. */
  predicate StartsWith(tail: seq<Byte>, box: Box, n: nat) {
    SmallForm(tail, box, n) || LargeForm(tail, box, n) || OpenForm(tail, box, n)
  }

  /** `bytes` is exactly the boxes' wire forms laid end to end: nothing before, between or after. */
  ghost predicate Denotes(bytes: seq<Byte>, boxes: seq<Box>)
    decreases |boxes|
  {
    if boxes == [] then bytes == []
    else exists n: nat :: StartsWith(bytes, boxes[0], n) && Denotes(bytes[n..], boxes[1..])
  }

  lemma HeaderIsWireForm(tail: seq<Byte>, offset: nat)
    requires HeaderOf(tail, offset).Ok?
    ensures var h := HeaderOf(tail, offset).value;
            StartsWith(tail, Box(h.kind, tail[h.header..h.size]), h.size)
  {
    Widths();
    var h := HeaderOf(tail, offset).value;
    BeUnique(tail[..4]);
    if h.header == 16 {
      BeUnique(tail[8..16]);
    }
  }

  lemma WireFormIsHeader(tail: seq<Byte>, offset: nat, box: Box, n: nat)
    requires offset + |tail| < U64_LIMIT
    requires StartsWith(tail, box, n)
    ensures HeaderOf(tail, offset) == Ok(Header(box.kind, n - |box.payload|, n))
  {
    Widths();
    BeRoundTrip(0, 4);
    BeRoundTrip(1, 4);
    if SmallForm(tail, box, n) {
      BeRoundTrip(n, 4);
    } else if LargeForm(tail, box, n) {
      BeRoundTrip(n, 8);
    }
  }

  predicate Yields(tail: seq<Byte>, offset: nat, count: nat, boxes: seq<Box>) {
    ParseTail(tail, offset, count) == Ok(boxes)
  }

  lemma ParseStep(tail: seq<Byte>, offset: nat, count: nat, boxes: seq<Box>, n: nat)
    requires offset + |tail| < U64_LIMIT && count < MAX_BOXES && boxes != []
    requires StartsWith(tail, boxes[0], n)
    requires Yields(tail[n..], offset + n, count + 1, boxes[1..])
    ensures Yields(tail, offset, count, boxes)
  {
    WireFormIsHeader(tail, offset, boxes[0], n);
    assert boxes == [boxes[0]] + boxes[1..];
  }

  lemma {:induction false} AcceptedIsDenoted(tail: seq<Byte>, offset: nat, count: nat, boxes: seq<Box>)
    requires count <= MAX_BOXES
    requires Yields(tail, offset, count, boxes)
    ensures Denotes(tail, boxes) && count + |boxes| <= MAX_BOXES
    decreases |tail|
  {
    if tail != [] {
      HeaderIsWireForm(tail, offset);
      var n := HeaderOf(tail, offset).value.size;
      AcceptedIsDenoted(tail[n..], offset + n, count + 1, boxes[1..]);
    }
  }

  /** The first box's wire form is `n` bytes long, and the parser gets past it. */
  lemma FirstForm(tail: seq<Byte>, offset: nat, count: nat, boxes: seq<Box>) returns (n: nat)
    requires offset + |tail| < U64_LIMIT && count < MAX_BOXES && boxes != [] && Denotes(tail, boxes)
    ensures n <= |tail| && Denotes(tail[n..], boxes[1..])
    ensures Yields(tail[n..], offset + n, count + 1, boxes[1..]) ==> Yields(tail, offset, count, boxes)
  {
    n :| StartsWith(tail, boxes[0], n) && Denotes(tail[n..], boxes[1..]);
    if Yields(tail[n..], offset + n, count + 1, boxes[1..]) {
      ParseStep(tail, offset, count, boxes, n);
    }
  }

  /** Whatever spells the boxes is accepted, at any offset and count within the limits. */
  ghost predicate AlwaysAccepted(boxes: seq<Box>) {
    forall tail: seq<Byte>, offset: nat, count: nat {:trigger Yields(tail, offset, count, boxes)} ::
      offset + |tail| < U64_LIMIT && Denotes(tail, boxes) && count + |boxes| <= MAX_BOXES
      ==> Yields(tail, offset, count, boxes)
  }

  lemma OneMoreAccepted(boxes: seq<Box>)
    requires boxes != [] && AlwaysAccepted(boxes[1..])
    ensures AlwaysAccepted(boxes)
  {
    forall tail: seq<Byte>, offset: nat, count: nat
      | offset + |tail| < U64_LIMIT && Denotes(tail, boxes) && count + |boxes| <= MAX_BOXES
      ensures Yields(tail, offset, count, boxes)
    {
      var n := FirstForm(tail, offset, count, boxes);
      assert Yields(tail[n..], offset + n, count + 1, boxes[1..]);
    }
  }

  lemma {:induction false} DenotedIsAccepted(boxes: seq<Box>)
    ensures AlwaysAccepted(boxes)
  {
    if boxes != [] {
      DenotedIsAccepted(boxes[1..]);
      OneMoreAccepted(boxes);
    }
  }

  /**
   * The parser accepts exactly the grammar: it succeeds with `boxes` if and only if the
   * input is those boxes' wire forms laid end to end, within the box budget.
   */
  lemma ParserIsGrammar(bytes: seq<Byte>, boxes: seq<Box>)
    requires |bytes| < U64_LIMIT
    ensures BoxesOf(bytes) == Ok(boxes) <==> Denotes(bytes, boxes) && |boxes| <= MAX_BOXES
  {
    if BoxesOf(bytes) == Ok(boxes) {
      AcceptedIsDenoted(bytes, 0, 0, boxes);
    }
    if Denotes(bytes, boxes) && |boxes| <= MAX_BOXES {
      DenotedIsAccepted(boxes);
      assert Yields(bytes, 0, 0, boxes);
    }
  }

  // ---- Printer --------------------------------------------------------------------------

  /** `boxed`: a 32-bit size (the cast drops higher bits), the kind, the payload. */
  function Boxed(kind: seq<Byte>, payload: seq<Byte>): (wire: seq<Byte>) {
    ToBe(|payload| + 8, 4) + kind + payload
  }

  /** `full_box`: version, 24 flag bits, body. */
  function FullBox(version: Byte, flags: nat, body: seq<Byte>): (payload: seq<Byte>) {
    [version] + ToBe(flags, 3) + body
  }

  /** The children of a container, printed one after the other. */
  function Print(boxes: seq<Box>): (wire: seq<Byte>) {
    if boxes == [] then [] else Boxed(boxes[0].kind, boxes[0].payload) + Print(boxes[1..])
  }

  predicate Printable(boxes: seq<Box>) {
    && |boxes| <= MAX_BOXES
    && forall i :: 0 <= i < |boxes| ==> |boxes[i].kind| == 4 && 8 + |boxes[i].payload| < U32_LIMIT
  }

  lemma {:induction false} PrintedIsDenoted(boxes: seq<Box>)
    requires Printable(boxes)
    ensures Denotes(Print(boxes), boxes)
  {
    if boxes != [] {
      PrintedIsDenoted(boxes[1..]);
      var n := 8 + |boxes[0].payload|;
      assert Print(boxes)[n..] == Print(boxes[1..]);
      assert SmallForm(Print(boxes), boxes[0], n);
    }
  }

  /** Parsing undoes printing, for every list of boxes a container can hold. */
  lemma ParseUndoesPrint(boxes: seq<Box>)
    requires Printable(boxes) && |Print(boxes)| < U64_LIMIT
    ensures BoxesOf(Print(boxes)) == Ok(boxes)
  {
    PrintedIsDenoted(boxes);
    ParserIsGrammar(Print(boxes), boxes);
  }
}
