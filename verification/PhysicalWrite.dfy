// The padded writer of a held physical device and the readback of what it wrote.
module PhysicalWrite {
  import opened Bytes

  const SAFE_INTEGER := 9007199254740991

  function Padding(length: nat, sector: nat): (p: nat)
    requires sector > 0
  {
    (sector - length % sector) % sector
  }

  /** Rounds a length up to whole sectors. */
  function AlignedWriteSpan(length: nat, sector: nat): (r: Option<nat>)
    requires sector > 0
  {
    var span := length + Padding(length, sector);
    if span > SAFE_INTEGER || span < length then None else Some(span)
  }

  lemma Monotone(k: nat, a: nat, b: nat)
    requires a <= b
    ensures k * a <= k * b
  {
  }

  /** Quotient and remainder are determined. */
  lemma Divided(k: nat, p: nat, r: nat, q: nat, s: nat)
    requires r < k && s < k && k * p + r == k * q + s
    ensures p == q && r == s
  {
    if p < q {
      assert k * (p + 1) == k * p + k;
      Monotone(k, p + 1, q);
    } else if q < p {
      assert k * (q + 1) == k * q + k;
      Monotone(k, q + 1, p);
    }
  }

  lemma Remainder(k: nat, q: nat, r: nat)
    requires r < k
    ensures (k * q + r) % k == r
  {
    var x := k * q + r;
    assert x == k * (x / k) + x % k;
    Divided(k, x / k, x % k, q, r);
  }

  lemma LeastMultiple(sector: nat, x: nat, y: nat, length: nat)
    requires sector > 0 && sector * x < length + sector && length <= sector * y
    ensures sector * x <= sector * y
  {
    if y < x {
      assert sector * (y + 1) == sector * y + sector;
      Monotone(sector, y + 1, x);
    } else {
      Monotone(sector, x, y);
    }
  }

  /** The padding fills exactly the last sector. */
  lemma PaddingFills(length: nat, sector: nat)
    requires sector > 0
    ensures Padding(length, sector) < sector && (length + Padding(length, sector)) % sector == 0
  {
    var q, r := length / sector, length % sector;
    assert length == sector * q + r;
    if r == 0 {
      Remainder(sector, 1, 0);
      assert (sector - r) % sector == 0;
    } else {
      Remainder(sector, 0, sector - r);
      assert sector * 0 + (sector - r) == sector - r;
      Remainder(sector, q + 1, 0);
      assert sector * (q + 1) + 0 == sector * q + sector;
    }
  }

  /** Only the remainder matters to the padding. */
  lemma SamePadding(offset: nat, count: nat, sector: nat)
    requires sector > 0 && offset % sector == 0
    ensures Padding(offset + count, sector) == Padding(count, sector)
  {
    var q, r := count / sector, count % sector;
    assert count == sector * q + r;
    assert offset + count == sector * (offset / sector + q) + r;
    Remainder(sector, offset / sector + q, r);
  }

  /** The span is the least multiple of the sector at or above the length. */
  lemma SpanIsLeast(length: nat, sector: nat, other: nat)
    requires sector > 0 && AlignedWriteSpan(length, sector).Some?
    ensures var span := AlignedWriteSpan(length, sector).value;
            && span % sector == 0 && length <= span < length + sector
            && (other % sector == 0 && length <= other ==> span <= other)
  {
    PaddingFills(length, sector);
    var span := AlignedWriteSpan(length, sector).value;
    if other % sector == 0 && length <= other {
      LeastMultiple(sector, span / sector, other / sector, length);
    }
  }

  /** The span is known exactly where that multiple is a number that JavaScript counts exactly. */
  lemma SpanExact(length: nat, sector: nat, span: nat)
    requires sector > 0
    ensures AlignedWriteSpan(length, sector) == Some(span) <==>
            span % sector == 0 && length <= span < length + sector && span <= 9007199254740991
  {
    hide Padding;
    PaddingFills(length, sector);
    var least := length + Padding(length, sector);
    Whole(least, sector);
    if span % sector == 0 && length <= span < length + sector {
      Whole(span, sector);
      LeastMultiple(sector, least / sector, span / sector, length);
      LeastMultiple(sector, span / sector, least / sector, length);
    }
  }

  lemma Whole(x: nat, sector: nat)
    requires sector > 0 && x % sector == 0
    ensures x == sector * (x / sector)
  {
  }

  lemma Ordered(k: nat, p: nat, q: nat)
    requires k > 0 && k * q <= k * p
    ensures q <= p
  {
    if p < q {
      assert k * (p + 1) == k * p + k;
      Monotone(k, p + 1, q);
    }
  }

  /** What is left behind whole sectors of a whole number of sectors. */
  lemma WholeRest(length: nat, sector: nat, span: nat, offset: nat, count: nat)
    requires sector > 0 && offset % sector == 0 && span % sector == 0 && offset + count == length <= span
    ensures (span - offset) % sector == 0
  {
    var p, q := span / sector, offset / sector;
    Whole(span, sector);
    Whole(offset, sector);
    Ordered(sector, p, q);
    assert sector * (p - q) + sector * q == sector * p;
    Remainder(sector, p - q, 0);
  }

  class HeldDevice {
    const disk: array<byte>
    const length: nat
    const sector: nat
    const span: nat
    var held: bool
    var mayWrite: bool
    var modified: bool
    /** What the device held when it was acquired. */
    ghost const initial: seq<byte>

    /** The geometry is consistent; whatever was written so far stayed in its bounds. */
    ghost predicate Valid()
      reads this, disk
    {
      && sector > 0 && AlignedWriteSpan(length, sector) == Some(span) && span <= disk.Length
      && Contained(initial, disk[..], length, span)
    }

    constructor (disk: array<byte>, length: nat, sector: nat, span: nat)
      requires sector > 0 && AlignedWriteSpan(length, sector) == Some(span) && span <= disk.Length
      ensures Valid() && this.disk == disk && this.length == length && this.sector == sector && this.span == span
      ensures initial == disk[..] && !mayWrite && held
    {
      this.disk, this.length, this.sector, this.span := disk, length, sector, span;
      held, mayWrite, modified := true, false, false;
      initial := disk[..];
    }

    method EnableWrites()
      requires Valid()
      modifies this
      ensures Valid() && mayWrite
    {
      mayWrite := true;
    }

    method Release()
      requires Valid()
      modifies this
      ensures Valid() && !mayWrite && !held
    {
      mayWrite, held := false, false;
    }

    /** What a write must satisfy before anything reaches the device. */
    predicate InBounds(bufferLength: nat, bufferOffset: int, count: int, offset: int)
      reads this
    {
      && sector > 0 && mayWrite && 0 <= offset <= SAFE_INTEGER && 0 < count <= SAFE_INTEGER
      && 0 <= bufferOffset <= SAFE_INTEGER && bufferOffset + count <= bufferLength
      && offset + count <= length && offset % sector == 0
      && AlignedWriteSpan(count, sector).Some?
      && offset + AlignedWriteSpan(count, sector).value <= span
      && (AlignedWriteSpan(count, sector).value != count ==> offset + count == length)
    }

    /** A chunk of whole sectors, or the last one of the image, that lies in the buffer and in the image. */
    predicate Storable(bufferLength: nat, bufferOffset: int, count: int, offset: int)
      requires sector > 0
      reads this
    {
      && mayWrite && 0 < count && 0 <= bufferOffset <= 9007199254740991 && bufferOffset + count <= bufferLength
      && 0 <= offset && offset % sector == 0 && offset + count <= length
      && (count % sector == 0 || offset + count == length)
    }

    /** What a chunk takes up on the device. */
    function Taken(count: nat, offset: nat): int
      requires sector > 0
      reads this
    {
      if count % sector == 0 then count else span - offset
    }

    lemma BoundsExact(bufferLength: nat, bufferOffset: int, count: int, offset: int)
      requires Valid()
      ensures InBounds(bufferLength, bufferOffset, count, offset) <==> Storable(bufferLength, bufferOffset, count, offset)
      ensures Storable(bufferLength, bufferOffset, count, offset) ==>
                AlignedWriteSpan(count, sector) == Some(Taken(count, offset))
    {
      hide AlignedWriteSpan, Contained;
      SpanExact(length, sector, span);
      if 0 < count && 0 <= offset && offset % sector == 0 && offset + count <= length {
        SpanExact(count, sector, count);
        if offset + count == length {
          WholeRest(length, sector, span, offset, count);
          SpanExact(count, sector, span - offset);
        }
      }
    }

    /**
     * Writes a chunk, the last one with zeros up to the sector. The device may take only a prefix,
     * which fails the write.
     */
    method Write(buffer: array<byte>, bufferOffset: int, count: int, offset: int, takes: nat) returns (r: Result<nat>)
      requires Valid() && buffer != disk
      modifies this, disk
      ensures Valid() && mayWrite == old(mayWrite)
      ensures r.Ok? ==> old(InBounds(buffer.Length, bufferOffset, count, offset)) && r.value == count
      ensures r.Ok? ==> disk[offset..offset + count] == buffer[bufferOffset..bufferOffset + count]
      ensures r.Ok? && offset + count == length ==> disk[length..span] == Zeros(span - length)
      ensures !old(InBounds(buffer.Length, bufferOffset, count, offset)) ==> r.Err? && disk[..] == old(disk[..])
      ensures old(InBounds(buffer.Length, bufferOffset, count, offset)) ==>
                (r.Ok? <==> takes >= AlignedWriteSpan(count, sector).value)
      ensures r.Ok? ==> Stored(old(disk[..]), disk[..], offset, count, length, span)
      ensures !old(Storable(buffer.Length, bufferOffset, count, offset)) ==> r.Err? && disk[..] == old(disk[..])
      ensures old(Storable(buffer.Length, bufferOffset, count, offset)) ==> (r.Ok? <==> takes >= old(Taken(count, offset)))
    {
      hide AlignedWriteSpan, Contained, Stored, Zeros, Storable, Taken;
      BoundsExact(buffer.Length, bufferOffset, count, offset);
      if !InBounds(buffer.Length, bufferOffset, count, offset) {
        return Err("WRITE_BOUNDS");
      }
      var physicalLength := AlignedWriteSpan(count, sector).value;
      SpanIsLeast(count, sector, 0);
      if offset + count == length {
        WholeEnd(length, sector, span, offset, count);
      }
      ghost var image := buffer[bufferOffset..bufferOffset + count];
      ghost var sent := image + Zeros(physicalLength - count);
      var physical, physicalOffset := Prepared(buffer, bufferOffset, count, physicalLength);
      modified := true;
      var taken := if takes < physicalLength then takes else physicalLength;
      ghost var before := disk[..];
      Store(physical, physicalOffset, taken, offset, sent);
      StaysContained(initial, before, sent, offset, image, taken, length, span);
      if taken != physicalLength {
        return Err("SHORT_WRITE");
      }
      ChunkStored(before, sent, offset, image, physicalLength);
      NothingElse(before, sent, offset, count, length, span);
      return Ok(count);
    }

    /** What the device takes of a buffer. */
    method Store(buffer: array<byte>, bufferOffset: nat, taken: nat, offset: nat, ghost sent: seq<byte>)
      requires bufferOffset + |sent| <= buffer.Length && buffer[bufferOffset..bufferOffset + |sent|] == sent
      requires taken <= |sent| && offset + taken <= disk.Length && buffer != disk
      modifies disk
      ensures disk[..] == old(disk[..])[..offset] + sent[..taken] + old(disk[..])[offset + taken..]
    {
      assert forall k | 0 <= k < taken :: sent[k] == buffer[bufferOffset + k];
      forall k | 0 <= k < taken {
        disk[offset + k] := buffer[bufferOffset + k];
      }
    }
  }

  /** The chunk where it is if it fills whole sectors, else a padded copy. */
  method Prepared(buffer: array<byte>, bufferOffset: nat, count: nat, physicalLength: nat)
    returns (physical: array<byte>, from: nat)
    requires bufferOffset + count <= buffer.Length && count <= physicalLength
    ensures physical == buffer || fresh(physical)
    ensures from + physicalLength <= physical.Length
    ensures physical[from..from + physicalLength] == buffer[bufferOffset..bufferOffset + count] + Zeros(physicalLength - count)
  {
    if physicalLength == count {
      return buffer, bufferOffset;
    }
    physical := Padded(buffer, bufferOffset, count, physicalLength);
    from := 0;
    assert physical[0..physicalLength] == physical[..];
  }

  /** A zeroed buffer of whole sectors with the chunk at its start. */
  method Padded(buffer: array<byte>, bufferOffset: nat, count: nat, physicalLength: nat) returns (physical: array<byte>)
    requires bufferOffset + count <= buffer.Length && count <= physicalLength
    ensures fresh(physical) && physical[..] == buffer[bufferOffset..bufferOffset + count] + Zeros(physicalLength - count)
  {
    physical := new byte[physicalLength](_ => 0);
    forall k | 0 <= k < count {
      physical[k] := buffer[bufferOffset + k];
    }
  }

  /** A chunk that was taken whole reads back as the image and its padding. */
  lemma ChunkStored(before: seq<byte>, sent: seq<byte>, offset: nat, image: seq<byte>, physical: nat)
    requires |image| <= physical && sent == image + Zeros(physical - |image|) && offset + physical <= |before|
    ensures var after := before[..offset] + sent[..physical] + before[offset + physical..];
            && after[offset..offset + |image|] == image
            && after[offset + |image|..offset + physical] == Zeros(physical - |image|)
  {
    var after := before[..offset] + sent[..physical] + before[offset + physical..];
    assert sent[..physical] == sent;
    assert after[offset..offset + |image|] == image;
    var padding, zeros := after[offset + |image|..offset + physical], Zeros(physical - |image|);
    forall k | 0 <= k < physical - |image|
      ensures padding[k] == zeros[k]
    {
      assert padding[k] == after[offset + |image| + k] == sent[|image| + k];
    }
  }

  /** A chunk and, where it ends the image, the padding may have changed, and nothing else. */
  predicate Stored(before: seq<byte>, after: seq<byte>, offset: nat, count: nat, length: nat, span: nat) {
    && |after| == |before|
    && forall x | 0 <= x < |after| && !(offset <= x < offset + count) && !(offset + count == length && length <= x < span) ::
         after[x] == before[x]
  }

  lemma NothingElse(before: seq<byte>, sent: seq<byte>, offset: nat, count: nat, length: nat, span: nat)
    requires count <= |sent| && offset + |sent| <= span <= |before|
    requires |sent| != count ==> offset + count == length
    ensures Stored(before, before[..offset] + sent[..|sent|] + before[offset + |sent|..], offset, count, length, span)
  {
  }

  /** Beyond the span everything is as it was; padding is as it was or zero. */
  predicate Contained(before: seq<byte>, after: seq<byte>, length: nat, span: nat)
  {
    && |after| == |before|
    && (forall k | span <= k < |after| :: after[k] == before[k])
    && (forall k | length <= k < span && k < |after| :: after[k] == before[k] || after[k] == 0)
  }

  /** Any prefix of a padded chunk within its bounds leaves the device contained. */
  lemma StaysContained(initial: seq<byte>, before: seq<byte>, sent: seq<byte>, offset: nat, image: seq<byte>, taken: nat,
                       length: nat, span: nat)
    requires Contained(initial, before, length, span) && |image| <= |sent| && sent == image + Zeros(|sent| - |image|)
    requires taken <= |sent| && offset + |image| <= length && offset + |sent| <= span <= |before|
    requires offset + taken <= |before|
    ensures Contained(initial, before[..offset] + sent[..taken] + before[offset + taken..], length, span)
  {
    hide Zeros;
    var after := before[..offset] + sent[..taken] + before[offset + taken..];
    forall k | 0 <= k < |after|
      ensures after[k] == before[k] || (k < span && (k < length || after[k] == 0))
    {
      if offset <= k < offset + taken {
        assert after[k] == sent[k - offset];
      }
    }
  }

  /** A chunk that ends the image is padded up to exactly the span. */
  lemma WholeEnd(length: nat, sector: nat, span: nat, offset: nat, count: nat)
    requires sector > 0 && AlignedWriteSpan(length, sector) == Some(span) && AlignedWriteSpan(count, sector).Some?
    requires offset % sector == 0 && offset + count == length
    ensures offset + AlignedWriteSpan(count, sector).value == span
  {
    SamePadding(offset, count, sector);
    hide Padding;
  }

  /** A chunk handed to the writer, and how much of it the device takes. */
  datatype Chunk = Chunk(buffer: array<byte>, bufferOffset: int, count: int, offset: int, takes: nat)

  predicate Reaches(c: Chunk, x: int) {
    c.offset <= x < c.offset + c.count
  }

  predicate Reached(chunks: seq<Chunk>, x: int) {
    exists k | 0 <= k < |chunks| :: Reaches(chunks[k], x)
  }

  /** Every byte of an image of this length is in one of the chunks. */
  predicate Complete(chunks: seq<Chunk>, length: nat) {
    forall x | 0 <= x < length :: Reached(chunks, x)
  }

  /** If the chunk lies within its buffer and the image, then it is that part of the image. */
  ghost predicate PartOf(c: Chunk, image: seq<byte>)
    reads c.buffer
  {
    0 <= c.bufferOffset && 0 <= c.offset && 0 <= c.count && c.bufferOffset + c.count <= c.buffer.Length
    && c.offset + c.count <= |image| ==>
      c.buffer[c.bufferOffset..c.bufferOffset + c.count] == image[c.offset..c.offset + c.count]
  }

  /** Together the chunks are all of an image of this length. */
  ghost predicate MakeUp(chunks: seq<Chunk>, image: seq<byte>, length: nat)
    reads set k | 0 <= k < |chunks| :: chunks[k].buffer
  {
    && |image| == length && Complete(chunks, length)
    && forall k | 0 <= k < |chunks| :: PartOf(chunks[k], image)
  }

  /** The chunks of the image are on the device, and zeros behind it once its last byte is. */
  ghost predicate OnDevice(disk: seq<byte>, image: seq<byte>, span: nat, chunks: seq<Chunk>) {
    && |image| <= span <= |disk|
    && (forall k | 0 <= k < |chunks| :: 0 <= chunks[k].offset && chunks[k].offset + chunks[k].count <= |image|)
    && (forall k, x | 0 <= k < |chunks| && 0 <= x < |image| && Reaches(chunks[k], x) :: disk[x] == image[x])
    && (Reached(chunks, |image| - 1) ==> disk[|image|..span] == Zeros(span - |image|))
  }

  lemma OneMoreOnDevice(before: seq<byte>, after: seq<byte>, image: seq<byte>, span: nat, chunks: seq<Chunk>, c: Chunk)
    requires OnDevice(before, image, span, chunks) && 0 <= c.offset && 0 < c.count && c.offset + c.count <= |image|
    requires Stored(before, after, c.offset, c.count, |image|, span)
    requires after[c.offset..c.offset + c.count] == image[c.offset..c.offset + c.count]
    requires c.offset + c.count == |image| ==> after[|image|..span] == Zeros(span - |image|)
    ensures OnDevice(after, image, span, chunks + [c])
  {
    var all, n := chunks + [c], |chunks|;
    forall k, x | 0 <= k < |all| && 0 <= x < |image| && Reaches(all[k], x)
      ensures after[x] == image[x]
    {
      if Reaches(c, x) {
        assert after[x] == after[c.offset..c.offset + c.count][x - c.offset];
        assert image[x] == image[c.offset..c.offset + c.count][x - c.offset];
      }
    }
    if Reached(all, |image| - 1) {
      var k :| 0 <= k < |all| && Reaches(all[k], |image| - 1);
      if c.offset + c.count != |image| {
        assert k < n && all[k] == chunks[k];
        assert after[|image|..span] == before[|image|..span];
      }
    }
  }

  lemma AllOnDevice(disk: seq<byte>, image: seq<byte>, span: nat, chunks: seq<Chunk>)
    requires OnDevice(disk, image, span, chunks) && Complete(chunks, |image|) && (image == [] ==> span == 0)
    ensures disk[..span] == image + Zeros(span - |image|)
  {
    if image != [] {
      forall x | 0 <= x < |image|
        ensures disk[x] == image[x]
      {
        assert Reached(chunks, x);
      }
      assert Reached(chunks, |image| - 1);
      assert disk[..|image|] == image;
      assert disk[..span] == disk[..|image|] + disk[|image|..span];
    }
  }

  /**
   * Over every sequence of writes, nothing beyond the span changes and only zeros reach the padding. If all of
   * them are accepted and they are all of an image, then the device holds it, and zeros up to the span.
   */
  method WriteAll(device: HeldDevice, chunks: seq<Chunk>, ghost image: seq<byte>) returns (ok: bool)
    requires device.Valid() && forall k | 0 <= k < |chunks| :: chunks[k].buffer != device.disk
    modifies device, device.disk
    ensures device.Valid() && Contained(device.initial, device.disk[..], device.length, device.span)
    ensures ok && old(MakeUp(chunks, image, device.length)) ==>
              device.disk[..device.span] == image + Zeros(device.span - device.length)
  {
    hide Contained, OnDevice, Stored, Complete, Zeros, Reached, Reaches, AlignedWriteSpan;
    ok := true;
    ghost var meant := MakeUp(chunks, image, device.length);
    NoneOnDevice(device.disk[..], image, device.span);
    SpanOf(device.length, device.sector);
    for k := 0 to |chunks|
      invariant device.Valid()
      invariant meant ==> forall j | 0 <= j < |chunks| :: PartOf(chunks[j], image)
      invariant ok && meant ==> OnDevice(device.disk[..], image, device.span, chunks[..k])
    {
      var c := chunks[k];
      ghost var before, part := device.disk[..], PartOf(c, image);
      assert meant ==> part;
      var written := device.Write(c.buffer, c.bufferOffset, c.count, c.offset, c.takes);
      if ok && meant && written.Ok? {
        OneMoreOnDevice(before, device.disk[..], image, device.span, chunks[..k], c);
        assert chunks[..k + 1] == chunks[..k] + [c];
      }
      ok := ok && written.Ok?;
    }
    assert chunks[..|chunks|] == chunks;
    if ok && meant {
      AllOnDevice(device.disk[..], image, device.span, chunks);
    }
  }

  lemma NoneOnDevice(disk: seq<byte>, image: seq<byte>, span: nat)
    ensures |image| <= span <= |disk| ==> OnDevice(disk, image, span, [])
  {
  }

  lemma SpanOf(length: nat, sector: nat)
    requires sector > 0
    ensures AlignedWriteSpan(length, sector).Some? ==> length <= AlignedWriteSpan(length, sector).value
    ensures AlignedWriteSpan(0, sector) == Some(0)
  {
    Remainder(sector, 0, 0);
    Remainder(sector, 1, 0);
    assert sector * 0 + 0 == 0 && sector * 1 + 0 == sector;
    assert Padding(0, sector) == 0;
    if AlignedWriteSpan(length, sector).Some? {
      SpanIsLeast(length, sector, 0);
    }
  }

  // Readback.

  const BUFFER_SIZE := 1048576

  predicate AllZero(s: seq<byte>) {
    forall k | 0 <= k < |s| :: s[k] == 0
  }

  /** The device holds an image of this digest, followed by zeros up to the span. */
  predicate HoldsPadded(disk: seq<byte>, length: nat, span: nat, expected: string, digest: seq<byte> -> string)
    requires length <= span <= |disk|
  {
    digest(disk[..length]) == expected && AllZero(disk[length..span])
  }

  /** How many of the bytes read at a position belong to the image. */
  function ImageBytes(length: nat, position: nat, count: nat): (n: nat)
    ensures n <= count
  {
    var left := if position < length then length - position else 0;
    if count < left then count else left
  }

  /** Accepts exactly the padded image on a device that does not end before the span, as a short read tells. */
  method Readback(disk: array<byte>, length: nat, span: nat, expected: string, digest: seq<byte> -> string, end: Option<nat>)
    returns (ok: bool)
    requires length <= span <= disk.Length
    ensures ok <==> HoldsPadded(disk[..], length, span, expected, digest) && (end.None? || span <= end.value)
  {
    hide AllZero, ImageBytes;
    var hashed: seq<byte> := [];
    var position := 0;
    NothingSet(disk[..], length);
    while position < span
      invariant 0 <= position <= span
      invariant hashed == disk[..if position < length then position else length]
      invariant position >= length ==> AllZero(disk[length..position])
      invariant end.Some? ==> position == 0 || position <= end.value
    {
      var count := if BUFFER_SIZE < span - position then BUFFER_SIZE else span - position;
      if end.Some? && end.value < position + count {
        return false;
      }
      var buffer := disk[position..position + count];
      var imageBytes := ImageBytes(length, position, count);
      var padding := buffer[imageBytes..];
      var clean := NoneSet(padding);
      ReadMore(disk[..], length, position, count);
      PaddingMore(disk[..], length, position, count);
      if !clean {
        PaddingSet(disk[..], length, span, position, count);
        return false;
      }
      hashed := hashed + buffer[..imageBytes];
      position := position + count;
    }
    assert disk[..][..length] == disk[..length] && disk[..][length..span] == disk[length..span];
    return digest(hashed) == expected;
  }

  method NoneSet(s: seq<byte>) returns (clean: bool)
    ensures clean <==> AllZero(s)
  {
    var k := 0;
    while k < |s|
      invariant 0 <= k <= |s| && AllZero(s[..k])
    {
      if s[k] != 0 {
        return false;
      }
      assert s[..k + 1] == s[..k] + [s[k]];
      k := k + 1;
    }
    assert s[..k] == s;
    return true;
  }

  /** What one read adds to the hashed image and to the checked padding. */
  lemma ReadMore(disk: seq<byte>, length: nat, position: nat, count: nat)
    requires position + count <= |disk| && length <= |disk|
    ensures var image := ImageBytes(length, position, count);
            var buffer, hashed := disk[position..position + count], if position < length then position else length;
            disk[..hashed] + buffer[..image] == disk[..if position + count < length then position + count else length]
  {
  }

  lemma NothingSet(disk: seq<byte>, length: nat)
    requires length <= |disk|
    ensures AllZero(disk[length..length])
  {
  }

  lemma PaddingMore(disk: seq<byte>, length: nat, position: nat, count: nat)
    requires position + count <= |disk| && length <= |disk|
    requires position >= length ==> AllZero(disk[length..position])
    ensures AllZero(disk[position..position + count][ImageBytes(length, position, count)..]) && position + count >= length
            ==> AllZero(disk[length..position + count])
  {
    var image := ImageBytes(length, position, count);
    var padding := disk[position..position + count][image..];
    if position + count >= length && AllZero(padding) {
      var all := disk[length..position + count];
      forall k | 0 <= k < |all|
        ensures all[k] == 0
      {
        if length + k >= position {
          assert padding[length + k - position - image] == all[k];
        } else {
          assert disk[length..position][k] == all[k];
        }
      }
    }
  }

  lemma PaddingSet(disk: seq<byte>, length: nat, span: nat, position: nat, count: nat)
    requires position + count <= span <= |disk| && length <= span
    requires !AllZero(disk[position..position + count][ImageBytes(length, position, count)..])
    ensures !AllZero(disk[length..span])
  {
    var image := ImageBytes(length, position, count);
    var padding := disk[position..position + count][image..];
    var k :| 0 <= k < |padding| && padding[k] != 0;
    assert padding[k] == disk[position + image + k];
    assert disk[length..span][position + image + k - length] == padding[k];
  }

  /** Where the expected digest is that of an image of this length, only that image is accepted, or a collision is at hand. */
  lemma AcceptedIsImage(disk: seq<byte>, image: seq<byte>, span: nat, digest: seq<byte> -> string)
    requires |image| <= span <= |disk|
    ensures disk[..span] == image + Zeros(span - |image|) ==> HoldsPadded(disk, |image|, span, digest(image), digest)
    ensures HoldsPadded(disk, |image|, span, digest(image), digest) ==>
              disk[..span] == image + Zeros(span - |image|)
              || (disk[..|image|] != image && digest(disk[..|image|]) == digest(image))
  {
    var n := |image|;
    if disk[..span] == image + Zeros(span - n) {
      assert disk[..n] == disk[..span][..n] == image;
      forall k | 0 <= k < span - n
        ensures disk[n..span][k] == 0
      {
        assert disk[n..span][k] == disk[..span][n + k];
      }
    }
    if disk[..n] == image && AllZero(disk[n..span]) {
      assert disk[..span] == disk[..n] + disk[n..span];
      assert disk[n..span] == Zeros(span - n);
    }
  }

  /**
   * Writing and reading back: an image that was written whole is accepted under its digest, and whatever is
   * accepted has the digest and clean padding.
   */
  method WriteAndRead(device: HeldDevice, chunks: seq<Chunk>, ghost image: seq<byte>, expected: string,
                      digest: seq<byte> -> string, end: Option<nat>)
    returns (written: bool, ok: bool)
    requires device.Valid() && forall k | 0 <= k < |chunks| :: chunks[k].buffer != device.disk
    modifies device, device.disk
    ensures device.Valid() && Contained(device.initial, device.disk[..], device.length, device.span)
    ensures ok ==> written && device.length <= device.span && HoldsPadded(device.disk[..], device.length, device.span, expected, digest)
    ensures written && old(MakeUp(chunks, image, device.length)) && expected == digest(image) ==>
              (ok <==> end.None? || device.span <= end.value)
  {
    hide Contained, Complete, AlignedWriteSpan, HoldsPadded, PartOf;
    written := WriteAll(device, chunks, image);
    ok := false;
    if written {
      SpanOf(device.length, device.sector);
      ok := Readback(device.disk, device.length, device.span, expected, digest, end);
      if |image| == device.length {
        AcceptedIsImage(device.disk[..], image, device.span, digest);
        assert device.disk[..][..device.span] == device.disk[..device.span];
      }
    }
  }
}
