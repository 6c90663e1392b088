/** Byte ranges (azfile/zc_util_validate.go) and the way doBatchTransfer cuts a transfer
    into chunks (azfile/highlevel.go). */
module Ranges {
  import opened Text
  import Decimal

  const MAX_INT64: int := 0x7fff_ffff_ffff_ffff
  const MIN_INT64: int := -0x8000_0000_0000_0000

  /** Go's int64. Arithmetic on it that could overflow does not verify. */
  newtype int64 = i: int | MIN_INT64 <= i <= MAX_INT64

  type byte = i: int | 0 <= i < 256

  const FILE_MAX_UPLOAD_RANGE_BYTES: int64 := 4 * 1024 * 1024
  const DEFAULT_PARALLEL_COUNT := 5

  /** What an int64 result holds when the mathematical value is `i`. */
  function Wrap64(i: int): (r: int)
    ensures MIN_INT64 <= r <= MAX_INT64
    ensures MIN_INT64 <= i <= MAX_INT64 ==> r == i
  {
    (i - MIN_INT64) % 0x1_0000_0000_0000_0000 + MIN_INT64
  }

  /** A count of zero asks for everything from the offset on. */
  const COUNT_TO_END := 0

  /** toRange: the value of the Range header. */
  function ToRange(offset: int64, count: int64): Text {
    var end: Text := if count as int == COUNT_TO_END then ""
      else Decimal.FormatInt(Wrap64(offset as int + count as int - 1));
    "bytes=" + Decimal.FormatInt(offset as int) + "-" + end
  }

  /** httpRange.pointers: no header at all when the whole file is wanted. */
  function Pointers(offset: int64, count: int64): Option<Text> {
    if offset == 0 && count as int == COUNT_TO_END then None else Some(ToRange(offset, count))
  }

  // ----- The receiving side: byte ranges as section 2.1 of RFC 7233 reads them -----

  datatype ByteRange = FromTo(first: nat, last: nat) | From(first: nat) | Suffix(length: nat)

  function ParseByteRange(header: Text): Option<ByteRange> {
    if !("bytes=" <= header) then None else
    var spec: Text := header[6..];
    var dash := IndexOf(spec, '-');
    if dash == -1 then None else
    var (first, last) := (spec[..dash], spec[dash + 1..]);
    if first == [] then
      match Decimal.ParseNat(last)
      case Some(n) => Some(Suffix(n))
      case None => None
    else
      match (Decimal.ParseNat(first), Decimal.ParseNat(last))
      case (Some(f), Some(l)) => if f <= l then Some(FromTo(f, l)) else None
      case (Some(f), None) => if last == [] then Some(From(f)) else None
      case (None, _) => None
  }

  function Min(a: int, b: int): int {
    if a <= b then a else b
  }

  /** What a server answers to a GET of `content` with this Range header; None is a 416 or 400. */
  function Serve<T>(content: seq<T>, header: Option<Text>): Option<seq<T>> {
    match header
    case None => Some(content)
    case Some(h) =>
      match ParseByteRange(h)
      case None => None
      case Some(Suffix(n)) => if n == 0 then None else Some(content[|content| - Min(n, |content|)..])
      case Some(From(f)) => if f < |content| then Some(content[f..]) else None
      case Some(FromTo(f, l)) => if f < |content| then Some(content[f..Min(l + 1, |content|)]) else None
  }

  /** A byte-range parser recovers exactly the offset and count that were printed, and a count
      of zero is the only one that comes out open-ended. */
  lemma ToRangeRoundTrip(offset: int64, count: int64)
    requires offset >= 0 && count >= 0
    requires offset as int + count as int - 1 <= MAX_INT64
    ensures ParseByteRange(ToRange(offset, count)) ==
            Some(if count == 0 then From(offset as int) else FromTo(offset as int, offset as int + count as int - 1))
  {
    var last := offset as int + count as int - 1;
    var end: Text := if count == 0 then "" else Decimal.FormatNat(last);
    assert ToRange(offset, count) == "bytes=" + Decimal.FormatNat(offset as int) + "-" + end;
    hide ParseByteRange, ToRange, Decimal.FormatNat;
    Decimal.ParseFormat(offset as int);
    if count != 0 {
      Decimal.ParseFormat(last);
    }
    ParseHeader(Decimal.FormatNat(offset as int), end);
  }

  lemma ParseHeader(first: Text, last: Text)
    requires first != [] && Decimal.AllDigits(first) && Decimal.AllDigits(last)
    ensures ParseByteRange("bytes=" + first + "-" + last) ==
            var f := Decimal.Value(first);
            if last == [] then Some(From(f))
            else if f <= Decimal.Value(last) then Some(FromTo(f, Decimal.Value(last))) else None
  {
    SplitSpec(first, last);
  }

  /** A header made of a numeral, a dash and a tail splits back into the two. */
  lemma SplitSpec(first: Text, last: Text)
    requires first != [] && Decimal.AllDigits(first)
    ensures var h: Text := "bytes=" + first + "-" + last;
            && "bytes=" <= h
            && IndexOf(h[6..], '-') == |first| && h[6..][..|first|] == first && h[6..][|first| + 1..] == last
  {
    var h: Text := "bytes=" + first + "-" + last;
    var spec: Text := first + ['-'] + last;
    assert h[6..] == spec;
    IndexOfAppend(first, '-', last);
  }

  /** Asking for (offset, count) gets that part of the content, clipped at its end. */
  function Slice<T>(content: seq<T>, offset: nat, count: nat): seq<T>
    requires offset <= |content|
  {
    content[offset..if count == COUNT_TO_END then |content| else Min(offset + count, |content|)]
  }

  lemma ServeRange<T>(content: seq<T>, offset: int64, count: int64)
    requires offset >= 0 && count >= 0
    requires offset as int + count as int - 1 <= MAX_INT64
    ensures offset as int < |content| ==>
              Serve(content, Pointers(offset, count)) == Some(Slice(content, offset as int, count as int))
    ensures offset as int >= |content| && (offset != 0 || count != 0) ==>
            Serve(content, Pointers(offset, count)) == None
  {
    ToRangeRoundTrip(offset, count);
    assert content[0..|content|] == content;
  }

  // ----- Chunks -----

  datatype Chunk = Chunk(offset: nat, count: nat) {
    function End(): nat {
      offset + count
    }
  }

  /** The chunks lie end to end from 0 to `size`, and none is empty or longer than `chunkSize`. */
  ghost predicate Tiles(chunks: seq<Chunk>, size: nat, chunkSize: nat) {
    && |chunks| > 0
    && chunks[0].offset == 0
    && (forall i :: 0 <= i < |chunks| - 1 ==> chunks[i].End() == chunks[i + 1].offset)
    && chunks[|chunks| - 1].End() == size
    && forall i :: 0 <= i < |chunks| ==> 1 <= chunks[i].count <= chunkSize
  }

  lemma {:induction false} TilesOrdered(chunks: seq<Chunk>, size: nat, chunkSize: nat, i: nat, j: nat)
    requires Tiles(chunks, size, chunkSize)
    requires i < j < |chunks|
    ensures chunks[i].End() <= chunks[j].offset
  {
    if i + 1 < j {
      TilesOrdered(chunks, size, chunkSize, i, j - 1);
      assert chunks[j - 1].End() == chunks[j - 1 + 1].offset;
    } else {
      assert chunks[i].End() == chunks[i + 1].offset;
    }
  }

  /** Two chunks share no byte, and every chunk ends inside the transfer. */
  lemma TilesDisjoint(chunks: seq<Chunk>, size: nat, chunkSize: nat, i: nat, j: nat)
    requires Tiles(chunks, size, chunkSize)
    requires i < |chunks| && j < |chunks|
    ensures chunks[i].End() <= size
    ensures i != j ==> chunks[i].End() <= chunks[j].offset || chunks[j].End() <= chunks[i].offset
  {
    if i < |chunks| - 1 {
      TilesOrdered(chunks, size, chunkSize, i, |chunks| - 1);
    }
    if i < j {
      TilesOrdered(chunks, size, chunkSize, i, j);
    } else if j < i {
      TilesOrdered(chunks, size, chunkSize, j, i);
    }
  }

  /** Every byte of the transfer is in some chunk. */
  lemma TilesCover(chunks: seq<Chunk>, size: nat, chunkSize: nat, k: nat) returns (i: nat)
    requires Tiles(chunks, size, chunkSize)
    requires k < size
    ensures i < |chunks| && chunks[i].offset <= k < chunks[i].End()
  {
    i := |chunks| - 1;
    while chunks[i].offset > k
      invariant i < |chunks|
      invariant k < chunks[i].End()
    {
      assert chunks[i - 1].End() == chunks[i - 1 + 1].offset;
      i := i - 1;
    }
  }

  /** Go's `/` on int64: truncation towards zero. */
  function TruncatedDiv(a: int, b: int): int
    requires b > 0
  {
    if a >= 0 then a / b else -((-a) / b)
  }

  function NumChunks(transferSize: int, chunkSize: int): int
    requires chunkSize > 0
  {
    TruncatedDiv(transferSize - 1, chunkSize) + 1
  }

  lemma Distribute(a: int, b: int, c: int)
    ensures (a + b) * c == a * c + b * c
    ensures a >= 0 && c >= 0 ==> a * c >= 0
  {
  }

  lemma LastChunk(size: int, chunkSize: int)
    requires size >= 1 && chunkSize >= 1
    ensures NumChunks(size, chunkSize) >= 1
    ensures var last := NumChunks(size, chunkSize) - 1; last * chunkSize < size <= last * chunkSize + chunkSize
  {
  }

  /** The products the submission loop computes: all inside the transfer, one chunk apart. */
  lemma ChunkProducts(size: int, chunkSize: int, last: int, i: int)
    requires chunkSize >= 1 && last * chunkSize <= size <= last * chunkSize + chunkSize
    requires 0 <= i <= last
    ensures 0 <= i * chunkSize <= size
    ensures i < last ==> i * chunkSize + chunkSize == (i + 1) * chunkSize <= size
    ensures i == last ==> 0 <= size - i * chunkSize <= chunkSize
    ensures i == last && last * chunkSize < size ==> 1 <= size - i * chunkSize
  {
    Distribute(last - i, i, chunkSize);
    Distribute(i, 1, chunkSize);
    if i < last {
      Distribute(last - i - 1, i + 1, chunkSize);
    }
  }

  /** Go's `/` as the machine has it. */
  function Div64(a: int64, b: int64): (r: int64)
    requires b > 0 && a as int > MIN_INT64
    ensures r as int == TruncatedDiv(a as int, b as int)
  {
    if a >= 0 then a / b else -((-a) / b)
  }

  lemma EmptyNumChunks(chunkSize: int)
    requires chunkSize >= 1
    ensures NumChunks(0, chunkSize) == if chunkSize == 1 then 0 else 1
  {
    if chunkSize > 1 {
      assert 1 / chunkSize == 0;
    }
  }

  /** The chunk the submission loop plans at number i of the last one. */
  predicate IsChunk(chunk: Chunk, size: int, chunkSize: int, last: int, i: int) {
    chunk.offset == i * chunkSize && chunk.count == if i < last then chunkSize else size - i * chunkSize
  }

  lemma ChunksTile(chunks: seq<Chunk>, size: nat, chunkSize: nat, last: int)
    requires 0 <= last == |chunks| - 1 && chunkSize >= 1 && last * chunkSize < size <= last * chunkSize + chunkSize
    requires forall i :: 0 <= i < |chunks| ==> IsChunk(chunks[i], size, chunkSize, last, i)
    ensures Tiles(chunks, size, chunkSize)
    ensures forall i :: 0 <= i < |chunks| - 1 ==> chunks[i].count == chunkSize
  {
    forall i | 0 <= i < |chunks|
      ensures 1 <= chunks[i].count <= chunkSize
      ensures i < last ==> chunks[i].count == chunkSize && chunks[i].End() == chunks[i + 1].offset
    {
      ChunkProducts(size, chunkSize, last, i);
      assert IsChunk(chunks[i], size, chunkSize, last, i);
      assert i < last ==> IsChunk(chunks[i + 1], size, chunkSize, last, i + 1);
    }
    assert IsChunk(chunks[0], size, chunkSize, last, 0) && IsChunk(chunks[last], size, chunkSize, last, last);
  }

  /** The submission loop of doBatchTransfer: the (offset, count) pairs in the order they are
      sent. Every intermediate value is an int64, so that it verifies is the absence of overflow.
      An empty transfer, unless its chunks are of one byte, still has a chunk, of count zero. */
  method PlanChunks(transferSize: int64, chunkSize: int64) returns (chunks: seq<Chunk>)
    requires transferSize >= 0 && chunkSize >= 1
    ensures |chunks| == NumChunks(transferSize as int, chunkSize as int)
    ensures transferSize >= 1 ==> Tiles(chunks, transferSize as int, chunkSize as int)
    ensures transferSize >= 1 ==> forall i :: 0 <= i < |chunks| - 1 ==> chunks[i].count == chunkSize as int
    ensures transferSize == 0 ==> chunks == if chunkSize == 1 then [] else [Chunk(0, 0)]
  {
    ghost var (size, cs) := (transferSize as int, chunkSize as int);
    ghost var last := NumChunks(size, cs) - 1;
    if size >= 1 {
      LastChunk(size, cs);
    } else {
      EmptyNumChunks(cs);
    }
    var numChunks := Div64(transferSize - 1, chunkSize) + 1;
    assert numChunks as int == last + 1;
    hide NumChunks, TruncatedDiv;
    var curChunkSize := chunkSize;
    chunks := [];
    var chunkIndex: int64 := 0;
    while chunkIndex < numChunks
      invariant 0 <= chunkIndex <= numChunks && |chunks| == chunkIndex as int
      invariant chunkIndex < numChunks ==> curChunkSize == chunkSize
      invariant forall i :: 0 <= i < |chunks| ==> IsChunk(chunks[i], size, cs, last, i)
    {
      ChunkProducts(size, cs, last, chunkIndex as int);
      if chunkIndex == numChunks - 1 {
        curChunkSize := transferSize - chunkIndex * chunkSize;
      }
      var offset := chunkIndex * chunkSize;
      chunks := chunks + [Chunk(offset as int, curChunkSize as int)];
      chunkIndex := chunkIndex + 1;
    }
    if size >= 1 {
      ChunksTile(chunks, size, cs, last);
    } else {
      assert |chunks| == 1 ==> IsChunk(chunks[0], size, cs, last, 0);
    }
  }

  /** Why both callers return early on an empty transfer: a chunk of offset and count zero is asked
      for without a Range header, and a GET without one is answered with the whole file; written as
      a header it would be read as "to the end". */
  lemma EmptyChunkMeansAll<T>(content: seq<T>)
    ensures var header := Pointers(0, COUNT_TO_END as int64); header == None && Serve(content, header) == Some(content)
    ensures ParseByteRange(ToRange(0, COUNT_TO_END as int64)) == Some(From(0))
  {
    ToRangeRoundTrip(0, 0);
  }
}
