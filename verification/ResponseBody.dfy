/** Feeding one notification's response body to the engine: memory and file chunks,
    bounded by the inspection cap. */
module ResponseBody {
  import opened Common
  import opened Engine

  /** HTTP_BYTE_RANGE_TO_EOF as an unsigned 64-bit length. */
  const TO_EOF: nat := QWORD_MODULUS - 1

  const FILE_BUFFER: nat := 65536

  /** A file handle: its content, whether duplicating, seeking and sizing it work, and
      how much its k-th ReadFile delivers at most (0 is a failed read). */
  datatype FileHandle = FileHandle(
    content: Bytes,
    duplicates: bool,
    seeks: bool,
    sizes: bool,
    reach: nat -> nat)

  /** OtherChunk is every kind the module skips, such as a fragment-cache entry. */
  datatype Chunk =
    | Memory(bytes: Bytes)
    | FileRange(file: FileHandle, start: nat, length: nat)
    | OtherChunk(length: nat)

  function Available(f: FileHandle, pos: nat): nat {
    if pos < |f.content| then |f.content| - pos else 0
  }

  /** What the k-th ReadFile delivers when asked for `want` bytes at `pos`. */
  function Got(f: FileHandle, pos: nat, want: nat, k: nat): (got: nat)
    ensures got <= want && got <= Available(f, pos)
  {
    Min(want, Min(Available(f, pos), f.reach(k)))
  }

  /** The pieces the read loop appends for the rest of a range. */
  function FilePieces(f: FileHandle, pos: nat, length: nat, k: nat): seq<Bytes>
    decreases length
  {
    if length == 0 then []
    else
      var got := Got(f, pos, Min(length, FILE_BUFFER), k);
      if got == 0 then [] else [f.content[pos..pos + got]] + FilePieces(f, pos + got, length - got, k + 1)
  }

  /** SetFilePointerEx takes the start as a signed number and refuses negative ones. */
  predicate Seekable(f: FileHandle, start: nat) {
    f.duplicates && f.seeks && start < QWORD_MODULUS / 2
  }

  /** The length the read loop starts with. */
  function RangeLength(f: FileHandle, start: nat, length: nat): nat {
    if length != TO_EOF then length
    else if f.sizes then Available(f, start) else 0
  }

  function AppendedPieces(f: FileHandle, start: nat, length: nat): seq<Bytes> {
    if Seekable(f, start) then FilePieces(f, start, RangeLength(f, start, length), 0) else []
  }

  function AppendCalls(pieces: seq<Bytes>): (calls: Trace)
    ensures |calls| == |pieces|
    ensures forall c <- calls :: c.AppendResponseBody?
  {
    seq(|pieces|, i requires 0 <= i < |pieces| => AppendResponseBody(pieces[i]))
  }

  /** One step of the read loop: the next piece moves to those already appended. */
  lemma PieceMoves(done: seq<Bytes>, f: FileHandle, pos: nat, left: nat, k: nat)
    requires left > 0 && Got(f, pos, Min(left, FILE_BUFFER), k) > 0
    ensures var got := Got(f, pos, Min(left, FILE_BUFFER), k);
            var piece := f.content[pos..pos + got];
            && done + FilePieces(f, pos, left, k) == (done + [piece]) + FilePieces(f, pos + got, left - got, k + 1)
            && AppendCalls(done + [piece]) == AppendCalls(done) + [AppendResponseBody(piece)]
            && |Flatten(done + [piece])| == |Flatten(done)| + got
  {
    var got := Got(f, pos, Min(left, FILE_BUFFER), k);
    var piece := f.content[pos..pos + got];
    var others := FilePieces(f, pos + got, left - got, k + 1);
    assert FilePieces(f, pos, left, k) == [piece] + others;
    assert done + ([piece] + others) == (done + [piece]) + others;
    FlattenSnoc(done, piece);
  }

  /** The ReadFile loop: short reads are continued until the range is covered or a
      read delivers nothing. */
  method StreamRange(tx: Transaction, f: FileHandle, start: nat, length: nat) returns (appended: nat)
    modifies tx
    ensures tx.trace == old(tx.trace) + AppendCalls(FilePieces(f, start, length, 0))
    ensures appended == |Flatten(FilePieces(f, start, length, 0))|
  {
    ghost var all := FilePieces(f, start, length, 0);
    ghost var done: seq<Bytes> := [];
    var pos: nat, left: nat, k: nat := start, length, 0;
    appended := 0;
    assert all == done + FilePieces(f, pos, left, k);
    assert tx.trace == old(tx.trace) + AppendCalls(done);
    while left > 0
      invariant all == done + FilePieces(f, pos, left, k)
      invariant tx.trace == old(tx.trace) + AppendCalls(done)
      invariant appended == |Flatten(done)|
    {
      var want := if left > FILE_BUFFER then FILE_BUFFER else left;
      var got := Got(f, pos, want, k);
      if got == 0 {
        break;
      }
      var piece := f.content[pos..pos + got];
      PieceMoves(done, f, pos, left, k);
      ghost var calls := AppendCalls(done);
      tx.Call(AppendResponseBody(piece));
      assert tx.trace == old(tx.trace) + (calls + [AppendResponseBody(piece)]);
      done := done + [piece];
      appended, left, pos, k := appended + got, left - got, pos + got, k + 1;
    }
    assert FilePieces(f, pos, left, k) == [];
    assert done + [] == done;
  }

  method AppendResponseFileChunk(tx: Transaction, f: FileHandle, start: nat, length: nat)
    returns (appended: nat)
    modifies tx
    ensures tx.trace == old(tx.trace) + AppendCalls(AppendedPieces(f, start, length))
    ensures appended == |Flatten(AppendedPieces(f, start, length))|
  {
    appended := 0;
    if !f.duplicates {
      return;
    }
    if f.seeks && start < QWORD_MODULUS / 2 {
      var left: nat := length;
      if length == TO_EOF {
        left := if f.sizes && |f.content| > start then |f.content| - start else 0;
      }
      appended := StreamRange(tx, f, start, left);
    }
  }

  // ---- The chunk loop of OnSendResponse ----

  /** The engine pieces of the chunks seen so far, and the inspected byte counter. */
  datatype Inspection = Inspection(pieces: seq<Bytes>, count: nat)

  /** Unsigned 64-bit sum and difference. */
  function Add64(a: int, b: int): nat {
    (a + b) % QWORD_MODULUS
  }

  function Sub64(a: int, b: int): nat {
    (a - b) % QWORD_MODULUS
  }

  /** The file length asked for, clamped as the code clamps it. */
  function ClampedLength(count: nat, length: nat, cap: nat): nat {
    if length == TO_EOF then Sub64(cap, count)
    else if Add64(count, length) > cap then Sub64(cap, count)
    else length
  }

  /** What one chunk adds when `count` bytes have been inspected before it. */
  function ChunkPieces(count: nat, chunk: Chunk, cap: nat): seq<Bytes> {
    match chunk
    case Memory(bytes) =>
      if count < cap && |bytes| > 0
      then [bytes[..if count + |bytes| > cap then cap - count else |bytes|]] else []
    case FileRange(f, start, length) => AppendedPieces(f, start, ClampedLength(count, length, cap))
    case OtherChunk(_) => []
  }

  function Inspect(chunks: seq<Chunk>, cap: nat): Inspection {
    if chunks == [] then Inspection([], 0)
    else
      var seen := Inspect(chunks[..|chunks| - 1], cap);
      var pieces := ChunkPieces(seen.count, chunks[|chunks| - 1], cap);
      Inspection(seen.pieces + pieces, seen.count + |Flatten(pieces)|)
  }

  method InspectChunk(tx: Transaction, chunk: Chunk, count: nat, cap: nat) returns (respInspected: nat)
    modifies tx
    ensures tx.trace == old(tx.trace) + AppendCalls(ChunkPieces(count, chunk, cap))
    ensures respInspected == count + |Flatten(ChunkPieces(count, chunk, cap))|
  {
    respInspected := count;
    if chunk.Memory? {
      var len := |chunk.bytes|;
      if respInspected < cap && len > 0 {
        var take := if respInspected + len > cap then cap - respInspected else len;
        tx.Call(AppendResponseBody(chunk.bytes[..take]));
        FlattenOne(chunk.bytes[..take]);
        respInspected := respInspected + take;
      }
    } else if chunk.FileRange? {
      var length := chunk.length;
      if length == TO_EOF {
        length := Sub64(cap, respInspected);
      } else if Add64(respInspected, length) > cap {
        length := Sub64(cap, respInspected);
      }
      if length > 0 {
        var got := AppendResponseFileChunk(tx, chunk.file, chunk.start, length);
        respInspected := respInspected + got;
      }
    }
  }

  method InspectChunks(tx: Transaction, chunks: seq<Chunk>, cap: nat) returns (respInspected: nat)
    modifies tx
    ensures respInspected == Inspect(chunks, cap).count
    ensures tx.trace == old(tx.trace) + AppendCalls(Inspect(chunks, cap).pieces)
  {
    respInspected := 0;
    ghost var pieces: seq<Bytes> := [];
    for c := 0 to |chunks|
      invariant Inspect(chunks[..c], cap) == Inspection(pieces, respInspected)
      invariant tx.trace == old(tx.trace) + AppendCalls(pieces)
    {
      ghost var added := ChunkPieces(respInspected, chunks[c], cap);
      InspectNext(chunks, c, cap);
      AppendCallsMove(old(tx.trace), pieces, added);
      respInspected := InspectChunk(tx, chunks[c], respInspected, cap);
      pieces := pieces + added;
    }
    assert chunks[..|chunks|] == chunks;
  }

  lemma InspectNext(chunks: seq<Chunk>, c: nat, cap: nat)
    requires c < |chunks|
    ensures var seen := Inspect(chunks[..c], cap);
            var added := ChunkPieces(seen.count, chunks[c], cap);
            Inspect(chunks[..c + 1], cap) == Inspection(seen.pieces + added, seen.count + |Flatten(added)|)
  {
    assert chunks[..c + 1][..c] == chunks[..c];
  }

  lemma FlattenOne(piece: Bytes)
    ensures Flatten([piece]) == piece
  {
    FlattenSnoc([], piece);
    assert [] + [piece] == [piece];
  }

  lemma AppendCallsMove(trace: Trace, pieces: seq<Bytes>, added: seq<Bytes>)
    ensures trace + AppendCalls(pieces) + AppendCalls(added) == trace + AppendCalls(pieces + added)
  {
    assert AppendCalls(pieces + added) == AppendCalls(pieces) + AppendCalls(added);
  }

  // ---- What is inspected ----

  /** The bytes of the body a chunk stands for, as far as the module can see them. */
  function ChunkBytes(chunk: Chunk): Bytes {
    match chunk
    case Memory(bytes) => bytes
    case FileRange(f, start, length) =>
      if start >= |f.content| then []
      else if length == TO_EOF || start + length > |f.content| then f.content[start..]
      else f.content[start..start + length]
    case OtherChunk(_) => []
  }

  function BodyBytes(chunks: seq<Chunk>): Bytes {
    if chunks == [] then [] else BodyBytes(chunks[..|chunks| - 1]) + ChunkBytes(chunks[|chunks| - 1])
  }

  /** The file can be read: in any number of short pieces, but without an error. */
  ghost predicate Readable(chunk: Chunk) {
    chunk.FileRange? ==>
      Seekable(chunk.file, chunk.start) && forall k: nat :: chunk.file.reach(k) > 0
  }

  /** The length fits what the 64-bit comparison with the cap can add up. */
  predicate NoOverflow(chunk: Chunk, cap: nat) {
    chunk.FileRange? ==> chunk.length == TO_EOF || chunk.length + cap < QWORD_MODULUS
  }

  /** The clamp leaves at most the room below the cap exactly when the 64-bit sum of
      counter and length does not wrap around. */
  lemma ClampIsRightIff(count: nat, length: nat, cap: nat)
    requires count <= cap < DWORD_MODULUS && length <= TO_EOF
    ensures ClampedLength(count, length, cap) <= cap - count
            <==> length == TO_EOF || count + length < QWORD_MODULUS
  {
    if count + length < QWORD_MODULUS {
      assert Add64(count, length) == count + length;
    } else {
      assert Add64(count, length) == count + length - QWORD_MODULUS;
    }
    assert Sub64(cap, count) == cap - count;
  }

  function SubRange(content: Bytes, pos: nat, length: nat): Bytes {
    if pos < |content| then content[pos..Min(pos + length, |content|)] else []
  }

  lemma SubRangeSplits(content: Bytes, pos: nat, first: nat, length: nat)
    requires first <= length && pos + first <= |content|
    ensures content[pos..pos + first] + SubRange(content, pos + first, length - first) == SubRange(content, pos, length)
  {
  }

  /** How many bytes the read loop gets of the rest of a range. */
  function Covered(f: FileHandle, pos: nat, length: nat, k: nat): (n: nat)
    ensures n <= length && n <= Available(f, pos)
    decreases length
  {
    if length == 0 then 0
    else
      var got := Got(f, pos, Min(length, FILE_BUFFER), k);
      if got == 0 then 0 else got + Covered(f, pos + got, length - got, k + 1)
  }

  lemma OnePieceFirst(content: Bytes, pos: nat, got: nat, others: seq<Bytes>, covered: nat)
    requires pos + got <= |content| && Flatten(others) == SubRange(content, pos + got, covered)
    ensures Flatten([content[pos..pos + got]] + others) == SubRange(content, pos, got + covered)
  {
    FlattenConcat([content[pos..pos + got]], others);
    FlattenOne(content[pos..pos + got]);
    SubRangeSplits(content, pos, got, got + covered);
  }

  /** The pieces it appends are just these bytes, in order. */
  lemma {:induction false} PiecesAreCovered(f: FileHandle, pos: nat, length: nat, k: nat)
    ensures Flatten(FilePieces(f, pos, length, k)) == SubRange(f.content, pos, Covered(f, pos, length, k))
    decreases length
  {
    var got := Got(f, pos, Min(length, FILE_BUFFER), k);
    if length > 0 && got > 0 {
      PiecesAreCovered(f, pos + got, length - got, k + 1);
      NextPieces(f, pos, length, k, got);
    } else {
      NoPieces(f, pos, length, k);
    }
  }

  lemma NoPieces(f: FileHandle, pos: nat, length: nat, k: nat)
    requires length == 0 || Got(f, pos, Min(length, FILE_BUFFER), k) == 0
    ensures Flatten(FilePieces(f, pos, length, k)) == SubRange(f.content, pos, Covered(f, pos, length, k))
  {
    assert SubRange(f.content, pos, 0) == [];
  }

  lemma NextPieces(f: FileHandle, pos: nat, length: nat, k: nat, got: nat)
    requires length > 0 && got == Got(f, pos, Min(length, FILE_BUFFER), k) > 0
    requires Flatten(FilePieces(f, pos + got, length - got, k + 1))
             == SubRange(f.content, pos + got, Covered(f, pos + got, length - got, k + 1))
    ensures Flatten(FilePieces(f, pos, length, k)) == SubRange(f.content, pos, Covered(f, pos, length, k))
  {
    OnePieceFirst(f.content, pos, got, FilePieces(f, pos + got, length - got, k + 1),
                  Covered(f, pos + got, length - got, k + 1));
  }

  lemma {:induction false} CoveredWhole(f: FileHandle, pos: nat, length: nat, k: nat)
    requires forall j: nat :: f.reach(j) > 0
    ensures Covered(f, pos, length, k) == Min(length, Available(f, pos))
    decreases length
  {
    if length > 0 && pos < |f.content| {
      assert f.reach(k) > 0;
      var got := Got(f, pos, Min(length, FILE_BUFFER), k);
      CoveredWhole(f, pos + got, length - got, k + 1);
    }
  }

  /** However short the reads, a readable range is appended whole, up to the end of
      the file. */
  lemma FilePiecesCover(f: FileHandle, pos: nat, length: nat, k: nat)
    requires forall j: nat :: f.reach(j) > 0
    ensures Flatten(FilePieces(f, pos, length, k)) == SubRange(f.content, pos, length)
  {
    PiecesAreCovered(f, pos, length, k);
    CoveredWhole(f, pos, length, k);
  }

  /** A file never contributes more than was asked for. */
  lemma FilePiecesBounded(f: FileHandle, pos: nat, length: nat, k: nat)
    ensures |Flatten(FilePieces(f, pos, length, k))| <= length
  {
    PiecesAreCovered(f, pos, length, k);
  }

  /** A range is appended whole, up to the end of the file, if its file can be duplicated,
      positioned there, and read -- and sized, if the range has no length of its own --
      and not at all without duplicating or positioning. */
  lemma RangeIsAppended(f: FileHandle, start: nat, length: nat)
    ensures !f.duplicates || !f.seeks || start >= 0x8000_0000_0000_0000 ==> AppendedPieces(f, start, length) == []
    ensures f.duplicates && f.seeks && start < 0x8000_0000_0000_0000 && (forall k: nat :: f.reach(k) > 0) ==>
              Flatten(AppendedPieces(f, start, length))
              == if start >= |f.content| then []
                 else if length == 0xFFFF_FFFF_FFFF_FFFF then (if f.sizes then f.content[start..] else [])
                 else f.content[start..][..Min(length, |f.content| - start)]
  {
    if f.duplicates && f.seeks && start < 0x8000_0000_0000_0000 && forall k: nat :: f.reach(k) > 0 {
      FilePiecesCover(f, start, RangeLength(f, start, length), 0);
      if start < |f.content| {
        assert f.content[start..][..Min(length, |f.content| - start)]
               == f.content[start..Min(start + length, |f.content|)];
        assert f.content[start..|f.content|] == f.content[start..];
      }
    }
  }

  /** A chunk adds at most the room that is left. */
  lemma ChunkIsBounded(count: nat, chunk: Chunk, cap: nat)
    requires count <= cap < DWORD_MODULUS && NoOverflow(chunk, cap)
    ensures |Flatten(ChunkPieces(count, chunk, cap))| <= cap - count
  {
    match chunk {
      case Memory(bytes) =>
        if count < cap && |bytes| > 0 {
          FlattenOne(bytes[..if count + |bytes| > cap then cap - count else |bytes|]);
        }
      case FileRange(f, start, length) =>
        ClampBelow(count, length, cap);
        FilePiecesBounded(f, start, ClampedLength(count, length, cap), 0);
      case OtherChunk(_) =>
    }
  }

  /** The counter is the number of bytes given to the engine, and with lengths that
      cannot wrap it never exceeds the cap, whatever the files do. */
  lemma {:induction false} InspectionIsBounded(chunks: seq<Chunk>, cap: nat)
    requires cap < DWORD_MODULUS
    requires forall i :: 0 <= i < |chunks| ==> NoOverflow(chunks[i], cap)
    ensures Inspect(chunks, cap).count <= cap
    ensures Inspect(chunks, cap).count == |Flatten(Inspect(chunks, cap).pieces)|
  {
    if chunks != [] {
      var front, chunk := chunks[..|chunks| - 1], chunks[|chunks| - 1];
      InspectionIsBounded(front, cap);
      var seen := Inspect(front, cap);
      ChunkIsBounded(seen.count, chunk, cap);
      FlattenConcat(seen.pieces, ChunkPieces(seen.count, chunk, cap));
    }
  }

  predicate AllNoOverflow(chunks: seq<Chunk>, cap: nat) {
    forall i :: 0 <= i < |chunks| ==> NoOverflow(chunks[i], cap)
  }

  /** The range starts inside a file whose first read delivers something. */
  predicate Delivers(f: FileHandle, start: nat) {
    Seekable(f, start) && Available(f, start) > 0 && f.reach(0) > 0
  }

  lemma InspectSnoc(chunks: seq<Chunk>, chunk: Chunk, cap: nat)
    ensures Inspect(chunks + [chunk], cap).count
            == Inspect(chunks, cap).count + |Flatten(ChunkPieces(Inspect(chunks, cap).count, chunk, cap))|
  {
    assert (chunks + [chunk])[..|chunks|] == chunks;
  }

  lemma FillsCap(cap: nat)
    ensures Inspect([Memory(seq(cap, i => 0))], cap).count == cap
  {
    var bytes: Bytes := seq(cap, i => 0);
    InspectSnoc([], Memory(bytes), cap);
    assert [] + [Memory(bytes)] == [Memory(bytes)];
    if cap > 0 {
      assert bytes[..|bytes|] == bytes;
      FlattenOne(bytes);
    }
  }

  /** A range whose length can wrap passes a cap that is already used up. */
  lemma WrappingRangePassesCap(f: FileHandle, start: nat, length: nat, cap: nat)
    requires cap < DWORD_MODULUS && length < TO_EOF && length + cap >= QWORD_MODULUS && Delivers(f, start)
    ensures |Flatten(ChunkPieces(cap, FileRange(f, start, length), cap))| > 0
  {
    assert Add64(cap, length) == length + cap - QWORD_MODULUS;
    assert ClampedLength(cap, length, cap) == length;
    PiecesAreCovered(f, start, length, 0);
  }

  /** The guard of NoOverflow is exact for the whole loop: after every run of chunks
      that cannot wrap, one more file range leaves the counter within the cap, if and
      only if that range cannot wrap either or its file delivers nothing. */
  lemma NoOverflowIff(f: FileHandle, start: nat, length: nat, cap: nat)
    requires cap < DWORD_MODULUS && length <= TO_EOF
    ensures (forall before :: AllNoOverflow(before, cap)
                              ==> Inspect(before + [FileRange(f, start, length)], cap).count <= cap)
            <==> NoOverflow(FileRange(f, start, length), cap) || !Delivers(f, start)
  {
    var chunk := FileRange(f, start, length);
    if NoOverflow(chunk, cap) || !Delivers(f, start) {
      forall before | AllNoOverflow(before, cap)
        ensures Inspect(before + [chunk], cap).count <= cap
      {
        InspectionIsBounded(before, cap);
        InspectSnoc(before, chunk, cap);
        if NoOverflow(chunk, cap) {
          ChunkIsBounded(Inspect(before, cap).count, chunk, cap);
        } else {
          assert ChunkPieces(Inspect(before, cap).count, chunk, cap) == [];
        }
      }
    } else {
      var before := [Memory(seq(cap, i => 0))];
      FillsCap(cap);
      InspectSnoc(before, chunk, cap);
      WrappingRangePassesCap(f, start, length, cap);
      assert AllNoOverflow(before, cap);
      assert Inspect(before + [chunk], cap).count > cap;
    }
  }

  lemma ClampBelow(count: nat, length: nat, cap: nat)
    requires count <= cap < DWORD_MODULUS
    requires length == TO_EOF || length + cap < QWORD_MODULUS
    ensures ClampedLength(count, length, cap) == if length == TO_EOF then cap - count else Min(length, cap - count)
    ensures ClampedLength(count, length, cap) < TO_EOF
  {
    if length != TO_EOF {
      assert Add64(count, length) == count + length;
    }
    assert Sub64(cap, count) == cap - count;
  }

  /** A readable chunk adds its own bytes, as far as there is room. */
  lemma ChunkAddsPrefix(count: nat, chunk: Chunk, cap: nat)
    requires count <= cap < DWORD_MODULUS && NoOverflow(chunk, cap) && Readable(chunk)
    ensures var d := ChunkBytes(chunk);
            Flatten(ChunkPieces(count, chunk, cap)) == d[..Min(|d|, cap - count)]
  {
    match chunk {
      case Memory(bytes) =>
        if count < cap && |bytes| > 0 {
          FlattenOne(bytes[..Min(|bytes|, cap - count)]);
        }
      case FileRange(f, start, length) =>
        RangeAddsPrefix(f, start, length, cap - count);
        ClampBelow(count, length, cap);
        FilePiecesCover(f, start, ClampedLength(count, length, cap), 0);
      case OtherChunk(_) =>
    }
  }

  /** The first bytes of a range, as far as there is room, are a shorter range. */
  lemma RangeAddsPrefix(f: FileHandle, start: nat, length: nat, room: nat)
    ensures var d := ChunkBytes(FileRange(f, start, length));
            SubRange(f.content, start, if length == TO_EOF then room else Min(length, room)) == d[..Min(|d|, room)]
  {
    var d := ChunkBytes(FileRange(f, start, length));
    if start < |f.content| {
      assert d == f.content[start..start + |d|];
      assert d[..Min(|d|, room)] == f.content[start..start + Min(|d|, room)];
    }
  }

  lemma PrefixGrows(before: Bytes, d: Bytes, cap: nat)
    ensures var after := before + d;
            before[..Min(|before|, cap)] + d[..Min(|d|, cap - Min(|before|, cap))] == after[..Min(|after|, cap)]
  {
  }

  /** The engine is given exactly the first min(total, cap) bytes of the memory and
      file chunks put together. */
  lemma {:induction false} InspectsExactPrefix(chunks: seq<Chunk>, cap: nat)
    requires cap < DWORD_MODULUS
    requires forall i :: 0 <= i < |chunks| ==> NoOverflow(chunks[i], cap) && Readable(chunks[i])
    ensures var body := BodyBytes(chunks);
            && Flatten(Inspect(chunks, cap).pieces) == body[..Min(|body|, cap)]
            && Inspect(chunks, cap).count == Min(|body|, cap)
  {
    if chunks != [] {
      var front, chunk := chunks[..|chunks| - 1], chunks[|chunks| - 1];
      InspectsExactPrefix(front, cap);
      var seen := Inspect(front, cap);
      ChunkAddsPrefix(seen.count, chunk, cap);
      FlattenConcat(seen.pieces, ChunkPieces(seen.count, chunk, cap));
      PrefixGrows(BodyBytes(front), ChunkBytes(chunk), cap);
    }
  }

  // ---- When the counter is the length of the body ----

  /** How long a chunk is, whether or not the module can see its bytes. */
  function ChunkLength(chunk: Chunk): nat {
    if chunk.OtherChunk? then chunk.length else |ChunkBytes(chunk)|
  }

  function BodyLength(chunks: seq<Chunk>): nat {
    if chunks == [] then 0 else BodyLength(chunks[..|chunks| - 1]) + ChunkLength(chunks[|chunks| - 1])
  }

  /** No byte of the chunk is skipped or unreadable: read in full, its file delivers the
      whole range. */
  predicate FullyRead(chunk: Chunk) {
    match chunk
    case Memory(_) => true
    case FileRange(f, start, length) =>
      || ChunkBytes(chunk) == []
      || (Seekable(f, start) && Covered(f, start, length, 0) == |ChunkBytes(chunk)|)
    case OtherChunk(length) => length == 0
  }

  predicate AllFullyRead(chunks: seq<Chunk>) {
    forall i :: 0 <= i < |chunks| ==> FullyRead(chunks[i])
  }

  lemma ReadableIsFullyRead(chunk: Chunk)
    requires Readable(chunk) && !chunk.OtherChunk?
    requires chunk.FileRange? ==> |chunk.file.content| < QWORD_MODULUS
    ensures FullyRead(chunk)
  {
    if chunk.FileRange? {
      CoveredWhole(chunk.file, chunk.start, chunk.length, 0);
    }
  }

  /** A read that does not complete a range gets as much when more is asked for. */
  lemma SameGot(f: FileHandle, pos: nat, length: nat, more: nat, k: nat)
    requires Got(f, pos, Min(length, FILE_BUFFER), k) < length <= more
    ensures Got(f, pos, Min(more, FILE_BUFFER), k) == Got(f, pos, Min(length, FILE_BUFFER), k)
  {
  }

  /** A read loop that ends short of what it was asked for would have ended there
      whatever it had been asked for. */
  lemma {:induction false} ShortReadIsFinal(f: FileHandle, pos: nat, length: nat, more: nat, k: nat)
    requires Covered(f, pos, length, k) < length <= more
    ensures Covered(f, pos, more, k) == Covered(f, pos, length, k)
    decreases length
  {
    var got := Got(f, pos, Min(length, FILE_BUFFER), k);
    assert got <= Covered(f, pos, length, k);
    SameGot(f, pos, length, more, k);
    if got > 0 {
      ShortReadIsFinal(f, pos + got, length - got, more - got, k + 1);
    }
  }

  /** Below the cap a file range adds what its file delivers of the whole range, even if
      its length was clamped, and even if it wrapped around. */
  lemma RangeBelowCap(count: nat, f: FileHandle, start: nat, length: nat, cap: nat)
    requires cap < DWORD_MODULUS
    requires count + |Flatten(ChunkPieces(count, FileRange(f, start, length), cap))| < cap
    ensures Flatten(ChunkPieces(count, FileRange(f, start, length), cap))
            == if Seekable(f, start) then SubRange(f.content, start, Covered(f, start, length, 0)) else []
  {
    var clamped := ClampedLength(count, length, cap);
    assert clamped == length != TO_EOF || clamped == cap - count <= length by {
      if length != TO_EOF && count + length < QWORD_MODULUS {
        assert Add64(count, length) == count + length;
      }
    }
    if Seekable(f, start) {
      PiecesAreCovered(f, start, clamped, 0);
      if clamped != length || length == TO_EOF {
        ShortReadIsFinal(f, start, clamped, length, 0);
      }
    }
  }

  lemma ChunkBelowCap(count: nat, chunk: Chunk, cap: nat)
    requires cap < DWORD_MODULUS && count + |Flatten(ChunkPieces(count, chunk, cap))| < cap
    ensures var added := Flatten(ChunkPieces(count, chunk, cap));
            && |added| <= ChunkLength(chunk)
            && (|added| == ChunkLength(chunk) <==> FullyRead(chunk))
            && (FullyRead(chunk) ==> added == ChunkBytes(chunk))
  {
    match chunk {
      case Memory(bytes) =>
        if |bytes| > 0 {
          FlattenOne(bytes[..if count + |bytes| > cap then cap - count else |bytes|]);
        }
      case FileRange(f, start, length) =>
        RangeBelowCap(count, f, start, length, cap);
        assert Seekable(f, start) ==>
            |SubRange(f.content, start, Covered(f, start, length, 0))| == Covered(f, start, length, 0);
      case OtherChunk(_) =>
    }
  }

  lemma AllFullyReadSnoc(chunks: seq<Chunk>)
    requires chunks != []
    ensures AllFullyRead(chunks) <==> AllFullyRead(chunks[..|chunks| - 1]) && FullyRead(chunks[|chunks| - 1])
  {
    var front := chunks[..|chunks| - 1];
    assert forall i :: 0 <= i < |front| ==> front[i] == chunks[i];
  }

  /** A counter below the cap never exceeds the length of the whole body, and is that
      length, with every byte fed in order, exactly when none was skipped or unreadable --
      whatever the lengths of file ranges are, wrapping ones included. */
  lemma {:induction false} BelowCapIsTotal(chunks: seq<Chunk>, cap: nat)
    requires cap < DWORD_MODULUS && Inspect(chunks, cap).count < cap
    ensures Inspect(chunks, cap).count <= BodyLength(chunks)
    ensures Inspect(chunks, cap).count == BodyLength(chunks) <==> AllFullyRead(chunks)
    ensures AllFullyRead(chunks) ==> Flatten(Inspect(chunks, cap).pieces) == BodyBytes(chunks)
  {
    if chunks != [] {
      var front, chunk := chunks[..|chunks| - 1], chunks[|chunks| - 1];
      var seen := Inspect(front, cap);
      var added := ChunkPieces(seen.count, chunk, cap);
      assert Inspect(chunks, cap) == Inspection(seen.pieces + added, seen.count + |Flatten(added)|);
      BelowCapIsTotal(front, cap);
      ChunkBelowCap(seen.count, chunk, cap);
      FlattenConcat(seen.pieces, added);
      AllFullyReadSnoc(chunks);
    }
  }

  /** A length whose 64-bit sum wraps around passes the clamp: ten bytes of file are
      inspected on top of two when the cap is four. */
  lemma OverflowPassesCap()
    ensures var f := FileHandle(seq(10, i => 0), true, true, true, k => 65536);
            var chunks := [Memory([1, 2]), FileRange(f, 0, QWORD_MODULUS - 2)];
            Inspect(chunks, 4).count == 12
  {
    var f := FileHandle(seq(10, i => 0), true, true, true, k => 65536);
    var chunks := [Memory([1, 2]), FileRange(f, 0, QWORD_MODULUS - 2)];
    assert chunks[..1][..0] == [];
    assert chunks[..1][0] == Memory([1, 2]);
    FlattenOne([1, 2]);
    assert [1 as Byte, 2][..2] == [1, 2];
    assert ChunkPieces(0, chunks[0], 4) == [[1, 2]];
    assert [] + [[1 as Byte, 2]] == [[1, 2]];
    assert Inspect(chunks[..1], 4).count == 2;
    assert ClampedLength(2, QWORD_MODULUS - 2, 4) == QWORD_MODULUS - 2;
    FilePiecesCover(f, 0, QWORD_MODULUS - 2, 0);
  }
}
