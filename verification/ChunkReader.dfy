/** The download reader: a seekable byte stream over a file's chunk rows.  Its
    offset runs ahead of what the caller has consumed by the bytes still in the
    buffer. */
module ChunkReader {
  import opened Wrappers
  import opened SeqLaws
  import opened NumberLaws
  import opened Chunks
  import opened ChunkWriter

  datatype Status = More | Eof | Failed

  datatype Whence = SeekStart | SeekCurrent | SeekEnd

  // SELECT chunk ... WHERE id AND chunk_index.
  function FetchChunk(rows: seq<Row>, id: Id, index: nat): Option<Data> {
    if rows == [] then None
    else
      var last := rows[|rows| - 1];
      if last.id == id && last.index == index then Some(last.chunk) else FetchChunk(rows[..|rows| - 1], id, index)
  }

  lemma {:induction false} FetchFromRows(rows: seq<Row>, id: Id, index: nat)
    ensures FetchChunk(rows, id, index) == FetchChunk(RowsOf(rows, id), id, index)
  {
    if rows != [] {
      var n := |rows| - 1;
      FetchFromRows(rows[..n], id, index);
      var own := RowsOf(rows[..n], id);
      if rows[n].id == id {
        assert RowsOf(rows, id) == own + [rows[n]];
        assert (own + [rows[n]])[..|own|] == own;
      } else {
        assert RowsOf(rows, id) == own;
      }
    }
  }

  lemma {:induction false} FetchSlice(id: Id, d: Data, c: nat, n: nat, i: nat)
    requires c > 0 && n * c < |d| + c && i < n
    ensures i * c <= |d| && FetchChunk(Slices(id, d, c, n), id, i) == Some(Slice(d, c, i))
  {
    assert (n - 1) * c + c == n * c;
    assert Slices(id, d, c, n)[..n - 1] == Slices(id, d, c, n - 1);
    if i < n - 1 {
      FetchSlice(id, d, c, n - 1, i);
    }
  }

  // The end of the chunk that holds byte i, for chunks of k bytes.
  function ChunkEnd(d: Data, k: nat, i: nat): nat
    requires k > 0
  {
    Smaller(|d|, i / k * k + k)
  }

  // The row for byte `offset`, cut to start there, runs to the end of its chunk.
  predicate ChunkReads(rows: seq<Row>, id: Id, d: Data, k: nat, offset: nat) {
    && k > 0 && offset < ChunkEnd(d, k, offset) <= |d|
    && var chunk := FetchChunk(rows, id, offset / k);
    && chunk.Some? && offset % k <= |chunk.value|
    && chunk.value[offset % k..] == d[offset..ChunkEnd(d, k, offset)]
  }

  // Reading the chunk at an offset inside the file, with the chunk size guessed
  // from the first row, gives the bytes from the offset to the chunk's end.
  lemma ChunkAtOffset(rows: seq<Row>, id: Id, d: Data, c: nat, offset: nat)
    requires Stored(rows, id, d, c) && offset < |d|
    ensures ChunkReads(rows, id, d, Smaller(c, |d|), offset)
  {
    if |d| < c {
      OnlyChunk(rows, id, d, c, offset);
    } else {
      ChunkInside(rows, id, d, c, offset);
    }
    hide ChunkReads, AllSlices, RowsOf;
  }

  lemma OnlyChunk(rows: seq<Row>, id: Id, d: Data, c: nat, offset: nat)
    requires offset < |d| < c && RowsOf(rows, id) == AllSlices(id, d, c)
    ensures ChunkReads(rows, id, d, |d|, offset)
  {
    hide AllSlices, FetchChunk, RowsOf, Slices, ChunkCount;
    DivUnique(offset, |d|, 0, offset);
    FetchFromRows(rows, id, 0);
    AllSlicesFetch(id, d, c, 0);
  }

  lemma ChunkInside(rows: seq<Row>, id: Id, d: Data, c: nat, offset: nat)
    requires c > 0 && offset < |d| && RowsOf(rows, id) == AllSlices(id, d, c)
    ensures ChunkReads(rows, id, d, c, offset)
  {
    hide AllSlices, FetchChunk, RowsOf;
    var i, r := offset / c, offset % c;
    assert i * c + r == offset;
    FetchFromRows(rows, id, i);
    AllSlicesFetch(id, d, c, i);
    var chunk := Slice(d, c, i);
    assert chunk == d[i * c..ChunkEnd(d, c, offset)];
    assert chunk[r..] == d[i * c + r..ChunkEnd(d, c, offset)];
  }

  lemma AllSlicesFetch(id: Id, d: Data, c: nat, i: nat)
    requires c > 0 && i * c < |d|
    ensures FetchChunk(AllSlices(id, d, c), id, i) == Some(Slice(d, c, i))
  {
    hide Slices, FetchChunk, Slice;
    var n := ChunkCount(|d|, c);
    if i >= n { MulMonotone(n, i, c); }
    FetchSlice(id, d, c, n, i);
  }

  // All bytes of a chunk have the same end.
  lemma SameChunk(d: Data, k: nat, lo: nat, i: nat)
    requires k > 0 && lo <= i < ChunkEnd(d, k, lo)
    ensures ChunkEnd(d, k, i) == ChunkEnd(d, k, lo)
  {
    var q := lo / k;
    assert q * k + lo % k == lo;
    DivUnique(i, k, q, i - q * k);
  }

  // The receiving slice after one more buffer load.
  lemma Delivered(d: Data, start: nat, read: nat, n: nat, before: Data, after: Data, original: Data, b: Data)
    requires read + n <= |original| && n <= |b| && start + read + n <= |d|
    requires b[..n] == d[start + read..start + read + n]
    requires before == d[start..start + read] + original[read..]
    requires after == before[..read] + b[..n] + before[read + n..]
    ensures after == d[start..start + read + n] + original[read + n..]
  {
    assert before[..read] == d[start..start + read];
    assert before[read + n..] == original[read + n..];
    assert d[start..start + read + n] == d[start..start + read] + d[start + read..start + read + n];
  }

  class Reader {
    const table: Table
    const id: Id
    const fileLength: int
    const chunkSize: nat
    var offset: int
    var buf: Data
    ghost const data: Data
    ghost const writtenWith: nat  // the chunk size the file was written with

    ghost predicate OverFile()
      reads this, table
    {
      && Stored(table.rows, id, data, writtenWith)
      && fileLength == |data| && chunkSize == Smaller(writtenWith, |data|) > 0
    }

    // The buffer holds the bytes just before the offset.
    ghost predicate Buffered()
      reads this
    {
      |buf| <= offset <= |data| && buf == data[offset - |buf|..offset]
    }

    ghost predicate Valid()
      reads this, table
    {
      OverFile() && |buf| <= offset <= |data| && Buffered()
    }

    // What the caller has consumed.
    ghost function Pos(): int
      reads this
    {
      offset - |buf|
    }

    constructor (table: Table, id: Id, chunkSize: nat, fileLength: int, ghost data: Data, ghost writtenWith: nat)
      requires Stored(table.rows, id, data, writtenWith)
      requires fileLength == |data| && chunkSize == Smaller(writtenWith, |data|)
      ensures this.table == table && this.id == id && this.data == data && this.writtenWith == writtenWith
      ensures Valid() && Pos() == 0 && offset == 0
    {
      this.table := table;
      this.id := id;
      this.chunkSize := chunkSize;
      this.fileLength := fileLength;
      this.data := data;
      this.writtenWith := writtenWith;
      offset := 0;
      buf := [];
    }

    // bytes.Buffer's Read: reports the end only when it is empty and bytes were
    // asked for.
    method BufRead(p: array<Byte>, start: nat) returns (n: nat, eof: bool)
      requires start <= p.Length
      modifies this`buf, p
      ensures eof <==> old(buf) == [] && start < p.Length
      ensures n == Smaller(|old(buf)|, p.Length - start) && buf == old(buf)[n..]
      ensures p[..] == old(p[..start]) + old(buf)[..n] + old(p[start + n..])
    {
      var src := buf;
      n := Smaller(|src|, p.Length - start);
      eof := src == [] && start < p.Length;
      for i := 0 to n
        invariant p[..] == old(p[..start]) + src[..i] + old(p[start + i..])
        invariant buf == src
      {
        p[start + i] := src[i];
      }
      buf := src[n..];
    }

    // The receiving slice once `read` bytes from `start` on were delivered.
    ghost predicate Shows(shown: Data, start: int, read: nat, original: Data) {
      && 0 <= start && start + read <= |data| && read <= |original|
      && shown == data[start..start + read] + original[read..]
    }

    // A buffer read in the middle of a Read that started at `start`.
    method TakeBuffered(p: array<Byte>, read: nat, ghost start: int, ghost original: Data) returns (n: nat, eof: bool)
      requires Valid() && read <= p.Length == |original| && Pos() == start + read
      requires Shows(p[..], start, read, original)
      modifies this`buf, p
      ensures Valid() && n == Smaller(|old(buf)|, p.Length - read) && |buf| == |old(buf)| - n
      ensures eof <==> old(buf) == [] && read < p.Length
      ensures Pos() == start + read + n && Shows(p[..], start, read + n, original)
    {
      hide Stored;
      ghost var b, before := buf, p[..];
      n, eof := BufRead(p, read);
      assert b[..n] == data[start + read..start + read + n];
      Delivered(data, start, read, n, before, p[..], original, b);
    }

    method PopulateBuffer() returns (status: Status)
      requires Valid() && buf == []
      modifies this`buf, this`offset
      ensures Valid() && status != Failed && Pos() == old(Pos())
      ensures status == Eof <==> old(offset) == fileLength
      ensures status == Eof ==> offset == old(offset) && buf == []
      ensures status == More ==> 0 <= old(offset) < |data| == fileLength && chunkSize > 0
      ensures status == More ==> offset == ChunkEnd(data, chunkSize, old(offset)) > old(offset)
    {
      hide FetchChunk, Stored, ChunkEnd;
      if offset == fileLength {
        return Eof;
      }
      ChunkAtOffset(table.rows, id, data, writtenWith, offset);
      var chunk := FetchChunk(table.rows, id, offset / chunkSize);
      if chunk.None? {
        return Failed;
      }
      var readStart := offset % chunkSize;
      buf := chunk.value[readStart..];
      offset := offset + |chunk.value| - readStart;
      status := More;
    }

    // Where the offset stands once the caller has consumed up to `pos`.
    ghost function OffsetAfter(before: int, to: int): int
      requires OverFile() && 0 <= before && 0 <= to <= |data|
      reads this, table
    {
      if to <= before then before else ChunkEnd(data, chunkSize, to - 1)
    }

    // The offset is where the call found it, or at the end of the chunk loaded
    // at `lo`, of which the caller will still get a byte.
    ghost predicate LookedAhead(before: int, lo: nat, wanted: bool)
      reads this
    {
      offset == before ||
      (chunkSize > 0 && before <= lo <= Pos() && lo < |data| && offset == ChunkEnd(data, chunkSize, lo)
       && (Pos() == lo ==> buf != [] && wanted))
    }

    // Delivers exactly the next bytes of the file, as many as asked for or as
    // are left, and reports the end exactly when fewer were left than asked for.
    method Read(p: array<Byte>) returns (read: nat, status: Status)
      requires Valid()
      modifies this, p
      ensures Valid() && status != Failed
      ensures read == Smaller(p.Length, |data| - old(Pos())) && Pos() == old(Pos()) + read
      ensures p[..] == data[old(Pos())..old(Pos()) + read] + old(p[read..])
      ensures status == Eof <==> old(Pos()) + p.Length > |data|
      ensures offset == OffsetAfter(old(offset), Pos())
    {
      hide FetchChunk, Stored, ChunkEnd, LookedAhead, Buffered;
      ghost var start, original := Pos(), p[..];
      ghost var lo;
      Begins(p);
      read, status, lo := ReadLoop(p, start, offset, original);
      Delivers(p[..], start, read, original);
      Consumed(old(offset), lo, read < p.Length);
    }

    // In a Read that began at `start` with the offset at `before`.
    ghost predicate Reading(p: array<Byte>, start: int, before: int, read: nat, original: Data, lo: nat)
      reads this, table, p
    {
      && Valid() && Pos() == start + read && read <= |original| && Shows(p[..], start, read, original)
      && LookedAhead(before, lo, read < |original|)
    }

    lemma Begins(p: array<Byte>)
      requires Valid()
      ensures Reading(p, Pos(), offset, 0, p[..], 0)
    {
      assert p[..] == data[Pos()..Pos()] + p[..][0..];
    }

    // One round: what the buffer holds, or a new chunk if it was empty.
    method Round(p: array<Byte>, read: nat,
                 ghost start: int, ghost before: int, ghost original: Data, ghost lo: nat)
      returns (n: nat, status: Status, again: bool, ghost loaded: nat)
      requires |original| == p.Length && Reading(p, start, before, read, original, lo)
      modifies this, p
      ensures read + n <= p.Length && Reading(p, start, before, read + n, original, loaded)
      ensures status == Eof ==> read + n < p.Length && Pos() == |data|
      ensures status != Failed
      ensures again ==> n == 0 && 0 <= old(fileLength - offset) && fileLength - offset < old(fileLength - offset)
      ensures n > 0 ==> offset == old(offset) && |buf| < |old(buf)|
      ensures !again && status == More && read + n < p.Length ==> n > 0
    {
      hide FetchChunk, ChunkEnd, Shows;
      loaded, again := lo, false;
      var eof;
      n, eof := TakeBuffered(p, read, start, original);
      status := More;
      if eof {
        if offset == fileLength {
          status := Eof;
          return;
        }
        loaded := offset;
        status := PopulateBuffer();
        again := true;
      }
    }

    // The loop: it ends when the slice is full, or at the end of the file with
    // nothing left in the buffer.
    method ReadLoop(p: array<Byte>, ghost start: int, ghost before: int, ghost original: Data)
      returns (read: nat, status: Status, ghost lo: nat)
      requires |original| == p.Length && Reading(p, start, before, 0, original, 0)
      modifies this, p
      ensures read <= p.Length && Reading(p, start, before, read, original, lo)
      ensures if status == Eof then read < p.Length && Pos() == |data| else status == More && read == p.Length
    {
      hide Reading;
      read := 0;
      lo := 0;
      while true
        invariant read <= p.Length && Reading(p, start, before, read, original, lo)
        decreases fileLength - offset, |buf|, p.Length - read
      {
        var n, again;
        n, status, again, lo := Round(p, read, start, before, original, lo);
        read := read + n;
        if status != More {
          return;
        }
        if again {
          continue;
        }
        if read >= p.Length {
          break;
        }
      }
    }

    lemma Delivers(shown: Data, start: int, read: nat, original: Data)
      requires Shows(shown, start, read, original)
      ensures 0 <= start && start + read <= |data| && read <= |original|
      ensures shown == data[start..start + read] + original[read..]
    {}

    lemma Consumed(before: int, lo: nat, wanted: bool)
      requires Valid() && (wanted ==> Pos() == |data|)
      requires LookedAhead(before, lo, wanted) && 0 <= before
      ensures offset == OffsetAfter(before, Pos())
    {
      if offset != before {
        SameChunk(data, chunkSize, lo, Pos() - 1);
      }
    }

    // Any offset is accepted; the buffer is dropped.  From the end counts
    // backwards, and from the current position counts from the buffered end.
    method Seek(n: int, whence: Whence) returns (position: int)
      requires Valid()
      modifies this
      ensures OverFile() && buf == [] && Pos() == offset == position
      ensures position == match whence
                          case SeekStart => n
                          case SeekCurrent => old(offset) + n
                          case SeekEnd => |data| - n
      ensures 0 <= position <= |data| ==> Valid()
    {
      buf := [];
      match whence {
        case SeekStart => offset := n;
        case SeekCurrent => offset := offset + n;
        case SeekEnd => offset := fileLength - n;
      }
      position := offset;
    }
  }

  // getChunkSize and getFileLength; None when the file has no rows.
  method NewReader(table: Table, id: Id, ghost data: Data, ghost c: nat) returns (r: Option<Reader>)
    requires c > 0 && RowsOf(table.rows, id) == AllSlices(id, data, c)
    ensures r.Some? <==> data != []
    ensures r.Some? ==> fresh(r.value) && r.value.Valid() && r.value.Pos() == 0
    ensures r.Some? ==> r.value.table == table && r.value.data == data
  {
    var rows := RowsOf(table.rows, id);
    NoRows(id, data, c);
    var first := FirstRow(rows);
    if first.None? {
      return None;
    }
    var chunkSize := |first.value.chunk|;
    var last := LastRow(rows);
    SizesAgree(table.rows, id, data, c);
    var reader := new Reader(table, id, chunkSize, chunkSize * last.value.index + |last.value.chunk|, data, c);
    r := Some(reader);
  }

  lemma NoRows(id: Id, data: Data, c: nat)
    requires c > 0
    ensures AllSlices(id, data, c) == [] <==> data == []
  {}

  // Reads to the end with buffers of any sizes: what comes out is the rest of
  // the file.
  method Drain(r: Reader, size: nat -> nat) returns (out: Data)
    requires r.Valid() && forall i :: size(i) > 0
    modifies r
    ensures r.Valid() && out == r.data[old(r.Pos())..]
  {
    hide Stored;
    out := [];
    var i := 0;
    while true
      invariant r.Valid() && old(r.Pos()) <= r.Pos() && out == r.data[old(r.Pos())..r.Pos()]
      decreases |r.data| - r.Pos()
    {
      var p := new Byte[size(i)](_ => 0);
      ghost var start := r.Pos();
      var read, status := r.Read(p);
      assert p[..read] == r.data[start..start + read];
      out := out + p[..read];
      i := i + 1;
      if status != More {
        break;
      }
    }
  }

  // Upload, then download: whatever the split, the chunk size and the reads, an
  // upload without a fault succeeds, and a non-empty file is delivered unchanged.
  method RoundTrip(table: Table, id: Id, chunkSize: nat, parts: seq<Data>, size: nat -> nat)
    returns (stored: bool, out: Option<Data>)
    requires chunkSize > 0 && RowsOf(table.rows, id) == [] && forall i :: size(i) > 0
    modifies table
    ensures OnlyAdds(old(table.rows), table.rows, id)
    ensures stored <==> table.faults == old(table.faults)
    ensures stored ==> out == if Concat(parts) == [] then None else Some(Concat(parts))
  {
    hide AllSlices, RowsOf, Concat;
    stored := StoreFile(table, id, chunkSize, parts);
    out := None;
    if stored {
      var r := NewReader(table, id, Concat(parts), chunkSize);
      if r.Some? {
        var bytes := Drain(r.value, size);
        out := Some(bytes);
      }
    }
  }

  // ---------- The reader refines a cursor over the file ----------

  datatype Op = ReadOp(len: nat) | SeekOp(n: int, whence: Whence)

  datatype Output = Bytes(bytes: Data, atEnd: bool) | Position(position: int)

  // Two numbers replace the buffer: what was consumed, and how far the reader
  // has looked ahead, which only a seek from the current position can tell.
  datatype Cursor = Cursor(pos: int, ahead: int)

  predicate InFile(d: Data, cur: Cursor) { 0 <= cur.pos <= cur.ahead <= |d| }

  function StepCursor(d: Data, k: nat, cur: Cursor, op: Op): Cursor
    requires k > 0 && InFile(d, cur)
  {
    match op
    case ReadOp(len) =>
      var pos := cur.pos + Smaller(len, |d| - cur.pos);
      Cursor(pos, if pos <= cur.ahead then cur.ahead else ChunkEnd(d, k, pos - 1))
    case SeekOp(n, whence) =>
      var pos := match whence
                 case SeekStart => n
                 case SeekCurrent => cur.ahead + n
                 case SeekEnd => |d| - n;
      Cursor(pos, pos)
  }

  function StepOutput(d: Data, k: nat, cur: Cursor, op: Op): Output
    requires k > 0 && InFile(d, cur)
  {
    match op
    case ReadOp(len) =>
      Bytes(d[cur.pos..cur.pos + Smaller(len, |d| - cur.pos)], cur.pos + len > |d|)
    case SeekOp(_, _) => Position(StepCursor(d, k, cur, op).pos)
  }

  // Every seek lands inside the file.
  predicate InRange(d: Data, k: nat, cur: Cursor, ops: seq<Op>)
    requires k > 0 && InFile(d, cur)
    decreases |ops|
  {
    ops == [] ||
    (InFile(d, StepCursor(d, k, cur, ops[0])) && InRange(d, k, StepCursor(d, k, cur, ops[0]), ops[1..]))
  }

  function Outputs(d: Data, k: nat, cur: Cursor, ops: seq<Op>): seq<Output>
    requires k > 0 && InFile(d, cur) && InRange(d, k, cur, ops)
    decreases |ops|
  {
    if ops == [] then []
    else [StepOutput(d, k, cur, ops[0])] + Outputs(d, k, StepCursor(d, k, cur, ops[0]), ops[1..])
  }

  method Perform(r: Reader, op: Op) returns (out: Output)
    requires r.Valid() && InFile(r.data, StepCursor(r.data, r.chunkSize, Cursor(r.Pos(), r.offset), op))
    modifies r
    ensures r.Valid()
    ensures Cursor(r.Pos(), r.offset)
         == StepCursor(r.data, r.chunkSize, Cursor(old(r.Pos()), old(r.offset)), op)
    ensures out == StepOutput(r.data, r.chunkSize, Cursor(old(r.Pos()), old(r.offset)), op)
  {
    hide Stored, ChunkEnd;
    match op {
      case ReadOp(len) =>
        var p := new Byte[len](_ => 0);
        ghost var start := r.Pos();
        var read, status := r.Read(p);
        assert p[..read] == r.data[start..start + read];
        out := Bytes(p[..read], status == Eof);
      case SeekOp(n, whence) =>
        var position := r.Seek(n, whence);
        out := Position(position);
    }
  }

  // Any run of reads and in-range seeks shows what the cursor shows.
  method PerformAll(r: Reader, ops: seq<Op>) returns (out: seq<Output>)
    requires r.Valid() && InRange(r.data, r.chunkSize, Cursor(r.Pos(), r.offset), ops)
    modifies r
    ensures r.Valid()
    ensures out == Outputs(r.data, r.chunkSize, Cursor(old(r.Pos()), old(r.offset)), ops)
    decreases |ops|
  {
    hide Stored, StepCursor, StepOutput;
    if ops == [] {
      return [];
    }
    var first := Perform(r, ops[0]);
    var rest := PerformAll(r, ops[1..]);
    out := [first] + rest;
  }

  // ---------- When a seek from the current position is relative ----------

  // The cursor after a run.
  function CursorAfter(d: Data, k: nat, cur: Cursor, ops: seq<Op>): (r: Cursor)
    requires k > 0 && InFile(d, cur) && InRange(d, k, cur, ops)
    ensures InFile(d, r)
    decreases |ops|
  {
    if ops == [] then cur else CursorAfter(d, k, StepCursor(d, k, cur, ops[0]), ops[1..])
  }

  // Whether a byte has been delivered since the last seek.
  function ByteRead(d: Data, k: nat, cur: Cursor, ops: seq<Op>, already: bool): bool
    requires k > 0 && InFile(d, cur) && InRange(d, k, cur, ops)
    decreases |ops|
  {
    if ops == [] then already
    else ByteRead(d, k, StepCursor(d, k, cur, ops[0]), ops[1..], TakesByte(d, cur, ops[0], already))
  }

  predicate TakesByte(d: Data, cur: Cursor, op: Op, already: bool) {
    op.ReadOp? && (already || (op.len > 0 && cur.pos < |d|))
  }

  // Right after a seek nothing is looked ahead; after a byte, the rest of its chunk is.
  predicate Looked(d: Data, k: nat, cur: Cursor, read: bool)
    requires k > 0 && InFile(d, cur)
  {
    if read then cur.pos > 0 && cur.ahead == ChunkEnd(d, k, cur.pos - 1) else cur.ahead == cur.pos
  }

  lemma StepLooks(d: Data, k: nat, cur: Cursor, op: Op, read: bool)
    requires k > 0 && InFile(d, cur) && Looked(d, k, cur, read) && InFile(d, StepCursor(d, k, cur, op))
    ensures Looked(d, k, StepCursor(d, k, cur, op), TakesByte(d, cur, op, read))
  {
    hide ChunkEnd;
    var next := StepCursor(d, k, cur, op);
    if op.ReadOp? && read && cur.pos < next.pos <= cur.ahead {
      SameChunk(d, k, cur.pos - 1, next.pos - 1);
    }
  }

  lemma {:induction false} RunLooks(d: Data, k: nat, cur: Cursor, ops: seq<Op>, read: bool)
    requires k > 0 && InFile(d, cur) && InRange(d, k, cur, ops) && Looked(d, k, cur, read)
    ensures Looked(d, k, CursorAfter(d, k, cur, ops), ByteRead(d, k, cur, ops, read))
    decreases |ops|
  {
    hide StepCursor, Looked, TakesByte;
    if ops != [] {
      StepLooks(d, k, cur, ops[0], read);
      RunLooks(d, k, StepCursor(d, k, cur, ops[0]), ops[1..], TakesByte(d, cur, ops[0], read));
    }
  }

  // A chunk ends at a multiple of its size, or with the file.
  lemma EndsAt(d: Data, k: nat, pos: nat)
    requires k > 0 && 0 < pos <= |d|
    ensures ChunkEnd(d, k, pos - 1) == pos <==> pos % k == 0 || pos == |d|
  {
    var q := (pos - 1) / k;
    var r := (pos - 1) % k;
    assert q * k + r == pos - 1;
    if r + 1 == k {
      DivUnique(pos, k, q + 1, 0);
    } else {
      DivUnique(pos, k, q, r + 1);
    }
  }

  // After any run of a new reader, a seek from the current position moves
  // relative to what the caller has consumed if and only if no byte was read
  // since the last seek, or the position is at a chunk boundary or at the end.
  lemma SeekCurrentExact(d: Data, k: nat, ops: seq<Op>, n: int)
    requires k > 0 && InRange(d, k, Cursor(0, 0), ops)
    ensures var cur := CursorAfter(d, k, Cursor(0, 0), ops);
            StepCursor(d, k, cur, SeekOp(n, SeekCurrent)).pos == cur.pos + n
            <==> !ByteRead(d, k, Cursor(0, 0), ops, false) || cur.pos % k == 0 || cur.pos == |d|
  {
    hide ChunkEnd;
    RunLooks(d, k, Cursor(0, 0), ops, false);
    var cur := CursorAfter(d, k, Cursor(0, 0), ops);
    if cur.pos > 0 {
      EndsAt(d, k, cur.pos);
    }
  }

  // One byte of a two-byte chunk, then a seek by zero: the position reported is 2.
  lemma SeekByZeroMoves()
    ensures var d, ops := [1, 2], [ReadOp(1), SeekOp(0, SeekCurrent)];
            && InRange(d, 2, Cursor(0, 0), ops)
            && Outputs(d, 2, Cursor(0, 0), ops) == [Bytes([1], false), Position(2)]
  {
    var d: Data, ops := [1, 2], [ReadOp(1), SeekOp(0, SeekCurrent)];
    var c1 := StepCursor(d, 2, Cursor(0, 0), ops[0]);
    assert c1 == Cursor(1, 2);
    assert StepCursor(d, 2, c1, ops[1]) == Cursor(2, 2);
    assert ops[1..] == [ops[1]] && ops[1..][1..] == [];
    assert d[0..1] == [1];
  }
}
