/** The upload writer: a fixed buffer that is flushed to one row per full chunk. */
module ChunkWriter {
  import opened SeqLaws
  import opened Chunks

  predicate HasRow(rows: seq<Row>, id: Id, index: nat) {
    exists i :: 0 <= i < |rows| && rows[i].id == id && rows[i].index == index
  }

  /** The table entries_data, keyed by file and chunk index. */
  class Table {
    var rows: seq<Row>
    ghost var faults: nat  // inserts that failed for reasons outside the program

    constructor ()
      ensures rows == [] && faults == 0
    {
      rows := [];
      faults := 0;
    }

    // INSERT.  It fails if the key is taken, and may fail for reasons outside
    // the program; then it stores nothing.
    method Insert(id: Id, index: nat, chunk: Data) returns (ok: bool)
      modifies this
      ensures ok <==> !HasRow(old(rows), id, index) && faults == old(faults)
      ensures faults == old(faults) || faults == old(faults) + 1
      ensures rows == if ok then old(rows) + [Row(id, index, chunk)] else old(rows)
    {
      var fault: bool := *;
      if fault {
        faults := faults + 1;
        return false;
      }
      if HasRow(rows, id, index) {
        return false;
      }
      rows := rows + [Row(id, index, chunk)];
      ok := true;
    }
  }

  // Nothing but rows of this file was added.
  ghost predicate OnlyAdds(before: seq<Row>, after: seq<Row>, id: Id) {
    && before <= after
    && forall i :: |before| <= i < |after| ==> after[i].id == id
  }

  lemma {:induction false} OthersUntouched(before: seq<Row>, after: seq<Row>, id: Id, other: Id)
    requires OnlyAdds(before, after, id) && other != id
    ensures RowsOf(after, other) == RowsOf(before, other)
  {
    if |after| > |before| {
      var shorter := after[..|after| - 1];
      assert forall i :: |before| <= i < |shorter| ==> shorter[i] == after[i];
      OthersUntouched(before, shorter, id, other);
    } else {
      assert after == before;
    }
  }

  // The rows of the full chunks leave the next index free.
  lemma NextIsFree(rows: seq<Row>, id: Id, d: Data, c: nat)
    requires c > 0 && RowsOf(rows, id) == FullSlices(id, d, c)
    ensures !HasRow(rows, id, |d| / c)
  {
    hide RowsOf, Slices;
    forall i | 0 <= i < |rows| && rows[i].id == id ensures rows[i].index != |d| / c {
      RowsOfMember(rows, id, rows[i]);
      FullSlicesIndex(id, d, c, rows[i]);
    }
  }

  lemma TakePiece(p: Data, n: nat, k: nat)
    requires n + k <= |p|
    ensures p[..n + k] == p[..n] + p[n..n + k]
  {}

  class Writer {
    const table: Table
    const id: Id
    const buf: array<Byte>
    var written: nat
    ghost var data: Data  // the bytes accepted so far

    // Full chunks are rows; the rest is at the front of the buffer.
    ghost predicate Valid()
      reads this, table, buf
    {
      && buf.Length > 0 && written == |data|
      && RowsOf(table.rows, id) == FullSlices(id, data, buf.Length)
      && buf[..|data| % buf.Length] == Pending(data, buf.Length)
    }

    constructor (table: Table, id: Id, chunkSize: nat)
      requires chunkSize > 0 && RowsOf(table.rows, id) == []
      ensures this.table == table && this.id == id && buf.Length == chunkSize && fresh(buf)
      ensures Valid() && data == []
    {
      this.table := table;
      this.id := id;
      buf := new Byte[chunkSize](_ => 0);
      written := 0;
      data := [];
    }

    method Flush(n: nat) returns (ok: bool)
      requires 0 < n <= buf.Length
      modifies table
      ensures ok <==> !HasRow(old(table.rows), id, written / buf.Length) && table.faults == old(table.faults)
      ensures table.faults == old(table.faults) || table.faults == old(table.faults) + 1
      ensures table.rows == if ok then old(table.rows) + [Row(id, written / buf.Length, buf[..n])] else old(table.rows)
    {
      ok := table.Insert(id, written / buf.Length, buf[..n]);
    }

    // Accepts n bytes: all of them, or, if storing a chunk fails, those before
    // the piece that would have completed it.
    method Write(p: Data) returns (n: nat, ok: bool)
      requires Valid()
      modifies this, table, buf
      ensures Valid() && OnlyAdds(old(table.rows), table.rows, id)
      ensures n <= |p| && data == old(data) + p[..n]
      ensures ok <==> n == |p|
      ensures table.faults == old(table.faults) + if ok then 0 else 1
    {
      hide FullSlices, RowsOf, Valid;
      n := 0;
      while n != |p|
        invariant n <= |p| && Valid() && data == old(data) + p[..n]
        invariant OnlyAdds(old(table.rows), table.rows, id) && table.faults == old(table.faults)
        decreases |p| - n
      {
        var copySize, stored := WritePiece(p, n);
        if !stored {
          return n, false;
        }
        TakePiece(p, n, copySize);
        n := n + copySize;
      }
      ok := true;
    }

    // One round of the loop: as much of p[n..] as the buffer still holds.
    method WritePiece(p: Data, n: nat) returns (copySize: nat, ok: bool)
      requires Valid() && n < |p|
      modifies this, table, buf
      ensures Valid() && OnlyAdds(old(table.rows), table.rows, id)
      ensures 0 < copySize <= |p| - n
      ensures data == if ok then old(data) + p[n..n + copySize] else old(data)
      ensures table.rows == if ok && |old(data)| % buf.Length + copySize == buf.Length
        then old(table.rows) + [Row(id, |old(data)| / buf.Length, Pending(old(data), buf.Length) + p[n..n + copySize])]
        else old(table.rows)
      ensures table.faults == old(table.faults) + if ok then 0 else 1
    {
      hide FullSlices, RowsOf, Pending, HasRow;
      var dstStart := written % buf.Length;
      copySize := Smaller(buf.Length - dstStart, |p| - n);
      var dstEnd := dstStart + copySize;
      ghost var piece := p[n..n + copySize];
      CopyIn(p, n, copySize, dstStart);
      if dstEnd == buf.Length {
        FullSlicesComplete(id, data, piece, buf.Length);
        NextIsFree(table.rows, id, data, buf.Length);
        ok := Flush(buf.Length);
        if !ok {
          return;
        }
        RowsOfSnoc(old(table.rows), table.rows[|table.rows| - 1], id);
      } else {
        FullSlicesPartial(id, data, piece, buf.Length);
      }
      written := written + copySize;
      data := data + piece;
      ok := true;
    }

    // copy(buf[dstStart:], p[n : n+copySize])
    method CopyIn(p: Data, n: nat, copySize: nat, dstStart: nat)
      requires n + copySize <= |p| && dstStart + copySize <= buf.Length
      modifies buf
      ensures buf[..dstStart] == old(buf[..dstStart])
      ensures buf[..dstStart + copySize] == old(buf[..dstStart]) + p[n..n + copySize]
    {
      for i := 0 to copySize
        invariant buf[..dstStart] == old(buf[..dstStart])
        invariant buf[dstStart..dstStart + i] == p[n..n + i]
      {
        buf[dstStart + i] := p[n + i];
      }
    }

    // Flushes what is left.  A failed close can be repeated: nothing changed.
    method Close() returns (ok: bool)
      requires Valid()
      modifies table
      ensures ok ==> RowsOf(table.rows, id) == AllSlices(id, data, buf.Length)
      ensures !ok ==> table.rows == old(table.rows) && |data| % buf.Length != 0
      ensures ok ==> table.rows == if |data| % buf.Length == 0 then old(table.rows)
        else old(table.rows) + [Row(id, |data| / buf.Length, Pending(data, buf.Length))]
      ensures OnlyAdds(old(table.rows), table.rows, id)
      ensures table.faults == old(table.faults) + if ok then 0 else 1
    {
      hide FullSlices, AllSlices, Pending, RowsOf, HasRow;
      NextIsFree(table.rows, id, data, buf.Length);
      AllSlicesLast(id, data, buf.Length);
      var unflushed := written % buf.Length;
      if unflushed != 0 {
        ok := Flush(unflushed);
        if ok {
          RowsOfSnoc(old(table.rows), table.rows[|table.rows| - 1], id);
        }
        return;
      }
      ok := true;
    }
  }

  // ---------- Any split, any pattern of failures ----------

  function Concat(parts: seq<Data>): Data {
    if parts == [] then [] else Concat(parts[..|parts| - 1]) + parts[|parts| - 1]
  }

  // Offers the rest of p again after each failure, up to a number of attempts.
  // Whatever fails on the way, the writer is where a run without failures on
  // the accepted bytes would be; and more attempts than faults accept all of p.
  method WriteResuming(w: Writer, p: Data, attempts: nat) returns (n: nat)
    requires w.Valid()
    modifies w, w.table, w.buf
    ensures w.Valid() && OnlyAdds(old(w.table.rows), w.table.rows, w.id)
    ensures n <= |p| && w.data == old(w.data) + p[..n]
    ensures n < |p| ==> w.table.faults >= old(w.table.faults) + attempts
  {
    n := 0;
    for i := 0 to attempts
      invariant n <= |p| && w.Valid() && w.data == old(w.data) + p[..n]
      invariant w.table.faults >= old(w.table.faults)
      invariant n < |p| ==> w.table.faults >= old(w.table.faults) + i
      invariant OnlyAdds(old(w.table.rows), w.table.rows, w.id)
    {
      var k, ok := w.Write(p[n..]);
      assert p[..n] + p[n..][..k] == p[..n + k];
      n := n + k;
    }
  }

  // io.Copy into the writer, then Close: the upload half of InsertEntry.
  method StoreFile(table: Table, id: Id, chunkSize: nat, parts: seq<Data>) returns (ok: bool)
    requires chunkSize > 0 && RowsOf(table.rows, id) == []
    modifies table
    ensures OnlyAdds(old(table.rows), table.rows, id)
    ensures ok ==> RowsOf(table.rows, id) == AllSlices(id, Concat(parts), chunkSize)
    ensures ok <==> table.faults == old(table.faults)
  {
    var w := new Writer(table, id, chunkSize);
    for i := 0 to |parts|
      invariant w.Valid() && fresh(w) && fresh(w.buf) && w.table == table && w.id == id && w.buf.Length == chunkSize
      invariant w.data == Concat(parts[..i])
      invariant OnlyAdds(old(table.rows), table.rows, id) && table.faults == old(table.faults)
    {
      var n, written := w.Write(parts[i]);
      if !written {
        return false;
      }
      assert parts[..i + 1][..i] == parts[..i];
    }
    assert parts[..|parts|] == parts;
    ok := w.Close();
  }
}
