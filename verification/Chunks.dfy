/** The entries_data table: files cut into numbered chunk rows, and the sizes
    that queries over the rows report. */
module Chunks {
  import opened Wrappers
  import opened SeqLaws
  import opened NumberLaws

  type Id = string
  type Byte = b: int | 0 <= b < 256
  type Data = seq<Byte>

  datatype Row = Row(id: Id, index: nat, chunk: Data)

  // The rows of one file, in the order they were inserted.
  function RowsOf(rows: seq<Row>, id: Id): seq<Row> {
    if rows == [] then []
    else RowsOf(rows[..|rows| - 1], id) + if rows[|rows| - 1].id == id then [rows[|rows| - 1]] else []
  }

  lemma RowsOfSnoc(rows: seq<Row>, r: Row, id: Id)
    ensures RowsOf(rows + [r], id) == RowsOf(rows, id) + if r.id == id then [r] else []
  {
    assert (rows + [r])[..|rows|] == rows;
  }

  lemma {:induction false} RowsOfMember(rows: seq<Row>, id: Id, r: Row)
    ensures r in RowsOf(rows, id) <==> r in rows && r.id == id
  {
    if rows != [] {
      RowsOfMember(rows[..|rows| - 1], id, r);
      SplitAt(rows, |rows| - 1);
    }
  }

  // ---------- Slices of a file ----------

  function Slice(d: Data, c: nat, i: nat): Data
    requires c > 0 && i * c <= |d|
  {
    if i * c + c <= |d| then d[i * c..i * c + c] else d[i * c..]
  }

  lemma SliceStart(c: nat, n: nat, i: nat)
    requires c > 0 && i <= n / c
    ensures i * c <= n && (i < n / c ==> i * c + c <= n)
  {
    assert n / c * c <= n;
    MulMonotone(i, n / c, c);
    if i < n / c {
      MulMonotone(i + 1, n / c, c);
    }
  }

  // The first n slices, as rows numbered from 0.
  function Slices(id: Id, d: Data, c: nat, n: nat): (rows: seq<Row>)
    requires c > 0 && n * c < |d| + c
    ensures |rows| == n
  {
    if n == 0 then [] else
      assert (n - 1) * c + c == n * c;
      Slices(id, d, c, n - 1) + [Row(id, n - 1, Slice(d, c, n - 1))]
  }

  // How many chunks hold n bytes.
  function ChunkCount(n: nat, c: nat): (k: nat)
    requires c > 0
    ensures k * c < n + c && n <= k * c
  {
    assert n / c * c + n % c == n;
    if n % c == 0 then n / c else
      assert (n / c + 1) * c == n / c * c + c;
      n / c + 1
  }

  // Only the chunks that are full, while the file is being written.
  function FullSlices(id: Id, d: Data, c: nat): seq<Row>
    requires c > 0
  {
    SliceStart(c, |d|, |d| / c);
    Slices(id, d, c, |d| / c)
  }

  // The bytes after the last full chunk.
  function Pending(d: Data, c: nat): (e: Data)
    requires c > 0
    ensures |e| == |d| % c
  {
    assert |d| / c * c + |d| % c == |d|;
    d[|d| - |d| % c..]
  }

  // The whole file.
  function AllSlices(id: Id, d: Data, c: nat): seq<Row>
    requires c > 0
  {
    Slices(id, d, c, ChunkCount(|d|, c))
  }

  lemma {:induction false} SliceAt(id: Id, d: Data, c: nat, n: nat, i: nat)
    requires c > 0 && n * c < |d| + c && i < n
    ensures i * c <= |d| && Slices(id, d, c, n)[i] == Row(id, i, Slice(d, c, i))
  {
    assert (n - 1) * c + c == n * c;
    if i < n - 1 {
      SliceAt(id, d, c, n - 1, i);
    }
  }

  // Full chunks are numbered below the number of them.
  lemma FullSlicesIndex(id: Id, d: Data, c: nat, r: Row)
    requires c > 0 && r in FullSlices(id, d, c)
    ensures r.index < |d| / c
  {
    var n := |d| / c;
    var rows := FullSlices(id, d, c);
    assert rows == Slices(id, d, c, n) && n * c <= |d|;
    hide FullSlices, Slices;
    var i :| 0 <= i < |rows| && rows[i] == r;
    SliceAt(id, d, c, n, i);
  }

  // Full slices do not change when the file grows.
  lemma {:induction false} SlicesGrow(id: Id, d: Data, e: Data, c: nat, n: nat)
    requires c > 0 && n * c <= |d|
    ensures n * c <= |d + e| && Slices(id, d, c, n) == Slices(id, d + e, c, n)
  {
    if n > 0 {
      assert (n - 1) * c + c == n * c;
      SlicesGrow(id, d, e, c, n - 1);
      assert Slice(d, c, n - 1) == Slice(d + e, c, n - 1);
    }
  }

  // Bytes that do not complete a chunk leave the full slices alone.
  lemma FullSlicesPartial(id: Id, d: Data, e: Data, c: nat)
    requires c > 0 && |d| % c + |e| < c
    ensures FullSlices(id, d + e, c) == FullSlices(id, d, c)
    ensures |d + e| % c == |d| % c + |e| && Pending(d + e, c) == Pending(d, c) + e
  {
    assert |d| / c * c + |d| % c == |d|;
    DivUnique(|d| + |e|, c, |d| / c, |d| % c + |e|);
    SlicesGrow(id, d, e, c, |d| / c);
  }

  // Bytes that just complete a chunk add one row.
  lemma FullSlicesComplete(id: Id, d: Data, e: Data, c: nat)
    requires c > 0 && |d| % c + |e| == c
    ensures FullSlices(id, d + e, c)
         == FullSlices(id, d, c) + [Row(id, |d| / c, Pending(d, c) + e)]
    ensures |d + e| % c == 0 && Pending(d + e, c) == []
  {
    var q := |d| / c;
    assert q * c + |d| % c == |d|;
    assert (q + 1) * c == q * c + c;
    DivUnique(|d| + |e|, c, q + 1, 0);
    SlicesGrow(id, d, e, c, q);
    assert Slice(d + e, c, q) == d[q * c..] + e;
  }

  // Flushing the rest of the file makes its row list complete.
  lemma AllSlicesLast(id: Id, d: Data, c: nat)
    requires c > 0
    ensures |d| % c == 0 ==> AllSlices(id, d, c) == FullSlices(id, d, c)
    ensures |d| % c != 0 ==>
      AllSlices(id, d, c) == FullSlices(id, d, c) + [Row(id, |d| / c, Pending(d, c))]
  {
    var q := |d| / c;
    assert q * c + |d| % c == |d|;
    if |d| % c != 0 {
      assert (q + 1) * c == q * c + c;
      assert Slice(d, c, q) == d[q * c..];
    }
  }

  // ---------- What the size queries report ----------

  // SUM(LENGTH(chunk)).
  function TotalLength(rows: seq<Row>): nat {
    if rows == [] then 0 else TotalLength(rows[..|rows| - 1]) + |rows[|rows| - 1].chunk|
  }

  // ORDER BY chunk_index ASC LIMIT 1.
  function FirstRow(rows: seq<Row>): (r: Option<Row>)
    ensures r.None? <==> rows == []
  {
    if rows == [] then None
    else
      var r, last := FirstRow(rows[..|rows| - 1]), rows[|rows| - 1];
      if r.None? || last.index < r.value.index then Some(last) else r
  }

  // ORDER BY chunk_index DESC LIMIT 1.
  function LastRow(rows: seq<Row>): (r: Option<Row>)
    ensures r.None? <==> rows == []
  {
    if rows == [] then None
    else
      var r, last := LastRow(rows[..|rows| - 1]), rows[|rows| - 1];
      if r.None? || last.index > r.value.index then Some(last) else r
  }

  lemma {:induction false} SlicesTotal(id: Id, d: Data, c: nat, n: nat)
    requires c > 0 && n * c < |d| + c
    ensures TotalLength(Slices(id, d, c, n)) == if n * c <= |d| then n * c else |d|
  {
    if n > 0 {
      assert (n - 1) * c + c == n * c;
      SlicesTotal(id, d, c, n - 1);
      assert Slices(id, d, c, n)[..n - 1] == Slices(id, d, c, n - 1);
    }
  }

  lemma {:induction false} SlicesEnds(id: Id, d: Data, c: nat, n: nat)
    requires c > 0 && n * c < |d| + c && n > 0
    ensures FirstRow(Slices(id, d, c, n)) == Some(Row(id, 0, Slice(d, c, 0)))
    ensures (n - 1) * c <= |d| && LastRow(Slices(id, d, c, n)) == Some(Row(id, n - 1, Slice(d, c, n - 1)))
  {
    assert (n - 1) * c + c == n * c;
    assert Slices(id, d, c, n)[..n - 1] == Slices(id, d, c, n - 1);
    if n > 1 {
      SlicesEnds(id, d, c, n - 1);
    }
  }

  // A file as stored: its rows are exactly its slices, in order.
  ghost predicate Stored(rows: seq<Row>, id: Id, d: Data, c: nat) {
    c > 0 && d != [] && RowsOf(rows, id) == AllSlices(id, d, c)
  }

  function Smaller(a: nat, b: nat): nat { if a < b then a else b }

  lemma LastSlice(d: Data, c: nat, n: nat)
    requires c > 0 && d != [] && n * c < |d| + c && |d| <= n * c
    ensures n > 0 && (n - 1) * c <= |d| && (|d| < c ==> n == 1)
    ensures Smaller(c, |d|) * (n - 1) + |Slice(d, c, n - 1)| == |d|
  {
    assert (n - 1) * c + c == n * c;
    if n > 1 { MulMonotone(2, n, c); }
  }

  // The three ways to ask for a file's size agree: the sum over its rows, the
  // first row's length times the last index plus the last length, and the
  // number of bytes written.
  lemma SizesAgree(rows: seq<Row>, id: Id, d: Data, c: nat)
    requires Stored(rows, id, d, c)
    ensures TotalLength(RowsOf(rows, id)) == |d|
    ensures var first, last := FirstRow(RowsOf(rows, id)), LastRow(RowsOf(rows, id));
            && first.Some? && last.Some?
            && |first.value.chunk| == Smaller(c, |d|)
            && |first.value.chunk| * last.value.index + |last.value.chunk| == |d|
  {
    hide Slices, TotalLength, FirstRow, LastRow;
    var n := ChunkCount(|d|, c);
    SlicesTotal(id, d, c, n);
    SlicesEnds(id, d, c, n);
    LastSlice(d, c, n);
  }
}
