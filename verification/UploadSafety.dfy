/** Uploads are not transactional, yet no partial upload is ever visible: what
    every run keeps about entries and their chunks. */
module UploadSafety {
  import opened Wrappers
  import opened SeqLaws
  import opened NumberLaws
  import opened Chunks
  import opened Tables
  import opened Runs

  // An upload's rows: its full chunks, and all of them once closed.
  ghost predicate UploadOk(s: System, id: Id)
    requires id in s.uploads
  {
    var u := s.uploads[id];
    && UploadShape(s, id)
    && RowsOf(s.db.chunks, id)
       == if u.closed then AllSlices(id, u.full, u.chunkSize) else FullSlices(id, AcceptedData(u), u.chunkSize)
  }

  predicate UploadShape(s: System, id: Id)
    requires id in s.uploads
  {
    var u := s.uploads[id];
    && id in s.usedIds && id !in s.db.entries
    && u.full != [] && u.chunkSize > 0 && u.accepted <= |u.full| && (u.closed ==> u.accepted == |u.full|)
  }

  // An entry's rows: exactly the slices of the file that was uploaded.
  ghost predicate EntryOk(s: System, id: Id)
    requires id in s.db.entries
  {
    EntryShape(s, id) && RowsOf(s.db.chunks, id) == AllSlices(id, s.content[id].0, s.content[id].1)
  }

  predicate EntryShape(s: System, id: Id)
    requires id in s.db.entries
  {
    id in s.usedIds && id in s.content && s.content[id].0 != [] && s.content[id].1 > 0
  }

  ghost predicate FileOk(s: System, id: Id) {
    if id in s.uploads then UploadOk(s, id)
    else if id in s.db.entries then EntryOk(s, id)
    else id !in s.usedIds ==> RowsOf(s.db.chunks, id) == []
  }

  ghost predicate FilesOk(s: System) { forall id :: FileOk(s, id) }

  // No upload has stored a chunk that its entry does not cover yet.
  predicate NothingFlushed(s: System) {
    forall id :: id in s.uploads ==> RowsOf(s.db.chunks, id) == []
  }

  // Orphan deletion between an upload's first flush and the insert of its entry.
  predicate Loses(s: System, e: Event, id: Id) {
    e.PurgeOrphans? && id in s.uploads && RowsOf(s.db.chunks, id) != []
  }

  predicate Careful(s: System, e: Event) { e.PurgeOrphans? ==> NothingFlushed(s) }

  // ---------- One file, one step ----------

  // Adding a row for one file leaves the rows of all others alone.
  lemma OtherRows(rows: seq<Row>, r: Row, id: Id)
    ensures RowsOf(rows + [r], id) == RowsOf(rows, id) + if r.id == id then [r] else []
  {
    RowsOfSnoc(rows, r, id);
  }

  // As far as this file is concerned, nothing happened.
  ghost predicate Agree(s: System, t: System, id: Id) {
    && (id in t.uploads <==> id in s.uploads) && (id in s.uploads && id in t.uploads ==> t.uploads[id] == s.uploads[id])
    && (id in t.db.entries <==> id in s.db.entries) && (id in t.usedIds <==> id in s.usedIds)
    && (id in s.content ==> id in t.content && t.content[id] == s.content[id])
    && RowsOf(t.db.chunks, id) == RowsOf(s.db.chunks, id)
  }

  lemma AgreeKeeps(s: System, t: System, id: Id)
    requires Agree(s, t, id)
    ensures FileOk(s, id) ==> FileOk(t, id)
    ensures Lost(s, id) ==> Lost(t, id)
  {
    hide RowsOf, AllSlices, FullSlices;
  }

  // Whether a step is about one upload.
  predicate IsAbout(e: Event) { e.Begin? || e.Accept? || e.Close? || e.Commit? || e.Abort? }

  // A step about another file's upload.
  lemma UploadElsewhere(s: System, e: Event, id: Id)
    requires IsAbout(e) && e.id != id && Enabled(s, e)
    ensures Agree(s, Step(s, e), id)
  {
    hide IsActive, Pending, RowsOf;
    var t := Step(s, e);
    if t.db.chunks != s.db.chunks {
      OtherRows(s.db.chunks, t.db.chunks[|t.db.chunks| - 1], id);
    }
  }

  // A step about no upload and no rows.
  lemma OthersAgree(s: System, e: Event, id: Id)
    requires Enabled(s, e) && !IsAbout(e) && !e.Delete? && !e.PurgeExpired? && !e.PurgeOrphans?
    ensures Agree(s, Step(s, e), id)
  {
    hide IsActive, Pending, RowsOf, Admins, DropOlder;
  }

  // Deleting entries takes their rows along.
  lemma DropStep(s: System, t: System, gone: set<Id>, id: Id)
    requires t == s.(db := s.db.(entries := s.db.entries - gone, chunks := DropRows(s.db.chunks, gone),
                                 downloads := t.db.downloads))
    requires id in gone ==> id !in s.uploads
    ensures FileOk(s, id) ==> FileOk(t, id)
    ensures Lost(s, id) ==> Lost(t, id)
  {
    hide RowsOf, AllSlices, FullSlices, DropRows;
    DropRowsOf(s.db.chunks, gone, id);
    if id !in gone {
      AgreeKeeps(s, t, id);
    }
  }

  lemma OrphanStep(s: System, id: Id)
    ensures FileOk(s, id) && !Loses(s, PurgeOrphans, id) ==> FileOk(Step(s, PurgeOrphans), id)
    ensures Lost(s, id) ==> Lost(Step(s, PurgeOrphans), id)
  {
    hide RowsOf, AllSlices, FullSlices, KeepRows;
    var t := Step(s, PurgeOrphans);
    KeepRowsOf(s.db.chunks, s.db.entries.Keys, id);
    if RowsOf(t.db.chunks, id) == RowsOf(s.db.chunks, id) {
      AgreeKeeps(s, t, id);
    }
  }

  lemma EmptyFile(id: Id, c: nat)
    requires c > 0
    ensures FullSlices(id, [], c) == []
  {
    DivUnique(0, c, 0, 0);
  }

  lemma BeginStep(s: System, e: Event)
    requires Enabled(s, e) && e.Begin? && FileOk(s, e.id)
    ensures FileOk(Step(s, e), e.id)
  {
    hide RowsOf, FullSlices, AllSlices, IsActive;
    EmptyFile(e.id, e.chunkSize);
    var t := Step(s, e);
    assert AcceptedData(t.uploads[e.id]) == [];
  }

  lemma AcceptStep(s: System, e: Event)
    requires Enabled(s, e) && e.Accept? && FileOk(s, e.id)
    ensures FileOk(Step(s, e), e.id)
  {
    hide RowsOf, AllSlices, FullSlices, Pending;
    var u, t := s.uploads[e.id], Step(s, e);
    var c, d, piece := u.chunkSize, AcceptedData(u), u.full[u.accepted..u.accepted + e.n];
    assert AcceptedData(t.uploads[e.id]) == d + piece;
    if u.accepted % c + e.n == c {
      FullSlicesComplete(e.id, d, piece, c);
      OtherRows(s.db.chunks, Row(e.id, u.accepted / c, Pending(d, c) + piece), e.id);
    } else {
      FullSlicesPartial(e.id, d, piece, c);
    }
  }

  lemma CloseStep(s: System, e: Event)
    requires Enabled(s, e) && e.Close? && FileOk(s, e.id)
    ensures FileOk(Step(s, e), e.id)
  {
    hide RowsOf, AllSlices, FullSlices, Pending;
    var u, t := s.uploads[e.id], Step(s, e);
    assert AcceptedData(u) == u.full;
    AllSlicesLast(e.id, u.full, u.chunkSize);
    if u.accepted % u.chunkSize != 0 {
      OtherRows(s.db.chunks, Row(e.id, u.accepted / u.chunkSize, Pending(u.full, u.chunkSize)), e.id);
    }
  }

  // Every step keeps every file as it should be, unless orphan deletion falls
  // between its first flush and the insert of its entry.
  lemma FileStep(s: System, e: Event, id: Id)
    requires FileOk(s, id) && Enabled(s, e) && !Loses(s, e, id)
    ensures FileOk(Step(s, e), id)
  {
    hide RowsOf, AllSlices, FullSlices, Pending, IsActive, DropRows, KeepRows, FileOk, Lost, Agree;
    var t := Step(s, e);
    if IsAbout(e) {
      if e.id == id {
        AboutStep(s, e);
      } else {
        UploadElsewhere(s, e, id);
        AgreeKeeps(s, t, id);
      }
    } else {
      match e
      case Delete(gone) => DropStep(s, t, {gone}, id);
      case PurgeExpired(now) =>
        NotExpired(s, id, now);
        DropStep(s, t, ExpiredIds(s.db, now), id);
      case PurgeOrphans => OrphanStep(s, id);
      case _ =>
        OthersAgree(s, e, id);
        AgreeKeeps(s, t, id);
    }
  }

  lemma NotExpired(s: System, id: Id, now: Time)
    requires FileOk(s, id) || Lost(s, id)
    ensures id in ExpiredIds(s.db, now) ==> id !in s.uploads
  {}

  lemma AboutStep(s: System, e: Event)
    requires IsAbout(e) && Enabled(s, e) && FileOk(s, e.id)
    ensures FileOk(Step(s, e), e.id)
  {
    hide RowsOf, AllSlices, FullSlices, Pending, IsActive;
    match e
    case Begin(_, _, _, _, _, _) => BeginStep(s, e);
    case Accept(_, _) => AcceptStep(s, e);
    case Close(_) => CloseStep(s, e);
    case _ =>
  }

  // ---------- What an ill-timed orphan deletion does ----------

  // The first row is gone, and what the upload may still add comes after it.
  ghost predicate Lost(s: System, id: Id) {
    && id in s.usedIds && NoFirst(RowsOf(s.db.chunks, id))
    && (id in s.uploads ==>
          var u := s.uploads[id]; UploadShape(s, id) && (u.closed || u.accepted / u.chunkSize > 0))
    && (id in s.db.entries ==> EntryShape(s, id))
  }

  predicate NoFirst(rows: seq<Row>) { forall r :: r in rows ==> r.index != 0 }

  lemma LostNow(s: System, id: Id)
    requires FileOk(s, id) && Loses(s, PurgeOrphans, id)
    ensures Lost(Step(s, PurgeOrphans), id)
  {
    hide RowsOf, KeepRows;
    KeepRowsOf(s.db.chunks, s.db.entries.Keys, id);
    var u := s.uploads[id];
    Flushed(id, AcceptedData(u), u.chunkSize);
  }

  lemma Flushed(id: Id, d: Data, c: nat)
    requires c > 0
    ensures FullSlices(id, d, c) != [] ==> |d| / c > 0
  {
    var rows := FullSlices(id, d, c);
    if rows != [] { FullSlicesIndex(id, d, c, rows[0]); }
  }

  lemma LostAbout(s: System, e: Event)
    requires IsAbout(e) && Enabled(s, e) && Lost(s, e.id)
    ensures Lost(Step(s, e), e.id)
  {
    hide RowsOf, AllSlices, FullSlices, Pending, IsActive;
    if e.Accept? || e.Close? {
      var u, t := s.uploads[e.id], Step(s, e);
      if t.db.chunks != s.db.chunks {
        OtherRows(s.db.chunks, t.db.chunks[|t.db.chunks| - 1], e.id);
      }
      if e.Accept? { DivMonotone(u.accepted, u.accepted + e.n, u.chunkSize); }
    }
  }

  // What is lost stays lost.
  lemma LostStep(s: System, e: Event, id: Id)
    requires Lost(s, id) && Enabled(s, e)
    ensures Lost(Step(s, e), id)
  {
    hide RowsOf, AllSlices, FullSlices, Pending, IsActive, DropRows, KeepRows, FileOk, Lost, Agree;
    var t := Step(s, e);
    if IsAbout(e) {
      if e.id == id {
        LostAbout(s, e);
      } else {
        UploadElsewhere(s, e, id);
        AgreeKeeps(s, t, id);
      }
    } else {
      match e
      case Delete(gone) => DropStep(s, t, {gone}, id);
      case PurgeExpired(now) =>
        NotExpired(s, id, now);
        DropStep(s, t, ExpiredIds(s.db, now), id);
      case PurgeOrphans => OrphanStep(s, id);
      case _ =>
        OthersAgree(s, e, id);
        AgreeKeeps(s, t, id);
    }
  }

  // ---------- Whole runs ----------

  // No orphan deletion of the run takes a row of this file's upload.
  ghost predicate Unharmed(s: System, events: seq<Event>, id: Id)
    requires IsRun(s, events)
    decreases |events|
  {
    events == [] || (!Loses(s, events[0], id) && Unharmed(Step(s, events[0]), events[1..], id))
  }

  lemma {:induction false} RunFile(s: System, events: seq<Event>, id: Id)
    requires FileOk(s, id) && IsRun(s, events)
    ensures if Unharmed(s, events, id) then FileOk(Run(s, events), id) else Lost(Run(s, events), id)
    decreases |events|
  {
    hide FileOk, Lost, Step, Enabled, Loses;
    if events != [] {
      if Loses(s, events[0], id) {
        LosesPurges(s, events[0], id);
        LostNow(s, id);
        RunLost(Step(s, events[0]), events[1..], id);
      } else {
        FileStep(s, events[0], id);
        RunFile(Step(s, events[0]), events[1..], id);
      }
    }
  }

  lemma LosesPurges(s: System, e: Event, id: Id)
    requires Loses(s, e, id)
    ensures e == PurgeOrphans
  {}

  lemma {:induction false} RunLost(s: System, events: seq<Event>, id: Id)
    requires Lost(s, id) && IsRun(s, events)
    ensures Lost(Run(s, events), id)
    decreases |events|
  {
    hide Lost, Step, Enabled;
    if events != [] {
      LostStep(s, events[0], id);
      RunLost(Step(s, events[0]), events[1..], id);
    }
  }

  lemma NothingYet(id: Id)
    ensures FileOk(EMPTY, id)
  {}

  // In every run from the empty store, an entry has exactly the chunk sequence
  // of the whole file that was uploaded if and only if no orphan deletion fell
  // between its first flush and its insert.
  lemma CompleteExactly(events: seq<Event>, id: Id)
    requires IsRun(EMPTY, events) && id in Run(EMPTY, events).db.entries
    ensures var s := Run(EMPTY, events);
            && id in s.content && s.content[id].0 != [] && s.content[id].1 > 0
            && (RowsOf(s.db.chunks, id) == AllSlices(id, s.content[id].0, s.content[id].1)
                <==> Unharmed(EMPTY, events, id))
  {
    hide IsRun, Run, Unharmed, RowsOf, AllSlices;
    NothingYet(id);
    RunFile(EMPTY, events, id);
    UploadGone(Run(EMPTY, events), id);
    var s := Run(EMPTY, events);
    var (d, c) := s.content[id];
    FirstSlice(id, d, c);
  }

  lemma UploadGone(s: System, id: Id)
    requires (FileOk(s, id) || Lost(s, id)) && id in s.db.entries
    ensures id !in s.uploads
  {}

  lemma FirstSlice(id: Id, d: Data, c: nat)
    requires d != [] && c > 0
    ensures !NoFirst(AllSlices(id, d, c))
  {
    var n := ChunkCount(|d|, c);
    SliceAt(id, d, c, n, 0);
    assert AllSlices(id, d, c)[0] in AllSlices(id, d, c);
  }

  // Such an entry is visible, and is reported with its file's size.
  lemma EveryEntryComplete(events: seq<Event>, id: Id)
    requires IsRun(EMPTY, events) && Unharmed(EMPTY, events, id)
    requires id in Run(EMPTY, events).db.entries
    ensures var s := Run(EMPTY, events);
            && id in s.content && s.content[id].0 != [] && s.content[id].1 > 0
            && RowsOf(s.db.chunks, id) == AllSlices(id, s.content[id].0, s.content[id].1)
            && TotalLength(RowsOf(s.db.chunks, id)) == |s.content[id].0|
            && Visible(s.db, id)
  {
    hide IsRun, Run, Unharmed, RowsOf;
    CompleteExactly(events, id);
    var s := Run(EMPTY, events);
    var (d, c) := s.content[id];
    SlicesTotal(id, d, c, ChunkCount(|d|, c));
  }

  // No upload in progress is ever visible.
  lemma NoPartialVisible(events: seq<Event>, id: Id)
    requires IsRun(EMPTY, events) && id in Run(EMPTY, events).uploads
    ensures !Visible(Run(EMPTY, events).db, id)
  {
    hide IsRun, Run, Unharmed, RowsOf;
    NothingYet(id);
    RunFile(EMPTY, events, id);
  }

  lemma StepKeeps(s: System, e: Event)
    requires FilesOk(s) && Enabled(s, e) && Careful(s, e)
    ensures FilesOk(Step(s, e))
  {
    hide FileOk, Step, Enabled, RowsOf;
    forall id ensures FileOk(Step(s, e), id) {
      FileStep(s, e, id);
    }
  }

  // With no upload in flight, orphan deletion is always well timed, and leaves
  // no chunk without an entry.
  lemma QuietPurgeCleans(s: System, i: nat)
    requires s.uploads == map[]
    requires i < |Step(s, PurgeOrphans).db.chunks|
    ensures Careful(s, PurgeOrphans)
    ensures Step(s, PurgeOrphans).db.chunks[i].id in Step(s, PurgeOrphans).db.entries
  {
    KeepRowsMember(s.db.chunks, s.db.entries.Keys, Step(s, PurgeOrphans).db.chunks[i]);
  }

  // The timing condition is exact: orphan deletion keeps what every run keeps
  // if and only if no upload has flushed a chunk.
  lemma OrphanDeletionExact(s: System)
    requires FilesOk(s)
    ensures FilesOk(Step(s, PurgeOrphans)) <==> NothingFlushed(s)
  {
    if NothingFlushed(s) {
      StepKeeps(s, PurgeOrphans);
    } else {
      var id :| id in s.uploads && RowsOf(s.db.chunks, id) != [];
      var t := Step(s, PurgeOrphans);
      assert FileOk(s, id);
      KeepRowsOf(s.db.chunks, s.db.entries.Keys, id);
      assert !FileOk(t, id);
    }
  }

  // In chunks of one byte every accepted byte is a row.
  lemma OneByteChunk(s: System, id: Id)
    requires Enabled(s, Accept(id, 1)) && s.uploads[id].chunkSize == 1
    ensures var u := s.uploads[id];
            Step(s, Accept(id, 1)) == s.(
              db := AddRow(s.db, Row(id, u.accepted, [u.full[u.accepted]])),
              uploads := s.uploads[id := u.(accepted := u.accepted + 1)])
  {
    var u := s.uploads[id];
    assert u.accepted % 1 == 0 && u.accepted / 1 == u.accepted;
    assert Pending(AcceptedData(u), 1) == [];
    assert [] + [u.full[u.accepted]] == [u.full[u.accepted]];
    assert u.full[u.accepted..u.accepted + 1] == [u.full[u.accepted]];
  }

  // What goes wrong otherwise: a two-byte file in chunks of one byte, the purge
  // after the first flush.
  function HarmfulEvents(meta: Metadata, now: Time, expires: Time): seq<Event> {
    [Begin("a", [1, 2], 1, None, Some(1), now), Accept("a", 1), PurgeOrphans,
     Accept("a", 1), Close("a"), Commit("a", meta, now, expires)]
  }

  // The first user's upload becomes visible with its first byte gone.
  lemma IllTimedPurge(meta: Metadata, now: Time, expires: Time)
    requires now >= EARLIEST && expires >= EARLIEST
    ensures var events := [FirstUser(now)] + HarmfulEvents(meta, now, expires);
            && IsRun(EMPTY, events)
            && Run(EMPTY, events).db.entries.Keys == {"a"}
            && Run(EMPTY, events).db.chunks == [Row("a", 1, [2])]
  {
    hide IsRun, Run, Step, HarmfulEvents;
    var events := [FirstUser(now)] + HarmfulEvents(meta, now, expires);
    FirstUserAdded(now);
    Harmed(Step(EMPTY, FirstUser(now)), meta, now, expires);
    assert events[1..] == HarmfulEvents(meta, now, expires);
    RunStep(EMPTY, Step(EMPTY, FirstUser(now)), events);
  }

  lemma Harmed(s0: System, meta: Metadata, now: Time, expires: Time)
    requires now >= EARLIEST && expires >= EARLIEST
    requires s0.uploads == map[] && s0.db.entries == map[] && s0.db.chunks == [] && s0.usedIds == {}
    ensures var events := HarmfulEvents(meta, now, expires);
            && IsRun(s0, events)
            && Run(s0, events).db.entries.Keys == {"a"}
            && Run(s0, events).db.chunks == [Row("a", 1, [2])]
  {
    hide IsRun, Run, Pending, RowsOf;
    var events := HarmfulEvents(meta, now, expires);
    var s1 := Step(s0, events[0]);
    OneByteChunk(s1, "a");
    var s2 := Step(s1, events[1]);
    LoneOrphan(s2, Row("a", 0, [1]));
    var s3 := Step(s2, events[2]);
    OneByteChunk(s3, "a");
    var s4 := Step(s3, events[3]);
    FinishUpload(s4, meta, now, expires, events[4..]);
    RunStep(s0, s1, events);
    RunStep(s1, s2, events[1..]);
    RunStep(s2, s3, events[2..]);
    RunStep(s3, s4, events[3..]);
  }

  lemma LoneOrphan(s: System, r: Row)
    requires s.db.chunks == [] + [r] && s.db.entries == map[]
    ensures Step(s, PurgeOrphans) == s.(db := s.db.(chunks := []))
  {
    assert s.db.chunks[..0] == [];
    assert KeepRows(s.db.chunks, s.db.entries.Keys) == [];
  }

  lemma FinishUpload(s: System, meta: Metadata, now: Time, expires: Time, events: seq<Event>)
    requires now >= EARLIEST && expires >= EARLIEST
    requires s.uploads.Keys == {"a"} && s.db.entries == map[]
    requires s.uploads["a"].chunkSize == 1 && !s.uploads["a"].closed
    requires s.uploads["a"].accepted == |s.uploads["a"].full|
    requires events == [Close("a"), Commit("a", meta, now, expires)]
    ensures IsRun(s, events) && Run(s, events).db.entries.Keys == {"a"} && Run(s, events).db.chunks == s.db.chunks
  {
    hide Pending, RowsOf;
    var n := s.uploads["a"].accepted;
    assert n % 1 == 0;
    var t := Step(s, events[0]);
    var last := Step(t, events[1]);
    assert events[1..][1..] == [];
    assert IsRun(last, []) && Run(last, []) == last;
    RunStep(t, last, events[1..]);
    RunStep(s, t, events);
  }
}
