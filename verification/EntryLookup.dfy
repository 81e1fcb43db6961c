/** Whether the entries a run leaves behind can be looked up: an entry whose
    guest link is gone cannot. */
module EntryLookup {
  import opened Wrappers
  import opened Chunks
  import opened Tables
  import opened Runs
  import UploadSafety
  import Ownership

  // Every entry's link is there.
  ghost predicate LinksOk(s: System) {
    forall id :: id in s.db.entries && s.db.entries[id].link.Some? ==> s.db.entries[id].link.value in s.db.links
  }

  // A guest's entry is inserted while its link is there.
  predicate LinkPresent(s: System, e: Event) {
    e.Commit? && e.id in s.uploads && s.uploads[e.id].link.Some? ==> s.uploads[e.id].link.value in s.db.links
  }

  // No step but the insert of a guest's entry can leave an entry without its
  // link: deleting a link clears it from the entries first.
  lemma StepExact(s: System, e: Event)
    requires LinksOk(s) && Enabled(s, e)
    ensures LinksOk(Step(s, e)) <==> LinkPresent(s, e)
  {
    hide IsActive, DropRows, KeepRows, DropDownloads, DropOlder, Pending;
    var t := Step(s, e);
    if e.Commit? {
      hide LinkPresent;
      CommitExact(s, e);
    } else {
      OthersKeep(s, e);
    }
  }

  lemma CommitExact(s: System, e: Event)
    requires LinksOk(s) && Enabled(s, e) && e.Commit?
    ensures LinksOk(Step(s, e)) <==> LinkPresent(s, e)
  {
    var t := Step(s, e);
    assert t.db.entries[e.id].link == s.uploads[e.id].link;
    assert forall id :: id in t.db.entries && id != e.id ==> t.db.entries[id] == s.db.entries[id];
  }

  lemma OthersKeep(s: System, e: Event)
    requires LinksOk(s) && Enabled(s, e) && !e.Commit?
    ensures LinksOk(Step(s, e))
  {
    hide IsActive, DropRows, KeepRows, DropDownloads, DropOlder, Pending, Admins;
    var t := Step(s, e);
    if e.Login? {
      LoginLinks(s, e);
    }
  }

  lemma LoginLinks(s: System, e: Event)
    requires e.Login? && Enabled(s, e)
    ensures var t := Step(s, e);
            t.db.links.Keys == s.db.links.Keys && t.db.entries.Keys == s.db.entries.Keys
            && forall id :: id in t.db.entries ==> t.db.entries[id].link == s.db.entries[id].link
  {
    hide NewUser;
    NewUserLinks(s.db, e.newId, e.subject, e.username, e.now);
  }

  lemma NewUserLinks(db: Db, id: UserId, subject: string, username: string, now: Time)
    ensures var after := NewUser(db, id, subject, username, now);
            after.links.Keys == db.links.Keys && after.entries.Keys == db.entries.Keys
            && forall id :: id in after.entries ==> after.entries[id].link == db.entries[id].link
  {}

  ghost predicate LinkedRun(s: System, events: seq<Event>)
    requires IsRun(s, events)
    decreases |events|
  {
    events == [] || (LinkPresent(s, events[0]) && LinkedRun(Step(s, events[0]), events[1..]))
  }

  lemma {:induction false} RunKeeps(s: System, events: seq<Event>)
    requires LinksOk(s) && IsRun(s, events) && LinkedRun(s, events)
    ensures LinksOk(Run(s, events))
    decreases |events|
  {
    hide LinksOk, Step, Enabled, LinkPresent;
    if events != [] {
      StepExact(s, events[0]);
      RunKeeps(Step(s, events[0]), events[1..]);
    }
  }

  // In every run in which guests' entries find their link, looking up an entry
  // finds it, with the size of the file that was uploaded.
  lemma EveryEntryFound(events: seq<Event>, id: Id)
    requires IsRun(EMPTY, events) && LinkedRun(EMPTY, events) && UploadSafety.Unharmed(EMPTY, events, id)
    requires id in Run(EMPTY, events).db.entries
    ensures var s := Run(EMPTY, events);
            id in s.content &&
            LookUp(s.db, id) == Found(s.db.entries[id], |s.content[id].0|)
  {
    hide IsRun, Run, LinkedRun, UploadSafety.Unharmed, AllSlices, RowsOf;
    RunKeeps(EMPTY, events);
    UploadSafety.EveryEntryComplete(events, id);
  }

  // A link deleted while its upload is under way leaves an entry that exists,
  // with all its chunks, and cannot be looked up.
  lemma DeletedLinkHidesEntry(s: System, e: Event)
    requires Enabled(s, e) && e.Commit? && RowsOf(s.db.chunks, e.id) != []
    ensures LookUp(Step(s, e).db, e.id) == LinkNotFound <==> !LinkPresent(s, e)
  {
    var t := Step(s, e);
    assert t.db.entries[e.id].link == s.uploads[e.id].link;
  }

  // ---------- A run that loses the link ----------

  const USER_ROW: Link := Link(Some(1), None, false, None)

  function LosingRun(meta: Metadata, now: Time, expires: Time): seq<Event> {
    [FirstUser(now), CreateLink("l", USER_ROW), Begin("a", [1], 1, Some("l"), None, now),
     Accept("a", 1), Close("a"), RemoveLink("l"), Commit("a", meta, now, expires)]
  }

  // A user logs in and makes a link; a guest starts an upload on it; the link is
  // deleted; the upload finishes.  Its entry is complete, belongs to nobody
  // although there is a user, and cannot be looked up.
  lemma LinkLost(meta: Metadata, now: Time, expires: Time)
    requires now >= EARLIEST && expires >= EARLIEST
    ensures IsRun(EMPTY, LosingRun(meta, now, expires))
    ensures var s := Run(EMPTY, LosingRun(meta, now, expires));
            && s.db.users != map[] && "a" in s.db.entries && s.db.entries["a"].owner == None
            && s.db.chunks == [Row("a", 0, [1])] && LookUp(s.db, "a") == LinkNotFound
            && !Ownership.OwnersOk(s)
  {
    hide IsRun, Run, Pending, DropRows, RowsOf, LookUp, Ownership.OwnersOk, KnownUser;
    var ev := LosingRun(meta, now, expires);
    var s1 := Step(EMPTY, ev[0]);
    FirstUserAdded(now);
    var s2 := Step(s1, ev[1]);
    var s3 := Step(s2, ev[2]);
    UploadSafety.OneByteChunk(s3, "a");
    var s4 := Step(s3, ev[3]);
    FinishLost(s4, meta, now, expires, ev[4..]);
    RunStep(s3, s4, ev[3..]);
    RunStep(s2, s3, ev[2..]);
    RunStep(s1, s2, ev[1..]);
    RunStep(EMPTY, s1, ev);
  }

  lemma FinishLost(s: System, meta: Metadata, now: Time, expires: Time, ev: seq<Event>)
    requires now >= EARLIEST && expires >= EARLIEST
    requires s.uploads == map["a" := Upload([1], 1, 1, false, Some("l"), None)]
    requires s.db.entries == map[] && s.db.chunks == [Row("a", 0, [1])] && s.db.users.Keys == {1}
    requires ev == [Close("a"), RemoveLink("l"), Commit("a", meta, now, expires)]
    ensures IsRun(s, ev)
    ensures var t := Run(s, ev);
            && t.db.users != map[] && "a" in t.db.entries && t.db.entries["a"].owner == None
            && t.db.chunks == [Row("a", 0, [1])] && LookUp(t.db, "a") == LinkNotFound
            && !Ownership.OwnersOk(t)
  {
    hide IsRun, Run, Pending, RowsOf;
    var t1 := Step(s, ev[0]);
    var t2 := Step(t1, ev[1]);
    var t3 := Step(t2, ev[2]);
    assert ev[1..][1..] == [ev[2]] && ev[1..][1..][1..] == [];
    RunNothing(t3);
    RunStep(t2, t3, ev[1..][1..]);
    RunStep(t1, t2, ev[1..]);
    RunStep(s, t1, ev);
    OneRow(t3.db.chunks);
    assert t3.db.users.Keys == {1};
    assert t3.db.entries["a"].owner == None;
  }

  lemma OneRow(rows: seq<Row>)
    requires rows == [Row("a", 0, [1])]
    ensures RowsOf(rows, "a") != []
  {
    RowsOfMember(rows, "a", rows[0]);
  }
}
