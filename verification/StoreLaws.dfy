/** What a caller of one store operation can rely on: what it changes, what it
    leaves alone, and what later queries answer. */
module StoreLaws {
  import opened Wrappers
  import opened SetLaws
  import opened Chunks
  import opened Tables

  // ---------- Entries ----------

  // How often a download is recorded.
  function Recorded(ds: seq<Download>, d: Download): nat { multiset(ds)[d] }

  lemma RecordedSnoc(ds: seq<Download>, last: Download, d: Download)
    ensures Recorded(ds + [last], d) == Recorded(ds, d) + if last == d then 1 else 0
  {}

  lemma {:induction false} DroppedDownloads(ds: seq<Download>, ids: set<Id>, d: Download)
    ensures Recorded(DropDownloads(ds, ids), d) == if d.entry in ids then 0 else Recorded(ds, d)
  {
    if ds != [] {
      var front, last := ds[..|ds| - 1], ds[|ds| - 1];
      assert ds == front + [last];
      DroppedDownloads(front, ids, d);
      RecordedSnoc(front, last, d);
      RecordedSnoc(DropDownloads(front, ids), last, d);
    }
  }

  // Deleting old history takes every record from before the cutoff and keeps
  // every other as often as it was there.
  lemma {:induction false} OlderDropped(ds: seq<Download>, cutoff: Time, d: Download)
    ensures Recorded(DropOlder(ds, cutoff), d) == if d.time < cutoff then 0 else Recorded(ds, d)
  {
    if ds != [] {
      var front, last := ds[..|ds| - 1], ds[|ds| - 1];
      assert ds == front + [last];
      OlderDropped(front, cutoff, d);
      RecordedSnoc(front, last, d);
      RecordedSnoc(DropOlder(front, cutoff), last, d);
    }
  }

  // A deleted entry is found no more, and nothing of it is left; every other
  // entry is found as before, and keeps its chunks and its downloads.
  lemma DeleteForgets(db: Db, id: Id, other: Id, d: Download)
    ensures var after := DeleteEntry(db, id);
      && LookUp(after, id) == EntryNotFound && RowsOf(after.chunks, id) == []
      && (other != id ==>
            LookUp(after, other) == LookUp(db, other) && RowsOf(after.chunks, other) == RowsOf(db.chunks, other))
      && Recorded(after.downloads, d) == if d.entry == id then 0 else Recorded(db.downloads, d)
  {
    DropRowsOf(db.chunks, {id}, id);
    DropRowsOf(db.chunks, {id}, other);
    DroppedDownloads(db.downloads, {id}, d);
  }

  // What a lookup answers after an edit of `id`.
  function Edited(db: Db, id: Id, meta: Metadata, expires: Time, other: Id): Lookup {
    var before := LookUp(db, other);
    if other == id && before.Found? then Found(before.entry.(meta := meta, expires := expires), before.size) else before
  }

  // An edit shows in the lookup of its entry, with the size it had, and in no
  // other; and it hides or reveals nothing.
  lemma EditShown(db: Db, id: Id, meta: Metadata, expires: Time, other: Id)
    requires id in db.entries
    ensures LookUp(UpdateEntry(db, id, meta, expires).value, other) == Edited(db, id, meta, expires, other)
  {
    hide RowsOf;
  }

  // ---------- Guest links ----------

  // Deleting a link takes it out of every entry that names it: what could be
  // looked up before still can, with the same size, and an entry that was hidden
  // because this link had gone can be again.
  lemma UnlinkedFound(db: Db, link: LinkId, id: Id)
    ensures var before, after := LookUp(db, id), LookUp(DeleteLink(db, link), id);
      if Visible(db, id) && db.entries[id].link == Some(link)
      then after == Found(db.entries[id].(link := None), TotalLength(RowsOf(db.chunks, id)))
      else after == before
  {
    hide RowsOf;
  }

  // Switching a link off and on again changes nothing; as long as it is off it
  // takes no upload at any time, and all other links are as they were.
  lemma SwitchedOff(db: Db, link: LinkId, other: LinkId, now: Time)
    requires link in db.links
    ensures var off := SetDisabled(db, link, true);
      && !IsActive(off, link, now)
      && SetDisabled(off, link, db.links[link].disabled) == db
      && (other in db.links && other != link ==>
            other in off.links && IsActive(off, other, now) == IsActive(db, other, now))
  {
    var off := SetDisabled(db, link, true);
    assert SetDisabled(off, link, db.links[link].disabled).links == db.links;
    if other in db.links && other != link {
      assert EntriesOn(off, other) == EntriesOn(db, other);
    }
  }

  // ---------- Users ----------

  lemma OnlyOne<T>(s: set<T>, x: T)
    requires x in s
    ensures |s| > 1 <==> s != {x}
  {
    if |s| <= 1 {
      SubsetSize({x}, s);
      assert |s - {x}| == 0;
    }
  }

  // Revoking takes the role from this user and from nobody else, unless there
  // is no such user or no administrator would be left.
  lemma RevokeExact(db: Db, id: UserId)
    ensures var (after, r) := RevokeAdmin(db, id);
      && (r == UserNotFound <==> id !in db.users)
      && (r == LastAdmin <==> Admins(db) == {id})
      && Admins(after) == (if r == Done then Admins(db) - {id} else Admins(db))
      && (Admins(db) != {} ==> Admins(after) != {})
      && after.users.Keys == db.users.Keys
      && (forall u :: u in db.users ==> after.users[u].(isAdmin := db.users[u].isAdmin) == db.users[u])
  {
    if id in Admins(db) {
      OnlyOne(Admins(db), id);
    }
  }

  // Granting and revoking undo each other whenever both are allowed.
  lemma GrantRevoke(db: Db, id: UserId)
    requires id in db.users && Admins(db) != {}
    ensures Admins(GrantAdmin(db, id).0) == Admins(db) + {id}
    ensures id !in Admins(db) ==> RevokeAdmin(GrantAdmin(db, id).0, id) == (db, Done)
    ensures id in Admins(db) && Admins(db) != {id} ==> GrantAdmin(RevokeAdmin(db, id).0, id) == (db, Done)
  {
    var granted := GrantAdmin(db, id).0;
    OnlyOne(Admins(granted), id);
    if id !in Admins(db) {
      assert db.users[id := db.users[id].(isAdmin := true)][id := db.users[id]] == db.users;
      assert Admins(granted) != {id};
    } else {
      OnlyOne(Admins(db), id);
      assert db.users[id := db.users[id].(isAdmin := false)][id := db.users[id]] == db.users;
    }
  }
}
