/** The store: its tables as fields, each operation as the sequence of statements
    the source executes, proved against the functions of `Tables`. */
module Store {
  import opened Wrappers
  import opened Chunks
  import opened Tables
  import StoreLaws

  class Store {
    var entries: map<Id, Entry>
    var chunks: seq<Row>
    var downloads: seq<Download>
    var links: map<LinkId, Link>
    var users: map<UserId, User>
    var sessions: map<Hash, Session>

    ghost function Contents(): Db
      reads this
    {
      Db(entries, chunks, downloads, links, users, sessions)
    }

    constructor ()
      ensures Contents() == Db(map[], [], [], map[], map[], map[])
    {
      entries, chunks, downloads := map[], [], [];
      links, users, sessions := map[], map[], map[];
    }

    // ---------- Entries ----------

    method InsertEntryRow(id: Id, meta: Metadata, uploaded: Time, expires: Time,
                          link: Option<LinkId>, owner: Option<UserId>)
      returns (ok: bool)
      modifies this
      ensures ok <==> id !in old(entries)
      ensures Contents() == if ok
        then Tables.InsertEntryRow(old(Contents()), id, meta, uploaded, expires, link, owner) else old(Contents())
    {
      if id in entries {
        return false;
      }
      var ownerColumn := owner;
      if link.Some? {
        ownerColumn := if link.value in links then links[link.value].owner else None;
      }
      entries := entries[id := Entry(meta, uploaded, expires, link, ownerColumn)];
      ok := true;
    }

    method UpdateEntryMetadata(id: Id, meta: Metadata, expires: Time) returns (found: bool)
      modifies this
      ensures found <==> id in old(entries)
      ensures Contents() == if found then UpdateEntry(old(Contents()), id, meta, expires).value else old(Contents())
      ensures forall other :: LookUp(Contents(), other) == StoreLaws.Edited(old(Contents()), id, meta, expires, other)
    {
      ghost var db := Contents();
      found := id in entries;
      if found {
        entries := entries[id := entries[id].(meta := meta, expires := expires)];
        forall other ensures LookUp(Contents(), other) == StoreLaws.Edited(db, id, meta, expires, other) {
          StoreLaws.EditShown(db, id, meta, expires, other);
        }
      }
    }

    method DeleteEntry(id: Id)
      modifies this
      ensures Contents() == Tables.DeleteEntry(old(Contents()), id)
      ensures LookUp(Contents(), id) == EntryNotFound
      ensures forall other :: other != id ==> LookUp(Contents(), other) == LookUp(old(Contents()), other)
    {
      ghost var db, after := Contents(), Tables.DeleteEntry(Contents(), id);
      forall other: Id
        ensures LookUp(after, other) == if other == id then EntryNotFound else LookUp(db, other)
      {
        StoreLaws.DeleteForgets(db, id, other, Download(id, 0, ""));
      }
      downloads := DropDownloads(downloads, {id});
      chunks := DropRows(chunks, {id});
      entries := entries - {id};
    }

    // ---------- Purge ----------

    // Three statements in one transaction.  Each selects the expired entries
    // again, so the entries themselves have to go last.
    method DeleteExpiredEntries(now: Time)
      modifies this
      ensures Contents() == Tables.DeleteExpiredEntries(old(Contents()), now)
    {
      downloads := DropDownloads(downloads, set id | id in entries && entries[id].expires < now);
      chunks := DropRows(chunks, set id | id in entries && entries[id].expires < now);
      entries := entries - (set id | id in entries && entries[id].expires < now);
    }

    method DeleteOrphanedRows()
      modifies this
      ensures Contents() == DeleteOrphans(old(Contents()))
    {
      var orphans := set i | 0 <= i < |chunks| && chunks[i].id !in entries :: chunks[i].id;
      DropIsKeep(chunks, orphans, entries.Keys);
      chunks := DropRows(chunks, orphans);
    }

    method DeleteExpiredDownloadHistory(now: Time, retention: Option<nat>)
      modifies this
      ensures Contents() == DeleteOldDownloads(old(Contents()), now, retention)
    {
      if retention.None? {
        return;
      }
      var cutoff := now - retention.value * SECONDS_PER_DAY;
      downloads := DropOlder(downloads, cutoff);
    }

    method DeleteExpiredSessions(now: Time)
      modifies this
      ensures Contents() == Tables.DeleteExpiredSessions(old(Contents()), now)
    {
      sessions := map h | h in sessions && !(sessions[h].expires <= now) :: sessions[h];
    }

    method Purge(now: Time, retention: Option<nat>)
      modifies this
      ensures Contents() == Tables.Purge(old(Contents()), now, retention)
    {
      DeleteExpiredEntries(now);
      DeleteOrphanedRows();
      DeleteExpiredDownloadHistory(now, retention);
      DeleteExpiredSessions(now);
    }

    // ---------- Guest links ----------

    method InsertGuestLink(id: LinkId, link: Link) returns (ok: bool)
      modifies this
      ensures ok <==> id !in old(links)
      ensures Contents() == if ok then old(Contents()).(links := old(links)[id := link]) else old(Contents())
    {
      ok := id !in links;
      if ok {
        links := links[id := link];
      }
    }

    method DeleteGuestLink(id: LinkId)
      modifies this
      ensures Contents() == DeleteLink(old(Contents()), id)
      ensures EntriesOn(Contents(), id) == {}
      ensures forall e :: LookUp(old(Contents()), e).Found? ==>
        LookUp(Contents(), e).Found? && LookUp(Contents(), e).size == LookUp(old(Contents()), e).size
    {
      ghost var db := Contents();
      forall e ensures LookUp(db, e).Found? ==>
        LookUp(DeleteLink(db, id), e).Found? && LookUp(DeleteLink(db, id), e).size == LookUp(db, e).size
      {
        StoreLaws.UnlinkedFound(db, id, e);
      }
      entries := map e | e in entries ::
        if entries[e].link == Some(id) then entries[e].(link := None) else entries[e];
      links := links - {id};
    }

    method SetGuestLinkDisabled(id: LinkId, disabled: bool)
      modifies this
      ensures Contents() == SetDisabled(old(Contents()), id, disabled)
      ensures disabled && id in links ==> forall now :: !IsActive(Contents(), id, now)
    {
      if id in links {
        links := links[id := links[id].(disabled := disabled)];
      }
    }

    // ---------- Users ----------

    // `newId` is the row ID the database would pick for a new user.
    method RecordUserLogin(subject: string, username: string, now: Time, newId: UserId) returns (id: UserId)
      requires newId !in users
      modifies this
      ensures KnownSubject(old(Contents()), subject) ==>
        id in old(users) && old(users)[id].subject == subject
        && Contents() == ReturningUser(old(Contents()), id, username, now)
      ensures !KnownSubject(old(Contents()), subject) ==>
        id == newId && Contents() == NewUser(old(Contents()), newId, subject, username, now)
    {
      if u :| u in users && users[u].subject == subject {
        id := u;
        users := users[id := users[id].(username := username, lastLogin := now)];
      } else {
        var isAdmin := users == map[];
        id := newId;
        users := users[id := User(subject, username, isAdmin, now)];
        if isAdmin {
          entries := map e | e in entries ::
            if entries[e].owner.None? then entries[e].(owner := Some(id)) else entries[e];
          links := map l | l in links ::
            if links[l].owner.None? then links[l].(owner := Some(id)) else links[l];
        }
      }
    }

    method GrantAdmin(id: UserId) returns (r: AdminOutcome)
      modifies this
      ensures (Contents(), r) == Tables.GrantAdmin(old(Contents()), id)
      ensures r == Done <==> id in old(users)
      ensures Admins(Contents()) == Admins(old(Contents())) + if id in old(users) then {id} else {}
    {
      if id !in users {
        return UserNotFound;
      }
      users := users[id := users[id].(isAdmin := true)];
      r := Done;
    }

    // One conditional update; only when it changes nothing is the reason looked up.
    method RevokeAdmin(id: UserId) returns (r: AdminOutcome)
      modifies this
      ensures (Contents(), r) == Tables.RevokeAdmin(old(Contents()), id)
      ensures (r == UserNotFound <==> id !in old(users)) && (r == LastAdmin <==> Admins(old(Contents())) == {id})
      ensures Admins(Contents()) == Admins(old(Contents())) - if r == Done then {id} else {}
    {
      StoreLaws.RevokeExact(Contents(), id);
      var admins := set u | u in users && users[u].isAdmin;
      if id in users && users[id].isAdmin && |admins| > 1 {
        users := users[id := users[id].(isAdmin := false)];
        return Done;
      }
      if id !in users {
        return UserNotFound;
      }
      if !users[id].isAdmin {
        return Done;
      }
      r := LastAdmin;
    }

    // ---------- Sessions ----------

    method InsertSession(hash: Hash, session: Session) returns (ok: bool)
      modifies this
      ensures ok <==> hash !in old(sessions)
      ensures Contents() == if ok then old(Contents()).(sessions := old(sessions)[hash := session]) else old(Contents())
    {
      ok := hash !in sessions;
      if ok {
        sessions := sessions[hash := session];
      }
    }

    method DeleteSession(hash: Hash)
      modifies this
      ensures Contents() == old(Contents()).(sessions := old(sessions) - {hash})
      ensures forall now :: GetSessionUser(Contents(), hash, now) == None
      ensures forall other, now :: other != hash ==>
        GetSessionUser(Contents(), other, now) == GetSessionUser(old(Contents()), other, now)
    {
      sessions := sessions - {hash};
    }
  }

  // The orphan query lists the files without an entry that have chunks; dropping
  // those is keeping the files with an entry.
  lemma {:induction false} DropIsKeep(rows: seq<Row>, orphans: set<Id>, known: set<Id>)
    requires forall i :: 0 <= i < |rows| ==> (rows[i].id in orphans <==> rows[i].id !in known)
    ensures DropRows(rows, orphans) == KeepRows(rows, known)
  {
    if rows != [] {
      DropIsKeep(rows[..|rows| - 1], orphans, known);
    }
  }
}
