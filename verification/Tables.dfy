/** The database of the store as values, and each statement or transaction as a
    function on it.  Times are whole seconds, as the stored text denotes them
    (see `Timestamps`). */
module Tables {
  import opened Wrappers
  import opened Chunks
  import Calendar

  type LinkId = string
  type UserId = int
  type Hash = string
  type Time = int

  datatype Metadata = Metadata(filename: string, note: Option<string>, passphrase: Option<string>)

  datatype Entry = Entry(meta: Metadata, uploaded: Time, expires: Time, link: Option<LinkId>, owner: Option<UserId>)

  datatype Download = Download(entry: Id, time: Time, client: string)

  datatype Link = Link(owner: Option<UserId>, maxUploads: Option<int>, disabled: bool, urlExpires: Option<Time>)

  datatype User = User(subject: string, username: string, isAdmin: bool, lastLogin: Time)

  datatype Session = Session(user: UserId, expires: Time)

  datatype Db = Db(
    entries: map<Id, Entry>,
    chunks: seq<Row>,
    downloads: seq<Download>,
    links: map<LinkId, Link>,
    users: map<UserId, User>,
    sessions: map<Hash, Session>)

  // ---------- Deleting from a sequence of rows ----------

  // DELETE FROM entries_data WHERE id IN ids.
  function DropRows(rows: seq<Row>, ids: set<Id>): seq<Row> {
    if rows == [] then []
    else
      var last := rows[|rows| - 1];
      DropRows(rows[..|rows| - 1], ids) + if last.id in ids then [] else [last]
  }

  // DELETE FROM entries_data WHERE id NOT IN ids.
  function KeepRows(rows: seq<Row>, ids: set<Id>): seq<Row> {
    if rows == [] then []
    else
      var last := rows[|rows| - 1];
      KeepRows(rows[..|rows| - 1], ids) + if last.id in ids then [last] else []
  }

  // DELETE FROM downloads WHERE entry_id IN ids.
  function DropDownloads(ds: seq<Download>, ids: set<Id>): seq<Download> {
    if ds == [] then []
    else
      var last := ds[|ds| - 1];
      DropDownloads(ds[..|ds| - 1], ids) + if last.entry in ids then [] else [last]
  }

  // DELETE FROM downloads WHERE download_timestamp < cutoff.
  function DropOlder(ds: seq<Download>, cutoff: Time): seq<Download> {
    if ds == [] then []
    else
      var last := ds[|ds| - 1];
      DropOlder(ds[..|ds| - 1], cutoff) + if last.time < cutoff then [] else [last]
  }

  lemma {:induction false} DropRowsOf(rows: seq<Row>, ids: set<Id>, id: Id)
    ensures RowsOf(DropRows(rows, ids), id) == if id in ids then [] else RowsOf(rows, id)
  {
    if rows != [] {
      var n := |rows| - 1;
      DropRowsOf(rows[..n], ids, id);
      if rows[n].id !in ids {
        RowsOfSnoc(DropRows(rows[..n], ids), rows[n], id);
      } else {
        assert DropRows(rows, ids) == DropRows(rows[..n], ids);
      }
    }
  }

  lemma {:induction false} KeepRowsOf(rows: seq<Row>, ids: set<Id>, id: Id)
    ensures RowsOf(KeepRows(rows, ids), id) == if id in ids then RowsOf(rows, id) else []
  {
    if rows != [] {
      var n := |rows| - 1;
      KeepRowsOf(rows[..n], ids, id);
      if rows[n].id in ids {
        RowsOfSnoc(KeepRows(rows[..n], ids), rows[n], id);
      } else {
        assert KeepRows(rows, ids) == KeepRows(rows[..n], ids);
      }
    }
  }

  lemma {:induction false} KeepRowsMember(rows: seq<Row>, ids: set<Id>, r: Row)
    ensures r in KeepRows(rows, ids) <==> r in rows && r.id in ids
  {
    if rows != [] {
      KeepRowsMember(rows[..|rows| - 1], ids, r);
      assert rows == rows[..|rows| - 1] + [rows[|rows| - 1]];
    }
  }

  // ---------- Entries ----------

  function DeleteEntry(db: Db, id: Id): Db {
    db.(downloads := DropDownloads(db.downloads, {id}),
        chunks := DropRows(db.chunks, {id}),
        entries := db.entries - {id})
  }

  // None where the source reports that the entry does not exist.
  function UpdateEntry(db: Db, id: Id, meta: Metadata, expires: Time): Option<Db> {
    if id in db.entries then Some(db.(entries := db.entries[id := db.entries[id].(meta := meta, expires := expires)]))
    else None
  }

  // The owner column of a new entry: a guest upload takes it from the link,
  // whatever the caller passed, and gets none when the link is gone.
  function OwnerColumn(db: Db, link: Option<LinkId>, owner: Option<UserId>): Option<UserId> {
    if link.Some? then (if link.value in db.links then db.links[link.value].owner else None) else owner
  }

  function InsertEntryRow(db: Db, id: Id, meta: Metadata, uploaded: Time, expires: Time,
                          link: Option<LinkId>, owner: Option<UserId>): Db {
    db.(entries := db.entries[id := Entry(meta, uploaded, expires, link, OwnerColumn(db, link, owner))])
  }

  // Listed by the metadata queries: the inner join with the sizes hides an
  // entry without chunks.
  predicate Visible(db: Db, id: Id) { id in db.entries && RowsOf(db.chunks, id) != [] }

  datatype Lookup = Found(entry: Entry, size: nat) | EntryNotFound | LinkNotFound

  // What a download is looked up by: the entry with the sum of its chunk
  // lengths, and then its guest link, which has to be there.
  function LookUp(db: Db, id: Id): Lookup {
    if !Visible(db, id) then EntryNotFound
    else if db.entries[id].link.Some? && db.entries[id].link.value !in db.links then LinkNotFound
    else Found(db.entries[id], TotalLength(RowsOf(db.chunks, id)))
  }

  // ---------- Purge ----------

  function ExpiredIds(db: Db, now: Time): set<Id> {
    set id | id in db.entries && db.entries[id].expires < now
  }

  function DeleteExpiredEntries(db: Db, now: Time): Db {
    var expired := ExpiredIds(db, now);
    db.(downloads := DropDownloads(db.downloads, expired),
        chunks := DropRows(db.chunks, expired),
        entries := db.entries - expired)
  }

  function DeleteOrphans(db: Db): Db {
    db.(chunks := KeepRows(db.chunks, db.entries.Keys))
  }

  const SECONDS_PER_DAY := Calendar.SECONDS_PER_DAY

  // Days of history to keep; None keeps it forever.
  function DeleteOldDownloads(db: Db, now: Time, retention: Option<nat>): Db {
    if retention.None? then db
    else
      var cutoff := now - retention.value * SECONDS_PER_DAY;
      db.(downloads := DropOlder(db.downloads, cutoff))
  }

  function DeleteExpiredSessions(db: Db, now: Time): Db {
    db.(sessions := map h | h in db.sessions && !(db.sessions[h].expires <= now) :: db.sessions[h])
  }

  function Purge(db: Db, now: Time, retention: Option<nat>): Db {
    DeleteExpiredSessions(DeleteOldDownloads(DeleteOrphans(DeleteExpiredEntries(db, now)), now, retention), now)
  }

  // ---------- Sessions ----------

  function GetSessionUser(db: Db, hash: Hash, now: Time): Option<UserId> {
    if hash in db.sessions && db.sessions[hash].expires > now && db.sessions[hash].user in db.users
    then Some(db.sessions[hash].user) else None
  }

  // ---------- Guest links ----------

  function EntriesOn(db: Db, link: LinkId): set<Id> {
    set id | id in db.entries && db.entries[id].link == Some(link)
  }

  function CanAcceptMoreFiles(db: Db, link: LinkId): bool
    requires link in db.links
  {
    db.links[link].maxUploads.None? || |EntriesOn(db, link)| < db.links[link].maxUploads.value
  }

  // UrlExpires None stands for the never-expire sentinel.
  function IsActive(db: Db, link: LinkId, now: Time): bool
    requires link in db.links
  {
    var l := db.links[link];
    !(l.urlExpires.Some? && now > l.urlExpires.value) && CanAcceptMoreFiles(db, link) && !l.disabled
  }

  function DeleteLink(db: Db, link: LinkId): Db {
    db.(entries := map id | id in db.entries ::
          if db.entries[id].link == Some(link) then db.entries[id].(link := None) else db.entries[id],
        links := db.links - {link})
  }

  function SetDisabled(db: Db, link: LinkId, disabled: bool): Db {
    if link in db.links then db.(links := db.links[link := db.links[link].(disabled := disabled)]) else db
  }

  // ---------- Users ----------

  function Admins(db: Db): set<UserId> { set u | u in db.users && db.users[u].isAdmin }

  predicate KnownSubject(db: Db, subject: string) { exists u :: u in db.users && db.users[u].subject == subject }

  function ClaimOwnerless(db: Db, admin: UserId): Db {
    db.(entries := map id | id in db.entries ::
          if db.entries[id].owner.None? then db.entries[id].(owner := Some(admin)) else db.entries[id],
        links := map l | l in db.links ::
          if db.links[l].owner.None? then db.links[l].(owner := Some(admin)) else db.links[l])
  }

  ghost function KnownUser(db: Db, subject: string): (r: Option<UserId>)
    ensures r.Some? <==> KnownSubject(db, subject)
    ensures r.Some? ==> r.value in db.users && db.users[r.value].subject == subject
  {
    if u :| u in db.users && db.users[u].subject == subject then Some(u) else None
  }

  // A login of a subject nobody has logged in with, under a fresh user ID.
  function NewUser(db: Db, id: UserId, subject: string, username: string, now: Time): Db {
    var first := db.users == map[];
    var added := db.(users := db.users[id := User(subject, username, first, now)]);
    if first then ClaimOwnerless(added, id) else added
  }

  function ReturningUser(db: Db, id: UserId, username: string, now: Time): Db
    requires id in db.users
  {
    db.(users := db.users[id := db.users[id].(username := username, lastLogin := now)])
  }

  datatype AdminOutcome = Done | UserNotFound | LastAdmin

  function GrantAdmin(db: Db, id: UserId): (Db, AdminOutcome) {
    if id in db.users then (db.(users := db.users[id := db.users[id].(isAdmin := true)]), Done) else (db, UserNotFound)
  }

  // Refuses to demote the only administrator; demoting anyone else who is not
  // an administrator is a no-op.
  function RevokeAdmin(db: Db, id: UserId): (Db, AdminOutcome) {
    if id in db.users && db.users[id].isAdmin && |Admins(db)| > 1 then
      (db.(users := db.users[id := db.users[id].(isAdmin := false)]), Done)
    else if id !in db.users then (db, UserNotFound)
    else if !db.users[id].isAdmin then (db, Done)
    else (db, LastAdmin)
  }
}
