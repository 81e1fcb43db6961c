/** The server as a transition system: uploads in several steps, everything else
    one statement or transaction per step, in any interleaving. */
module Runs {
  import opened Wrappers
  import opened Chunks
  import opened Tables
  import Calendar

  // An upload between its check or start and the insert of its entry.
  datatype Upload = Upload(full: Data, chunkSize: nat, accepted: nat, closed: bool,
                           link: Option<LinkId>, owner: Option<UserId>)

  // `content` records, for each finished upload, the bytes it was given.  IDs
  // are drawn at random from a space large enough to take them as never reused.
  datatype System = System(
    db: Db,
    uploads: map<Id, Upload>,
    usedIds: set<Id>,
    usedLinks: set<LinkId>,
    content: map<Id, (Data, nat)>)

  datatype Event =
    | Begin(id: Id, full: Data, chunkSize: nat, link: Option<LinkId>, owner: Option<UserId>, now: Time)
    | Accept(id: Id, n: nat)
    | Close(id: Id)
    | Commit(id: Id, meta: Metadata, uploaded: Time, expires: Time)
    | Abort(id: Id)
    | Delete(id: Id)
    | Update(id: Id, meta: Metadata, expires: Time)
    | PurgeExpired(now: Time)
    | PurgeOrphans
    | PurgeDownloads(now: Time, retention: Option<nat>)
    | PurgeSessions(now: Time)
    | RecordDownload(download: Download)
    | CreateLink(linkId: LinkId, row: Link)
    | RemoveLink(linkId: LinkId)
    | SwitchLink(linkId: LinkId, disabled: bool)
    | Login(newId: UserId, subject: string, username: string, now: Time)
    | Grant(user: UserId)
    | Revoke(user: UserId)
    | OpenSession(hash: Hash, session: Session)
    | CloseSession(hash: Hash)

  const EMPTY := System(Db(map[], [], [], map[], map[], map[]), map[], {}, {}, map[])

  // The tables refuse every earlier time: the first moment of 20 February 2022.
  const EARLIEST: Time := 63_812_534_400

  lemma EarliestIs()
    ensures Calendar.Civil(2022, 2, 20, 0, 0, 0).Valid() && Calendar.Civil(2022, 2, 20, 0, 0, 0).Seconds() == EARLIEST
  {
    hide Calendar.DaysBeforeYear;
    Calendar.DaysBeforeYearIs(2022);
    assert Calendar.DaysBeforeMonth(2022, 2) == 31;
  }

  // What the surrounding code and the tables guarantee about when a step is taken.
  predicate Enabled(s: System, e: Event) {
    match e
    case Begin(id, full, c, link, owner, now) =>
      && id !in s.usedIds && c > 0 && full != []  // an empty file is refused before its upload starts
      && (link.Some? ==> owner.None? && link.value in s.db.links && IsActive(s.db, link.value, now))
    case Accept(id, n) =>
      && id in s.uploads && !s.uploads[id].closed && s.uploads[id].chunkSize > 0
      && 0 < n && s.uploads[id].accepted + n <= |s.uploads[id].full|
      && s.uploads[id].accepted % s.uploads[id].chunkSize + n <= s.uploads[id].chunkSize
    case Close(id) =>
      && id in s.uploads && !s.uploads[id].closed && s.uploads[id].chunkSize > 0
      && s.uploads[id].accepted == |s.uploads[id].full|
    case Commit(id, _, uploaded, expires) =>
      id in s.uploads && s.uploads[id].closed && uploaded >= EARLIEST && expires >= EARLIEST
    case Abort(id) => id in s.uploads
    // an entry is looked up before it is deleted, so an unfinished upload is never its target
    case Delete(id) => id !in s.uploads
    case Update(_, _, expires) => expires >= EARLIEST
    case RecordDownload(d) => d.time >= EARLIEST
    // the table refuses a limit below one
    case CreateLink(link, row) =>
      && link !in s.usedLinks && (row.maxUploads.Some? ==> row.maxUploads.value > 0)
      && (row.urlExpires.Some? ==> row.urlExpires.value >= EARLIEST)
    case Login(newId, subject, username, now) =>
      newId !in s.db.users && 1 <= |subject| <= 255 && 1 <= |username| <= 200 && now >= EARLIEST
    // a session is stored under the hash of a fresh random token
    case OpenSession(hash, session) => hash !in s.db.sessions && session.expires >= EARLIEST
    case _ => true
  }

  // The bytes of an upload accepted so far.
  function AcceptedData(u: Upload): Data
    requires u.accepted <= |u.full|
  {
    u.full[..u.accepted]
  }

  function AddRow(db: Db, r: Row): Db { db.(chunks := db.chunks + [r]) }

  ghost function Step(s: System, e: Event): System
    requires Enabled(s, e)
  {
    match e
    case Begin(id, full, c, link, owner, _) =>
      s.(uploads := s.uploads[id := Upload(full, c, 0, false, link, owner)], usedIds := s.usedIds + {id})
    case Accept(id, n) =>
      var u := s.uploads[id];
      var d, piece := AcceptedData(u), u.full[u.accepted..u.accepted + n];
      var db := if u.accepted % u.chunkSize + n == u.chunkSize
                then AddRow(s.db, Row(id, u.accepted / u.chunkSize, Pending(d, u.chunkSize) + piece)) else s.db;
      s.(db := db, uploads := s.uploads[id := u.(accepted := u.accepted + n)])
    case Close(id) =>
      var u := s.uploads[id];
      var db := if u.accepted % u.chunkSize != 0
                then AddRow(s.db, Row(id, u.accepted / u.chunkSize, Pending(u.full, u.chunkSize))) else s.db;
      s.(db := db, uploads := s.uploads[id := u.(closed := true)])
    case Commit(id, meta, uploaded, expires) =>
      var u := s.uploads[id];
      s.(db := InsertEntryRow(s.db, id, meta, uploaded, expires, u.link, u.owner),
         uploads := s.uploads - {id},
         content := s.content[id := (u.full, u.chunkSize)])
    case Abort(id) => s.(uploads := s.uploads - {id})
    case Delete(id) => s.(db := DeleteEntry(s.db, id))
    case Update(id, meta, expires) =>
      var db := UpdateEntry(s.db, id, meta, expires);
      if db.None? then s else s.(db := db.value)
    case PurgeExpired(now) => s.(db := DeleteExpiredEntries(s.db, now))
    case PurgeOrphans => s.(db := DeleteOrphans(s.db))
    case PurgeDownloads(now, retention) => s.(db := DeleteOldDownloads(s.db, now, retention))
    case PurgeSessions(now) => s.(db := DeleteExpiredSessions(s.db, now))
    case RecordDownload(d) => s.(db := s.db.(downloads := s.db.downloads + [d]))
    case CreateLink(link, row) =>
      s.(db := s.db.(links := s.db.links[link := row]), usedLinks := s.usedLinks + {link})
    case RemoveLink(link) => s.(db := DeleteLink(s.db, link))
    case SwitchLink(link, disabled) => s.(db := SetDisabled(s.db, link, disabled))
    case Login(newId, subject, username, now) =>
      s.(db := if KnownUser(s.db, subject).Some?
               then ReturningUser(s.db, KnownUser(s.db, subject).value, username, now)
               else NewUser(s.db, newId, subject, username, now))
    case Grant(user) => s.(db := GrantAdmin(s.db, user).0)
    case Revoke(user) => s.(db := RevokeAdmin(s.db, user).0)
    case OpenSession(hash, session) => s.(db := s.db.(sessions := s.db.sessions[hash := session]))
    case CloseSession(hash) => s.(db := s.db.(sessions := s.db.sessions - {hash}))
  }

  // A run: every step enabled when it is taken.
  ghost predicate IsRun(s: System, events: seq<Event>)
    decreases |events|
  {
    events == [] || (Enabled(s, events[0]) && IsRun(Step(s, events[0]), events[1..]))
  }

  ghost function Run(s: System, events: seq<Event>): System
    requires IsRun(s, events)
    decreases |events|
  {
    if events == [] then s else Run(Step(s, events[0]), events[1..])
  }

  // Running one step and then the rest.
  lemma RunStep(s: System, t: System, events: seq<Event>)
    requires events != [] && Enabled(s, events[0]) && t == Step(s, events[0])
    ensures IsRun(s, events) <==> IsRun(t, events[1..])
    ensures IsRun(s, events) ==> Run(s, events) == Run(t, events[1..])
  {}

  lemma RunNothing(s: System)
    ensures IsRun(s, []) && Run(s, []) == s
  {}

  function FirstUser(now: Time): Event { Login(1, "subject", "user", now) }

  // The first login of all: an administrator, and nothing to take over.
  lemma FirstUserAdded(now: Time)
    requires now >= EARLIEST
    ensures Enabled(EMPTY, FirstUser(now))
    ensures Step(EMPTY, FirstUser(now))
         == EMPTY.(db := EMPTY.db.(users := map[1 := User("subject", "user", true, now)]))
  {
    assert KnownUser(EMPTY.db, "subject") == None;
    var db := NewUser(EMPTY.db, 1, "subject", "user", now);
    assert db.entries == map[] && db.links == map[];
  }
}
