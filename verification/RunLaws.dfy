/** What queries answer at the end of any run, whatever happened in between. */
module RunLaws {
  import opened Wrappers
  import opened Chunks
  import opened Tables
  import opened Runs
  import opened StoreLaws

  // ---------- Entries ----------

  // IDs are drawn once: uploads and entries have different ones, all used.
  predicate UsedOk(s: System) {
    && s.uploads.Keys !! s.db.entries.Keys
    && s.uploads.Keys <= s.usedIds && s.db.entries.Keys <= s.usedIds
  }

  lemma StepUsed(s: System, e: Event)
    requires UsedOk(s) && Enabled(s, e)
    ensures UsedOk(Step(s, e))
  {
    hide IsActive, DropRows, KeepRows, DropDownloads, DropOlder, Admins;
  }

  lemma {:induction false} RunUsed(s: System, events: seq<Event>)
    requires UsedOk(s) && IsRun(s, events)
    ensures UsedOk(Run(s, events))
    decreases |events|
  {
    hide UsedOk, Step, Enabled;
    if events != [] {
      StepUsed(s, events[0]);
      RunUsed(Step(s, events[0]), events[1..]);
    }
  }

  // An ID that was drawn and has neither an upload nor an entry.
  predicate Gone(s: System, id: Id) { id in s.usedIds && id !in s.uploads && id !in s.db.entries }

  lemma StepGone(s: System, e: Event, id: Id)
    requires Gone(s, id) && Enabled(s, e)
    ensures Gone(Step(s, e), id)
  {
    hide IsActive, DropRows, KeepRows, DropDownloads, DropOlder, Admins;
  }

  lemma {:induction false} StaysGone(s: System, events: seq<Event>, id: Id)
    requires Gone(s, id) && IsRun(s, events)
    ensures Gone(Run(s, events), id)
    decreases |events|
  {
    hide Gone, Step, Enabled;
    if events != [] {
      StepGone(s, events[0], id);
      StaysGone(Step(s, events[0]), events[1..], id);
    }
  }

  // A deleted entry is never found again, whatever happens afterwards.
  lemma DeletedForGood(before: seq<Event>, id: Id, events: seq<Event>)
    requires IsRun(EMPTY, before) && id in Run(EMPTY, before).db.entries && Enabled(Run(EMPTY, before), Delete(id))
    requires IsRun(Step(Run(EMPTY, before), Delete(id)), events)
    ensures LookUp(Run(Step(Run(EMPTY, before), Delete(id)), events).db, id) == EntryNotFound
  {
    RunUsed(EMPTY, before);
    StaysGone(Step(Run(EMPTY, before), Delete(id)), events, id);
  }

  datatype Details = Details(meta: Metadata, expires: Time)

  // What the last insert or edit of `id` said.
  function Told(last: Option<Details>, e: Event, id: Id): Option<Details> {
    match e
    case Commit(i, meta, _, expires) => if i == id then Some(Details(meta, expires)) else last
    case Update(i, meta, expires) => if i == id then Some(Details(meta, expires)) else last
    case _ => last
  }

  function Latest(last: Option<Details>, events: seq<Event>, id: Id): Option<Details>
    decreases |events|
  {
    if events == [] then last else Latest(Told(last, events[0], id), events[1..], id)
  }

  predicate UpToDate(s: System, id: Id, last: Option<Details>) {
    id in s.db.entries ==> last == Some(Details(s.db.entries[id].meta, s.db.entries[id].expires))
  }

  lemma StepTold(s: System, e: Event, id: Id, last: Option<Details>)
    requires UpToDate(s, id, last) && Enabled(s, e)
    ensures UpToDate(Step(s, e), id, Told(last, e, id))
  {
    hide IsActive, DropRows, KeepRows, DropDownloads, DropOlder, Admins;
  }

  lemma {:induction false} RunTold(s: System, events: seq<Event>, id: Id, last: Option<Details>)
    requires UpToDate(s, id, last) && IsRun(s, events)
    ensures UpToDate(Run(s, events), id, Latest(last, events, id))
    decreases |events|
  {
    hide UpToDate, Step, Enabled, Told;
    if events != [] {
      StepTold(s, events[0], id, last);
      RunTold(Step(s, events[0]), events[1..], id, Told(last, events[0], id));
    }
  }

  // At the end of every run an entry has the name, note, passphrase and
  // expiration of its last edit, or of its insert if it was never edited.
  lemma LastEditHolds(events: seq<Event>, id: Id)
    requires IsRun(EMPTY, events) && id in Run(EMPTY, events).db.entries
    ensures var entry := Run(EMPTY, events).db.entries[id];
            Latest(None, events, id) == Some(Details(entry.meta, entry.expires))
  {
    hide IsRun, Run;
    RunTold(EMPTY, events, id, None);
  }

  // ---------- Download history ----------

  // No purge of old downloads reaches as far as this one.
  predicate Retained(d: Download, e: Event) {
    e.PurgeDownloads? && e.retention.Some? ==> d.time >= e.now - e.retention.value * SECONDS_PER_DAY
  }

  lemma StepRecorded(s: System, e: Event, d: Download)
    requires Enabled(s, e) && Retained(d, e)
    requires d.entry in s.db.entries && d.entry in Step(s, e).db.entries
    ensures Recorded(Step(s, e).db.downloads, d)
         == Recorded(s.db.downloads, d) + if e == RecordDownload(d) then 1 else 0
  {
    hide IsActive, DropRows, KeepRows, DropDownloads, DropOlder, Recorded, Admins, Pending;
    match e
    case Delete(id) => DroppedDownloads(s.db.downloads, {id}, d);
    case PurgeExpired(now) => DroppedDownloads(s.db.downloads, ExpiredIds(s.db, now), d);
    case PurgeDownloads(now, retention) =>
      if retention.Some? { OlderDropped(s.db.downloads, now - retention.value * SECONDS_PER_DAY, d); }
    case RecordDownload(last) => RecordedSnoc(s.db.downloads, last, d);
    case _ =>
  }

  lemma {:induction false} RunRecorded(s: System, events: seq<Event>, d: Download)
    requires UsedOk(s) && IsRun(s, events) && forall e :: e in events ==> Retained(d, e)
    requires d.entry in s.db.entries && d.entry in Run(s, events).db.entries
    ensures Recorded(Run(s, events).db.downloads, d)
         == Recorded(s.db.downloads, d) + multiset(events)[RecordDownload(d)]
    decreases |events|
  {
    hide Step, Enabled, Recorded, Retained;
    if events != [] {
      var t := Step(s, events[0]);
      StepUsed(s, events[0]);
      assert events == [events[0]] + events[1..];
      StillThere(s, events, d.entry);
      StepRecorded(s, events[0], d);
      RunRecorded(t, events[1..], d);
    }
  }

  // An entry that is there now and at the end was there all the time.
  lemma StillThere(s: System, events: seq<Event>, id: Id)
    requires UsedOk(s) && IsRun(s, events) && events != []
    requires id in s.db.entries && id in Run(s, events).db.entries
    ensures id in Step(s, events[0]).db.entries
  {
    var t := Step(s, events[0]);
    if id !in t.db.entries {
      EntryLeaves(s, events[0], id);
      StaysGone(t, events[1..], id);
    }
  }

  lemma EntryLeaves(s: System, e: Event, id: Id)
    requires UsedOk(s) && Enabled(s, e) && id in s.db.entries && id !in Step(s, e).db.entries
    ensures Gone(Step(s, e), id)
  {
    hide IsActive, DropRows, KeepRows, DropDownloads, DropOlder, Admins;
  }

  // No download that is still to be kept is lost or counted twice: between two
  // moments at which its entry exists, a record is added once for each time it
  // was recorded and never taken away.
  lemma HistoryExact(before: seq<Event>, events: seq<Event>, d: Download)
    requires IsRun(EMPTY, before) && IsRun(Run(EMPTY, before), events)
    requires forall e :: e in events ==> Retained(d, e)
    requires d.entry in Run(EMPTY, before).db.entries && d.entry in Run(Run(EMPTY, before), events).db.entries
    ensures Recorded(Run(Run(EMPTY, before), events).db.downloads, d)
         == Recorded(Run(EMPTY, before).db.downloads, d) + multiset(events)[RecordDownload(d)]
  {
    hide IsRun, Run, Recorded, Retained;
    RunUsed(EMPTY, before);
    RunRecorded(Run(EMPTY, before), events, d);
  }

  // ---------- Sessions ----------

  // The session last opened under this hash and not closed since.
  function OpenAfter(open: Option<Session>, e: Event, hash: Hash): Option<Session> {
    match e
    case OpenSession(h, session) => if h == hash then Some(session) else open
    case CloseSession(h) => if h == hash then None else open
    case _ => open
  }

  function LeftOpen(open: Option<Session>, events: seq<Event>, hash: Hash): Option<Session>
    decreases |events|
  {
    if events == [] then open else LeftOpen(OpenAfter(open, events[0], hash), events[1..], hash)
  }

  // The row of an open session is there, unless it has expired by `now`.
  predicate SessionOk(s: System, hash: Hash, open: Option<Session>, now: Time) {
    if hash in s.db.sessions then open == Some(s.db.sessions[hash])
    else open.Some? ==> open.value.expires <= now
  }

  predicate PurgedBefore(e: Event, now: Time) { e.PurgeSessions? ==> e.now <= now }

  lemma StepSession(s: System, e: Event, hash: Hash, open: Option<Session>, now: Time)
    requires SessionOk(s, hash, open, now) && Enabled(s, e) && PurgedBefore(e, now)
    ensures SessionOk(Step(s, e), hash, OpenAfter(open, e, hash), now)
  {
    hide IsActive, DropRows, KeepRows, DropDownloads, DropOlder, Admins;
  }

  lemma {:induction false} RunSession(s: System, events: seq<Event>, hash: Hash, open: Option<Session>, now: Time)
    requires SessionOk(s, hash, open, now) && IsRun(s, events) && forall e :: e in events ==> PurgedBefore(e, now)
    ensures SessionOk(Run(s, events), hash, LeftOpen(open, events, hash), now)
    decreases |events|
  {
    hide SessionOk, Step, Enabled, OpenAfter, PurgedBefore;
    if events != [] {
      StepSession(s, events[0], hash, open, now);
      RunSession(Step(s, events[0]), events[1..], hash, OpenAfter(open, events[0], hash), now);
    }
  }

  // Who is logged in, after every run: the user of the session opened last under
  // this hash, from then until it is closed or expires.  Purges up to now make
  // no difference, and no other session does.
  lemma LoggedIn(events: seq<Event>, hash: Hash, now: Time)
    requires IsRun(EMPTY, events) && forall e :: e in events ==> PurgedBefore(e, now)
    ensures var db, open := Run(EMPTY, events).db, LeftOpen(None, events, hash);
            GetSessionUser(db, hash, now)
            == if open.Some? && now < open.value.expires && open.value.user in db.users then Some(open.value.user)
               else None
  {
    hide IsRun, Run, PurgedBefore;
    RunSession(EMPTY, events, hash, None, now);
  }

  // ---------- Guest links ----------

  // Which step changes the uploads counted against a link, and how.
  lemma CountMoves(s: System, e: Event, link: LinkId)
    requires Enabled(s, e)
    ensures EntriesOn(Step(s, e).db, link) ==
      match e
      case Commit(id, _, _, _) =>
        if s.uploads[id].link == Some(link) then EntriesOn(s.db, link) + {id} else EntriesOn(s.db, link) - {id}
      case Delete(id) => EntriesOn(s.db, link) - {id}
      case PurgeExpired(now) => EntriesOn(s.db, link) - ExpiredIds(s.db, now)
      case RemoveLink(gone) => if gone == link then {} else EntriesOn(s.db, link)
      case _ => EntriesOn(s.db, link)
  {
    hide IsActive, DropRows, KeepRows, DropDownloads, DropOlder, Admins;
  }

  // No upload can begin on this link unless it is switched on again.
  predicate Off(s: System, link: LinkId) {
    link in s.usedLinks && (link in s.db.links ==> s.db.links[link].disabled)
  }

  lemma StepOff(s: System, e: Event, link: LinkId)
    requires Off(s, link) && Enabled(s, e) && e != SwitchLink(link, false)
    ensures Off(Step(s, e), link)
  {
    hide IsActive, DropRows, KeepRows, DropDownloads, DropOlder, Admins;
  }

  lemma {:induction false} RunOff(s: System, events: seq<Event>, link: LinkId)
    requires Off(s, link) && IsRun(s, events) && SwitchLink(link, false) !in events
    ensures Off(Run(s, events), link)
    decreases |events|
  {
    hide Off, Step, Enabled;
    if events != [] {
      StepOff(s, events[0], link);
      RunOff(Step(s, events[0]), events[1..], link);
    }
  }

  // A link that was switched off accepts no upload until it is switched on.
  lemma StaysOff(s: System, link: LinkId, events: seq<Event>, e: Event)
    requires link in s.usedLinks && IsRun(Step(s, SwitchLink(link, true)), events)
    requires SwitchLink(link, false) !in events
    requires e.Begin? && e.link == Some(link)
    ensures !Enabled(Run(Step(s, SwitchLink(link, true)), events), e)
  {
    RunOff(Step(s, SwitchLink(link, true)), events, link);
  }

  // The link is not there, and no upload under way and no entry names it.
  predicate Forgotten(s: System, link: LinkId) {
    && (forall id :: id in s.uploads ==> s.uploads[id].link != Some(link))
    && (forall id :: id in s.db.entries ==> s.db.entries[id].link != Some(link))
  }

  predicate Removed(s: System, link: LinkId) { link in s.usedLinks && link !in s.db.links }

  lemma StepRemoved(s: System, e: Event, link: LinkId)
    requires Removed(s, link) && Enabled(s, e)
    ensures Removed(Step(s, e), link)
  {
    hide IsActive, DropRows, KeepRows, DropDownloads, DropOlder, Admins;
  }

  lemma StepForgotten(s: System, e: Event, link: LinkId)
    requires Removed(s, link) && Forgotten(s, link) && Enabled(s, e)
    ensures Forgotten(Step(s, e), link)
  {
    hide IsActive, DropRows, KeepRows, DropDownloads, DropOlder, Admins;
  }

  lemma {:induction false} RunRemoved(s: System, events: seq<Event>, link: LinkId)
    requires Removed(s, link) && IsRun(s, events)
    ensures Removed(Run(s, events), link)
    ensures Forgotten(s, link) ==> Forgotten(Run(s, events), link)
    decreases |events|
  {
    hide Removed, Forgotten, Step, Enabled;
    if events != [] {
      StepRemoved(s, events[0], link);
      if Forgotten(s, link) {
        StepForgotten(s, events[0], link);
      }
      RunRemoved(Step(s, events[0]), events[1..], link);
    }
  }

  // A deleted link accepts no upload ever again; and unless one was under way
  // on it, no entry ever counts as its own.
  lemma RemovedForGood(s: System, link: LinkId, events: seq<Event>, e: Event)
    requires link in s.usedLinks && IsRun(Step(s, RemoveLink(link)), events)
    ensures var t := Run(Step(s, RemoveLink(link)), events);
      && (e.Begin? && Enabled(t, e) ==> e.link != Some(link))
      && ((forall id :: id in s.uploads ==> s.uploads[id].link != Some(link)) ==> EntriesOn(t.db, link) == {})
  {
    hide IsActive;
    RunRemoved(Step(s, RemoveLink(link)), events, link);
  }
}
