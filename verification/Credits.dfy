/** Whose each entry and each guest link is, and when and through which link each
    entry came, told from the events alone. */
module Credits {
  import opened Wrappers
  import opened SetLaws
  import opened Chunks
  import opened Tables
  import opened Runs

  // Whether anybody has logged in; whose each link is; how the upload with a
  // given ID began; and whose its entry is, when it came, and through which link.
  datatype Credit = Credit(users: bool, links: map<LinkId, Option<UserId>>,
                           link: Option<LinkId>, uploader: Option<UserId>,
                           owner: Option<UserId>, uploaded: Time, through: Option<LinkId>)

  const NOBODY := Credit(false, map[], None, None, None, 0, None)

  function Claimed(owner: Option<UserId>, admin: UserId): Option<UserId> { if owner.None? then Some(admin) else owner }

  // A direct upload is its uploader's; a guest's is the link's owner's, as long as
  // the link is there; and the first user of all takes what is nobody's.
  function Credited(c: Credit, e: Event, id: Id): Credit {
    match e
    case Begin(i, _, _, link, owner, _) => if i == id then c.(link := link, uploader := owner) else c
    case Commit(i, _, uploaded, _) =>
      if i != id then c
      else c.(uploaded := uploaded, through := c.link,
              owner := if c.link.None? then c.uploader
                       else if c.link.value in c.links then c.links[c.link.value] else None)
    case CreateLink(l, row) => c.(links := c.links[l := row.owner])
    case RemoveLink(l) => c.(links := c.links - {l}, through := if c.through == Some(l) then None else c.through)
    case Login(user, _, _, _) =>
      if c.users then c
      else c.(users := true, owner := Claimed(c.owner, user),
              links := map l | l in c.links :: Claimed(c.links[l], user))
    case _ => c
  }

  function Credits(c: Credit, events: seq<Event>, id: Id): Credit
    decreases |events|
  {
    if events == [] then c else Credits(Credited(c, events[0], id), events[1..], id)
  }

  ghost predicate Kept(s: System, id: Id, c: Credit) {
    && (c.users <==> s.db.users != map[])
    && c.links.Keys == s.db.links.Keys && (forall l :: l in s.db.links ==> c.links[l] == s.db.links[l].owner)
    && (id in s.uploads ==> c.link == s.uploads[id].link && c.uploader == s.uploads[id].owner)
    && (id in s.db.entries ==>
          var entry := s.db.entries[id];
          c.owner == entry.owner && c.uploaded == entry.uploaded && c.through == entry.link)
  }

  lemma LoginKept(s: System, e: Event, id: Id, c: Credit)
    requires Kept(s, id, c) && Enabled(s, e) && e.Login?
    ensures Kept(Step(s, e), id, Credited(c, e, id))
  {
    var t := Step(s, e);
    if s.db.users == map[] {
      assert KnownUser(s.db, e.subject).None?;
      assert e.newId in t.db.users;
    } else {
      assert t.db.links == s.db.links && t.db.entries == s.db.entries;
      assert s.db.users.Keys <= t.db.users.Keys;
      NoKeys(s.db.users);
      NoKeys(t.db.users);
    }
  }

  lemma RoleKept(s: System, e: Event, id: Id, c: Credit)
    requires Kept(s, id, c) && (e.Grant? || e.Revoke?)
    ensures Kept(Step(s, e), id, Credited(c, e, id))
  {
    hide Admins;
    var t := Step(s, e);
    assert t.db.users.Keys == s.db.users.Keys;
    NoKeys(s.db.users);
    NoKeys(t.db.users);
  }

  lemma LinksKept(s: System, e: Event, id: Id, c: Credit)
    requires Kept(s, id, c) && Enabled(s, e) && (e.CreateLink? || e.RemoveLink? || e.SwitchLink?)
    ensures Kept(Step(s, e), id, Credited(c, e, id))
  {}

  lemma OthersKept(s: System, e: Event, id: Id, c: Credit)
    requires Kept(s, id, c) && Enabled(s, e)
    requires !(e.Login? || e.Grant? || e.Revoke? || e.CreateLink? || e.RemoveLink? || e.SwitchLink?)
    ensures Kept(Step(s, e), id, Credited(c, e, id))
  {
    hide IsActive, DropRows, KeepRows, DropDownloads, DropOlder, Chunks.Pending;
  }

  lemma StepKept(s: System, e: Event, id: Id, c: Credit)
    requires Kept(s, id, c) && Enabled(s, e)
    ensures Kept(Step(s, e), id, Credited(c, e, id))
  {
    if e.Login? {
      LoginKept(s, e, id, c);
    } else if e.Grant? || e.Revoke? {
      RoleKept(s, e, id, c);
    } else if e.CreateLink? || e.RemoveLink? || e.SwitchLink? {
      LinksKept(s, e, id, c);
    } else {
      OthersKept(s, e, id, c);
    }
  }

  lemma {:induction false} RunKept(s: System, events: seq<Event>, id: Id, c: Credit)
    requires Kept(s, id, c) && IsRun(s, events)
    ensures Kept(Run(s, events), id, Credits(c, events, id))
    decreases |events|
  {
    hide Kept, Step, Enabled, Credited;
    if events != [] {
      StepKept(s, events[0], id, c);
      RunKept(Step(s, events[0]), events[1..], id, Credited(c, events[0], id));
    }
  }

  // In every run an entry belongs to whom the events credit it, and has the time
  // of its insert and the link it came through, as long as that was not removed.
  lemma OwnerExact(events: seq<Event>, id: Id)
    requires IsRun(EMPTY, events) && id in Run(EMPTY, events).db.entries
    ensures var entry, credit := Run(EMPTY, events).db.entries[id], Credits(NOBODY, events, id);
            entry.owner == credit.owner && entry.uploaded == credit.uploaded && entry.link == credit.through
  {
    hide IsRun, Run, Credits;
    RunKept(EMPTY, events, id, NOBODY);
  }

  // And so does a link.
  lemma LinkOwnerExact(events: seq<Event>, link: LinkId)
    requires IsRun(EMPTY, events)
    ensures var links, credited := Run(EMPTY, events).db.links, Credits(NOBODY, events, "").links;
            (link in links <==> link in credited) && (link in links ==> links[link].owner == credited[link])
  {
    hide IsRun, Run, Credits;
    RunKept(EMPTY, events, "", NOBODY);
  }
}
