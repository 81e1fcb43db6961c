/** Administrators and owners over every run. */
module Ownership {
  import opened Wrappers
  import opened Chunks
  import opened Tables
  import opened Runs

  // The owner column names an existing user, or nobody as long as there is none.
  predicate Owned(db: Db, owner: Option<UserId>) {
    if db.users == map[] then owner.None? else owner.Some? && owner.value in db.users
  }

  ghost predicate OwnersOk(s: System) {
    && (s.db.users != map[] ==> Admins(s.db) != {})
    && (forall u, v :: u in s.db.users && v in s.db.users && s.db.users[u].subject == s.db.users[v].subject ==> u == v)
    && (forall id :: id in s.db.entries ==> Owned(s.db, s.db.entries[id].owner))
    && (forall l :: l in s.db.links ==> Owned(s.db, s.db.links[l].owner))
  }

  // Direct uploads and links come from the user who is logged in, if there can
  // be one; and once there are users, a guest's entry is inserted while its
  // link is there.
  predicate Attributed(s: System, e: Event) {
    match e
    case Commit(id, _, _, _) =>
      id in s.uploads ==>
        if s.uploads[id].link.Some? then s.db.users != map[] ==> s.uploads[id].link.value in s.db.links
        else Owned(s.db, s.uploads[id].owner)
    case CreateLink(_, row) => Owned(s.db, row.owner)
    case _ => true
  }

  // The first login ever: an administrator, who takes over what has no owner.
  lemma FirstLoginKeeps(s: System, newId: UserId, subject: string, username: string, now: Time)
    requires OwnersOk(s) && s.db.users == map[]
    ensures OwnersOk(s.(db := NewUser(s.db, newId, subject, username, now)))
  {
    var t := s.(db := NewUser(s.db, newId, subject, username, now));
    assert t.db.users[newId].isAdmin;
    assert newId in Admins(t.db);
  }

  lemma NewUserKeeps(s: System, newId: UserId, subject: string, username: string, now: Time)
    requires OwnersOk(s) && s.db.users != map[] && newId !in s.db.users && !KnownSubject(s.db, subject)
    ensures OwnersOk(s.(db := NewUser(s.db, newId, subject, username, now)))
  {
    var t := s.(db := NewUser(s.db, newId, subject, username, now));
    assert newId in t.db.users;
    assert Admins(t.db) == Admins(s.db);
  }

  lemma ReturningKeeps(s: System, id: UserId, username: string, now: Time)
    requires OwnersOk(s) && id in s.db.users
    ensures OwnersOk(s.(db := ReturningUser(s.db, id, username, now)))
  {
    var t := s.(db := ReturningUser(s.db, id, username, now));
    assert t.db.users.Keys == s.db.users.Keys;
    assert Admins(t.db) == Admins(s.db);
  }

  lemma LoginKeeps(s: System, e: Event)
    requires OwnersOk(s) && Enabled(s, e) && e.Login?
    ensures OwnersOk(Step(s, e))
  {
    hide OwnersOk, NewUser, ReturningUser;
    var known := KnownUser(s.db, e.subject);
    if known.Some? {
      ReturningKeeps(s, known.value, e.username, e.now);
    } else if s.db.users == map[] {
      FirstLoginKeeps(s, e.newId, e.subject, e.username, e.now);
    } else {
      NewUserKeeps(s, e.newId, e.subject, e.username, e.now);
    }
  }

  lemma RevokeKeeps(s: System, user: UserId)
    requires OwnersOk(s)
    ensures OwnersOk(Step(s, Revoke(user)))
  {
    var t := Step(s, Revoke(user));
    assert t.db.users.Keys == s.db.users.Keys;
    if t.db != s.db {
      assert Admins(t.db) == Admins(s.db) - {user};
      assert |Admins(t.db)| == |Admins(s.db)| - 1;
    }
  }

  lemma GrantKeeps(s: System, user: UserId)
    requires OwnersOk(s)
    ensures OwnersOk(Step(s, Grant(user)))
  {
    var t := Step(s, Grant(user));
    assert t.db.users.Keys == s.db.users.Keys;
    assert Admins(s.db) <= Admins(t.db);
  }

  lemma CommitKeeps(s: System, e: Event)
    requires OwnersOk(s) && Enabled(s, e) && e.Commit? && Attributed(s, e)
    ensures OwnersOk(Step(s, e))
  {
    assert Admins(Step(s, e).db) == Admins(s.db);
  }

  // Steps that do not touch users and only drop entries and links or change
  // columns other than the owner.
  lemma OthersKeep(s: System, t: System)
    requires OwnersOk(s) && t.db.users == s.db.users
    requires t.db.entries.Keys <= s.db.entries.Keys && t.db.links.Keys <= s.db.links.Keys
    requires forall id :: id in t.db.entries ==> t.db.entries[id].owner == s.db.entries[id].owner
    requires forall l :: l in t.db.links ==> t.db.links[l].owner == s.db.links[l].owner
    ensures OwnersOk(t)
  {
    assert Admins(t.db) == Admins(s.db);
  }

  lemma StepKeeps(s: System, e: Event)
    requires OwnersOk(s) && Enabled(s, e) && Attributed(s, e)
    ensures OwnersOk(Step(s, e))
  {
    hide IsActive, DropRows, KeepRows, DropDownloads, DropOlder, Admins;
    var t := Step(s, e);
    match e
    case Login(_, _, _, _) => LoginKeeps(s, e);
    case Grant(user) => GrantKeeps(s, user);
    case Revoke(user) => RevokeKeeps(s, user);
    case Commit(_, _, _, _) => CommitKeeps(s, e);
    case CreateLink(_, _) => CreateKeeps(s, e);
    case _ => OthersKeep(s, t);
  }

  lemma CreateKeeps(s: System, e: Event)
    requires OwnersOk(s) && Enabled(s, e) && e.CreateLink? && Attributed(s, e)
    ensures OwnersOk(Step(s, e))
  {
    assert Admins(Step(s, e).db) == Admins(s.db);
  }

  ghost predicate AttributedRun(s: System, events: seq<Event>)
    requires IsRun(s, events)
    decreases |events|
  {
    events == [] || (Attributed(s, events[0]) && AttributedRun(Step(s, events[0]), events[1..]))
  }

  lemma {:induction false} RunKeeps(s: System, events: seq<Event>)
    requires OwnersOk(s) && IsRun(s, events) && AttributedRun(s, events)
    ensures OwnersOk(Run(s, events))
    decreases |events|
  {
    hide OwnersOk, Step, Enabled, Attributed;
    if events != [] {
      StepKeeps(s, events[0]);
      RunKeeps(Step(s, events[0]), events[1..]);
    }
  }

  // In every run: once somebody has logged in there is an administrator,
  // no subject has two users, and every entry and every guest link belongs to
  // an existing user.
  lemma AlwaysAdministered(events: seq<Event>)
    requires IsRun(EMPTY, events) && AttributedRun(EMPTY, events)
    ensures OwnersOk(Run(EMPTY, events))
  {
    assert OwnersOk(EMPTY);
    RunKeeps(EMPTY, events);
  }

  // A login creates an administrator exactly when there was no user before; it
  // never makes an existing user one.
  lemma OnlyFirstIsAdmin(s: System, e: Event, user: UserId)
    requires Enabled(s, e) && e.Login? && user in Step(s, e).db.users
    ensures user in Admins(Step(s, e).db) <==>
      user in Admins(s.db) || (s.db.users == map[] && user == e.newId)
  {}

  // The condition on guest inserts is exact: once there are users, inserting a
  // guest's entry keeps ownership if and only if the link is still there.
  lemma GuestInsertExact(s: System, e: Event)
    requires OwnersOk(s) && Enabled(s, e) && e.Commit? && s.db.users != map[] && s.uploads[e.id].link.Some?
    ensures OwnersOk(Step(s, e)) <==> s.uploads[e.id].link.value in s.db.links
  {
    var t := Step(s, e);
    if s.uploads[e.id].link.value in s.db.links {
      CommitKeeps(s, e);
    } else {
      assert t.db.entries[e.id].owner == None;
    }
  }
}
