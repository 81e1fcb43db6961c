/** What the users table shows of each subject, told from the logins alone. */
module Logins {
  import opened Wrappers
  import opened Tables
  import opened Runs

  datatype Seen = Seen(username: string, time: Time)

  // The last login of this subject.
  function LastSeen(seen: Option<Seen>, e: Event, subject: string): Option<Seen> {
    match e
    case Login(_, s, username, now) => if s == subject then Some(Seen(username, now)) else seen
    case _ => seen
  }

  function SeenAfter(seen: Option<Seen>, events: seq<Event>, subject: string): Option<Seen>
    decreases |events|
  {
    if events == [] then seen else SeenAfter(LastSeen(seen, events[0], subject), events[1..], subject)
  }

  // One row for a subject that has logged in, none for any other.
  ghost predicate Shown(users: map<UserId, User>, subject: string, seen: Option<Seen>) {
    && (forall u :: u in users && users[u].subject == subject ==>
          seen == Some(Seen(users[u].username, users[u].lastLogin)))
    && (forall u, v :: u in users && v in users && users[u].subject == subject == users[v].subject ==> u == v)
    && (seen.Some? ==> exists u :: u in users && users[u].subject == subject)
  }

  // The row changed or added keeps its subject, and every other row stays.
  lemma RowChanged(users: map<UserId, User>, id: UserId, row: User, subject: string, seen: Option<Seen>)
    requires Shown(users, subject, seen)
    requires if id in users then users[id].subject == row.subject
             else forall u :: u in users ==> users[u].subject != row.subject
    ensures Shown(users[id := row], subject,
                  if row.subject == subject then Some(Seen(row.username, row.lastLogin)) else seen)
  {
    var after := users[id := row];
    if row.subject == subject {
      assert after[id].subject == subject;
    } else if seen.Some? {
      var u :| u in users && users[u].subject == subject;
      assert u in after && after[u].subject == subject;
    }
  }

  lemma LoginShown(s: System, e: Event, subject: string, seen: Option<Seen>)
    requires Shown(s.db.users, subject, seen) && Enabled(s, e) && e.Login?
    ensures Shown(Step(s, e).db.users, subject, LastSeen(seen, e, subject))
  {
    hide Shown;
    var known := KnownUser(s.db, e.subject);
    if known.Some? {
      var row := s.db.users[known.value].(username := e.username, lastLogin := e.now);
      RowChanged(s.db.users, known.value, row, subject, seen);
    } else {
      RowChanged(s.db.users, e.newId, User(e.subject, e.username, s.db.users == map[], e.now), subject, seen);
    }
  }

  // Granting and revoking do not change what is shown.
  lemma RoleShown(s: System, e: Event, subject: string, seen: Option<Seen>)
    requires Shown(s.db.users, subject, seen) && (e.Grant? || e.Revoke?)
    ensures Shown(Step(s, e).db.users, subject, seen)
  {
    hide Admins;
    var users, after := s.db.users, Step(s, e).db.users;
    if after != users {
      var row := users[e.user].(isAdmin := e.Grant?);
      assert after == users[e.user := row];
      SeenRow(users, e.user, subject, seen);
      hide Shown;
      RowChanged(users, e.user, row, subject, seen);
    }
  }

  lemma SeenRow(users: map<UserId, User>, id: UserId, subject: string, seen: Option<Seen>)
    requires Shown(users, subject, seen) && id in users
    ensures users[id].subject == subject ==> seen == Some(Seen(users[id].username, users[id].lastLogin))
  {}

  lemma StepShown(s: System, e: Event, subject: string, seen: Option<Seen>)
    requires Shown(s.db.users, subject, seen) && Enabled(s, e)
    ensures Shown(Step(s, e).db.users, subject, LastSeen(seen, e, subject))
  {
    hide Shown;
    if e.Login? {
      LoginShown(s, e, subject, seen);
    } else if e.Grant? || e.Revoke? {
      RoleShown(s, e, subject, seen);
    }
  }

  lemma {:induction false} RunShown(s: System, events: seq<Event>, subject: string, seen: Option<Seen>)
    requires Shown(s.db.users, subject, seen) && IsRun(s, events)
    ensures Shown(Run(s, events).db.users, subject, SeenAfter(seen, events, subject))
    decreases |events|
  {
    hide Shown, Step, Enabled, LastSeen;
    if events != [] {
      StepShown(s, events[0], subject, seen);
      RunShown(Step(s, events[0]), events[1..], subject, LastSeen(seen, events[0], subject));
    }
  }

  // In every run a subject has a user exactly when it has logged in, and then
  // one, with the name and time of its last login.
  lemma LastLoginShown(events: seq<Event>, subject: string)
    requires IsRun(EMPTY, events)
    ensures var users, seen := Run(EMPTY, events).db.users, SeenAfter(None, events, subject);
      && (seen.Some? <==> exists u :: u in users && users[u].subject == subject)
      && (forall u :: u in users && users[u].subject == subject ==>
            seen == Some(Seen(users[u].username, users[u].lastLogin)))
      && forall u, v :: u in users && v in users && users[u].subject == subject == users[v].subject ==> u == v
  {
    hide IsRun, Run, SeenAfter;
    RunShown(EMPTY, events, subject, None);
  }
}
