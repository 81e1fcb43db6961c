/** How far a guest link's upload limit can be exceeded: the check and the insert
    are separate steps, so requests that overlap each pass the check. */
module GuestLimit {
  import opened Wrappers
  import opened SetLaws
  import opened Chunks
  import opened Tables
  import opened Runs

  // Requests that passed the check and have not inserted their entry yet.
  function Pending(s: System, link: LinkId): set<Id> {
    set id | id in s.uploads && s.uploads[id].link == Some(link)
  }

  // At most k requests overlap on any link.
  predicate Overlap(s: System, e: Event, k: nat) {
    e.Begin? && e.link.Some? ==> |Pending(s, e.link.value)| < k
  }

  ghost predicate OverlapRun(s: System, events: seq<Event>, k: nat)
    requires IsRun(s, events)
    decreases |events|
  {
    events == [] || (Overlap(s, events[0], k) && OverlapRun(Step(s, events[0]), events[1..], k))
  }

  predicate LinkOk(s: System, link: LinkId, k: nat)
    requires link in s.db.links
  {
    var limit := s.db.links[link].maxUploads;
    && link in s.usedLinks
    && (limit.Some? ==>
        && limit.value > 0
        && |EntriesOn(s.db, link)| + |Pending(s, link)| <= limit.value - 1 + k)
  }

  ghost predicate LimitsOk(s: System, k: nat) {
    && s.uploads.Keys !! s.db.entries.Keys
    && s.uploads.Keys <= s.usedIds && s.db.entries.Keys <= s.usedIds
    && (forall l :: l in s.db.links ==> LinkOk(s, l, k))
    && (forall l: LinkId :: l !in s.usedLinks ==> EntriesOn(s.db, l) == {} && Pending(s, l) == {})
  }

  // Steps after which no link has more entries or pending requests, and no
  // link's limit has changed.
  lemma ShrinkKeeps(s: System, t: System, k: nat)
    requires LimitsOk(s, k)
    requires t.uploads.Keys <= s.uploads.Keys && t.db.entries.Keys <= s.db.entries.Keys
    requires t.usedIds == s.usedIds && t.usedLinks == s.usedLinks
    requires t.db.links.Keys <= s.db.links.Keys
    requires forall l :: l in t.db.links ==> t.db.links[l].maxUploads == s.db.links[l].maxUploads
    requires forall l: LinkId :: EntriesOn(t.db, l) <= EntriesOn(s.db, l) && Pending(t, l) <= Pending(s, l)
    ensures LimitsOk(t, k)
  {
    forall l | l in t.db.links ensures LinkOk(t, l, k) {
      assert LinkOk(s, l, k);
      SubsetSize(EntriesOn(t.db, l), EntriesOn(s.db, l));
      SubsetSize(Pending(t, l), Pending(s, l));
    }
    forall l: LinkId | l !in t.usedLinks ensures EntriesOn(t.db, l) == {} && Pending(t, l) == {} {
      assert EntriesOn(s.db, l) == {} && Pending(s, l) == {};
    }
  }

  lemma ActiveBelow(s: System, e: Event)
    requires Enabled(s, e) && e.Begin? && e.link.Some?
    ensures e.link.value in s.db.links
    ensures var limit := s.db.links[e.link.value].maxUploads;
            limit.Some? ==> |EntriesOn(s.db, e.link.value)| < limit.value
  {}

  // A request that passes the check is one more pending request on its link.
  lemma BeginAdds(s: System, e: Event, l: LinkId)
    requires s.uploads.Keys <= s.usedIds && e.Begin? && Enabled(s, e)
    ensures var t := Step(s, e);
            EntriesOn(t.db, l) == EntriesOn(s.db, l)
            && Pending(t, l) == Pending(s, l) + if e.link == Some(l) then {e.id} else {}
  {
    hide IsActive, EntriesOn;
    var t := Step(s, e);
    assert t.uploads == s.uploads[e.id := Upload(e.full, e.chunkSize, 0, false, e.link, e.owner)];
    assert Pending(t, l) == Pending(s, l) + if e.link == Some(l) then {e.id} else {};
  }

  lemma BeginLinkOk(s: System, e: Event, l: LinkId, k: nat)
    requires LimitsOk(s, k) && Enabled(s, e) && e.Begin? && Overlap(s, e, k)
    requires l in s.db.links
    ensures var t := Step(s, e); t.db == s.db && LinkOk(t, l, k)
  {
    var t := Step(s, e);
    assert t.db == s.db && t.usedLinks == s.usedLinks;
    assert LinkOk(s, l, k) && e.id !in Pending(s, l);
    BeginAdds(s, e, l);
    hide IsActive, EntriesOn, Pending, LimitsOk, Step;
    if e.link == Some(l) {
      ActiveBelow(s, e);
      assert |Pending(t, l)| == |Pending(s, l)| + 1;
    } else {
      assert Pending(t, l) == Pending(s, l);
    }
  }

  lemma BeginKeeps(s: System, e: Event, k: nat)
    requires LimitsOk(s, k) && Enabled(s, e) && e.Begin? && Overlap(s, e, k)
    ensures LimitsOk(Step(s, e), k)
  {
    var t := Step(s, e);
    assert t.usedIds == s.usedIds + {e.id} && t.uploads.Keys == s.uploads.Keys + {e.id};
    assert e.link.Some? ==> LinkOk(s, e.link.value, k);
    forall l | l in t.db.links ensures LinkOk(t, l, k) { BeginLinkOk(s, e, l, k); }
    forall l: LinkId | l !in t.usedLinks ensures EntriesOn(t.db, l) == {} && Pending(t, l) == {} {
      BeginAdds(s, e, l);
      assert Pending(s, l) == {};
    }
    hide EntriesOn, Pending, LinkOk, IsActive;
  }

  // The insert moves a request from pending to stored.
  lemma CommitKeeps(s: System, e: Event, k: nat)
    requires LimitsOk(s, k) && Enabled(s, e) && e.Commit?
    ensures LimitsOk(Step(s, e), k)
  {
    var t, link := Step(s, e), s.uploads[e.id].link;
    forall l: LinkId
      ensures EntriesOn(t.db, l) == EntriesOn(s.db, l) + if link == Some(l) then {e.id} else {}
      ensures Pending(t, l) == Pending(s, l) - if link == Some(l) then {e.id} else {}
    {}
    forall l | l in t.db.links ensures LinkOk(t, l, k) {
      assert LinkOk(s, l, k);
    }
    forall l: LinkId | l !in t.usedLinks ensures EntriesOn(t.db, l) == {} && Pending(t, l) == {} {
      assert Pending(s, l) == {};
    }
  }

  lemma CreateKeeps(s: System, e: Event, k: nat)
    requires LimitsOk(s, k) && Enabled(s, e) && e.CreateLink?
    ensures LimitsOk(Step(s, e), k)
  {
    var t := Step(s, e);
    forall l: LinkId ensures EntriesOn(t.db, l) == EntriesOn(s.db, l) && Pending(t, l) == Pending(s, l) {}
    forall l | l in t.db.links ensures LinkOk(t, l, k) {
      if l != e.linkId { assert LinkOk(s, l, k); }
    }
  }

  lemma UpdateShrinks(s: System, e: Event)
    requires e.Update? && Enabled(s, e)
    ensures var t := Step(s, e);
            && t.db.entries.Keys == s.db.entries.Keys && t.db.links == s.db.links
            && forall l: LinkId :: EntriesOn(t.db, l) == EntriesOn(s.db, l)
  {}

  lemma NewUserShrinks(db: Db, id: UserId, subject: string, username: string, now: Time)
    ensures var after := NewUser(db, id, subject, username, now);
            && after.entries.Keys == db.entries.Keys && after.links.Keys == db.links.Keys
            && (forall l :: l in after.links ==> after.links[l].maxUploads == db.links[l].maxUploads)
            && forall l: LinkId :: EntriesOn(after, l) == EntriesOn(db, l)
  {}

  lemma LoginShrinks(s: System, e: Event)
    requires e.Login? && Enabled(s, e)
    ensures var t := Step(s, e);
            && t.db.entries.Keys == s.db.entries.Keys && t.db.links.Keys == s.db.links.Keys
            && (forall l :: l in t.db.links ==> t.db.links[l].maxUploads == s.db.links[l].maxUploads)
            && forall l: LinkId :: EntriesOn(t.db, l) == EntriesOn(s.db, l)
  {
    hide NewUser;
    NewUserShrinks(s.db, e.newId, e.subject, e.username, e.now);
  }

  lemma StepKeeps(s: System, e: Event, k: nat)
    requires LimitsOk(s, k) && Enabled(s, e) && Overlap(s, e, k)
    ensures LimitsOk(Step(s, e), k)
  {
    hide LimitsOk, IsActive, DropRows, KeepRows, DropDownloads, DropOlder;
    var t := Step(s, e);
    match e
    case Begin(_, _, _, _, _, _) => BeginKeeps(s, e, k);
    case Commit(_, _, _, _) => CommitKeeps(s, e, k);
    case CreateLink(_, _) => CreateKeeps(s, e, k);
    case Update(_, _, _) =>
      UpdateShrinks(s, e);
      ShrinkKeeps(s, t, k);
    case Login(_, _, _, _) =>
      LoginShrinks(s, e);
      ShrinkKeeps(s, t, k);
    case _ => ShrinkKeeps(s, t, k);
  }

  lemma {:induction false} RunKeeps(s: System, events: seq<Event>, k: nat)
    requires LimitsOk(s, k) && IsRun(s, events) && OverlapRun(s, events, k)
    ensures LimitsOk(Run(s, events), k)
    decreases |events|
  {
    hide LimitsOk, Step, Enabled, Overlap;
    if events != [] {
      StepKeeps(s, events[0], k);
      RunKeeps(Step(s, events[0]), events[1..], k);
    }
  }

  // With at most k requests overlapping, a link of limit m never has more than
  // m - 1 + k entries; in particular never more than m when none overlap.
  lemma LimitNeverExceeded(events: seq<Event>, k: nat, link: LinkId)
    requires IsRun(EMPTY, events) && OverlapRun(EMPTY, events, k)
    requires link in Run(EMPTY, events).db.links
    ensures var s := Run(EMPTY, events);
            s.db.links[link].maxUploads.Some? ==>
              |EntriesOn(s.db, link)| <= s.db.links[link].maxUploads.value - 1 + k
  {
    assert LimitsOk(EMPTY, k);
    RunKeeps(EMPTY, events, k);
    assert LinkOk(Run(EMPTY, events), link, k);
  }

  // ---------- The bound is reached ----------

  function Name(i: nat): (id: Id)
    ensures |id| == i
  {
    if i == 0 then "" else Name(i - 1) + "a"
  }

  const LINK: LinkId := "l"
  const WAITING := Upload([1], 1, 0, false, Some(LINK), None)

  const EXPIRY: Time := EARLIEST + SECONDS_PER_DAY

  function Row1(m: int): Link { Link(Some(1), Some(m), false, None) }

  // `stored` entries on a link of limit m and `waiting` requests of one byte each
  // that have not sent it yet.
  ghost predicate At(s: System, m: int, stored: nat, waiting: nat) {
    s.db.links == map[LINK := Row1(m)] && AllOnLink(s) && Counted(s, stored, waiting) && ShortNames(s, stored + waiting)
  }

  ghost predicate AllOnLink(s: System) {
    && (forall id :: id in s.db.entries ==> s.db.entries[id].link == Some(LINK))
    && (forall id :: id in s.uploads ==> s.uploads[id] == WAITING)
  }

  ghost predicate Counted(s: System, stored: nat, waiting: nat) {
    |s.db.entries.Keys| == stored && |s.uploads.Keys| == waiting && s.uploads.Keys !! s.db.entries.Keys
  }

  ghost predicate ShortNames(s: System, n: nat) {
    && s.db.entries.Keys <= s.usedIds && s.uploads.Keys <= s.usedIds
    && (forall id :: id in s.usedIds ==> |id| < n)
  }

  lemma AtCounts(s: System, m: int, stored: nat, waiting: nat)
    requires At(s, m, stored, waiting)
    ensures |EntriesOn(s.db, LINK)| == stored && |Pending(s, LINK)| == waiting
  {
    assert EntriesOn(s.db, LINK) == s.db.entries.Keys;
    assert Pending(s, LINK) == s.uploads.Keys;
  }

  function BeginEvent(i: nat): Event { Begin(Name(i), [1], 1, Some(LINK), None, EARLIEST) }

  // As long as the link is below its limit, another request may begin.
  lemma MayBegin(s: System, m: int, stored: nat, waiting: nat)
    requires At(s, m, stored, waiting) && stored < m
    ensures Enabled(s, BeginEvent(stored + waiting))
  {
    AtCounts(s, m, stored, waiting);
    hide Name, EntriesOn;
  }

  lemma AtGrown(s: System, t: System, m: int, stored: nat, waiting: nat)
    requires At(s, m, stored, waiting) && t.db == s.db
    requires t.usedIds == s.usedIds + {Name(stored + waiting)}
    requires t.uploads == s.uploads[Name(stored + waiting) := WAITING]
    ensures At(t, m, stored, waiting + 1)
  {
    var id := Name(stored + waiting);
    hide Name;
    GrownCounts(s, t, stored, waiting, id);
    GrownNames(s, t, stored + waiting, id);
    assert AllOnLink(t) by { hide Counted, ShortNames; }
    hide AllOnLink, Counted, ShortNames;
  }

  lemma GrownCounts(s: System, t: System, stored: nat, waiting: nat, id: Id)
    requires Counted(s, stored, waiting) && ShortNames(s, |id|) && t.db == s.db
    requires t.uploads == s.uploads[id := WAITING]
    ensures Counted(t, stored, waiting + 1)
  {
    assert id !in s.usedIds;
    hide ShortNames;
    MapAdd(s.uploads, id, WAITING);
  }

  lemma GrownNames(s: System, t: System, n: nat, id: Id)
    requires ShortNames(s, n) && |id| == n && t.db == s.db
    requires t.uploads == s.uploads[id := WAITING] && t.usedIds == s.usedIds + {id}
    ensures ShortNames(t, n + 1)
  {
    MapAdd(s.uploads, id, WAITING);
  }

  lemma AtMoved(s: System, t: System, m: int, stored: nat, waiting: nat, id: Id, entry: Entry)
    requires At(s, m, stored, waiting) && waiting > 0 && id in s.uploads && entry.link == Some(LINK)
    requires t.db.links == s.db.links && t.usedIds == s.usedIds
    requires t.uploads == s.uploads - {id} && t.db.entries == s.db.entries[id := entry]
    ensures At(t, m, stored + 1, waiting - 1)
  {
    MovedCounts(s, t, stored, waiting, id, entry);
    assert ShortNames(t, stored + waiting) by { hide AllOnLink, Counted; }
    assert AllOnLink(t) by { hide Counted, ShortNames; }
    hide AllOnLink, Counted, ShortNames;
  }

  lemma MovedCounts(s: System, t: System, stored: nat, waiting: nat, id: Id, entry: Entry)
    requires Counted(s, stored, waiting) && waiting > 0 && id in s.uploads
    requires t.uploads == s.uploads - {id} && t.db.entries == s.db.entries[id := entry]
    ensures Counted(t, stored + 1, waiting - 1)
  {
    MapRemove(s.uploads, id);
    MapAdd(s.db.entries, id, entry);
  }

  lemma BeginEffect(s: System, e: Event)
    requires e.Begin? && Enabled(s, e)
    ensures var t := Step(s, e);
            && t.db == s.db && t.usedIds == s.usedIds + {e.id}
            && t.uploads == s.uploads[e.id := Upload(e.full, e.chunkSize, 0, false, e.link, e.owner)]
  {
    hide IsActive;
  }

  // A waiting request sends its byte, closes and inserts its entry.
  function FinishEvents(id: Id, meta: Metadata): seq<Event> {
    [Accept(id, 1), Close(id), Commit(id, meta, EARLIEST, EXPIRY)]
  }

  lemma FinishEffect(s: System, id: Id, meta: Metadata)
    requires id in s.uploads && s.uploads[id] == WAITING && LINK in s.db.links && s.db.links[LINK].owner == Some(1)
    ensures var events := FinishEvents(id, meta);
            && IsRun(s, events) && NoBegin(events)
            && var t := Run(s, events);
            && t.db.links == s.db.links && t.usedIds == s.usedIds && t.uploads == s.uploads - {id}
            && t.db.entries == s.db.entries[id := Entry(meta, EARLIEST, EXPIRY, Some(LINK), Some(1))]
  {
    var events := FinishEvents(id, meta);
    hide IsRun, Run, Chunks.Pending;
    var s1 := Step(s, events[0]);
    var s2 := Step(s1, events[1]);
    var s3 := Step(s2, events[2]);
    assert events[1..][1..] == [events[2]] && events[1..][1..][1..] == [];
    RunNothing(s3);
    RunStep(s2, s3, events[1..][1..]);
    RunStep(s1, s2, events[1..]);
    RunStep(s, s1, events);
    assert s3.uploads == s.uploads - {id};
  }

  predicate NoBegin(events: seq<Event>) { forall i :: 0 <= i < |events| ==> !events[i].Begin? }

  lemma {:induction false} NoBeginOverlaps(s: System, events: seq<Event>, k: nat)
    requires IsRun(s, events) && NoBegin(events)
    ensures OverlapRun(s, events, k)
    decreases |events|
  {
    hide Step, Enabled;
    if events != [] {
      NoBeginOverlaps(Step(s, events[0]), events[1..], k);
    }
  }

  // One run after another.
  lemma {:induction false} RunAppend(s: System, a: seq<Event>, b: seq<Event>, k: nat)
    requires IsRun(s, a) && OverlapRun(s, a, k) && IsRun(Run(s, a), b) && OverlapRun(Run(s, a), b, k)
    ensures IsRun(s, a + b) && OverlapRun(s, a + b, k) && Run(s, a + b) == Run(Run(s, a), b)
    decreases |a|
  {
    hide Step, Enabled, Overlap;
    if a == [] {
      assert a + b == b;
    } else {
      assert (a + b)[1..] == a[1..] + b;
      RunAppend(Step(s, a[0]), a[1..], b, k);
    }
  }

  lemma RunOne(s: System, e: Event, k: nat)
    requires Enabled(s, e) && Overlap(s, e, k)
    ensures IsRun(s, [e]) && OverlapRun(s, [e], k) && Run(s, [e]) == Step(s, e)
  {
    hide Step, Enabled, Overlap;
    assert [e][1..] == [];
  }

  // A run with at most k requests overlapping, from s to such a state.
  ghost predicate Leads(s: System, events: seq<Event>, k: nat, m: int, stored: nat, waiting: nat) {
    IsRun(s, events) && OverlapRun(s, events, k) && At(Run(s, events), m, stored, waiting)
  }

  lemma LeadsOn(s: System, a: seq<Event>, b: seq<Event>, k: nat, m: int, i: nat, j: nat, x: nat, y: nat)
    requires Leads(s, a, k, m, i, j) && Leads(Run(s, a), b, k, m, x, y)
    ensures Leads(s, a + b, k, m, x, y)
  {
    hide At, IsRun, OverlapRun, Run;
    RunAppend(s, a, b, k);
  }

  lemma LeadsNowhere(s: System, k: nat, m: int, i: nat, j: nat)
    requires At(s, m, i, j)
    ensures Leads(s, [], k, m, i, j)
  {
    hide At;
  }

  lemma LeadsAt(s: System, events: seq<Event>, k: nat, m: int, i: nat, j: nat)
    requires Leads(s, events, k, m, i, j)
    ensures IsRun(s, events) && At(Run(s, events), m, i, j)
  {}

  lemma BeginLeads(s: System, m: int, stored: nat, waiting: nat, k: nat) returns (events: seq<Event>)
    requires At(s, m, stored, waiting) && stored < m && waiting < k
    ensures Leads(s, events, k, m, stored, waiting + 1)
  {
    var e := BeginEvent(stored + waiting);
    hide At, IsRun, OverlapRun, Run, Step, Enabled, Pending;
    AtCounts(s, m, stored, waiting);
    MayBegin(s, m, stored, waiting);
    BeginEffect(s, e);
    AtGrown(s, Step(s, e), m, stored, waiting);
    RunOne(s, e, k);
    events := [e];
  }

  lemma FinishLeads(s: System, m: int, stored: nat, waiting: nat, k: nat, meta: Metadata) returns (events: seq<Event>)
    requires At(s, m, stored, waiting) && waiting > 0
    ensures Leads(s, events, k, m, stored + 1, waiting - 1)
  {
    hide IsRun, OverlapRun, Run, FinishEvents, NoBegin;
    var id :| id in s.uploads.Keys;
    events := FinishEvents(id, meta);
    FinishEffect(s, id, meta);
    hide At;
    AtMoved(s, Run(s, events), m, stored, waiting, id, Entry(meta, EARLIEST, EXPIRY, Some(LINK), Some(1)));
    NoBeginOverlaps(s, events, k);
  }

  // n requests one after another.
  lemma {:induction false} OneByOne(s: System, m: int, n: nat, k: nat, meta: Metadata) returns (events: seq<Event>)
    requires At(s, m, 0, 0) && n < m && k > 0
    ensures Leads(s, events, k, m, n, 0)
  {
    hide *;
    if n == 0 {
      events := [];
      LeadsNowhere(s, k, m, 0, 0);
    } else {
      var before := OneByOne(s, m, n - 1, k, meta);
      LeadsAt(s, before, k, m, n - 1, 0);
      var begin := BeginLeads(Run(s, before), m, n - 1, 0, k);
      LeadsOn(s, before, begin, k, m, n - 1, 0, n - 1, 1);
      var begun := before + begin;
      LeadsAt(s, begun, k, m, n - 1, 1);
      var finish := FinishLeads(Run(s, begun), m, n - 1, 1, k, meta);
      LeadsOn(s, begun, finish, k, m, n - 1, 1, n, 0);
      events := begun + finish;
    }
  }

  // n requests that all pass the check before any of them inserts.
  lemma {:induction false} AllBegin(s: System, m: int, stored: nat, n: nat, k: nat) returns (events: seq<Event>)
    requires At(s, m, stored, 0) && stored < m && n <= k
    ensures Leads(s, events, k, m, stored, n)
  {
    hide *;
    if n == 0 {
      events := [];
      LeadsNowhere(s, k, m, stored, 0);
    } else {
      var before := AllBegin(s, m, stored, n - 1, k);
      LeadsAt(s, before, k, m, stored, n - 1);
      var begin := BeginLeads(Run(s, before), m, stored, n - 1, k);
      LeadsOn(s, before, begin, k, m, stored, n - 1, stored, n);
      events := before + begin;
    }
  }

  lemma {:induction false} AllFinish(s: System, m: int, stored: nat, waiting: nat, k: nat, meta: Metadata)
    returns (events: seq<Event>)
    requires At(s, m, stored, waiting)
    ensures Leads(s, events, k, m, stored + waiting, 0)
    decreases waiting
  {
    hide *;
    if waiting == 0 {
      events := [];
      LeadsNowhere(s, k, m, stored, 0);
    } else {
      var first := FinishLeads(s, m, stored, waiting, k, meta);
      LeadsAt(s, first, k, m, stored + 1, waiting - 1);
      var rest := AllFinish(Run(s, first), m, stored + 1, waiting - 1, k, meta);
      LeadsOn(s, first, rest, k, m, stored + 1, waiting - 1, stored + waiting, 0);
      events := first + rest;
    }
  }

  lemma CreateLeads(m: int, k: nat)
    requires m >= 1
    ensures Leads(EMPTY, [FirstUser(EARLIEST)] + [CreateLink(LINK, Row1(m))], k, m, 0, 0)
  {
    var login, e := FirstUser(EARLIEST), CreateLink(LINK, Row1(m));
    hide Run, IsRun, OverlapRun, KnownUser;
    FirstUserAdded(EARLIEST);
    var s := Step(EMPTY, login);
    RunOne(EMPTY, login, k);
    RunOne(s, e, k);
    RunAppend(EMPTY, [login], [e], k);
    assert Step(s, e).uploads == map[];
  }

  // A run from the empty store, with at most k requests overlapping, after which
  // a link of limit m has n entries.
  ghost predicate Fills(events: seq<Event>, k: nat, m: int, n: nat) {
    && IsRun(EMPTY, events) && OverlapRun(EMPTY, events, k)
    && var db := Run(EMPTY, events).db;
    LINK in db.links && db.links[LINK].maxUploads == Some(m) && |EntriesOn(db, LINK)| == n
  }

  lemma LeadsFills(events: seq<Event>, k: nat, m: int, n: nat)
    requires Leads(EMPTY, events, k, m, n, 0)
    ensures Fills(events, k, m, n)
  {
    hide IsRun, OverlapRun, Run;
    AtCounts(Run(EMPTY, events), m, n, 0);
  }

  lemma SerialLeads(m: int, k: nat, meta: Metadata) returns (events: seq<Event>)
    requires m >= 1 && k >= 1
    ensures Leads(EMPTY, events, k, m, m - 1, 0)
  {
    hide *;
    CreateLeads(m, k);
    var create := [FirstUser(EARLIEST)] + [CreateLink(LINK, Row1(m))];
    LeadsAt(EMPTY, create, k, m, 0, 0);
    var serial := OneByOne(Run(EMPTY, create), m, m - 1, k, meta);
    LeadsOn(EMPTY, create, serial, k, m, 0, 0, m - 1, 0);
    events := create + serial;
  }

  lemma BurstLeads(s: System, m: int, k: nat, meta: Metadata) returns (events: seq<Event>)
    requires m >= 1 && At(s, m, m - 1, 0)
    ensures Leads(s, events, k, m, m - 1 + k, 0)
  {
    hide *;
    var begin := AllBegin(s, m, m - 1, k, k);
    LeadsAt(s, begin, k, m, m - 1, k);
    var finish := AllFinish(Run(s, begin), m, m - 1, k, k, meta);
    LeadsOn(s, begin, finish, k, m, m - 1, k, m - 1 + k, 0);
    events := begin + finish;
  }

  // For every limit m and every k there is a run with at most k requests
  // overlapping, of non-empty files, that leaves m - 1 + k entries: m - 1
  // requests one by one, then k at once.
  lemma BoundReached(m: int, k: nat, meta: Metadata) returns (events: seq<Event>)
    requires m >= 1 && k >= 1
    ensures Fills(events, k, m, m - 1 + k)
  {
    hide *;
    var serial := SerialLeads(m, k, meta);
    LeadsAt(EMPTY, serial, k, m, m - 1, 0);
    var burst := BurstLeads(Run(EMPTY, serial), m, k, meta);
    LeadsOn(EMPTY, serial, burst, k, m, m - 1, 0, m - 1 + k, 0);
    events := serial + burst;
    LeadsFills(events, k, m, m - 1 + k);
  }

  // No link has more entries than its limit.
  ghost predicate LimitKept(db: Db) {
    forall l :: l in db.links && db.links[l].maxUploads.Some? ==> |EntriesOn(db, l)| <= db.links[l].maxUploads.value
  }

  ghost predicate OverlapAtMost(events: seq<Event>, k: nat) { IsRun(EMPTY, events) && OverlapRun(EMPTY, events, k) }

  // Limits are kept in every run with at most k requests overlapping if and only
  // if requests do not overlap at all.
  lemma LimitKeptExactly(k: nat)
    ensures (forall events :: OverlapAtMost(events, k) ==> LimitKept(Run(EMPTY, events).db)) <==> k <= 1
  {
    hide IsRun, Run, OverlapRun;
    if k <= 1 {
      forall events | OverlapAtMost(events, k) ensures LimitKept(Run(EMPTY, events).db) {
        forall l | l in Run(EMPTY, events).db.links { LimitNeverExceeded(events, k, l); }
      }
    } else {
      var events := BoundReached(1, k, Metadata("f", None, None));
      assert OverlapAtMost(events, k) && !LimitKept(Run(EMPTY, events).db);
    }
  }
}
