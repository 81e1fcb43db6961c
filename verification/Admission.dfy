/** Which guest uploads are let in, told from the events alone. */
module Admission {
  import opened Wrappers
  import opened Chunks
  import opened Tables
  import opened Runs

  // What a guest can know of a link: its limit, its expiration, and whether it is
  // switched off.
  datatype Offer = Offer(limit: Option<int>, expires: Option<Time>, off: bool)

  function Offered(o: Option<Offer>, e: Event, link: LinkId): Option<Offer> {
    match e
    case CreateLink(l, row) => if l == link then Some(Offer(row.maxUploads, row.urlExpires, row.disabled)) else o
    case SwitchLink(l, off) => if l == link && o.Some? then Some(o.value.(off := off)) else o
    case RemoveLink(l) => if l == link then None else o
    case _ => o
  }

  function OfferAfter(o: Option<Offer>, events: seq<Event>, link: LinkId): Option<Offer>
    decreases |events|
  {
    if events == [] then o else OfferAfter(Offered(o, events[0], link), events[1..], link)
  }

  // The IDs drawn so far.
  function Drawn(events: seq<Event>): set<Id> { set i | 0 <= i < |events| && events[i].Begin? :: events[i].id }

  predicate Stands(s: System, link: LinkId, o: Option<Offer>) {
    if link in s.db.links then
      var l := s.db.links[link]; link in s.usedLinks && o == Some(Offer(l.maxUploads, l.urlExpires, l.disabled))
    else o == None
  }

  lemma StepStands(s: System, e: Event, link: LinkId, o: Option<Offer>)
    requires Stands(s, link, o) && Enabled(s, e)
    ensures Stands(Step(s, e), link, Offered(o, e, link))
  {
    hide Step, Offered;
    if e.CreateLink? || e.RemoveLink? || e.SwitchLink? || e.Login? {
      LinkStands(s, e, link, o);
    } else {
      OthersStand(s, e, link, o);
    }
  }

  lemma LinkStands(s: System, e: Event, link: LinkId, o: Option<Offer>)
    requires Stands(s, link, o) && Enabled(s, e) && (e.CreateLink? || e.RemoveLink? || e.SwitchLink? || e.Login?)
    ensures Stands(Step(s, e), link, Offered(o, e, link))
  {
    hide IsActive;
  }

  lemma OthersStand(s: System, e: Event, link: LinkId, o: Option<Offer>)
    requires Stands(s, link, o) && Enabled(s, e) && !(e.CreateLink? || e.RemoveLink? || e.SwitchLink? || e.Login?)
    ensures Stands(Step(s, e), link, Offered(o, e, link))
  {
    hide IsActive, DropRows, KeepRows, DropDownloads, DropOlder, Admins, Chunks.Pending;
  }

  lemma {:induction false} RunStands(s: System, events: seq<Event>, link: LinkId, o: Option<Offer>)
    requires Stands(s, link, o) && IsRun(s, events)
    ensures Stands(Run(s, events), link, OfferAfter(o, events, link))
    decreases |events|
  {
    hide Stands, Step, Enabled, Offered;
    if events != [] {
      StepStands(s, events[0], link, o);
      RunStands(Step(s, events[0]), events[1..], link, Offered(o, events[0], link));
    }
  }

  lemma StepDraws(s: System, e: Event)
    requires Enabled(s, e)
    ensures Step(s, e).usedIds == s.usedIds + if e.Begin? then {e.id} else {}
  {
    hide IsActive, DropRows, KeepRows, DropDownloads, DropOlder, Admins, Chunks.Pending;
  }

  lemma {:induction false} RunDraws(s: System, events: seq<Event>)
    requires IsRun(s, events)
    ensures Run(s, events).usedIds == s.usedIds + Drawn(events)
    decreases |events|
  {
    hide Step, Enabled;
    if events != [] {
      StepDraws(s, events[0]);
      RunDraws(Step(s, events[0]), events[1..]);
      DrawnFirst(events);
    }
  }

  lemma DrawnFirst(events: seq<Event>)
    requires events != []
    ensures Drawn(events) == (if events[0].Begin? then {events[0].id} else {}) + Drawn(events[1..])
  {
    var rest := events[1..];
    forall id | id in Drawn(events) ensures id in (if events[0].Begin? then {events[0].id} else {}) + Drawn(rest) {
      var i :| 0 <= i < |events| && events[i].Begin? && events[i].id == id;
      if i > 0 { assert rest[i - 1] == events[i]; }
    }
    forall id | id in Drawn(rest) ensures id in Drawn(events) {
      var i :| 0 <= i < |rest| && rest[i].Begin? && rest[i].id == id;
      assert events[i + 1] == rest[i];
    }
  }

  // After every run: a guest's upload under a fresh ID is let in if and only if
  // the link was created and not removed, is switched on, has not expired, and
  // has fewer entries than its limit.
  lemma LetInExactly(events: seq<Event>, e: Event, link: LinkId)
    requires IsRun(EMPTY, events) && e.Begin? && e.link == Some(link)
    requires e.id !in Drawn(events) && e.chunkSize > 0 && e.full != [] && e.owner.None?
    ensures var s, offer := Run(EMPTY, events), OfferAfter(None, events, link);
      Enabled(s, e) <==>
        && offer.Some? && !offer.value.off
        && (offer.value.expires.Some? ==> e.now <= offer.value.expires.value)
        && (offer.value.limit.Some? ==>
              |set id | id in s.db.entries && s.db.entries[id].link == Some(link)| < offer.value.limit.value)
  {
    hide IsRun, Run, OfferAfter, Drawn;
    RunStands(EMPTY, events, link, None);
    RunDraws(EMPTY, events);
  }

  // The time up to which a link takes uploads is the one it was created with.
  lemma {:induction false} RunExpires(s: System, link: LinkId, t: Time, events: seq<Event>)
    requires IsRun(s, events) && ExpiresAt(s, link, t)
    ensures ExpiresAt(Run(s, events), link, t)
    decreases |events|
  {
    hide ExpiresAt, Step, Enabled;
    if events != [] {
      StepExpires(s, link, t, events[0]);
      RunExpires(Step(s, events[0]), link, t, events[1..]);
    }
  }

  predicate ExpiresAt(s: System, link: LinkId, t: Time) {
    link in s.usedLinks && (link in s.db.links ==> s.db.links[link].urlExpires == Some(t))
  }

  lemma StepExpires(s: System, link: LinkId, t: Time, e: Event)
    requires ExpiresAt(s, link, t) && Enabled(s, e)
    ensures ExpiresAt(Step(s, e), link, t)
  {
    hide IsActive, DropRows, KeepRows, DropDownloads, DropOlder, Admins, Chunks.Pending;
  }

  // An expired link accepts no upload, whatever happened since it was created.
  lemma ExpiredForGood(s: System, link: LinkId, row: Link, events: seq<Event>, e: Event)
    requires Enabled(s, CreateLink(link, row)) && IsRun(Step(s, CreateLink(link, row)), events)
    requires row.urlExpires.Some? && e.Begin? && e.link == Some(link) && e.now > row.urlExpires.value
    ensures !Enabled(Run(Step(s, CreateLink(link, row)), events), e)
  {
    RunExpires(Step(s, CreateLink(link, row)), link, row.urlExpires.value, events);
  }
}
