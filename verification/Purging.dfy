/** What the periodic purge keeps, and that purges compose. */
module Purging {
  import opened Wrappers
  import opened Chunks
  import opened Tables
  import Timestamps

  lemma {:induction false} KeepAfterDrop(rows: seq<Row>, a: set<Id>, b: set<Id>)
    requires a !! b
    ensures KeepRows(DropRows(rows, a), b) == KeepRows(rows, b)
  {
    if rows != [] {
      var n := |rows| - 1;
      KeepAfterDrop(rows[..n], a, b);
      var front := DropRows(rows[..n], a);
      if rows[n].id in a {
        assert DropRows(rows, a) == front;
      } else {
        assert (front + [rows[n]])[..|front|] == front;
      }
    }
  }

  lemma {:induction false} KeepTwice(rows: seq<Row>, a: set<Id>, b: set<Id>)
    requires b <= a
    ensures KeepRows(KeepRows(rows, a), b) == KeepRows(rows, b)
  {
    if rows != [] {
      var n := |rows| - 1;
      KeepTwice(rows[..n], a, b);
      var front := KeepRows(rows[..n], a);
      if rows[n].id in a {
        assert (front + [rows[n]])[..|front|] == front;
      } else {
        assert KeepRows(rows, a) == front;
      }
    }
  }

  // What survives in the downloads table; no cutoff when history is kept.
  function Surviving(ds: seq<Download>, ids: set<Id>, cutoff: Option<Time>): seq<Download> {
    var left := DropDownloads(ds, ids);
    if cutoff.None? then left else DropOlder(left, cutoff.value)
  }

  predicate Survives(d: Download, ids: set<Id>, cutoff: Option<Time>) {
    d.entry !in ids && (cutoff.Some? ==> d.time >= cutoff.value)
  }

  lemma SurvivingSnoc(ds: seq<Download>, d: Download, ids: set<Id>, cutoff: Option<Time>)
    ensures Surviving(ds + [d], ids, cutoff)
         == Surviving(ds, ids, cutoff) + if Survives(d, ids, cutoff) then [d] else []
  {
    assert (ds + [d])[..|ds|] == ds;
    var front := DropDownloads(ds, ids);
    if d.entry in ids {
      assert DropDownloads(ds + [d], ids) == front;
    } else {
      assert (front + [d])[..|front|] == front;
    }
  }

  lemma {:induction false} SurvivingTwice(ds: seq<Download>, a: set<Id>, b: set<Id>, c: Option<Time>, c': Option<Time>)
    requires c.Some? ==> c'.Some? && c.value <= c'.value
    ensures Surviving(Surviving(ds, a, c), b, c') == Surviving(ds, a + b, c')
  {
    if ds != [] {
      var front, d := ds[..|ds| - 1], ds[|ds| - 1];
      assert ds == front + [d];
      SurvivingTwice(front, a, b, c, c');
      SurvivingSnoc(front, d, a, c);
      SurvivingSnoc(front, d, a + b, c');
      if Survives(d, a, c) {
        SurvivingSnoc(Surviving(front, a, c), d, b, c');
      } else {
        assert Surviving(ds, a, c) == Surviving(front, a, c);
      }
    }
  }

  lemma {:induction false} SurvivingMember(ds: seq<Download>, ids: set<Id>, cutoff: Option<Time>, d: Download)
    ensures d in Surviving(ds, ids, cutoff) <==> d in ds && Survives(d, ids, cutoff)
  {
    if ds != [] {
      var front, last := ds[..|ds| - 1], ds[|ds| - 1];
      assert ds == front + [last];
      SurvivingMember(front, ids, cutoff, d);
      SurvivingSnoc(front, last, ids, cutoff);
    }
  }

  function Cutoff(t: Time, retention: Option<nat>): Option<Time> {
    if retention.None? then None else Some(t - retention.value * SECONDS_PER_DAY)
  }

  // The purged tables, each described by what survives.
  lemma PurgeTables(db: Db, t: Time, retention: Option<nat>)
    ensures var after, expired := Purge(db, t, retention), ExpiredIds(db, t);
            && after.entries == db.entries - expired
            && after.chunks == KeepRows(db.chunks, db.entries.Keys - expired)
            && after.downloads == Surviving(db.downloads, expired, Cutoff(t, retention))
            && after.sessions == (map h | h in db.sessions && db.sessions[h].expires > t :: db.sessions[h])
            && after.links == db.links && after.users == db.users
  {
    var expired := ExpiredIds(db, t);
    KeepAfterDrop(db.chunks, expired, db.entries.Keys - expired);
    assert DeleteExpiredEntries(db, t).entries.Keys == db.entries.Keys - expired;
  }

  // Two purges leave the same tables as the later one alone.
  lemma PurgeComposes(db: Db, t1: Time, t2: Time, retention: Option<nat>)
    requires t1 <= t2
    ensures Purge(Purge(db, t1, retention), t2, retention) == Purge(db, t2, retention)
  {
    hide Purge;
    var mid, direct := Purge(db, t1, retention), Purge(db, t2, retention);
    var both := Purge(mid, t2, retention);
    PurgeTables(db, t1, retention);
    PurgeTables(mid, t2, retention);
    PurgeTables(db, t2, retention);
    var x1, x2, y := ExpiredIds(db, t1), ExpiredIds(db, t2), ExpiredIds(mid, t2);
    assert x1 + y == x2;
    assert both.entries == direct.entries;
    assert mid.entries.Keys - y == db.entries.Keys - x2;
    KeepTwice(db.chunks, db.entries.Keys - x1, db.entries.Keys - x2);
    SurvivingTwice(db.downloads, x1, y, Cutoff(t1, retention), Cutoff(t2, retention));
    assert both.sessions == direct.sessions;
  }

  // Nothing that is still wanted is lost: an entry that has not expired keeps
  // its row, all its chunks and its retained downloads; and exactly the expired
  // entries go, with all that belongs to them.
  lemma PurgeKeeps(db: Db, t: Time, retention: Option<nat>, id: Id)
    requires id in db.entries
    ensures var after, gone := Purge(db, t, retention), db.entries[id].expires < t;
            && (id in after.entries <==> !gone)
            && (!gone ==> after.entries[id] == db.entries[id])
            && RowsOf(after.chunks, id) == (if gone then [] else RowsOf(db.chunks, id))
            && forall d: Download :: d.entry == id ==>
                 (d in after.downloads <==>
                   d in db.downloads && !gone
                   && (retention.Some? ==> d.time >= t - retention.value * SECONDS_PER_DAY))
  {
    hide Purge;
    PurgeTables(db, t, retention);
    var after, expired := Purge(db, t, retention), ExpiredIds(db, t);
    KeepRowsOf(db.chunks, db.entries.Keys - expired, id);
    forall d: Download
      ensures d in after.downloads <==> d in db.downloads && Survives(d, expired, Cutoff(t, retention))
    {
      SurvivingMember(db.downloads, expired, Cutoff(t, retention), d);
    }
  }

  // No chunk is left without an entry.
  lemma PurgeLeavesNoOrphan(db: Db, t: Time, retention: Option<nat>, r: Row)
    requires r in Purge(db, t, retention).chunks
    ensures r.id in Purge(db, t, retention).entries
  {
    hide Purge;
    PurgeTables(db, t, retention);
    KeepRowsMember(db.chunks, db.entries.Keys - ExpiredIds(db, t), r);
  }

  // Nobody is logged out by a purge, then or later.
  lemma PurgeKeepsSessions(db: Db, t: Time, retention: Option<nat>, hash: Hash, now: Time)
    requires t <= now
    ensures GetSessionUser(Purge(db, t, retention), hash, now) == GetSessionUser(db, hash, now)
  {
    PurgeTables(db, t, retention);
  }

  function Stored(seconds: nat): Timestamps.Moment { Timestamps.Moment(seconds, 0) }

  // The database compares stored texts: as long as the years have four digits,
  // the entries it deletes are those that expire in an earlier second.
  lemma ExpiredByText(db: Db, now: Timestamps.Moment)
    requires Timestamps.Year(now) <= 9999
    requires forall id :: id in db.entries ==>
               db.entries[id].expires >= 0 && Timestamps.Year(Stored(db.entries[id].expires)) <= 9999
    ensures ExpiredIds(db, now.seconds) == set id | id in db.entries &&
              Timestamps.Less(Timestamps.Format(Stored(db.entries[id].expires)), Timestamps.Format(now))
  {
    hide Timestamps.Less, Timestamps.Format, Timestamps.Year;
    forall id | id in db.entries
      ensures db.entries[id].expires < now.seconds <==>
              Timestamps.Less(Timestamps.Format(Stored(db.entries[id].expires)), Timestamps.Format(now))
    {
      Timestamps.TextOrderIsTimeOrder(Stored(db.entries[id].expires), now);
    }
  }
}
