/** The expiration choices of the upload page against the cap the server
    enforces on uploads by users who are not administrators. */
module Lifetimes {
  import opened Wrappers
  import Calendar

  // Times and durations are counted in nanoseconds.
  type Time = int
  const HOUR: nat := 3600_000_000_000
  const DAY: nat := 24 * HOUR
  const DAYS_PER_YEAR: nat := 365

  datatype Lifetime = Lifetime(duration: nat)

  function InDays(days: nat): Lifetime { Lifetime(days * DAY) }

  const INFINITE := InDays(100 * DAYS_PER_YEAR)

  // Narrowed to sixteen bits.
  function Days(lt: Lifetime): nat { lt.duration / DAY % 0x1_0000 }

  // The last moment of the scale: an expiration that means never.
  const NEVER: Time := Calendar.Civil(2999, 12, 31, 0, 0, 0).Seconds() * 1_000_000_000

  function ExpirationFrom(lt: Lifetime, t: Time): Time { if lt == INFINITE then NEVER else t + lt.duration }

  // What the settings page accepts: 1 to 3650 days, or no limit.
  predicate ValidSetting(lt: Lifetime) { lt == INFINITE || (lt == InDays(Days(lt)) && 1 <= Days(lt) <= 3650) }

  lemma DaysOf(days: nat)
    requires days < 0x1_0000
    ensures Days(InDays(days)) == days
  {}

  lemma SettingDays(lt: Lifetime)
    requires ValidSetting(lt)
    ensures lt == InDays(Days(lt)) && 1 <= Days(lt) <= 36500
    ensures lt != INFINITE ==> Days(lt) <= 3650
  {
    DaysOf(100 * DAYS_PER_YEAR);
  }

  // ---------- The choices ----------

  datatype Choice = Choice(lifetime: Lifetime, isDefault: bool)

  const BUILT_IN: seq<nat> := [1, 7, 30, DAYS_PER_YEAR, 100 * DAYS_PER_YEAR]

  predicate Distinct(choices: seq<Choice>) {
    forall i, j :: 0 <= i < j < |choices| ==> choices[i].lifetime != choices[j].lifetime
  }

  // The lifetimes on offer besides the default: the built-in ones when there is
  // no cap; every day up to a cap of at most 30 days; otherwise the built-in
  // ones within the cap, and the cap.
  predicate Offered(cap: Option<Lifetime>, lt: Lifetime) {
    var d := Days(lt);
    lt == InDays(d) &&
      match cap
      case None => d in BUILT_IN
      case Some(c) =>
        if Days(c) <= 30 then 1 <= d <= Days(c) else (d in BUILT_IN && d <= Days(c)) || d == Days(c)
  }

  // The smaller of the default and the cap.
  function DefaultChoice(cap: Option<Lifetime>, default: Lifetime): Lifetime {
    if cap.Some? && default.duration > cap.value.duration then cap.value else default
  }

  function BuiltInChoices(): seq<Choice> {
    [Choice(InDays(1), false), Choice(InDays(7), false), Choice(InDays(30), false),
     Choice(InDays(DAYS_PER_YEAR), false), Choice(INFINITE, false)]
  }

  // One choice, not the default, for every lifetime on offer and no other.
  ghost predicate Plain(choices: seq<Choice>, cap: Option<Lifetime>) {
    && Distinct(choices)
    && (forall c :: c in choices ==> !c.isDefault)
    && (forall lt: Lifetime :: Offered(cap, lt) <==> Choice(lt, false) in choices)
  }

  lemma BuiltInPlain()
    ensures Plain(BuiltInChoices(), None)
  {
    DaysOf(1); DaysOf(7); DaysOf(30); DaysOf(DAYS_PER_YEAR); DaysOf(100 * DAYS_PER_YEAR);
  }

  // Every day up to the cap.
  method DenseChoices(cap: Lifetime) returns (capped: seq<Choice>)
    requires Days(cap) <= 30
    ensures Plain(capped, Some(cap))
  {
    hide Plain, InDays, Days;
    var capDays := Days(cap);
    capped := [];
    var d := 1;
    while d <= capDays
      invariant 1 <= d <= capDays + 1 && |capped| == d - 1
      invariant forall i :: 0 <= i < d - 1 ==> capped[i] == Choice(InDays(i + 1), false)
    {
      capped := capped + [Choice(InDays(d), false)];
      d := d + 1;
    }
    DensePlain(cap, capped);
  }

  lemma DensePlain(cap: Lifetime, capped: seq<Choice>)
    requires Days(cap) <= 30 && |capped| == Days(cap)
    requires forall i :: 0 <= i < |capped| ==> capped[i] == Choice(InDays(i + 1), false)
    ensures Plain(capped, Some(cap))
  {
    forall lt: Lifetime ensures Offered(Some(cap), lt) <==> Choice(lt, false) in capped {
      if Offered(Some(cap), lt) {
        assert capped[Days(lt) - 1] == Choice(lt, false);
      } else if Choice(lt, false) in capped {
        var i :| 0 <= i < |capped| && capped[i] == Choice(lt, false);
        DaysOf(i + 1);
      }
    }
  }

  // The built-in choices within the cap.
  method WithinCap(capDays: nat) returns (capped: seq<Choice>)
    ensures Distinct(capped)
    ensures forall c :: c in capped <==> c in BuiltInChoices() && Days(c.lifetime) <= capDays
  {
    var builtIn := BuiltInChoices();
    BuiltInPlain();
    hide BuiltInChoices, Days, Offered;
    capped := [];
    for i := 0 to |builtIn|
      invariant Distinct(capped)
      invariant forall c :: c in capped <==> c in builtIn[..i] && Days(c.lifetime) <= capDays
    {
      assert builtIn[..i + 1] == builtIn[..i] + [builtIn[i]];
      if Days(builtIn[i].lifetime) <= capDays {
        Extend(builtIn, i, capped);
        capped := capped + [builtIn[i]];
      }
    }
    assert builtIn[..|builtIn|] == builtIn;
  }

  // Appending the next built-in choice keeps the lifetimes distinct.
  lemma Extend(builtIn: seq<Choice>, i: nat, capped: seq<Choice>)
    requires i < |builtIn| && Distinct(builtIn) && Distinct(capped)
    requires forall c :: c in capped ==> c in builtIn[..i]
    ensures Distinct(capped + [builtIn[i]])
  {
    forall k | 0 <= k < |capped| ensures capped[k].lifetime != builtIn[i].lifetime {
      assert capped[k] in builtIn[..i];
    }
  }

  // The built-in choices within the cap, and the cap.
  method SparseChoices(cap: Lifetime) returns (capped: seq<Choice>)
    requires 30 < Days(cap) && cap == InDays(Days(cap))
    ensures Plain(capped, Some(cap))
  {
    var capDays := Days(cap);
    capped := WithinCap(capDays);
    ghost var within := capped;
    var hasCap := false;
    for i := 0 to |capped|
      invariant hasCap <==> exists k :: 0 <= k < i && Days(capped[k].lifetime) == capDays
    {
      if Days(capped[i].lifetime) == capDays {
        hasCap := true;
        break;
      }
    }
    if !hasCap {
      capped := capped + [Choice(cap, false)];
    }
    SparsePlain(cap, within, capped);
  }

  lemma SparsePlain(cap: Lifetime, within: seq<Choice>, capped: seq<Choice>)
    requires 30 < Days(cap) && cap == InDays(Days(cap))
    requires Distinct(within)
    requires forall c :: c in within <==> c in BuiltInChoices() && Days(c.lifetime) <= Days(cap)
    requires if exists c :: c in within && Days(c.lifetime) == Days(cap) then capped == within
             else capped == within + [Choice(cap, false)]
    ensures Plain(capped, Some(cap))
  {
    BuiltInPlain();
    hide BuiltInChoices, Days, InDays;
    forall c | c in within ensures c == Choice(c.lifetime, false) && Offered(None, c.lifetime) {
      assert c in BuiltInChoices();
    }
    if c :| c in within && Days(c.lifetime) == Days(cap) {
      assert c == Choice(cap, false);
    }
    forall lt: Lifetime ensures Offered(Some(cap), lt) <==> Choice(lt, false) in capped {
      assert Offered(Some(cap), lt) <==> (Offered(None, lt) && Days(lt) <= Days(cap)) || lt == cap;
      assert Choice(lt, false) in within <==> Offered(None, lt) && Days(lt) <= Days(cap);
    }
  }

  // The library's sort with the source's comparison, which holds only between
  // equal lifetimes: any order may result, and only that nothing is lost counts.
  method SortSlice(choices: seq<Choice>) returns (sorted: seq<Choice>)
    ensures multiset(sorted) == multiset(choices)
  {
    sorted := choices;
    for i := 0 to |choices|
      invariant |sorted| == |choices| && multiset(sorted) == multiset(choices)
    {
      var j := i;
      while j > 0 && sorted[j].lifetime == sorted[j - 1].lifetime
        invariant 0 <= j <= i && |sorted| == |choices| && multiset(sorted) == multiset(choices)
      {
        sorted := sorted[j := sorted[j - 1]][j - 1 := sorted[j]];
        j := j - 1;
      }
    }
  }

  lemma {:induction false} OnceEach(a: seq<Choice>)
    requires Distinct(a)
    ensures forall c :: multiset(a)[c] <= 1
  {
    if a != [] {
      var n := |a| - 1;
      OnceEach(a[..n]);
      assert a == a[..n] + [a[n]];
      assert forall c :: c in a[..n] ==> c.lifetime != a[n].lifetime;
      assert a[n] !in multiset(a[..n]);
    }
  }

  lemma SameMembers(a: seq<Choice>, b: seq<Choice>, c: Choice)
    requires multiset(a) == multiset(b)
    ensures c in a <==> c in b
  {
    assert c in a <==> c in multiset(a);
    assert c in b <==> c in multiset(b);
  }

  lemma {:induction false} NoneTwice(b: seq<Choice>)
    requires forall c :: multiset(b)[c] <= 1
    ensures forall i, j :: 0 <= i < j < |b| ==> b[i] != b[j]
  {
    if b != [] {
      var n := |b| - 1;
      assert b == b[..n] + [b[n]];
      assert forall c :: multiset(b[..n])[c] <= multiset(b)[c];
      NoneTwice(b[..n]);
      assert multiset(b[..n])[b[n]] == 0;
      forall i | 0 <= i < n ensures b[i] != b[n] {
        assert b[i] == b[..n][i] && b[i] in multiset(b[..n]);
      }
      assert forall i :: 0 <= i < n ==> b[i] == b[..n][i];
    }
  }

  lemma PermutedDistinct(a: seq<Choice>, b: seq<Choice>)
    requires Distinct(a) && multiset(a) == multiset(b)
    ensures Distinct(b)
  {
    OnceEach(a);
    NoneTwice(b);
    forall i, j | 0 <= i < j < |b| ensures b[i].lifetime != b[j].lifetime {
      SameMembers(a, b, b[i]);
      SameMembers(a, b, b[j]);
    }
  }

  // Marks the default in place, or adds it when no choice has its lifetime.
  method MarkDefault(plain: seq<Choice>, cap: Option<Lifetime>, default: Lifetime) returns (choices: seq<Choice>)
    requires Plain(plain, cap)
    ensures Distinct(choices)
    ensures forall lt, isDefault :: Choice(lt, isDefault) in choices <==>
              (Offered(cap, lt) || lt == default) && isDefault == (lt == default)
  {
    choices := plain;
    var builtIn := false;
    hide Offered;
    for i := 0 to |choices|
      invariant |choices| == |plain|
      invariant forall k :: 0 <= k < |plain| ==>
        choices[k] == Choice(plain[k].lifetime, k < i && plain[k].lifetime == default)
      invariant builtIn <==> exists k :: 0 <= k < i && plain[k].lifetime == default
    {
      if choices[i].lifetime == default {
        choices := choices[i := choices[i].(isDefault := true)];
        builtIn := true;
      }
    }
    if !builtIn {
      ghost var added := choices + [Choice(default, true)];
      choices := SortSlice(choices + [Choice(default, true)]);
      PermutedDistinct(added, choices);
      forall c ensures c in choices <==> c in added { SameMembers(added, choices, c); }
    }
  }

  // The cap that applies to a user, if any.
  function CapFor(isAdmin: bool, max: Lifetime): Option<Lifetime> {
    if isAdmin || max == INFINITE then None else Some(max)
  }

  ghost predicate PageChoices(choices: seq<Choice>, cap: Option<Lifetime>, default: Lifetime) {
    var best := DefaultChoice(cap, default);
    && Distinct(choices)
    && forall lt, isDefault :: Choice(lt, isDefault) in choices <==>
         (Offered(cap, lt) || lt == best) && isDefault == (lt == best)
  }

  // The page offers each lifetime once, with exactly one default: the default
  // of the settings, or the cap when that is smaller.
  method BuildChoices(isAdmin: bool, max: Lifetime, default: Lifetime) returns (choices: seq<Choice>)
    requires ValidSetting(max) && ValidSetting(default)
    ensures PageChoices(choices, CapFor(isAdmin, max), default)
  {
    hide Plain, Offered, Distinct, BuiltInChoices, Days, InDays, ValidSetting;
    SettingDays(max);
    DaysCompare(default, max);
    var hasCap := !isAdmin && max != INFINITE;
    var plain := BuiltInChoices();
    if hasCap {
      if Days(max) <= 30 {
        plain := DenseChoices(max);
      } else {
        plain := SparseChoices(max);
      }
    } else {
      BuiltInPlain();
    }
    var chosen := default;
    if hasCap && Days(default) > Days(max) {
      chosen := max;
    }
    choices := MarkDefault(plain, CapFor(isAdmin, max), chosen);
  }

  lemma DaysCompare(a: Lifetime, b: Lifetime)
    requires ValidSetting(a) && ValidSetting(b)
    ensures Days(a) > Days(b) <==> a.duration > b.duration
  {
    SettingDays(a);
    SettingDays(b);
    hide Days;
  }

  // What a user under a cap is offered: nothing above the cap, the cap itself,
  // and exactly one default.
  lemma CappedChoices(choices: seq<Choice>, max: Lifetime, default: Lifetime)
    requires ValidSetting(max) && ValidSetting(default) && max != INFINITE
    requires PageChoices(choices, Some(max), default)
    ensures forall c :: c in choices ==> c.lifetime.duration <= max.duration && c.lifetime != INFINITE
    ensures exists c :: c in choices && c.lifetime == max
    ensures exists k :: 0 <= k < |choices| && choices[k].lifetime == DefaultChoice(Some(max), default)
              && forall i :: 0 <= i < |choices| ==> (choices[i].isDefault <==> i == k)
  {
    var best := DefaultChoice(Some(max), default);
    SettingDays(max);
    SettingDays(default);
    forall c | c in choices ensures c.lifetime.duration <= max.duration && c.lifetime != INFINITE {
      assert c == Choice(c.lifetime, c.isDefault);
    }
    assert Offered(Some(max), max);
    assert Choice(max, max == best) in choices && Choice(max, max == best).lifetime == max;
    assert Choice(best, true) in choices;
    var k :| 0 <= k < |choices| && choices[k] == Choice(best, true);
    forall i | 0 <= i < |choices| ensures choices[i].isDefault <==> i == k {
      assert choices[i] == Choice(choices[i].lifetime, choices[i].isDefault);
    }
  }

  // ---------- Expirations ----------

  // What the page carries for each choice, with the custom date last.
  datatype ExpirationOption = At(expiration: Time, isDefault: bool) | Custom

  // The clock is read once per choice.
  method BuildExpirations(choices: seq<Choice>, clock: seq<Time>) returns (options: seq<ExpirationOption>)
    requires |clock| == |choices|
    ensures |options| == |choices| + 1 && options[|choices|] == Custom
    ensures forall i :: 0 <= i < |choices| ==>
              options[i] == At(if choices[i].lifetime == INFINITE then NEVER
                               else clock[i] + choices[i].lifetime.duration,
                               choices[i].isDefault)
  {
    options := [];
    for i := 0 to |choices|
      invariant |options| == i
      invariant forall k :: 0 <= k < i ==>
        options[k] == At(ExpirationFrom(choices[k].lifetime, clock[k]), choices[k].isDefault)
    {
      var expiration := ExpirationFrom(choices[i].lifetime, clock[i]);
      if choices[i].lifetime == INFINITE {
        expiration := NEVER;
      }
      options := options + [At(expiration, choices[i].isDefault)];
    }
    options := options + [Custom];
  }

  // The check of the server on an upload's expiration.
  predicate WithinMax(isAdmin: bool, max: Lifetime, expiration: Time, now: Time) {
    isAdmin || max == INFINITE || !(expiration == NEVER || expiration > ExpirationFrom(max, now))
  }

  // The upload handler refuses a time less than an hour ahead, then applies the cap.
  predicate AcceptsUpload(isAdmin: bool, max: Lifetime, expiration: Time, now: Time) {
    expiration - now >= HOUR && WithinMax(isAdmin, max, expiration, now)
  }

  // Whatever the page offered, sent back at any later time, is accepted exactly
  // when it is still an hour ahead and, under a cap, not the sentinel.  Cutting
  // the time to the second on the way only lowers it.
  lemma OfferAccepted(choices: seq<Choice>, max: Lifetime, default: Lifetime, i: nat,
                      shown: Time, sent: Time, now: Time)
    requires ValidSetting(max) && ValidSetting(default)
    requires PageChoices(choices, CapFor(false, max), default)
    requires i < |choices| && shown <= now && sent <= ExpirationFrom(choices[i].lifetime, shown)
    ensures AcceptsUpload(false, max, sent, now) <==>
              sent - now >= HOUR && (max == INFINITE || sent != NEVER)
  {
    if max != INFINITE {
      CappedChoices(choices, max, default);
      assert choices[i] in choices;
    }
  }

  // Under a cap nothing is accepted that was not offered for: an accepted time is
  // no later than some choice allows, and so no later than the cap.
  lemma CapEnforced(choices: seq<Choice>, max: Lifetime, default: Lifetime, sent: Time, now: Time)
    requires ValidSetting(max) && ValidSetting(default) && max != INFINITE
    requires PageChoices(choices, Some(max), default) && AcceptsUpload(false, max, sent, now)
    ensures sent <= now + max.duration && sent != NEVER
    ensures exists c :: c in choices && sent <= now + c.lifetime.duration
  {
    CappedChoices(choices, max, default);
    var c :| c in choices && c.lifetime == max;
  }

  // A whole number of days ahead is accepted exactly from one day to the cap.
  lemma DaysAccepted(max: Lifetime, days: int, now: Time)
    requires ValidSetting(max) && max != INFINITE && now + days * DAY != NEVER
    ensures AcceptsUpload(false, max, now + days * DAY, now) <==> 1 <= days <= Days(max)
  {
    SettingDays(max);
    hide Days;
    assert max.duration == Days(max) * DAY;
    if days <= 0 {
      assert days * DAY <= 0;
    }
  }

  // Administrators, and everybody where there is no cap, may keep a file for any
  // time from an hour on, and forever.
  lemma Uncapped(isAdmin: bool, max: Lifetime, sent: Time, now: Time)
    requires isAdmin || max == INFINITE
    ensures AcceptsUpload(isAdmin, max, sent, now) <==> sent >= now + HOUR
  {}

  // ---------- What is offered, in days ----------

  predicate OffersDays(choices: seq<Choice>, days: nat) {
    exists c :: c in choices && c.lifetime.duration == days * (24 * HOUR)
  }

  lemma OffersIff(choices: seq<Choice>, cap: Option<Lifetime>, default: Lifetime, days: nat)
    requires PageChoices(choices, cap, default) && days < 0x1_0000
    ensures OffersDays(choices, days) <==> Offered(cap, InDays(days)) || InDays(days) == DefaultChoice(cap, default)
  {
    hide Offered, Days;
    var lt, best := InDays(days), DefaultChoice(cap, default);
    if OffersDays(choices, days) {
      var c :| c in choices && c.lifetime.duration == days * (24 * HOUR);
      assert c == Choice(c.lifetime, c.isDefault) && c.lifetime == lt;
    }
    if Offered(cap, lt) || lt == best {
      assert Choice(lt, lt == best) in choices;
    }
  }

  // Under a cap of at most 30 days: every day up to it.
  lemma EveryDayOffered(choices: seq<Choice>, cap: nat, default: nat, days: nat)
    requires 1 <= cap <= 30 && 1 <= default <= 36500 && days < 0x1_0000
    requires PageChoices(choices, Some(InDays(cap)), InDays(default))
    ensures OffersDays(choices, days) <==> 1 <= days <= cap
  {
    OffersIff(choices, Some(InDays(cap)), InDays(default), days);
    DaysOf(cap);
    DaysOf(days);
    DaysOf(default);
    hide Days;
  }

  // Under a longer one: a day, a week, a month and a year as far as they are
  // within it, the cap, and the default if that is smaller.
  lemma FewOffered(choices: seq<Choice>, cap: nat, default: nat, days: nat)
    requires 30 < cap <= 3650 && 1 <= default <= 36500 && days < 0x1_0000
    requires PageChoices(choices, Some(InDays(cap)), InDays(default))
    ensures OffersDays(choices, days) <==>
      (days in {1, 7, 30, 365} && days <= cap) || days == cap || (days == default && default <= cap)
  {
    OffersIff(choices, Some(InDays(cap)), InDays(default), days);
    DaysOf(cap);
    DaysOf(days);
    DaysOf(default);
    hide Days;
  }

  // Without one: these, forever, and the default.
  lemma AllOffered(choices: seq<Choice>, default: nat, days: nat)
    requires 1 <= default <= 36500 && days < 0x1_0000
    requires PageChoices(choices, None, InDays(default))
    ensures OffersDays(choices, days) <==> days in {1, 7, 30, 365, 36500} || days == default
  {
    OffersIff(choices, None, InDays(default), days);
    DaysOf(days);
    DaysOf(default);
    hide Days;
  }

  // The choice marked is the default of the settings, or the cap if that is
  // smaller; no other choice is.
  lemma MarkedIsSmaller(choices: seq<Choice>, cap: nat, default: nat, c: Choice)
    requires 1 <= cap <= 3650 && 1 <= default <= 36500
    requires PageChoices(choices, Some(InDays(cap)), InDays(default)) && c in choices
    ensures c.isDefault <==> c.lifetime.duration == (if default < cap then default else cap) * (24 * HOUR)
  {
    assert c == Choice(c.lifetime, c.isDefault);
  }
}
