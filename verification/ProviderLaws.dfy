/** What every login comes back with, over every history. */
module ProviderLaws {
  import opened Wrappers
  import opened Fingerprints
  import opened ProviderCache

  // The login that discovered the provider in use, if any did: the last one whose
  // settings were new when discovery found something.
  function Built(logins: seq<Login>): Option<Login> {
    if logins == [] then None
    else
      var before, last := Built(logins[..|logins| - 1]), logins[|logins| - 1];
      if Configured(last) && !Shares(before, last) && last.discovery.Found? then Some(last) else before
  }

  predicate Configured(l: Login) { l.settings.Some? && l.settings.value.issuerURL != "" }

  predicate Shares(built: Option<Login>, l: Login) {
    && built.Some? && built.value.settings.Some? && l.settings.Some?
    && Fingerprint(built.value.settings.value) == Fingerprint(l.settings.value)
  }

  // The provider discovered at this login.
  predicate Discovered(l: Login, p: Provider) {
    && l.settings == Some(p.settings) && l.discovery == Found(p.endpoint) && p.fingerprint == Fingerprint(p.settings)
    && p.clientID == p.settings.clientID && p.clientSecret == p.settings.clientSecret
    && p.redirectURL == p.settings.redirectURL
  }

  predicate Holds(cache: Option<Provider>, built: Option<Login>) {
    if built.None? then cache.None? else Configured(built.value) && cache.Some? && Discovered(built.value, cache.value)
  }

  lemma {:induction false} CacheHolds(logins: seq<Login>)
    ensures Holds(CacheAfter(logins), Built(logins))
  {
    hide Fingerprint;
    if logins != [] { CacheHolds(logins[..|logins| - 1]); }
  }

  // Each outcome has its own cause, and the provider is the one in use or, with
  // settings that are new, the one just discovered.
  lemma OutcomeExact(logins: seq<Login>, i: nat)
    requires i < |logins|
    ensures var l, built, r := logins[i], Built(logins[..i]), OutcomeOf(logins, i);
      && (r.ReadFailed? <==> l.settings.None?)
      && (r.NotConfigured? <==> l.settings.Some? && !Configured(l))
      && (r.ClientFailed? <==> Configured(l) && !Shares(built, l) && l.discovery.BadCertificate?)
      && (r.DiscoveryFailed? <==> Configured(l) && !Shares(built, l) && l.discovery.Unreachable?)
      && (r.Ready? <==> Configured(l) && (Shares(built, l) || l.discovery.Found?))
      && (r.Ready? ==> Discovered(if Shares(built, l) then built.value else l, r.provider))
  {
    hide Fingerprint, CacheAfter, Built;
    CacheHolds(logins[..i]);
  }

  // A login that fails changes nothing for any later one.
  lemma FailureForgotten(logins: seq<Login>, i: nat, j: nat)
    requires i < j < |logins| && !OutcomeOf(logins, i).Ready?
    ensures OutcomeOf(logins[..i] + logins[i + 1..], j - 1) == OutcomeOf(logins, j)
  {
    hide Fingerprint;
    var rest := logins[..i] + logins[i + 1..];
    CacheForgets(logins, i, j);
    assert rest[..j - 1] == logins[..i] + logins[i + 1..j];
    assert rest[j - 1] == logins[j];
  }

  lemma {:induction false} CacheForgets(logins: seq<Login>, i: nat, j: nat)
    requires i < j <= |logins| && !OutcomeOf(logins, i).Ready?
    ensures CacheAfter(logins[..i] + logins[i + 1..j]) == CacheAfter(logins[..j])
  {
    hide Fingerprint;
    var front := logins[..j];
    assert front[..j - 1] == logins[..j - 1] && front[j - 1] == logins[j - 1];
    if j == i + 1 {
      assert logins[..i] + logins[i + 1..j] == logins[..i];
    } else {
      CacheForgets(logins, i, j - 1);
      var rest := logins[..i] + logins[i + 1..j];
      assert rest[..|rest| - 1] == logins[..i] + logins[i + 1..j - 1];
    }
  }
}
