/** The identity provider kept between logins and when it is discovered anew. */
module ProviderCache {
  import opened Wrappers
  import opened Fingerprints

  // What discovery over the network comes back with.
  datatype Discovery = BadCertificate | Unreachable | Found(endpoint: string)

  datatype Provider = Provider(fingerprint: string, settings: Settings, endpoint: string,
                               clientID: string, clientSecret: string, redirectURL: string)

  datatype Outcome = Ready(provider: Provider) | ReadFailed | NotConfigured | ClientFailed | DiscoveryFailed

  // One login: the settings read, if the read succeeds, and what discovery with
  // them would find at that moment.
  datatype Login = Login(settings: Option<Settings>, discovery: Discovery)

  function Build(s: Settings, endpoint: string): Provider {
    Provider(Fingerprint(s), s, endpoint, s.clientID, s.clientSecret, s.redirectURL)
  }

  function Ensure(cached: Option<Provider>, login: Login): (Option<Provider>, Outcome) {
    if login.settings.None? then (cached, ReadFailed)
    else
      var s := login.settings.value;
      if !s.IsConfigured() then (cached, NotConfigured)
      else if cached.Some? && cached.value.fingerprint == Fingerprint(s) then (cached, Ready(cached.value))
      else
        match login.discovery
        case BadCertificate => (cached, ClientFailed)
        case Unreachable => (cached, DiscoveryFailed)
        case Found(endpoint) => (Some(Build(s, endpoint)), Ready(Build(s, endpoint)))
  }

  class Client {
    var provider: Option<Provider>

    constructor ()
      ensures provider == None
    {
      provider := None;
    }

    // Runs under the lock, so one login at a time.
    method EnsureProvider(login: Login) returns (outcome: Outcome)
      modifies this
      ensures (provider, outcome) == Ensure(old(provider), login)
    {
      if login.settings.None? {
        return ReadFailed;
      }
      var settings := login.settings.value;
      if !settings.IsConfigured() {
        return NotConfigured;
      }
      var fingerprint := Fingerprint(settings);
      if provider.Some? && provider.value.fingerprint == fingerprint {
        return Ready(provider.value);
      }
      match login.discovery
      case BadCertificate => return ClientFailed;
      case Unreachable => return DiscoveryFailed;
      case Found(endpoint) =>
        var cp := Provider(fingerprint, settings, endpoint,
                           settings.clientID, settings.clientSecret, settings.redirectURL);
        provider := Some(cp);
        return Ready(cp);
    }
  }

  function CacheAfter(logins: seq<Login>): Option<Provider> {
    if logins == [] then None
    else Ensure(CacheAfter(logins[..|logins| - 1]), logins[|logins| - 1]).0
  }

  function OutcomeOf(logins: seq<Login>, i: nat): Outcome
    requires i < |logins|
  {
    Ensure(CacheAfter(logins[..i]), logins[i]).1
  }

  // The provider was built at login j, from the settings read then.
  predicate BuiltAt(logins: seq<Login>, j: nat, p: Provider) {
    && j < |logins| && logins[j].settings.Some? && logins[j].settings.value.IsConfigured() && logins[j].discovery.Found?
    && p == Build(logins[j].settings.value, logins[j].discovery.endpoint)
  }

  lemma {:induction false} CacheOrigin(logins: seq<Login>)
    requires CacheAfter(logins).Some?
    ensures exists j: nat :: BuiltAt(logins, j, CacheAfter(logins).value)
  {
    var n := |logins| - 1;
    var before := CacheAfter(logins[..n]);
    if CacheAfter(logins) == before {
      CacheOrigin(logins[..n]);
      var j: nat :| BuiltAt(logins[..n], j, before.value);
      assert BuiltAt(logins, j, before.value);
    } else {
      assert BuiltAt(logins, n, CacheAfter(logins).value);
    }
  }

  // A provider is reused only for the fingerprint it was built for.
  lemma CacheMatches(logins: seq<Login>, i: nat)
    requires i < |logins| && OutcomeOf(logins, i).Ready?
    ensures logins[i].settings.Some?
    ensures exists j: nat :: j <= i && BuiltAt(logins, j, OutcomeOf(logins, i).provider)
              && logins[j].settings.Some? && logins[j].settings.value.IsConfigured()
              && Fingerprint(logins[j].settings.value) == Fingerprint(logins[i].settings.value)
  {
    var p := OutcomeOf(logins, i).provider;
    if CacheAfter(logins[..i]) == Some(p) && p.fingerprint == Fingerprint(logins[i].settings.value) {
      CacheOrigin(logins[..i]);
      var j: nat :| BuiltAt(logins[..i], j, p);
      assert BuiltAt(logins, j, p);
    } else {
      assert BuiltAt(logins, i, p);
    }
  }

  // Over every history of logins whose settings have no bar in their first five
  // fields, each login gets a provider built from the settings it read.
  lemma CurrentSettingsOnly(logins: seq<Login>, i: nat)
    requires forall l :: l in logins && l.settings.Some? ==> Clean(l.settings.value.Fields())
    requires i < |logins| && OutcomeOf(logins, i).Ready?
    ensures exists j: nat :: j <= i && BuiltAt(logins, j, OutcomeOf(logins, i).provider)
              && logins[j].settings == logins[i].settings
  {
    hide OutcomeOf;
    CacheMatches(logins, i);
    var j: nat :| j <= i && BuiltAt(logins, j, OutcomeOf(logins, i).provider)
             && Fingerprint(logins[j].settings.value) == Fingerprint(logins[i].settings.value);
    assert logins[j] in logins && logins[i] in logins;
    FingerprintInjective(logins[j].settings.value, logins[i].settings.value);
  }

  // With a shared fingerprint, the second login gets the provider of the first,
  // whatever discovery would come back with.
  lemma StaleProvider(s: Settings, t: Settings, endpoint: string, later: Discovery)
    requires Fingerprint(s) == Fingerprint(t) && s.IsConfigured() && t.IsConfigured()
    ensures OutcomeOf([Login(Some(s), Found(endpoint)), Login(Some(t), later)], 1) == Ready(Build(s, endpoint))
  {
    var logins := [Login(Some(s), Found(endpoint)), Login(Some(t), later)];
    assert logins[..1][..0] == [];
    assert logins[..1] == [logins[0]];
    assert CacheAfter(logins[..0]) == None;
  }

  // Whenever settings were read, they were storable or not there yet, and the
  // client for discovery was refused exactly when the certificate cannot be parsed.
  ghost predicate History(url: string -> bool, cert: string -> bool, logins: seq<Login>) {
    forall i :: 0 <= i < |logins| && logins[i].settings.Some? ==>
      var s := logins[i].settings.value;
      && (Storable(url, s) || !s.IsConfigured())
      && (logins[i].discovery.BadCertificate? <==> !cert(s.caCert))
  }

  // A login that reads s gets a provider built from s, if it gets one.
  ghost predicate OwnProvider(logins: seq<Login>, i: nat, s: Settings)
    requires i < |logins|
  {
    logins[i].settings == Some(s) && OutcomeOf(logins, i).Ready? ==>
      exists j: nat :: j <= i && BuiltAt(logins, j, OutcomeOf(logins, i).provider) && logins[j].settings == Some(s)
  }

  lemma ApartMeansOwn(url: string -> bool, cert: string -> bool, s: Settings, logins: seq<Login>, i: nat)
    requires UrlTest(url) && Storable(url, s) && UsableApart(url, cert, s)
    requires History(url, cert, logins) && i < |logins|
    ensures OwnProvider(logins, i, s)
  {
    hide OutcomeOf, UsableApart, Storable, Fingerprint;
    if logins[i].settings == Some(s) && OutcomeOf(logins, i).Ready? {
      CacheMatches(logins, i);
      var j: nat :| j <= i && BuiltAt(logins, j, OutcomeOf(logins, i).provider)
               && logins[j].settings.Some? && logins[j].settings.value.IsConfigured()
               && Fingerprint(logins[j].settings.value) == Fingerprint(logins[i].settings.value);
      var t := logins[j].settings.value;
      if t != s {
        assert UsableTwin(url, cert, s, t);
        ApartHasNone(url, cert, s, t);
      }
    }
  }

  // Settings always get a provider of their own, over every history of storable
  // settings, if and only if no settings under which a provider can be built
  // could be taken for them.
  lemma OwnProviderExact(url: string -> bool, cert: string -> bool, s: Settings)
    requires UrlTest(url) && Storable(url, s)
    ensures UsableApart(url, cert, s) <==>
      forall logins, i: nat :: History(url, cert, logins) && i < |logins| ==> OwnProvider(logins, i, s)
  {
    hide UsableApart, OutcomeOf, Fingerprint;
    if UsableApart(url, cert, s) {
      forall logins, i: nat | History(url, cert, logins) && i < |logins| ensures OwnProvider(logins, i, s) {
        ApartMeansOwn(url, cert, s, logins, i);
      }
    } else {
      var t := UsableTwinOf(url, cert, s);
      var later := if cert(s.caCert) then Found("") else BadCertificate;
      var logins := [Login(Some(t), Found("")), Login(Some(s), later)];
      assert History(url, cert, logins);
      StaleProvider(t, s, "", later);
      assert !OwnProvider(logins, 1, s);
    }
  }
}
