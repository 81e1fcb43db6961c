/** The fingerprint that tells identity provider settings apart, and the settings
    it does not tell apart. */
module Fingerprints {
  datatype Settings = Settings(issuerURL: string, expectedIssuer: string, clientID: string,
                               clientSecret: string, redirectURL: string, caCert: string)
  {
    predicate IsConfigured() { issuerURL != "" }

    function Fields(): seq<string> { [issuerURL, expectedIssuer, clientID, clientSecret, redirectURL, caCert] }
  }

  function Join(fields: seq<string>): string {
    if fields == [] then ""
    else if |fields| == 1 then fields[0]
    else fields[0] + "|" + Join(fields[1..])
  }

  function Fingerprint(s: Settings): string { Join(s.Fields()) }

  // No bar in any field but the last.
  predicate Clean(fields: seq<string>) { forall i :: 0 <= i < |fields| - 1 ==> '|' !in fields[i] }

  // ---------- What a fingerprint tells ----------

  lemma FirstBar(x: string, y: string, p: string, q: string)
    requires '|' !in x && '|' !in y && x + "|" + p == y + "|" + q
    ensures x == y && p == q
  {
    var u, v := x + "|" + p, y + "|" + q;
    assert forall i :: 0 <= i < |x| ==> u[i] == x[i];
    assert forall i :: 0 <= i < |y| ==> v[i] == y[i];
    assert u[|x|] == '|' && v[|y|] == '|';
    assert |x| == |y|;
    assert x == u[..|x|] && y == v[..|y|];
    assert p == u[|x| + 1..] && q == v[|y| + 1..];
  }

  lemma {:induction false} JoinInjective(a: seq<string>, b: seq<string>)
    requires |a| == |b| && Clean(a) && Clean(b) && Join(a) == Join(b)
    ensures a == b
  {
    if |a| > 1 {
      FirstBar(a[0], b[0], Join(a[1..]), Join(b[1..]));
      JoinInjective(a[1..], b[1..]);
      assert a == [a[0]] + a[1..] && b == [b[0]] + b[1..];
    }
  }

  // Settings whose first five fields have no bar are told apart.
  lemma FingerprintInjective(s: Settings, t: Settings)
    requires Clean(s.Fields()) && Clean(t.Fields())
    ensures Fingerprint(s) == Fingerprint(t) <==> s == t
  {
    if Fingerprint(s) == Fingerprint(t) {
      JoinInjective(s.Fields(), t.Fields());
      assert s.Fields()[0] == t.Fields()[0] && s.Fields()[1] == t.Fields()[1] && s.Fields()[2] == t.Fields()[2];
      assert s.Fields()[3] == t.Fields()[3] && s.Fields()[4] == t.Fields()[4] && s.Fields()[5] == t.Fields()[5];
    }
  }

  lemma {:induction false} CutAtBar(s: string) returns (x: string, y: string)
    requires '|' in s
    ensures s == x + "|" + y && '|' !in x
  {
    if s[0] == '|' {
      x, y := "", s[1..];
    } else {
      assert s == [s[0]] + s[1..];
      var x', y' := CutAtBar(s[1..]);
      x, y := [s[0]] + x', y';
    }
  }

  // ---------- The parts between bars ----------

  function Parts(s: string): (parts: seq<string>)
    ensures parts != []
  {
    if s == "" then [""]
    else
      var rest := Parts(s[1..]);
      if s[0] == '|' then [""] + rest else [[s[0]] + rest[0]] + rest[1..]
  }

  lemma {:induction false} JoinParts(s: string)
    ensures Join(Parts(s)) == s
  {
    if s != "" {
      JoinParts(s[1..]);
      var rest := Parts(s[1..]);
      if s[0] == '|' {
        assert ([""] + rest)[1..] == rest;
      } else {
        assert ([[s[0]] + rest[0]] + rest[1..])[1..] == rest[1..];
      }
      assert s == [s[0]] + s[1..];
    }
  }

  lemma {:induction false} PartsConcat(x: string, y: string)
    ensures Parts(x + "|" + y) == Parts(x) + Parts(y)
  {
    var s := x + "|" + y;
    if x == "" {
      assert s[1..] == y;
    } else {
      assert s[1..] == x[1..] + "|" + y;
      PartsConcat(x[1..], y);
    }
  }

  lemma {:induction false} OnePart(s: string)
    requires '|' !in s
    ensures Parts(s) == [s]
  {
    if s != "" {
      OnePart(s[1..]);
      assert s == [s[0]] + s[1..];
    }
  }

  lemma PartsEmpty(s: string)
    ensures Parts(s) == [""] <==> s == ""
    ensures Parts(s)[0] == "" <==> s == "" || s[0] == '|'
  {
    JoinParts(s);
  }

  lemma {:induction false} JoinConcat(a: seq<string>, b: seq<string>)
    requires a != [] && b != []
    ensures Join(a + b) == Join(a) + "|" + Join(b)
  {
    if |a| == 1 {
      assert (a + b)[1..] == b;
    } else {
      assert (a + b)[1..] == a[1..] + b;
      JoinConcat(a[1..], b);
    }
  }

  lemma Nested(s: Settings)
    ensures Fingerprint(s) == s.issuerURL + "|" + (s.expectedIssuer + "|" + (s.clientID + "|" +
                              (s.clientSecret + "|" + (s.redirectURL + "|" + s.caCert))))
  {
    var f := s.Fields();
    assert f[1..][1..] == f[2..] && f[2..][1..] == f[3..] && f[3..][1..] == f[4..] && f[4..][1..] == f[5..];
    assert Join(f[4..]) == s.redirectURL + "|" + s.caCert;
    assert Join(f[3..]) == s.clientSecret + "|" + Join(f[4..]);
    assert Join(f[2..]) == s.clientID + "|" + Join(f[3..]);
    assert Join(f[1..]) == s.expectedIssuer + "|" + Join(f[2..]);
  }

  function FrontParts(s: Settings): seq<string> {
    Parts(s.issuerURL) + Parts(s.expectedIssuer) + Parts(s.clientID) + Parts(s.clientSecret)
  }

  lemma FingerprintParts(s: Settings)
    ensures Parts(Fingerprint(s)) == FrontParts(s) + Parts(s.redirectURL) + Parts(s.caCert)
  {
    hide Parts;
    Nested(s);
    var r := s.redirectURL + "|" + s.caCert;
    var q := s.clientSecret + "|" + r;
    var c := s.clientID + "|" + q;
    var e := s.expectedIssuer + "|" + c;
    PartsConcat(s.redirectURL, s.caCert);
    PartsConcat(s.clientSecret, r);
    PartsConcat(s.clientID, q);
    PartsConcat(s.expectedIssuer, c);
    PartsConcat(s.issuerURL, e);
  }

  // ---------- Settings that can be stored ----------

  const CALLBACK := "/oidc/callback"
  const PLAIN := "https://pico/oidc/callback"

  // The test for an absolute http or https URL is the library's.  Two things
  // matter here: a URL does not start with a bar, and a bar can only come after
  // the host, so that what stands before it is a URL as well.
  ghost predicate UrlTest(url: string -> bool) {
    && (forall s :: url(s) ==> s != "" && s[0] != '|')
    && (forall x, y: string :: url(x + "|" + y) ==> url(x))
  }

  predicate IsRedirect(url: string -> bool, s: string) {
    url(s) && |s| >= |CALLBACK| && s[|s| - |CALLBACK|..] == CALLBACK
  }

  predicate Storable(url: string -> bool, s: Settings) {
    url(s.issuerURL) && s.clientID != "" && s.clientSecret != "" && IsRedirect(url, s.redirectURL)
  }

  predicate Stretch(s: string, u: string, r: string, v: string) {
    s == u + r + "|" + v && (u == "" || u[|u| - 1] == '|')
  }

  // Some other stretch between bars of the redirect URL and the certificate is r,
  // with v behind it.
  ghost predicate Elsewhere(s: Settings, r: string, v: string) {
    exists u: string :: Stretch(s.redirectURL + "|" + s.caCert, u, r, v) && !(u == "" && v == s.caCert)
  }

  ghost predicate AnotherRedirect(url: string -> bool, s: Settings) {
    exists r, v: string :: Elsewhere(s, r, v) && IsRedirect(url, r)
  }

  // No bar in the first four fields that could be taken for one between two of
  // them: none in the issuer or the expected issuer; a client ID that is a lone
  // bar cannot be cut, nor can a secret be cut at its last character, because
  // neither may be empty.
  predicate FrontClean(s: Settings) {
    && '|' !in s.issuerURL && '|' !in s.expectedIssuer
    && ('|' in s.clientID ==> s.clientID == "|")
    && (s.clientSecret != "" ==> '|' !in s.clientSecret[..|s.clientSecret| - 1])
  }

  // No bar that could be taken for one between two fields.
  ghost predicate TellsApart(url: string -> bool, s: Settings) { FrontClean(s) && !AnotherRedirect(url, s) }

  // Other storable settings with the same fingerprint.
  ghost predicate Twins(url: string -> bool, s: Settings, t: Settings) {
    Storable(url, t) && t != s && Fingerprint(t) == Fingerprint(s)
  }

  // ---------- Where there is a bar to move ----------

  // A bar moved from one field to the next.
  lemma Shift(a: string, b: string, c: string, rest: string)
    ensures (a + "|" + b) + "|" + (c + "|" + rest) == a + "|" + ((b + "|" + c) + "|" + rest)
  {}

  lemma UrlTwin(s: Settings) returns (t: Settings)
    requires '|' in s.issuerURL || '|' in s.expectedIssuer
    ensures Fingerprint(t) == Fingerprint(s) && t != s
    ensures t.clientSecret == s.clientSecret && t.redirectURL == s.redirectURL && t.caCert == s.caCert
    ensures s.clientID != "" ==> t.clientID != ""
    ensures if '|' in s.issuerURL then exists y :: s.issuerURL == t.issuerURL + "|" + y else t.issuerURL == s.issuerURL
  {
    hide Fingerprint;
    var secret := s.clientSecret + "|" + (s.redirectURL + "|" + s.caCert);
    if '|' in s.issuerURL {
      var x, y := CutAtBar(s.issuerURL);
      t := s.(issuerURL := x, expectedIssuer := y + "|" + s.expectedIssuer);
      Shift(x, y, s.expectedIssuer, s.clientID + "|" + secret);
    } else {
      var x, y := CutAtBar(s.expectedIssuer);
      t := s.(expectedIssuer := x, clientID := y + "|" + s.clientID);
      Shift(x, y, s.clientID, secret);
    }
    Nested(s);
    Nested(t);
  }

  lemma ClientTwin(s: Settings) returns (t: Settings)
    requires '|' in s.clientID && s.clientID != "|"
    ensures Fingerprint(t) == Fingerprint(s) && t != s
    ensures t.issuerURL == s.issuerURL && t.redirectURL == s.redirectURL && t.caCert == s.caCert
    ensures t.clientID != "" && (s.clientSecret != "" ==> t.clientSecret != "")
  {
    hide Fingerprint;
    var redirect := s.redirectURL + "|" + s.caCert;
    var x, y := CutAtBar(s.clientID);
    if x != "" {
      t := s.(clientID := x, clientSecret := y + "|" + s.clientSecret);
      Shift(x, y, s.clientSecret, redirect);
    } else {
      t := s.(expectedIssuer := s.expectedIssuer + "|" + "", clientID := y);
      Shift(s.expectedIssuer, "", y, s.clientSecret + "|" + redirect);
    }
    Nested(s);
    Nested(t);
  }

  lemma SecretTwin(s: Settings) returns (t: Settings)
    requires s.clientSecret != "" && '|' in s.clientSecret[..|s.clientSecret| - 1]
    ensures Fingerprint(t) == Fingerprint(s) && t != s
    ensures t.issuerURL == s.issuerURL && t.redirectURL == s.redirectURL && t.caCert == s.caCert
    ensures t.clientID != "" && t.clientSecret != ""
  {
    hide Fingerprint;
    var x, y := CutAtBar(s.clientSecret[..|s.clientSecret| - 1]);
    var z := y + [s.clientSecret[|s.clientSecret| - 1]];
    assert s.clientSecret == x + "|" + z;
    t := s.(clientID := s.clientID + "|" + x, clientSecret := z);
    Shift(s.clientID, x, z, s.redirectURL + "|" + s.caCert);
    Nested(s);
    Nested(t);
  }

  lemma RedirectTwin(s: Settings, r: string, v: string) returns (t: Settings)
    requires Elsewhere(s, r, v)
    ensures Fingerprint(t) == Fingerprint(s) && t != s
    ensures t.issuerURL == s.issuerURL && t.redirectURL == r && t.caCert == v && t.clientID == s.clientID
    ensures s.clientSecret != "" ==> t.clientSecret != ""
  {
    hide Fingerprint;
    var u: string :| Stretch(s.redirectURL + "|" + s.caCert, u, r, v) && !(u == "" && v == s.caCert);
    if u == "" {
      t := s.(redirectURL := r, caCert := v);
      assert u + r + "|" + v == r + "|" + v;
    } else {
      var w := u[..|u| - 1];
      assert u == w + "|";
      t := s.(clientSecret := s.clientSecret + "|" + w, redirectURL := r, caCert := v);
      assert s.clientSecret + "|" + ((w + "|") + r + "|" + v) == (s.clientSecret + "|" + w) + "|" + (r + "|" + v);
    }
    Nested(s);
    Nested(t);
  }

  // A bar in the first four fields that can be moved leaves the rest alone.
  lemma FrontTwin(url: string -> bool, s: Settings) returns (t: Settings)
    requires UrlTest(url) && Storable(url, s) && !FrontClean(s)
    ensures Twins(url, s, t) && t.caCert == s.caCert
  {
    hide Fingerprint;
    if '|' in s.issuerURL || '|' in s.expectedIssuer {
      t := UrlTwin(s);
    } else if '|' in s.clientID && s.clientID != "|" {
      t := ClientTwin(s);
    } else {
      t := SecretTwin(s);
    }
  }

  lemma Twin(url: string -> bool, s: Settings) returns (t: Settings)
    requires UrlTest(url) && Storable(url, s) && !TellsApart(url, s)
    ensures Twins(url, s, t)
  {
    hide Fingerprint, FrontClean;
    if FrontClean(s) {
      var r, v: string :| Elsewhere(s, r, v) && IsRedirect(url, r);
      t := RedirectTwin(s, r, v);
    } else {
      t := FrontTwin(url, s);
    }
  }

  // ---------- Where there is none ----------

  // What the parts in front of the redirect URL look like when they cannot be
  // regrouped: one or two for the client ID, one or two for the secret.
  predicate Rigid(cs: seq<string>, ss: seq<string>) {
    && cs != [""] && ss != [""]
    && (|cs| == 1 || cs == ["", ""])
    && (|ss| == 1 || (|ss| == 2 && ss[1] == ""))
  }

  // Where the fields of another grouping start and end.
  lemma Places(i: string, x: string, cs: seq<string>, ss: seq<string>, back: seq<string>, all: seq<string>,
               a: seq<string>, b: seq<string>, c: seq<string>, d: seq<string>, e: seq<string>, g: seq<string>)
    requires Rigid(cs, ss) && a != [] && b != [] && c != [] && d != [] && e != []
    requires all == a + b + c + d + e + g == [i] + [x] + cs + ss + back
    ensures var n, k := |a| + |b| + |c| + |d|, 2 + |cs| + |ss|;
            && n < |all| && k <= |all| && all[n] == e[0]
            && all[|a| + |b|] == c[0] && all[n - 1] == d[|d| - 1]
            && (|cs| == 2 ==> all[2] == "" && all[3] == "") && (|ss| == 2 ==> all[k - 1] == "")
            && a == all[..|a|] && b == all[|a|..|a| + |b|]
            && c == all[|a| + |b|..|a| + |b| + |c|] && d == all[|a| + |b| + |c|..n]
            && all[..1] == [i] && all[1..2] == [x] && cs == all[2..2 + |cs|] && ss == all[2 + |cs|..k]
  {}

  // The lengths of the first four fields of another grouping.
  lemma Lengths(cs: seq<string>, ss: seq<string>, all: seq<string>, p: nat, q: nat, c: seq<string>, d: seq<string>)
    requires Rigid(cs, ss) && p > 0 && q > 0 && c != [] && d != [] && c != [""] && d != [""]
    requires p + q + |c| + |d| < |all| && 2 + |cs| + |ss| <= |all| && all[p + q + |c| + |d|] != ""
    requires all[p + q] == c[0] && all[p + q + |c| + |d| - 1] == d[|d| - 1]
    requires |cs| == 2 ==> all[2] == "" && all[3] == ""
    requires |ss| == 2 ==> all[1 + |cs| + |ss|] == ""
    ensures var n, k := p + q + |c| + |d|, 2 + |cs| + |ss|;
            n >= k && (n == k ==> p == q == 1 && |c| == |cs| && |d| == |ss|)
  {
    assert |c| == 1 ==> c[0] != "";
    assert |d| == 1 ==> d[0] != "";
  }

  // Another grouping of the same parts into non-empty fields puts the redirect
  // URL no earlier, and in the same place only if it is the same grouping.
  lemma OneGrouping(i: string, x: string, cs: seq<string>, ss: seq<string>, back: seq<string>,
                    a: seq<string>, b: seq<string>, c: seq<string>, d: seq<string>, e: seq<string>, g: seq<string>)
    requires Rigid(cs, ss) && a != [] && b != [] && c != [] && d != [] && e != []
    requires c != [""] && d != [""] && e[0] != ""
    requires a + b + c + d + e + g == [i] + [x] + cs + ss + back
    ensures |a + b + c + d| >= 2 + |cs| + |ss|
    ensures |a + b + c + d| == 2 + |cs| + |ss| ==> a == [i] && b == [x] && c == cs && d == ss
  {
    var all := a + b + c + d + e + g;
    Places(i, x, cs, ss, back, all, a, b, c, d, e, g);
    Lengths(cs, ss, all, |a|, |b|, c, d);
  }

  lemma SecretParts(s: string)
    requires s != "" && '|' !in s[..|s| - 1]
    ensures |Parts(s)| == 1 || (|Parts(s)| == 2 && Parts(s)[1] == "")
  {
    var front, last := s[..|s| - 1], s[|s| - 1];
    if last == '|' {
      assert s == front + "|" + "";
      PartsConcat(front, "");
      OnePart(front);
    } else {
      OnePart(s);
    }
  }

  lemma RigidParts(url: string -> bool, s: Settings)
    requires Storable(url, s) && FrontClean(s)
    ensures Parts(s.issuerURL) == [s.issuerURL] && Parts(s.expectedIssuer) == [s.expectedIssuer]
    ensures Rigid(Parts(s.clientID), Parts(s.clientSecret))
  {
    OnePart(s.issuerURL);
    OnePart(s.expectedIssuer);
    PartsEmpty(s.clientID);
    PartsEmpty(s.clientSecret);
    SecretParts(s.clientSecret);
    if '|' in s.clientID {
      assert s.clientID == "" + "|" + "";
      PartsConcat("", "");
    } else {
      OnePart(s.clientID);
    }
  }

  // Parts that start later, or make another redirect URL, are another stretch.
  lemma LaterRedirect(s: Settings, t: Settings, skipped: seq<string>)
    requires Parts(s.redirectURL) + Parts(s.caCert) == skipped + Parts(t.redirectURL) + Parts(t.caCert)
    requires skipped == [] ==> t.caCert != s.caCert
    ensures Elsewhere(s, t.redirectURL, t.caCert)
  {
    hide Parts, Join;
    JoinParts(s.redirectURL);
    JoinParts(s.caCert);
    JoinParts(t.redirectURL);
    JoinParts(t.caCert);
    JoinConcat(Parts(s.redirectURL), Parts(s.caCert));
    JoinConcat(Parts(t.redirectURL), Parts(t.caCert));
    var whole, tail := s.redirectURL + "|" + s.caCert, t.redirectURL + "|" + t.caCert;
    var u := "";
    if skipped != [] {
      assert skipped + Parts(t.redirectURL) + Parts(t.caCert) == skipped + (Parts(t.redirectURL) + Parts(t.caCert));
      JoinConcat(skipped, Parts(t.redirectURL) + Parts(t.caCert));
      u := Join(skipped) + "|";
    } else {
      assert skipped + Parts(t.redirectURL) + Parts(t.caCert) == Parts(t.redirectURL) + Parts(t.caCert);
    }
    assert u + t.redirectURL + "|" + t.caCert == u + tail;
    assert Stretch(whole, u, t.redirectURL, t.caCert);
  }

  // Unless a bar in the first four fields was moved, other settings with the same
  // fingerprint have their redirect URL elsewhere.
  lemma RedirectMoved(url: string -> bool, s: Settings, t: Settings)
    requires UrlTest(url) && Storable(url, s) && Storable(url, t)
    requires FrontClean(s) && Fingerprint(s) == Fingerprint(t) && s != t
    ensures Elsewhere(s, t.redirectURL, t.caCert)
  {
    hide Parts, Fingerprint, FrontClean, Elsewhere;
    FingerprintParts(s);
    FingerprintParts(t);
    RigidParts(url, s);
    PartsEmpty(t.clientID);
    PartsEmpty(t.clientSecret);
    PartsEmpty(t.redirectURL);
    var a, b, c, d := Parts(t.issuerURL), Parts(t.expectedIssuer), Parts(t.clientID), Parts(t.clientSecret);
    var e, g := Parts(t.redirectURL), Parts(t.caCert);
    var cs, ss := Parts(s.clientID), Parts(s.clientSecret);
    var back := Parts(s.redirectURL) + Parts(s.caCert);
    assert a + b + c + d + e + g == [s.issuerURL] + [s.expectedIssuer] + cs + ss + back;
    OneGrouping(s.issuerURL, s.expectedIssuer, cs, ss, back, a, b, c, d, e, g);
    Regrouped(s, t, |FrontParts(t)| - |FrontParts(s)|);
  }

  lemma Regrouped(s: Settings, t: Settings, later: int)
    requires FrontParts(s) + Parts(s.redirectURL) + Parts(s.caCert)
          == FrontParts(t) + Parts(t.redirectURL) + Parts(t.caCert)
    requires later == |FrontParts(t)| - |FrontParts(s)| >= 0
    requires later == 0 ==>
      && Parts(t.issuerURL) == Parts(s.issuerURL) && Parts(t.expectedIssuer) == Parts(s.expectedIssuer)
      && Parts(t.clientID) == Parts(s.clientID) && Parts(t.clientSecret) == Parts(s.clientSecret)
    ensures s == t || Elsewhere(s, t.redirectURL, t.caCert)
  {
    hide Parts, FrontParts, Elsewhere;
    var f, f' := FrontParts(s), FrontParts(t);
    var back, back' := Parts(s.redirectURL) + Parts(s.caCert), Parts(t.redirectURL) + Parts(t.caCert);
    assert f + Parts(s.redirectURL) + Parts(s.caCert) == f + back;
    assert f' + Parts(t.redirectURL) + Parts(t.caCert) == f' + back';
    var skipped := f'[|f|..];
    assert f == (f + back)[..|f|] == f'[..|f|];
    assert back == (f + back)[|f|..] == skipped + back';
    assert back == skipped + Parts(t.redirectURL) + Parts(t.caCert);
    if skipped != [] || t.caCert != s.caCert {
      LaterRedirect(s, t, skipped);
    } else {
      assert |Parts(t.redirectURL)| == |Parts(s.redirectURL)|;
      assert Parts(t.redirectURL) == back[..|Parts(s.redirectURL)|];
      SameParts(s, t);
    }
  }

  lemma NoTwin(url: string -> bool, s: Settings, t: Settings)
    requires UrlTest(url) && Storable(url, s) && Storable(url, t)
    requires TellsApart(url, s) && Fingerprint(s) == Fingerprint(t)
    ensures s == t
  {
    hide Fingerprint, FrontClean, Elsewhere;
    if s != t { RedirectMoved(url, s, t); }
  }

  lemma SameParts(s: Settings, t: Settings)
    requires Parts(t.issuerURL) == Parts(s.issuerURL) && Parts(t.expectedIssuer) == Parts(s.expectedIssuer)
    requires Parts(t.clientID) == Parts(s.clientID) && Parts(t.clientSecret) == Parts(s.clientSecret)
    requires Parts(t.redirectURL) == Parts(s.redirectURL) && t.caCert == s.caCert
    ensures s == t
  {
    JoinParts(s.issuerURL); JoinParts(t.issuerURL);
    JoinParts(s.expectedIssuer); JoinParts(t.expectedIssuer);
    JoinParts(s.clientID); JoinParts(t.clientID);
    JoinParts(s.clientSecret); JoinParts(t.clientSecret);
    JoinParts(s.redirectURL); JoinParts(t.redirectURL);
  }

  // Among the settings that can be stored, a fingerprint belongs to one value
  // exactly when no bar could be taken for one between two fields.
  lemma FingerprintUnique(url: string -> bool, s: Settings)
    requires UrlTest(url) && Storable(url, s)
    ensures TellsApart(url, s) <==> !exists t :: Twins(url, s, t)
  {
    hide TellsApart, Storable, Fingerprint;
    if TellsApart(url, s) {
      forall t ensures !Twins(url, s, t) {
        if Storable(url, t) && Fingerprint(t) == Fingerprint(s) { NoTwin(url, s, t); }
      }
    } else {
      var t := Twin(url, s);
    }
  }

  // ---------- Settings a provider can be built from ----------

  // Other storable settings with the same fingerprint, under which a provider
  // can be built: the library's test accepts their certificate, or they have none.
  ghost predicate UsableTwin(url: string -> bool, cert: string -> bool, s: Settings, t: Settings) {
    Twins(url, s, t) && cert(t.caCert)
  }

  // The redirect URL can be elsewhere with a usable certificate behind it.
  ghost predicate AnotherUsable(url: string -> bool, cert: string -> bool, s: Settings) {
    exists r, v: string :: Elsewhere(s, r, v) && IsRedirect(url, r) && cert(v)
  }

  // Four fields can stand in this text, the last two of them not empty.
  predicate Room(front: string) {
    var p := Parts(front);
    |p| >= 4 && (|p| == 4 ==> p[2] != "" && p[3] != "") && (|p| == 5 ==> p[2] != "" || p[4] != "")
  }

  predicate CutAt(s: Settings, u: string, r: string, v: string) { Fingerprint(s) == u + "|" + (r + "|" + v) }

  // The redirect URL can be anywhere in the fingerprint, with a usable
  // certificate behind it and room in front.
  ghost predicate Recut(url: string -> bool, cert: string -> bool, s: Settings) {
    exists u, r, v: string :: CutAt(s, u, r, v) && Room(u) && IsRedirect(url, r) && cert(v)
  }

  // No usable settings can be taken for these: where the certificate can be
  // parsed, as above but for what can be behind the redirect URL; otherwise all
  // that counts is where a certificate that can be parsed could start.
  ghost predicate UsableApart(url: string -> bool, cert: string -> bool, s: Settings) {
    if cert(s.caCert) then FrontClean(s) && !AnotherUsable(url, cert, s) else !Recut(url, cert, s)
  }

  function FrontText(s: Settings): string {
    s.issuerURL + "|" + (s.expectedIssuer + "|" + (s.clientID + "|" + s.clientSecret))
  }

  lemma FrontOf(s: Settings)
    ensures Parts(FrontText(s)) == FrontParts(s) && CutAt(s, FrontText(s), s.redirectURL, s.caCert)
  {
    hide Parts, Fingerprint;
    Nested(s);
    PartsConcat(s.clientID, s.clientSecret);
    PartsConcat(s.expectedIssuer, s.clientID + "|" + s.clientSecret);
    PartsConcat(s.issuerURL, s.expectedIssuer + "|" + (s.clientID + "|" + s.clientSecret));
    Reassociate(s.issuerURL, s.expectedIssuer, s.clientID, s.clientSecret, s.redirectURL + "|" + s.caCert);
  }

  lemma Reassociate(a: string, b: string, c: string, d: string, rest: string)
    ensures (a + "|" + (b + "|" + (c + "|" + d))) + "|" + rest == a + "|" + (b + "|" + (c + "|" + (d + "|" + rest)))
  {
    var all := (a + "|" + (b + "|" + (c + "|" + d))) + "|" + rest;
    assert all == a + "|" + ((b + "|" + (c + "|" + d)) + "|" + rest);
    assert (b + "|" + (c + "|" + d)) + "|" + rest == b + "|" + ((c + "|" + d) + "|" + rest);
    assert (c + "|" + d) + "|" + rest == c + "|" + (d + "|" + rest);
  }

  lemma StorableRoom(url: string -> bool, t: Settings)
    requires Storable(url, t)
    ensures Room(FrontText(t))
  {
    hide Parts;
    FrontOf(t);
    PartsEmpty(t.clientID);
    PartsEmpty(t.clientSecret);
    var a, b, c, d := Parts(t.issuerURL), Parts(t.expectedIssuer), Parts(t.clientID), Parts(t.clientSecret);
    assert |c| == 1 ==> c[0] != "";
    assert |d| == 1 ==> d[0] != "";
  }

  // Some way to cut four fields from a text with room.
  lemma Fields4(u: string) returns (a: string, b: string, c: string, d: string)
    requires Room(u)
    ensures u == a + "|" + (b + "|" + (c + "|" + d)) && a == Parts(u)[0] && c != "" && d != ""
  {
    hide Parts;
    var p := Parts(u);
    var j := if |p| == 4 || (|p| == 5 && p[2] != "") then 3 else 4;
    JoinParts(u);
    assert p == [p[0]] + ([p[1]] + (p[2..j] + p[j..]));
    JoinConcat(p[2..j], p[j..]);
    JoinConcat([p[1]], p[2..j] + p[j..]);
    JoinConcat([p[0]], [p[1]] + (p[2..j] + p[j..]));
    a, b, c, d := p[0], p[1], Join(p[2..j]), Join(p[j..]);
    assert |p[2..j]| == 1 ==> p[2..j] == [p[2]];
    assert |p[j..]| == 1 ==> p[j..] == [p[j]];
    JoinFilled(p[2..j]);
    JoinFilled(p[j..]);
  }

  lemma JoinFilled(parts: seq<string>)
    requires parts != [] && parts != [""]
    ensures Join(parts) != ""
  {
    if |parts| == 1 {
      assert parts == [parts[0]];
    }
  }

  // What stands before the first bar is a URL, if the issuer is one.
  lemma FirstIsUrl(url: string -> bool, s: Settings, u: string, rest: string)
    requires UrlTest(url) && url(s.issuerURL) && Fingerprint(s) == u + "|" + rest
    ensures url(Parts(u)[0])
  {
    hide Parts, Fingerprint;
    FingerprintParts(s);
    PartsConcat(u, rest);
    var p := Parts(s.issuerURL);
    assert (Parts(u) + Parts(rest))[0] == Parts(u)[0];
    assert (FrontParts(s) + Parts(s.redirectURL) + Parts(s.caCert))[0] == p[0];
    JoinParts(s.issuerURL);
    if |p| > 1 {
      assert s.issuerURL == p[0] + "|" + Join(p[1..]);
    } else {
      assert p == [p[0]];
    }
  }

  lemma RecutTwin(url: string -> bool, s: Settings, u: string, r: string, v: string) returns (t: Settings)
    requires UrlTest(url) && url(s.issuerURL) && CutAt(s, u, r, v) && Room(u) && IsRedirect(url, r)
    ensures Storable(url, t) && Fingerprint(t) == Fingerprint(s) && t.caCert == v
  {
    hide Fingerprint, Room, IsRedirect;
    var a, b, c, d := Fields4(u);
    t := Settings(a, b, c, d, r, v);
    FirstIsUrl(url, s, u, r + "|" + v);
    FrontOf(t);
  }

  // The condition is exact.
  lemma UsableTwinExact(url: string -> bool, cert: string -> bool, s: Settings)
    requires UrlTest(url) && Storable(url, s)
    ensures UsableApart(url, cert, s) <==> !exists t :: UsableTwin(url, cert, s, t)
  {
    hide Fingerprint, FrontClean, Elsewhere, Room, CutAt, Storable;
    if UsableApart(url, cert, s) {
      forall t ensures !UsableTwin(url, cert, s, t) {
        if UsableTwin(url, cert, s, t) { ApartHasNone(url, cert, s, t); }
      }
    } else {
      var t := UsableTwinOf(url, cert, s);
    }
  }

  lemma ApartHasNone(url: string -> bool, cert: string -> bool, s: Settings, t: Settings)
    requires UrlTest(url) && Storable(url, s) && UsableTwin(url, cert, s, t)
    ensures !UsableApart(url, cert, s)
  {
    hide Fingerprint, FrontClean, Elsewhere, Room;
    if cert(s.caCert) {
      if FrontClean(s) { RedirectMoved(url, s, t); }
    } else {
      FrontOf(t);
      StorableRoom(url, t);
      assert CutAt(s, FrontText(t), t.redirectURL, t.caCert);
    }
  }

  lemma UsableTwinOf(url: string -> bool, cert: string -> bool, s: Settings) returns (t: Settings)
    requires UrlTest(url) && Storable(url, s) && !UsableApart(url, cert, s)
    ensures UsableTwin(url, cert, s, t)
  {
    hide Fingerprint, FrontClean, Elsewhere, Room;
    if !cert(s.caCert) {
      var u, r, v: string :| CutAt(s, u, r, v) && Room(u) && IsRedirect(url, r) && cert(v);
      t := RecutTwin(url, s, u, r, v);
    } else if FrontClean(s) {
      var r, v: string :| Elsewhere(s, r, v) && IsRedirect(url, r) && cert(v);
      t := RedirectTwin(s, r, v);
    } else {
      t := FrontTwin(url, s);
    }
  }

  // Two settings that can be stored, differ and have one fingerprint: the bar ends
  // up in the client ID or in the secret.
  lemma BarsCollide(url: string -> bool)
    requires UrlTest(url) && url("https://idp") && url("https://pico/oidc/callback")
    ensures var s := Settings("https://idp", "", "a|b", "c", "https://pico/oidc/callback", "");
            var t := Settings("https://idp", "", "a", "b|c", "https://pico/oidc/callback", "");
            Storable(url, s) && Twins(url, s, t)
  {
    var s := Settings("https://idp", "", "a|b", "c", "https://pico/oidc/callback", "");
    var t := Settings("https://idp", "", "a", "b|c", "https://pico/oidc/callback", "");
    hide Fingerprint;
    Nested(s);
    Nested(t);
    Shift("a", "b", "c", s.redirectURL + "|" + s.caCert);
    assert "a" + "|" + "b" == "a|b" && "b" + "|" + "c" == "b|c";
    assert "https://pico/oidc/callback"[|"https://pico/oidc/callback"| - |CALLBACK|..] == CALLBACK;
  }

  // A fingerprint that is shared, but only with settings under which no provider
  // can be built: a bar in the redirect URL, and behind it what is no certificate.
  lemma SharedUnusable(url: string -> bool, cert: string -> bool, x: string)
    requires UrlTest(url) && url("https://idp") && IsRedirect(url, PLAIN) && IsRedirect(url, PLAIN + "|" + x)
    requires '|' !in x && !url(x) && cert("") && !cert(x + "|")
    ensures var s := Settings("https://idp", "", "a", "b", PLAIN + "|" + x, "");
            Storable(url, s) && !TellsApart(url, s) && UsableApart(url, cert, s)
  {
    hide Parts, IsRedirect;
    var s := Settings("https://idp", "", "a", "b", PLAIN + "|" + x, "");
    assert s.redirectURL + "|" + s.caCert == "" + PLAIN + "|" + (x + "|");
    assert Stretch(s.redirectURL + "|" + s.caCert, "", PLAIN, x + "|");
    assert Elsewhere(s, PLAIN, x + "|");
    forall r, v: string | Elsewhere(s, r, v) && IsRedirect(url, r) ensures !cert(v) {
      OnlyStretch(url, s, x, r, v);
    }
  }

  lemma OnlyStretch(url: string -> bool, s: Settings, x: string, r: string, v: string)
    requires s.redirectURL == PLAIN + "|" + x && s.caCert == "" && '|' !in x && !url(x)
    requires Elsewhere(s, r, v) && IsRedirect(url, r)
    ensures v == x + "|"
  {
    hide Parts;
    var u: string :| Stretch(s.redirectURL + "|" + s.caCert, u, r, v) && !(u == "" && v == s.caCert);
    BarredParts(s, x);
    StretchParts(s.redirectURL + "|" + s.caCert, u, r, v);
    JoinParts(r);
    JoinParts(v);
    var before := if u == "" then [] else Parts(u[..|u| - 1]);
    ThreeParts([PLAIN, x, ""], before, Parts(r), Parts(v));
  }

  lemma BarredParts(s: Settings, x: string)
    requires s.redirectURL == PLAIN + "|" + x && s.caCert == "" && '|' !in x
    ensures Parts(s.redirectURL + "|" + s.caCert) == [PLAIN, x, ""]
  {
    hide Parts;
    assert '|' !in PLAIN;
    OnePart(PLAIN);
    OnePart(x);
    PartsConcat(PLAIN, x);
    PartsConcat(s.redirectURL, "");
    PartsEmpty("");
  }

  lemma StretchParts(s: string, u: string, r: string, v: string)
    requires Stretch(s, u, r, v)
    ensures Parts(s) == (if u == "" then [] else Parts(u[..|u| - 1])) + Parts(r) + Parts(v)
  {
    hide Parts;
    PartsConcat(r, v);
    if u == "" {
      assert s == r + "|" + v;
    } else {
      var w := u[..|u| - 1];
      assert s == w + "|" + (r + "|" + v);
      PartsConcat(w, r + "|" + v);
    }
  }

  lemma ThreeParts(all: seq<string>, before: seq<string>, r: seq<string>, v: seq<string>)
    requires |all| == 3 && all == before + r + v && r != [] && v != []
    ensures before == [] && |v| == 1 ==> Join(v) == all[2]
    ensures before == [] && |v| == 2 ==> Join(v) == all[1] + "|" + all[2]
    ensures before != [] ==> Join(r) == all[1]
  {
    assert v == all[3 - |v|..];
    assert r == all[|before|..|before| + |r|];
    if |v| == 2 {
      assert v[1..] == [all[2]];
    }
  }
}
