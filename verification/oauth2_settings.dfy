/** The AUTHENTICATION section of the settings cache: a read-only snapshot of
    the configured OAuth2 providers, consulted by issuer (token validation)
    and by name (login). */
module OAuth2Settings {
  import opened Common

  /** `OAuth2ProviderSettingsDto`: a provider without a client id is only
      used to validate JWT tokens. */
  datatype ProviderSettings = ProviderSettings(
    name: string,
    issuerUrl: string,
    audiences: seq<string>,
    skew: int,
    clientId: Option<string>,
    sessionMaxInactiveInterval: int)

  datatype ProviderEntry = ProviderEntry(key: string, provider: ProviderSettings)

  /** `getOAuth2Providers()`, in the map's iteration order. */
  datatype AuthenticationSettings = AuthenticationSettings(providers: seq<ProviderEntry>)

  /** The map's keys are distinct. */
  predicate WellFormed(s: AuthenticationSettings)
  {
    forall i, j :: 0 <= i < j < |s.providers| ==> s.providers[i].key != s.providers[j].key
  }

  /** Every entry is stored under its provider's own name, as the settings
      service does when it saves a provider. */
  predicate KeyedByName(s: AuthenticationSettings)
  {
    forall i :: 0 <= i < |s.providers| ==> s.providers[i].key == s.providers[i].provider.name
  }

  /** `values().stream().filter(p -> p.getIssuerUrl().equals(issuer)).findFirst()`:
      "first" is the iteration order of the map's `values()`, which the
      order of `entries` stands for. */
  function FirstWithIssuer(entries: seq<ProviderEntry>, issuer: string): (r: Option<ProviderSettings>)
    ensures r.None? <==> forall i :: 0 <= i < |entries| ==> entries[i].provider.issuerUrl != issuer
    ensures r.Some? ==> r.value.issuerUrl == issuer
    ensures r.Some? ==>
      exists i :: 0 <= i < |entries| && entries[i].provider == r.value &&
        (forall j :: 0 <= j < i ==> entries[j].provider.issuerUrl != issuer)
    decreases |entries|
  {
    if |entries| == 0 then None
    else if entries[0].provider.issuerUrl == issuer then Some(entries[0].provider)
    else
      var r := FirstWithIssuer(entries[1..], issuer);
      assert r.Some? ==>
        exists i :: 1 <= i < |entries| && entries[i].provider == r.value &&
          (forall j :: 1 <= j < i ==> entries[j].provider.issuerUrl != issuer);
      r
  }

  /** `getOAuth2Providers().get(key)`. */
  function ProviderByKey(entries: seq<ProviderEntry>, key: string): (r: Option<ProviderSettings>)
    ensures r.None? <==> forall i :: 0 <= i < |entries| ==> entries[i].key != key
    ensures r.Some? ==> exists i :: 0 <= i < |entries| && entries[i].key == key && entries[i].provider == r.value
    decreases |entries|
  {
    if |entries| == 0 then None
    else if entries[0].key == key then Some(entries[0].provider)
    else ProviderByKey(entries[1..], key)
  }

  /** The providers offered for interactive login, in iteration order: those
      with a client id. */
  function WithClientId(entries: seq<ProviderEntry>): (r: seq<ProviderSettings>)
    ensures forall p :: p in r ==> p.clientId.Some?
    ensures forall i :: 0 <= i < |entries| && entries[i].provider.clientId.Some? ==> entries[i].provider in r
    ensures forall p :: p in r ==> exists i :: 0 <= i < |entries| && entries[i].provider == p
    ensures |r| <= |entries|
    ensures r == [] <==> forall i :: 0 <= i < |entries| ==> entries[i].provider.clientId.None?
    decreases |entries|
  {
    if |entries| == 0 then []
    else
      var rest := WithClientId(entries[1..]);
      assert forall p :: p in rest ==> exists i :: 1 <= i < |entries| && entries[i].provider == p;
      if entries[0].provider.clientId.Some? then [entries[0].provider] + rest else rest
  }

  /** With distinct keys that are the providers' names, looking up an
      offered provider by its name finds that very provider. */
  lemma {:induction false} OfferedFoundByName(s: AuthenticationSettings, p: ProviderSettings)
    requires WellFormed(s) && KeyedByName(s)
    requires p in WithClientId(s.providers)
    ensures ProviderByKey(s.providers, p.name) == Some(p)
  {
    var entries := s.providers;
    var i :| 0 <= i < |entries| && entries[i].provider == p;
    var found := ProviderByKey(entries, p.name);
    assert found.Some? by { assert entries[i].key == p.name; }
    var j :| 0 <= j < |entries| && entries[j].key == p.name && entries[j].provider == found.value;
    assert i == j by { assert entries[i].key == entries[j].key; }
  }

}
