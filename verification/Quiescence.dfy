/** Whether repeated reconciling settles: create, read, late-initialise, read again, compare.

    The service is taken to store a request as sent and to choose a value only where the
    request left the lifecycle, the platform version or the server protocol unset. */
module Quiescence {
  import opened Basics
  import opened Errors
  import opened Api
  import opened Codec
  import opened Trees
  import opened SpecView
  import opened Delta
  import opened LateInit
  import Tags
  import Wire

  predicate Kept<T(==)>(sent: Option<T>, stored: Option<T>) {
    sent.Some? ==> stored == sent
  }

  predicate LifecycleServed(sent: Option<Wire.Lifecycle>, stored: Option<Wire.Lifecycle>) {
    sent.Some? ==>
      && stored.Some?
      && Kept(sent.value.idleRuntimeSessionTimeout, stored.value.idleRuntimeSessionTimeout)
      && Kept(sent.value.maxLifetime, stored.value.maxLifetime)
  }

  predicate ProtocolServed(sent: Option<Wire.Protocol>, stored: Option<Wire.Protocol>) {
    sent.Some? ==> stored.Some? && (sent.value.serverProtocol != "" ==> stored == sent)
  }

  /** r is a read answer of a service that accepted p. */
  predicate Serves(p: Wire.CreateInput, r: Wire.GetOutput) {
    && r.artifact == p.artifact
    && r.name == p.name
    && r.authorizer == p.authorizer
    && r.description == p.description
    && r.environmentVariables == p.environmentVariables
    && r.filesystems == p.filesystems
    && LifecycleServed(p.lifecycle, r.lifecycle)
    && r.network == p.network
    && Kept(p.platformVersion, r.platformVersion)
    && ProtocolServed(p.protocol, r.protocol)
    && r.requestHeader == p.requestHeader
    && r.roleArn == p.roleArn
  }

  /** Every choice the service may make is served: a value of its own for whatever the request left
      unset, and any state, status and version. */
  lemma ChoicesServed(p: Wire.CreateInput, state: Wire.StateOutput, idle: Option<int32>, max: Option<int32>,
                      version: Option<string>, protocol: Option<Wire.Protocol>)
    ensures var l := if p.lifecycle.None? then Wire.Lifecycle(idle, max)
                     else Wire.Lifecycle(FirstSet(p.lifecycle.value.idleRuntimeSessionTimeout, idle),
                                         FirstSet(p.lifecycle.value.maxLifetime, max));
            var q := if p.protocol.None? || (p.protocol == Some(Wire.Protocol("")) && protocol.Some?) then protocol
                     else p.protocol;
            Serves(p, Echo(p, state).(lifecycle := Some(l), platformVersion := FirstSet(p.platformVersion, version),
                                      protocol := q))
  {
  }

  // ----- What a declared spec must avoid, field by field -----

  /** Nil elements are sent as ""; harmless only when the list comparison says so. */
  predicate SettledList(eq: ListEq, l: StringList) {
    None in Items(l) ==> eq(Items(l), FillNil(Items(l)))
  }

  predicate SettledArtifact(eq: ListEq, a: AgentRuntimeArtifact) {
    && (a.codeConfiguration.Some? || a.containerConfiguration.Some?)
    && (a.codeConfiguration.Some? ==>
          var c := a.codeConfiguration.value;
          && (c.code.Some? ==> c.code.value.s3.Some?)
          && SettledList(eq, c.entryPoint)
          && c.runtime != Some(""))
  }

  predicate SettledClaim(c: CustomClaim) {
    && (c.authorizingClaimMatchValue.Some? ==>
          var m := c.authorizingClaimMatchValue.value;
          && m.claimMatchOperator != Some("")
          && (m.claimMatchValue.Some? ==>
                var v := m.claimMatchValue.value;
                && (v.matchValueString.Some? || v.matchValueStringList.Some?)
                && None !in Items(v.matchValueStringList)))
    && c.inboundTokenClaimValueType != Some("")
  }

  predicate SettledAuthorizer(eq: ListEq, a: AuthorizerConfiguration) {
    && a.customJWTAuthorizer.Some?
    && var jwt := a.customJWTAuthorizer.value;
       && SettledList(eq, jwt.allowedAudience)
       && SettledList(eq, jwt.allowedClients)
       && SettledList(eq, jwt.allowedScopes)
       && forall c | c in Items(jwt.customClaims) :: c.Some? ==> SettledClaim(c.value)
  }

  predicate SettledNetwork(eq: ListEq, n: NetworkConfiguration) {
    && n.networkMode != Some("")
    && (n.networkModeConfig.Some? ==>
          && SettledList(eq, n.networkModeConfig.value.securityGroups)
          && SettledList(eq, n.networkModeConfig.value.subnets))
  }

  predicate SettledHeader(eq: ListEq, h: RequestHeaderConfiguration) {
    h.requestHeaderAllowlist.Some? && SettledList(eq, h.requestHeaderAllowlist)
  }

  /** A set union has a member, no enum is "", no environment value is nil, and nil list
      elements do not matter to the list comparison. */
  predicate Settled(eq: ListEq, s: AgentRuntimeSpec) {
    && (s.agentRuntimeArtifact.Some? ==> SettledArtifact(eq, s.agentRuntimeArtifact.value))
    && (s.authorizerConfiguration.Some? ==> SettledAuthorizer(eq, s.authorizerConfiguration.value))
    && (forall k | k in Entries(s.environmentVariables) :: Entries(s.environmentVariables)[k].Some?)
    && (s.networkConfiguration.Some? ==> SettledNetwork(eq, s.networkConfiguration.value))
    && ServerProtocolOf(s) != Some("")
    && (s.requestHeaderConfiguration.Some? ==> SettledHeader(eq, s.requestHeaderConfiguration.value))
  }

  // ----- Field by field: the trip changes nothing the delta sees iff the field is settled -----

  lemma ListSettles(eq: ListEq, l: StringList)
    requires Equivalence(eq)
    ensures SameList(eq, l, NormalizeList(l)) <==> SettledList(eq, l)
  {
    var items := Items(l);
    if None !in items {
      assert FillNil(items) == items;
    }
    assert eq(items, items);
    assert Items(NormalizeList(l)) == FillNil(items);
  }

  lemma ArtifactSettles(eq: ListEq, a: AgentRuntimeArtifact)
    requires Equivalence(eq) && (a.codeConfiguration.None? || a.containerConfiguration.None?)
    ensures SameArtifact(eq, Some(a), NormalizeArtifact(a)) <==> SettledArtifact(eq, a)
  {
    if a.codeConfiguration.Some? {
      ListSettles(eq, a.codeConfiguration.value.entryPoint);
    }
  }

  lemma ClaimSettles(c: CustomClaim)
    requires !ClaimClash(Some(c))
    ensures EmptyIsNil(Some(c)) == EmptyIsNil(NormalizeClaim(Some(c))) <==> SettledClaim(c)
  {
    if c.authorizingClaimMatchValue.Some? && c.authorizingClaimMatchValue.value.claimMatchValue.Some? {
      var l := c.authorizingClaimMatchValue.value.claimMatchValue.value.matchValueStringList;
      if l.Some? {
        assert FillNil(l.value) == l.value <==> None !in l.value by {
          assert forall i | 0 <= i < |l.value| :: FillNil(l.value)[i] == l.value[i] <==> l.value[i] != None;
        }
      }
    }
  }

  lemma ClaimsSettle(cs: seq<Option<CustomClaim>>)
    requires forall c | c in cs :: !ClaimFault(c)
    ensures ClaimsEqual(cs, seq(|cs|, i requires 0 <= i < |cs| => NormalizeClaim(cs[i])))
            <==> forall c | c in cs :: c.Some? ==> SettledClaim(c.value)
  {
    var n := seq(|cs|, i requires 0 <= i < |cs| => NormalizeClaim(cs[i]));
    forall i | 0 <= i < |cs|
      ensures cs[i].Some? && (EmptyIsNil(cs[i]) == EmptyIsNil(n[i]) <==> SettledClaim(cs[i].value))
    {
      assert !ClaimFault(cs[i]);
      ClaimSettles(cs[i].value);
    }
  }

  lemma AuthorizerSettles(eq: ListEq, a: AuthorizerConfiguration)
    requires Equivalence(eq)
    requires a.customJWTAuthorizer.Some? ==>
               forall c | c in Items(a.customJWTAuthorizer.value.customClaims) :: !ClaimFault(c)
    ensures SameAuthorizer(eq, Some(a), NormalizeAuthorizer(a)) <==> SettledAuthorizer(eq, a)
  {
    if a.customJWTAuthorizer.Some? {
      var jwt := a.customJWTAuthorizer.value;
      ListSettles(eq, jwt.allowedAudience);
      ListSettles(eq, jwt.allowedClients);
      ListSettles(eq, jwt.allowedScopes);
      ClaimsSettle(Items(jwt.customClaims));
    }
  }

  lemma NetworkSettles(eq: ListEq, n: NetworkConfiguration)
    requires Equivalence(eq)
    ensures SameNetwork(eq, Some(n), Some(NormalizeNetwork(n))) <==> SettledNetwork(eq, n)
  {
    if n.networkModeConfig.Some? {
      ListSettles(eq, n.networkModeConfig.value.securityGroups);
      ListSettles(eq, n.networkModeConfig.value.subnets);
    }
  }

  lemma EnvironmentSettles(m: StringMap)
    ensures Entries(NormalizeMap(m)) == Entries(m) <==> forall k | k in Entries(m) :: Entries(m)[k].Some?
  {
    if m.Some? {
      assert forall k | k in m.value :: Entries(NormalizeMap(m))[k] == m.value[k] <==> m.value[k].Some?;
    }
  }

  /** The fields the service stores as sent come back the same exactly when they are settled. */
  lemma StoredFieldsSettle(eq: ListEq, s: AgentRuntimeSpec, n: AgentRuntimeSpec)
    requires Equivalence(eq) && Encodable(s) && n == Normalize(s)
    ensures && SameArtifact(eq, s.agentRuntimeArtifact, n.agentRuntimeArtifact)
            && SameAuthorizer(eq, s.authorizerConfiguration, n.authorizerConfiguration)
            && Entries(s.environmentVariables) == Entries(n.environmentVariables)
            && SameNetwork(eq, s.networkConfiguration, n.networkConfiguration)
            && ServerProtocolOf(s) != Some("")
            && SameRequestHeader(eq, s.requestHeaderConfiguration, n.requestHeaderConfiguration)
            <==> Settled(eq, s)
  {
    if s.agentRuntimeArtifact.Some? {
      ArtifactSettles(eq, s.agentRuntimeArtifact.value);
    }
    if s.authorizerConfiguration.Some? {
      AuthorizerSettles(eq, s.authorizerConfiguration.value);
    }
    EnvironmentSettles(s.environmentVariables);
    if s.networkConfiguration.Some? {
      NetworkSettles(eq, s.networkConfiguration.value);
    }
    if s.requestHeaderConfiguration.Some? {
      ListSettles(eq, s.requestHeaderConfiguration.value.requestHeaderAllowlist);
    }
  }

  // ----- The reconcile cycle -----

  /** The spec stored after the first late initialisation. */
  function FirstStored(s: AgentRuntimeSpec, r: Wire.GetOutput): AgentRuntimeSpec {
    LateInitialized(DecodeSpec(r, s), s)
  }

  /** The delta of the next reconcile: the stored spec, its service-managed tags mirrored by
      the read, against what the read returns. */
  function NextDelta(eq: ListEq, stored: AgentRuntimeSpec, r: Wire.GetOutput): seq<Difference> {
    var latest := DecodeSpec(r, stored);
    ResourceDelta(eq, stored.(tags := Tags.Mirrored(stored.tags, latest.tags)), latest)
  }

  /** The read of what was created, in terms of the normalised spec: only the three defaulted
      fields may differ from it. */
  lemma ReadOfServed(s: AgentRuntimeSpec, p: Wire.CreateInput, r: Wire.GetOutput, base: AgentRuntimeSpec)
    requires EncodeCreate(s) == Built(p) && Serves(p, r)
    ensures var o := DecodeSpec(r, base);
            o == Normalize(s).(lifecycleConfiguration := o.lifecycleConfiguration, platformVersion := o.platformVersion,
                               protocolConfiguration := o.protocolConfiguration, tags := base.tags)
  {
    RoundTrip(s, r.state);
    hide DecodeArtifact, DecodeAuthorizer, DecodeMap, DecodeFilesystems, DecodeLifecycle, DecodeNetwork, DecodeProtocol,
      DecodeRequestHeader, EncodeCreate, Normalize;
    var e := DecodeSpec(Echo(p, r.state), s);
    assert e == Normalize(s);
  }

  /** After late initialisation the three defaulted fields agree with the read, an explicit ""
      server protocol excepted. */
  lemma DefaultsAgree(s: AgentRuntimeSpec, p: Wire.CreateInput, r: Wire.GetOutput)
    requires EncodeCreate(s) == Built(p) && Serves(p, r)
    ensures var o, f := DecodeSpec(r, s), FirstStored(s, r);
            && f.lifecycleConfiguration == o.lifecycleConfiguration
            && f.platformVersion == o.platformVersion
            && (f.protocolConfiguration == o.protocolConfiguration <==> ServerProtocolOf(s) != Some(""))
  {
    hide EncodeArtifact, EncodeAuthorizer, EncodeFilesystems, EncodeMap, EncodeNetwork, EncodeRequestHeader,
      DecodeArtifact, DecodeAuthorizer, DecodeMap, DecodeFilesystems, DecodeNetwork, DecodeRequestHeader;
    assert EncodeLifecycle(s.lifecycleConfiguration) == Built(p.lifecycle);
    assert EncodeProtocol(s.protocolConfiguration) == p.protocol;
    assert p.platformVersion == s.platformVersion;
  }

  /** Quiescence: once a created resource has been late-initialised, the next reconcile finds
      no difference, and so sends no update, if and only if the declared spec is settled. */
  lemma QuiescentIff(eq: ListEq, s: AgentRuntimeSpec, p: Wire.CreateInput, r: Wire.GetOutput)
    requires Equivalence(eq) && EncodeCreate(s) == Built(p) && Serves(p, r)
    ensures NextDelta(eq, FirstStored(s, r), r) == [] <==> Settled(eq, s)
  {
    var f := FirstStored(s, r);
    var latest := DecodeSpec(r, f);
    var desired := f.(tags := Tags.Mirrored(f.tags, latest.tags));
    ResourceDeltaEmptyIff(eq, desired, latest);
    CreateBuiltIff(s);
    StoredFieldsSettle(eq, s, Normalize(s));
    DefaultsAgree(s, p, r);
    ReadOfServed(s, p, r, s);
    ReadOfServed(s, p, r, f);
    Tags.MirrorOwn(f.tags);
    hide Normalize, DecodeSpec, EncodeCreate, Encodable, Serves, ResourceDelta, Settled, SameArtifact, SameAuthorizer,
      SameNetwork, SameRequestHeader, MergeLifecycle, MergeProtocol, Tags.Mirrored, Tags.Plain;
  }

  /** Two answers leave the same choices standing; a version not chosen at first may come later. */
  predicate SameChoices(r: Wire.GetOutput, q: Wire.GetOutput) {
    && q.lifecycle == r.lifecycle
    && q.protocol == r.protocol
    && (r.platformVersion.Some? ==> q.platformVersion == r.platformVersion)
  }

  lemma DefaultsAcross(s: AgentRuntimeSpec, p: Wire.CreateInput, r: Wire.GetOutput, q: Wire.GetOutput)
    requires EncodeCreate(s) == Built(p) && Serves(p, r) && Serves(p, q)
    ensures var f, o := FirstStored(s, r), DecodeSpec(q, s);
            && (f.lifecycleConfiguration == o.lifecycleConfiguration <==> q.lifecycle == r.lifecycle)
            && f.platformVersion == r.platformVersion && o.platformVersion == q.platformVersion
            && (f.protocolConfiguration == o.protocolConfiguration
                <==> ServerProtocolOf(s) != Some("") && q.protocol == r.protocol)
  {
    DefaultsAgree(s, p, r);
    hide EncodeArtifact, EncodeAuthorizer, EncodeFilesystems, EncodeMap, EncodeNetwork, EncodeRequestHeader,
      DecodeArtifact, DecodeAuthorizer, DecodeMap, DecodeFilesystems, DecodeNetwork, DecodeRequestHeader;
    assert EncodeProtocol(s.protocolConfiguration) == p.protocol;
    LifecycleReadBack(q.lifecycle);
    LifecycleReadBack(r.lifecycle);
  }

  /** A later answer, exactly: the stored spec differs in nothing from it if and only if the
      declared spec is settled and the service has not changed its choices. Status, version and
      the like may have. */
  lemma QuiescentAcrossIff(eq: ListEq, s: AgentRuntimeSpec, p: Wire.CreateInput, r: Wire.GetOutput, q: Wire.GetOutput)
    requires Equivalence(eq) && EncodeCreate(s) == Built(p) && Serves(p, r) && Serves(p, q)
    ensures NextDelta(eq, FirstStored(s, r), q) == [] <==> Settled(eq, s) && SameChoices(r, q)
  {
    var f := FirstStored(s, r);
    var latest := DecodeSpec(q, f);
    var desired := f.(tags := Tags.Mirrored(f.tags, latest.tags));
    ResourceDeltaEmptyIff(eq, desired, latest);
    CreateBuiltIff(s);
    StoredFieldsSettle(eq, s, Normalize(s));
    DefaultsAcross(s, p, r, q);
    ReadOfServed(s, p, r, s);
    ReadOfServed(s, p, q, s);
    ReadOfServed(s, p, q, f);
    Tags.MirrorOwn(f.tags);
    hide Normalize, EncodeCreate, Encodable, Serves, ResourceDelta, Settled, SameArtifact, SameAuthorizer, SameNetwork,
      SameRequestHeader, MergeLifecycle, MergeProtocol, Tags.Mirrored, Tags.Plain, DecodeArtifact, DecodeAuthorizer,
      DecodeMap, DecodeFilesystems, DecodeNetwork, DecodeRequestHeader, DecodeLifecycle, DecodeProtocol;
  }

  /** The stored spec after these reads, each followed by late initialisation. */
  function Stored(s: AgentRuntimeSpec, rs: seq<Wire.GetOutput>): AgentRuntimeSpec {
    if rs == [] then s else FirstStored(Stored(s, rs[..|rs| - 1]), rs[|rs| - 1])
  }

  /** From the second cycle on every comparison is empty. */
  predicate QuietOver(eq: ListEq, s: AgentRuntimeSpec, rs: seq<Wire.GetOutput>) {
    forall i | 1 <= i < |rs| :: NextDelta(eq, Stored(s, rs[..i]), rs[i]) == []
  }

  predicate Steady(rs: seq<Wire.GetOutput>) {
    forall i | 1 <= i < |rs| :: SameChoices(rs[i - 1], rs[i])
  }

  lemma StoredTwice(s: AgentRuntimeSpec, r: Wire.GetOutput, q: Wire.GetOutput)
    requires SameChoices(r, q)
    ensures FirstStored(FirstStored(s, r), q) == FirstStored(s, q)
  {
    hide DecodeArtifact, DecodeAuthorizer, DecodeMap, DecodeFilesystems, DecodeNetwork, DecodeRequestHeader;
  }

  lemma {:induction false} StoredSteady(s: AgentRuntimeSpec, rs: seq<Wire.GetOutput>)
    requires rs != [] && Steady(rs)
    ensures Stored(s, rs) == FirstStored(s, rs[|rs| - 1])
  {
    hide FirstStored, SameChoices;
    if |rs| > 1 {
      var init := rs[..|rs| - 1];
      StoredSteady(s, init);
      StoredTwice(s, init[|init| - 1], rs[|rs| - 1]);
    } else {
      assert rs[..0] == [];
    }
  }

  /** Over any number of cycles, whatever else the answers report: nothing is updated from the
      second cycle on if and only if there is no second cycle, or the declared spec is settled and
      the service keeps to its choices. */
  lemma {:induction false} QuietForeverIff(eq: ListEq, s: AgentRuntimeSpec, p: Wire.CreateInput,
                                           rs: seq<Wire.GetOutput>)
    requires Equivalence(eq) && EncodeCreate(s) == Built(p)
    requires forall i | 0 <= i < |rs| :: Serves(p, rs[i])
    ensures QuietOver(eq, s, rs) <==> |rs| <= 1 || (Settled(eq, s) && Steady(rs))
  {
    hide Equivalence, EncodeCreate, Serves, Settled, NextDelta, FirstStored, SameChoices, Stored;
    if |rs| > 1 {
      var init, last := rs[..|rs| - 1], rs[|rs| - 1];
      QuietForeverIff(eq, s, p, init);
      assert forall i | 0 <= i < |init| :: init[i] == rs[i] && init[..i] == rs[..i];
      assert QuietOver(eq, s, rs) <==> QuietOver(eq, s, init) && NextDelta(eq, Stored(s, init), last) == [];
      assert Steady(rs) <==> Steady(init) && SameChoices(init[|init| - 1], last);
      if Steady(init) {
        StoredSteady(s, init);
        QuiescentAcrossIff(eq, s, p, init[|init| - 1], last);
      }
    }
  }

  /** Before late initialisation: a settled spec is updated at its first comparison exactly
      when the service chose a lifecycle or a server protocol for it. A chosen platform version
      alone never causes an update. */
  lemma FirstDeltaIff(eq: ListEq, s: AgentRuntimeSpec, p: Wire.CreateInput, r: Wire.GetOutput)
    requires Equivalence(eq) && EncodeCreate(s) == Built(p) && Serves(p, r) && Settled(eq, s)
    ensures var o := DecodeSpec(r, s);
            NextDelta(eq, s, r) == []
            <==> && s.lifecycleConfiguration == o.lifecycleConfiguration
                 && s.protocolConfiguration == o.protocolConfiguration
  {
    var o := DecodeSpec(r, s);
    ResourceDeltaEmptyIff(eq, s.(tags := Tags.Mirrored(s.tags, o.tags)), o);
    CreateBuiltIff(s);
    StoredFieldsSettle(eq, s, Normalize(s));
    ReadOfServed(s, p, r, s);
    Tags.MirrorOwn(s.tags);
    PlatformKept(s, p, r);
    hide Normalize, DecodeSpec, EncodeCreate, Encodable, Serves, ResourceDelta, Settled, SameArtifact, SameAuthorizer,
      SameNetwork, SameRequestHeader, Tags.Mirrored, Tags.Plain;
  }

  lemma PlatformKept(s: AgentRuntimeSpec, p: Wire.CreateInput, r: Wire.GetOutput)
    requires EncodeCreate(s) == Built(p) && Serves(p, r)
    ensures s.platformVersion.Some? ==> DecodeSpec(r, s).platformVersion == s.platformVersion
  {
  }

  /** r is a read answer of a service that applied the update u to a runtime of that name:
      requests to update carry no name. */
  predicate ServesUpdate(u: Wire.UpdateInput, name: Option<string>, r: Wire.GetOutput) {
    Serves(Wire.CreateInput(u.artifact, name, u.authorizer, u.description, u.environmentVariables, u.filesystems,
                            u.lifecycle, u.network, u.platformVersion, u.protocol, u.requestHeader, u.roleArn, None), r)
  }

  /** The name is neither sent with an update nor part of what must be settled. */
  lemma RenamedUpdate(eq: ListEq, s: AgentRuntimeSpec, id: Option<string>, name: Option<string>)
    ensures var renamed := s.(agentRuntimeName := name);
            && EncodeUpdate(renamed, id) == EncodeUpdate(s, id)
            && (Settled(eq, renamed) <==> Settled(eq, s))
  {
  }

  lemma CreateCarriesName(s: AgentRuntimeSpec)
    ensures EncodeCreate(s).Built? ==> EncodeCreate(s).value.name == s.agentRuntimeName
  {
  }

  /** What is stored and then read differs by the name alone as well. */
  lemma RenamedStored(s: AgentRuntimeSpec, name: Option<string>, r: Wire.GetOutput)
    ensures var f, g := FirstStored(s, r), FirstStored(s.(agentRuntimeName := name), r);
            && f == g.(agentRuntimeName := s.agentRuntimeName) && g.agentRuntimeName == name
            && DecodeSpec(r, f) == DecodeSpec(r, g) && DecodeSpec(r, f).agentRuntimeName == r.name
  {
  }

  /** After an applied update the next cycle is quiet exactly when the spec is settled and
      names the runtime as the service does: a changed name is updated for ever. */
  lemma UpdateSettlesIff(eq: ListEq, s: AgentRuntimeSpec, id: Option<string>, name: Option<string>, u: Wire.UpdateInput,
                         r: Wire.GetOutput)
    requires Equivalence(eq) && EncodeUpdate(s, id) == Built(u) && ServesUpdate(u, name, r)
    ensures NextDelta(eq, FirstStored(s, r), r) == [] <==> Settled(eq, s) && s.agentRuntimeName == name
  {
    var renamed := s.(agentRuntimeName := name);
    RenamedUpdate(eq, s, id, name);
    UpdateRefinesCreate(renamed, id);
    RenamedStored(s, name, r);
    hide EncodeUpdate, Settled, DecodeSpec, FirstStored, ResourceDelta, Tags.Mirrored, SameArtifact, SameAuthorizer,
      SameNetwork, SameRequestHeader;
    var p := EncodeCreate(renamed).value;
    CreateCarriesName(renamed);
    hide EncodeCreate;
    QuiescentIff(eq, renamed, p, r);
    var f, g := FirstStored(s, r), FirstStored(renamed, r);
    var latest := DecodeSpec(r, f);
    var tags := Tags.Mirrored(f.tags, latest.tags);
    ResourceDeltaEmptyIff(eq, f.(tags := tags), latest);
    ResourceDeltaEmptyIff(eq, g.(tags := tags), latest);
  }

  // ----- Inputs that never settle -----

  predicate NoNulls(l: StringList) {
    None !in Items(l)
  }

  predicate ClaimWithoutNulls(c: CustomClaim) {
    && c.authorizingClaimMatchValue.Some?
    && c.authorizingClaimMatchValue.value.claimMatchValue.Some?
    ==> NoNulls(c.authorizingClaimMatchValue.value.claimMatchValue.value.matchValueStringList)
  }

  /** What the custom resource definition admits: the three required fields are there, and no list
      or map holds a null. */
  predicate Admitted(s: AgentRuntimeSpec) {
    && s.agentRuntimeArtifact.Some? && s.agentRuntimeName.Some? && s.roleARN.Some?
    && (s.agentRuntimeArtifact.value.codeConfiguration.Some? ==>
          NoNulls(s.agentRuntimeArtifact.value.codeConfiguration.value.entryPoint))
    && (s.authorizerConfiguration.Some? && s.authorizerConfiguration.value.customJWTAuthorizer.Some? ==>
          var jwt := s.authorizerConfiguration.value.customJWTAuthorizer.value;
          && NoNulls(jwt.allowedAudience) && NoNulls(jwt.allowedClients) && NoNulls(jwt.allowedScopes)
          && forall c | c in Items(jwt.customClaims) :: c.Some? && ClaimWithoutNulls(c.value))
    && (forall k | k in Entries(s.environmentVariables) :: Entries(s.environmentVariables)[k].Some?)
    && (forall k | k in Entries(s.tags) :: Entries(s.tags)[k].Some?)
    && None !in Items(s.filesystemConfigurations)
    && (s.networkConfiguration.Some? && s.networkConfiguration.value.networkModeConfig.Some? ==>
          var v := s.networkConfiguration.value.networkModeConfig.value;
          && NoNulls(v.securityGroups) && NoNulls(v.subnets)
          && None !in Items(v.securityGroupRefs) && None !in Items(v.subnetRefs))
    && (s.requestHeaderConfiguration.Some? ==> NoNulls(s.requestHeaderConfiguration.value.requestHeaderAllowlist))
  }

  predicate FullClaim(c: CustomClaim) {
    && c.inboundTokenClaimValueType != Some("")
    && (c.authorizingClaimMatchValue.Some? ==>
          var m := c.authorizingClaimMatchValue.value;
          && m.claimMatchOperator != Some("")
          && (m.claimMatchValue.Some? ==>
                var v := m.claimMatchValue.value;
                v.matchValueString.Some? || v.matchValueStringList.Some?))
  }

  /** A set union has a member and no enum is "", in the whole spec. */
  predicate Full(s: AgentRuntimeSpec) {
    && (s.agentRuntimeArtifact.Some? ==>
          var a := s.agentRuntimeArtifact.value;
          && (a.codeConfiguration.Some? || a.containerConfiguration.Some?)
          && (a.codeConfiguration.Some? ==>
                var c := a.codeConfiguration.value;
                c.runtime != Some("") && (c.code.Some? ==> c.code.value.s3.Some?)))
    && (s.authorizerConfiguration.Some? ==>
          && s.authorizerConfiguration.value.customJWTAuthorizer.Some?
          && forall c | c in Items(s.authorizerConfiguration.value.customJWTAuthorizer.value.customClaims) ::
               c.Some? ==> FullClaim(c.value))
    && (s.networkConfiguration.Some? ==> s.networkConfiguration.value.networkMode != Some(""))
    && ServerProtocolOf(s) != Some("")
    && (s.requestHeaderConfiguration.Some? ==> s.requestHeaderConfiguration.value.requestHeaderAllowlist.Some?)
  }

  lemma SettledIsFull(eq: ListEq, s: AgentRuntimeSpec)
    ensures Settled(eq, s) ==> Full(s)
    ensures Admitted(s) ==> (Settled(eq, s) <==> Full(s))
  {
  }

  /** Of the specs the custom resource definition admits, whatever the list comparison: exactly
      those settle whose set unions have a member and whose enums are not "". */
  lemma AdmittedQuiescentIff(eq: ListEq, s: AgentRuntimeSpec, p: Wire.CreateInput, r: Wire.GetOutput)
    requires Equivalence(eq) && Admitted(s) && EncodeCreate(s) == Built(p) && Serves(p, r)
    ensures NextDelta(eq, FirstStored(s, r), r) == [] <==> Full(s)
  {
    hide EncodeCreate, Admitted, Full, Settled, NextDelta, FirstStored, Serves;
    SettledIsFull(eq, s);
    QuiescentIff(eq, s, p, r);
  }

  /** A set union without a member, an enum "", a nil environment value, anywhere in a spec that
      can be encoded: whatever the service answers, it is updated on every cycle. */
  lemma UnsettledInputs(eq: ListEq, s: AgentRuntimeSpec, r: Wire.GetOutput)
    requires Equivalence(eq) && Encodable(s)
    requires !Full(s) || exists k | k in Entries(s.environmentVariables) :: Entries(s.environmentVariables)[k].None?
    ensures EncodeCreate(s).Built?
    ensures Serves(EncodeCreate(s).value, r) ==> NextDelta(eq, FirstStored(s, r), r) != []
  {
    CreateBuiltIff(s);
    assert !Settled(eq, s) by {
      SettledIsFull(eq, s);
    }
    hide EncodeCreate, Encodable, Settled, Full, NextDelta, FirstStored, Serves;
    if Serves(EncodeCreate(s).value, r) {
      QuiescentIff(eq, s, EncodeCreate(s).value, r);
    }
  }

  /** The least that is admitted: a container, a name and a role. */
  function Minimal(uri: string, name: string, role: string): AgentRuntimeSpec {
    var container := ContainerConfiguration.ContainerConfiguration(Some(uri));
    var artifact := AgentRuntimeArtifact.AgentRuntimeArtifact(None, Some(container));
    AgentRuntimeSpec(Some(artifact), Some(name), None, None, None, None, None, None, None, None, None, Some(role), None)
  }

  /** Two of them at admitted inputs, an authorizer without a member and the network mode "". */
  lemma UnsettledExamples(eq: ListEq, uri: string, name: string, role: string, s: AgentRuntimeSpec, r: Wire.GetOutput)
    requires Equivalence(eq)
    requires var least := Minimal(uri, name, role);
             || s == least.(authorizerConfiguration := Some(AuthorizerConfiguration.AuthorizerConfiguration(None)))
             || s == least.(networkConfiguration := Some(NetworkConfiguration.NetworkConfiguration(Some(""), None)))
    ensures Admitted(s) && EncodeCreate(s).Built?
    ensures Serves(EncodeCreate(s).value, r) ==> NextDelta(eq, FirstStored(s, r), r) != []
  {
    assert Encodable(s);
    hide EncodeCreate, Encodable, NextDelta, FirstStored, Serves;
    UnsettledInputs(eq, s, r);
  }

  /** A spec, settled or not, that names the runtime otherwise than the service: after every
      applied update it still differs. */
  lemma RenamedInput(eq: ListEq, s: AgentRuntimeSpec, id: Option<string>, name: Option<string>, u: Wire.UpdateInput,
                     r: Wire.GetOutput)
    requires Equivalence(eq) && s.agentRuntimeName != name
    requires EncodeUpdate(s, id) == Built(u) && ServesUpdate(u, name, r)
    ensures NextDelta(eq, FirstStored(s, r), r) != []
  {
    hide EncodeUpdate, ServesUpdate, Settled, NextDelta, FirstStored;
    UpdateSettlesIff(eq, s, id, name, u, r);
  }
}
