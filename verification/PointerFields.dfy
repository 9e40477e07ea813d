/** What the values of DeepCopy say of the pointers, field by field and down to the last cell, so
    that a copy that stands for the same value has the same contents under every name. */
module PointerFields {
  import opened Basics
  import opened Pointers
  import opened DeepCopy
  import Api
  import Resource

  /** The cell holds the value; a nil pointer holds none. */
  ghost predicate Is<T>(p: Ref?<T>, v: Option<T>)
    reads p
  {
    if p == null then v == None else v == Some(p.value)
  }

  ghost predicate AreAll(a: Slice<string>, v: StringList)
    reads *
  {
    if a == null then v == None
    else v.Some? && |v.value| == a.Length && forall i | 0 <= i < a.Length :: Is(a[i], v.value[i])
  }

  ghost predicate MapIs(m: GoMap?, v: StringMap)
    reads *
  {
    if m == null then v == None
    else v.Some? && v.value.Keys == m.entries.Keys && forall k | k in m.entries :: Is(m.entries[k], v.value[k])
  }

  ghost predicate CodeIs(p: Ref?<Code>, v: Option<Api.Code>)
    reads *
  {
    if p == null then v == None
    else
      && v.Some?
      && if p.value.s3 == null then v.value.s3 == None
         else
           var s, t := p.value.s3.value, v.value.s3;
           t.Some? && Is(s.bucket, t.value.bucket) && Is(s.prefix, t.value.prefix) && Is(s.versionID, t.value.versionID)
  }

  ghost predicate ArtifactIs(p: Ref?<AgentRuntimeArtifact>, v: Option<Api.AgentRuntimeArtifact>)
    reads *
  {
    if p == null then v == None
    else
      && v.Some?
      && (if p.value.codeConfiguration == null then v.value.codeConfiguration == None
          else
            var s, t := p.value.codeConfiguration.value, v.value.codeConfiguration;
            && t.Some? && CodeIs(s.code, t.value.code)
            && AreAll(s.entryPoint, t.value.entryPoint) && Is(s.runtime, t.value.runtime))
      && (if p.value.containerConfiguration == null then v.value.containerConfiguration == None
          else
            var t := v.value.containerConfiguration;
            t.Some? && Is(p.value.containerConfiguration.value.containerURI, t.value.containerURI))
  }

  lemma ListSays(a: Slice<string>, c: Cells)
    requires ListIn(a, c)
    ensures AreAll(a, ListAt(a, c))
  {
  }

  lemma MapSays(m: GoMap?, c: Cells)
    requires MapIn(m, c)
    ensures MapIs(m, MapAt(m, c))
  {
  }

  lemma ArtifactSays(p: Ref?<AgentRuntimeArtifact>, c: Cells)
    requires ArtifactIn(p, c)
    ensures ArtifactIs(p, ArtifactAt(p, c))
  {
    if p != null && p.value.codeConfiguration != null {
      ListSays(p.value.codeConfiguration.value.entryPoint, c);
    }
    hide AreAll, ListAt, ListIn;
  }

  ghost predicate ClaimIs(p: Ref?<CustomClaim>, v: Option<Api.CustomClaim>)
    reads *
  {
    if p == null then v == None
    else
      && v.Some?
      && Is(p.value.inboundTokenClaimName, v.value.inboundTokenClaimName)
      && Is(p.value.inboundTokenClaimValueType, v.value.inboundTokenClaimValueType)
      && (if p.value.authorizingClaimMatchValue == null then v.value.authorizingClaimMatchValue == None
          else
            var s, t := p.value.authorizingClaimMatchValue.value, v.value.authorizingClaimMatchValue;
            && t.Some? && Is(s.claimMatchOperator, t.value.claimMatchOperator)
            && if s.claimMatchValue == null then t.value.claimMatchValue == None
               else
                 var m, n := s.claimMatchValue.value, t.value.claimMatchValue;
                 && n.Some? && Is(m.matchValueString, n.value.matchValueString)
                 && AreAll(m.matchValueStringList, n.value.matchValueStringList))
  }

  lemma ClaimSays(p: Ref?<CustomClaim>, c: Cells)
    requires ClaimIn(p, c)
    ensures ClaimIs(p, ClaimAt(p, c))
  {
    if p != null && p.value.authorizingClaimMatchValue != null {
      var m := p.value.authorizingClaimMatchValue.value.claimMatchValue;
      if m != null {
        ListSays(m.value.matchValueStringList, c);
      }
    }
    hide AreAll, ListAt, ListIn;
  }

  ghost predicate AuthorizerIs(p: Ref?<AuthorizerConfiguration>, v: Option<Api.AuthorizerConfiguration>)
    reads *
  {
    if p == null then v == None
    else
      && v.Some?
      && if p.value.customJWTAuthorizer == null then v.value.customJWTAuthorizer == None
         else
           var s, t := p.value.customJWTAuthorizer.value, v.value.customJWTAuthorizer;
           && t.Some?
           && AreAll(s.allowedAudience, t.value.allowedAudience)
           && AreAll(s.allowedClients, t.value.allowedClients)
           && AreAll(s.allowedScopes, t.value.allowedScopes)
           && Is(s.discoveryURL, t.value.discoveryURL)
           && if s.customClaims == null then t.value.customClaims == None
              else
                var cs := t.value.customClaims;
                && cs.Some? && |cs.value| == s.customClaims.Length
                && forall i | 0 <= i < |cs.value| :: ClaimIs(s.customClaims[i], cs.value[i])
  }

  lemma AuthorizerSays(p: Ref?<AuthorizerConfiguration>, c: Cells)
    requires AuthorizerIn(p, c)
    ensures AuthorizerIs(p, AuthorizerAt(p, c))
  {
    if p != null && p.value.customJWTAuthorizer != null {
      var s := p.value.customJWTAuthorizer.value;
      ListSays(s.allowedAudience, c);
      ListSays(s.allowedClients, c);
      ListSays(s.allowedScopes, c);
      if s.customClaims != null {
        forall i | 0 <= i < s.customClaims.Length {
          ClaimSays(s.customClaims[i], c);
        }
      }
    }
    hide AreAll, ListAt, ListIn, ClaimIs, ClaimAt, ClaimIn;
  }

  ghost predicate FilesystemsAre(a: Slice<FilesystemConfiguration>, v: Option<seq<Option<Api.FilesystemConfiguration>>>)
    reads *
  {
    if a == null then v == None
    else
      && v.Some? && |v.value| == a.Length
      && forall i | 0 <= i < a.Length ::
           if a[i] == null then v.value[i] == None
           else
             && v.value[i].Some?
             && var s, t := a[i].value.sessionStorage, v.value[i].value.sessionStorage;
                if s == null then t == None else t.Some? && Is(s.value.mountPath, t.value.mountPath)
  }

  ghost predicate WrappersAre(a: Slice<ReferenceWrapper>, v: Api.ReferenceList)
    reads *
  {
    if a == null then v == None
    else
      && v.Some? && |v.value| == a.Length
      && forall i | 0 <= i < a.Length ::
           if a[i] == null then v.value[i] == None
           else
             && v.value[i].Some?
             && var s, t := a[i].value.from, v.value[i].value.from;
                if s == null then t == None
                else t.Some? && Is(s.value.name, t.value.name) && Is(s.value.namespace, t.value.namespace)
  }

  lemma ElementsSay(a: Slice<FilesystemConfiguration>, b: Slice<ReferenceWrapper>, c: Cells)
    ensures FilesystemsIn(a, c) ==> FilesystemsAre(a, FilesystemsAt(a, c))
    ensures WrappersIn(b, c) ==> WrappersAre(b, WrappersAt(b, c))
  {
  }

  ghost predicate NetworkIs(p: Ref?<NetworkConfiguration>, v: Option<Api.NetworkConfiguration>)
    reads *
  {
    if p == null then v == None
    else
      && v.Some?
      && Is(p.value.networkMode, v.value.networkMode)
      && if p.value.networkModeConfig == null then v.value.networkModeConfig == None
         else
           var s, t := p.value.networkModeConfig.value, v.value.networkModeConfig;
           && t.Some?
           && WrappersAre(s.securityGroupRefs, t.value.securityGroupRefs)
           && AreAll(s.securityGroups, t.value.securityGroups)
           && WrappersAre(s.subnetRefs, t.value.subnetRefs)
           && AreAll(s.subnets, t.value.subnets)
  }

  lemma NetworkSays(p: Ref?<NetworkConfiguration>, c: Cells)
    requires NetworkIn(p, c)
    ensures NetworkIs(p, NetworkAt(p, c))
  {
    if p != null && p.value.networkModeConfig != null {
      var s := p.value.networkModeConfig.value;
      ListSays(s.securityGroups, c);
      ListSays(s.subnets, c);
      ElementsSay(null, s.securityGroupRefs, c);
      ElementsSay(null, s.subnetRefs, c);
    }
    hide AreAll, ListAt, ListIn, WrappersAre, WrappersAt, WrappersIn;
  }

  /** The small structs: lifecycle, protocol and request headers. */
  ghost predicate SmallAre(l: Ref?<LifecycleConfiguration>, p: Ref?<ProtocolConfiguration>,
                           h: Ref?<RequestHeaderConfiguration>, v: Api.AgentRuntimeSpec)
    reads *
  {
    && (if l == null then v.lifecycleConfiguration == None
        else
          var t := v.lifecycleConfiguration;
          && t.Some? && Is(l.value.idleRuntimeSessionTimeout, t.value.idleRuntimeSessionTimeout)
          && Is(l.value.maxLifetime, t.value.maxLifetime))
    && (if p == null then v.protocolConfiguration == None
        else
          var t := v.protocolConfiguration;
          t.Some? && Is(p.value.serverProtocol, t.value.serverProtocol))
    && (if h == null then v.requestHeaderConfiguration == None
        else
          var t := v.requestHeaderConfiguration;
          t.Some? && AreAll(h.value.requestHeaderAllowlist, t.value.requestHeaderAllowlist))
  }

  lemma SmallSay(s: AgentRuntimeSpec, v: Api.AgentRuntimeSpec, c: Cells)
    requires LifecycleIn(s.lifecycleConfiguration, c) && ProtocolIn(s.protocolConfiguration, c)
    requires RequestHeaderIn(s.requestHeaderConfiguration, c)
    requires v.lifecycleConfiguration == LifecycleAt(s.lifecycleConfiguration, c)
    requires v.protocolConfiguration == ProtocolAt(s.protocolConfiguration, c)
    requires v.requestHeaderConfiguration == RequestHeaderAt(s.requestHeaderConfiguration, c)
    ensures SmallAre(s.lifecycleConfiguration, s.protocolConfiguration, s.requestHeaderConfiguration, v)
  {
    if s.requestHeaderConfiguration != null {
      ListSays(s.requestHeaderConfiguration.value.requestHeaderAllowlist, c);
    }
    hide AreAll, ListAt, ListIn;
  }

  /** The heap spec holds this value: every pointer under its own name. */
  ghost predicate SpecIs(s: AgentRuntimeSpec, v: Api.AgentRuntimeSpec)
    reads *
  {
    && ArtifactIs(s.agentRuntimeArtifact, v.agentRuntimeArtifact)
    && Is(s.agentRuntimeName, v.agentRuntimeName)
    && AuthorizerIs(s.authorizerConfiguration, v.authorizerConfiguration)
    && Is(s.description, v.description)
    && MapIs(s.environmentVariables, v.environmentVariables)
    && FilesystemsAre(s.filesystemConfigurations, v.filesystemConfigurations)
    && NetworkIs(s.networkConfiguration, v.networkConfiguration)
    && SmallAre(s.lifecycleConfiguration, s.protocolConfiguration, s.requestHeaderConfiguration, v)
    && Is(s.platformVersion, v.platformVersion)
    && Is(s.roleARN, v.roleARN)
    && MapIs(s.tags, v.tags)
  }

  lemma SpecSays(s: AgentRuntimeSpec, c: Cells)
    requires SpecIn(s, c)
    ensures SpecIs(s, SpecAt(s, c))
  {
    ArtifactSays(s.agentRuntimeArtifact, c);
    AuthorizerSays(s.authorizerConfiguration, c);
    MapSays(s.environmentVariables, c);
    ElementsSay(s.filesystemConfigurations, null, c);
    NetworkSays(s.networkConfiguration, c);
    SmallSay(s, SpecAt(s, c), c);
    MapSays(s.tags, c);
    hide ArtifactIs, AuthorizerIs, MapIs, FilesystemsAre, NetworkIs, SmallAre, ArtifactAt, AuthorizerAt, MapAt,
      FilesystemsAt, NetworkAt, LifecycleAt, ProtocolAt, RequestHeaderAt, ArtifactIn, AuthorizerIn, MapIn,
      FilesystemsIn, NetworkIn, LifecycleIn, ProtocolIn, RequestHeaderIn;
  }

  /** The same of a status and its conditions. */
  ghost predicate StatusIs(s: AgentRuntimeStatus, v: Resource.RuntimeStatus, cs: Option<seq<Option<Resource.Cond>>>)
    reads *
  {
    && (if s.metadata == null then v.metadata == None
        else
          var m, t := s.metadata.value, v.metadata;
          && t.Some? && Is(m.arn, t.value.arn) && Is(m.region, t.value.region)
          && Is(m.partition, t.value.partition) && Is(m.ownerAccountID, t.value.ownerAccountID))
    && Is(s.agentRuntimeID, v.agentRuntimeID) && Is(s.agentRuntimeVersion, v.agentRuntimeVersion)
    && Is(s.createdAt, v.createdAt) && Is(s.status, v.status)
    && (if s.workloadIdentityDetails == null then v.workloadIdentity == None
        else v.workloadIdentity.Some?
             && Is(s.workloadIdentityDetails.value.workloadIdentityARN, v.workloadIdentity.value))
    && if s.conditions == null then cs == None
       else
         && cs.Some? && |cs.value| == s.conditions.Length
         && forall i | 0 <= i < |cs.value| ::
              if s.conditions[i] == null then cs.value[i] == None
              else
                && cs.value[i].Some?
                && var p, t := s.conditions[i].value, cs.value[i].value;
                   && t.kind == p.kind && t.status == p.status && Is(p.message, t.message)
                   && Is(p.reason, t.reason) && Is(p.lastTransitionTime, t.lastTransitionTime)
  }

  lemma StatusSays(s: AgentRuntimeStatus, c: Cells)
    requires StatusIn(s, c)
    ensures StatusIs(s, StatusAt(s, c).0, StatusAt(s, c).1)
  {
  }
}
