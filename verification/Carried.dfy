/** What a request and an answer say, field by field and in the service's own terms: relations
    that mention none of the functions of Codec, and the proof that those functions are exactly
    what the relations describe. */
module Carried {
  import opened Basics
  import opened Errors
  import opened Api
  import opened Codec
  import Wire

  // ----- What is sent -----

  /** A string, a list or a map as sent: nil strings as "", nil lists and maps left out. */
  predicate Text(p: Option<string>, w: string) {
    match p
    case None => w == ""
    case Some(s) => w == s
  }

  predicate Texts(l: Strings, w: seq<string>) {
    |w| == |l| && forall i | 0 <= i < |l| :: Text(l[i], w[i])
  }

  predicate List(l: StringList, w: Option<seq<string>>) {
    match (l, w)
    case (Some(l), Some(w)) => Texts(l, w)
    case _ => l.None? && w.None?
  }

  predicate Map(m: StringMap, w: Option<map<string, string>>) {
    match (m, w)
    case (Some(m), Some(w)) => w.Keys == m.Keys && forall k | k in m :: Text(m[k], w[k])
    case _ => m.None? && w.None?
  }

  predicate CodeSent(c: CodeConfiguration, w: Wire.CodeConfiguration) {
    && (match w.code
        case NilCode => c.code.None? || c.code.value.s3.None?
        case CodeMemberS3(s3) => c.code == Some(Code(Some(S3Location(s3.bucket, s3.prefix, s3.versionId))))
        case UnknownCode => false)
    && List(c.entryPoint, w.entryPoint)
    && Text(c.runtime, w.runtime)
  }

  predicate ArtifactSent(a: Option<AgentRuntimeArtifact>, w: Wire.Artifact) {
    match w
    case NilArtifact => a.None? || a == Some(AgentRuntimeArtifact(None, None))
    case MemberCodeConfiguration(code) =>
      a.Some? && a.value.codeConfiguration.Some? && a.value.containerConfiguration.None?
      && CodeSent(a.value.codeConfiguration.value, code)
    case MemberContainerConfiguration(uri) =>
      a == Some(AgentRuntimeArtifact(None, Some(ContainerConfiguration(uri))))
    case UnknownArtifact => false
  }

  predicate MatchValueSent(v: Option<ClaimMatchValue>, w: Wire.ClaimMatchValue) {
    match w
    case NilMatchValue => v.None? || v == Some(ClaimMatchValue(None, None))
    case MemberMatchValueString(s) => v == Some(ClaimMatchValue(Some(s), None))
    case MemberMatchValueStringList(list) =>
      v.Some? && v.value.matchValueString.None? && List(v.value.matchValueStringList, Some(list))
    case UnknownMatchValue => false
  }

  predicate ClaimSent(c: Option<CustomClaim>, w: Wire.CustomClaim) {
    && c.Some?
    && c.value.inboundTokenClaimName == w.inboundTokenClaimName
    && Text(c.value.inboundTokenClaimValueType, w.inboundTokenClaimValueType)
    && (match (c.value.authorizingClaimMatchValue, w.authorizingClaimMatchValue)
        case (Some(m), Some(n)) =>
          Text(m.claimMatchOperator, n.claimMatchOperator) && MatchValueSent(m.claimMatchValue, n.claimMatchValue)
        case (m, n) => m.None? && n.None?)
  }

  predicate ClaimsSent(cs: Option<seq<Option<CustomClaim>>>, w: Option<seq<Wire.CustomClaim>>) {
    match (cs, w)
    case (Some(cs), Some(w)) => |w| == |cs| && forall i | 0 <= i < |cs| :: ClaimSent(cs[i], w[i])
    case _ => cs.None? && w.None?
  }

  predicate AuthorizerSent(a: Option<AuthorizerConfiguration>, w: Wire.Authorizer) {
    match w
    case NilAuthorizer => a.None? || a.value.customJWTAuthorizer.None?
    case MemberCustomJWTAuthorizer(jwt) =>
      && a.Some? && a.value.customJWTAuthorizer.Some?
      && var j := a.value.customJWTAuthorizer.value;
         && List(j.allowedAudience, jwt.allowedAudience)
         && List(j.allowedClients, jwt.allowedClients)
         && List(j.allowedScopes, jwt.allowedScopes)
         && ClaimsSent(j.customClaims, jwt.customClaims)
         && j.discoveryURL == jwt.discoveryUrl
    case UnknownAuthorizer => false
  }

  predicate FilesystemSent(f: Option<FilesystemConfiguration>, w: Wire.Filesystem) {
    match w
    case NilFilesystem => f == Some(FilesystemConfiguration(None))
    case MemberSessionStorage(path) => f == Some(FilesystemConfiguration(Some(SessionStorage(path))))
    case UnknownFilesystem => false
  }

  predicate FilesystemsSent(fs: Option<seq<Option<FilesystemConfiguration>>>, w: Option<seq<Wire.Filesystem>>) {
    match (fs, w)
    case (Some(fs), Some(w)) => |w| == |fs| && forall i | 0 <= i < |fs| :: FilesystemSent(fs[i], w[i])
    case _ => fs.None? && w.None?
  }

  /** A timeout, which must fit in 32 bits. */
  predicate Timeout(t: Option<int64>, w: Option<int32>) {
    match (t, w)
    case (Some(t), Some(w)) => t as int == w as int && -0x8000_0000 <= t as int <= 0x7fff_ffff
    case _ => t.None? && w.None?
  }

  predicate LifecycleSent(l: Option<LifecycleConfiguration>, w: Option<Wire.Lifecycle>) {
    match (l, w)
    case (Some(l), Some(w)) =>
      Timeout(l.idleRuntimeSessionTimeout, w.idleRuntimeSessionTimeout) && Timeout(l.maxLifetime, w.maxLifetime)
    case _ => l.None? && w.None?
  }

  predicate NetworkSent(n: Option<NetworkConfiguration>, w: Option<Wire.Network>) {
    match (n, w)
    case (Some(n), Some(w)) =>
      && Text(n.networkMode, w.networkMode)
      && (match (n.networkModeConfig, w.networkModeConfig)
          case (Some(v), Some(u)) => List(v.securityGroups, u.securityGroups) && List(v.subnets, u.subnets)
          case (v, u) => v.None? && u.None?)
    case _ => n.None? && w.None?
  }

  predicate ProtocolSent(p: Option<ProtocolConfiguration>, w: Option<Wire.Protocol>) {
    match (p, w)
    case (Some(p), Some(w)) => Text(p.serverProtocol, w.serverProtocol)
    case _ => p.None? && w.None?
  }

  predicate RequestHeaderSent(h: Option<RequestHeaderConfiguration>, w: Wire.RequestHeader) {
    match w
    case NilRequestHeader => h.None? || h.value.requestHeaderAllowlist.None?
    case MemberRequestHeaderAllowlist(list) => h.Some? && List(h.value.requestHeaderAllowlist, Some(list))
    case UnknownRequestHeader => false
  }

  predicate CreateSent(s: AgentRuntimeSpec, p: Wire.CreateInput) {
    && ArtifactSent(s.agentRuntimeArtifact, p.artifact)
    && p.name == s.agentRuntimeName
    && AuthorizerSent(s.authorizerConfiguration, p.authorizer)
    && p.description == s.description
    && Map(s.environmentVariables, p.environmentVariables)
    && FilesystemsSent(s.filesystemConfigurations, p.filesystems)
    && LifecycleSent(s.lifecycleConfiguration, p.lifecycle)
    && NetworkSent(s.networkConfiguration, p.network)
    && p.platformVersion == s.platformVersion
    && ProtocolSent(s.protocolConfiguration, p.protocol)
    && RequestHeaderSent(s.requestHeaderConfiguration, p.requestHeader)
    && p.roleArn == s.roleARN
    && Map(s.tags, p.tags)
  }

  // ----- The builders build exactly that -----

  lemma ListIff(l: StringList, w: Option<seq<string>>)
    ensures EncodeList(l) == w <==> List(l, w)
  {
    if l.Some? && w.Some? {
      var sent := ToStringSlice(l.value);
      assert forall i | 0 <= i < |sent| :: Text(l.value[i], sent[i]);
      assert Texts(l.value, w.value) ==> sent == w.value;
    }
  }

  lemma MapIff(m: StringMap, w: Option<map<string, string>>)
    ensures EncodeMap(m) == w <==> Map(m, w)
  {
    if m.Some? && w.Some? {
      var sent := ToStringMap(m.value);
      assert sent.Keys == m.value.Keys && forall k | k in m.value :: Text(m.value[k], sent[k]);
      assert Map(m, w) ==> sent == w.value;
    }
  }

  lemma ArtifactIff(a: Option<AgentRuntimeArtifact>, w: Wire.Artifact)
    ensures EncodeArtifact(a) == Built(w) <==> ArtifactSent(a, w)
  {
    if w.MemberCodeConfiguration? && a.Some? && a.value.codeConfiguration.Some? {
      ListIff(a.value.codeConfiguration.value.entryPoint, w.code.entryPoint);
    }
  }

  lemma ClaimIff(c: Option<CustomClaim>, w: Wire.CustomClaim)
    ensures EncodeClaim(c) == Built(w) <==> ClaimSent(c, w)
  {
    if c.Some? && c.value.authorizingClaimMatchValue.Some? && w.authorizingClaimMatchValue.Some? {
      var v, u := c.value.authorizingClaimMatchValue.value.claimMatchValue,
                  w.authorizingClaimMatchValue.value.claimMatchValue;
      if v.Some? && u.MemberMatchValueStringList? {
        ListIff(v.value.matchValueStringList, Some(u.list));
      }
    }
  }

  lemma ClaimsIff(cs: Option<seq<Option<CustomClaim>>>, w: Option<seq<Wire.CustomClaim>>)
    ensures EncodeClaims(cs) == Built(w) <==> ClaimsSent(cs, w)
  {
    if cs.Some? && w.Some? {
      EncodeAllOutcome(EncodeClaim, cs.value);
      var all := EncodeAll(EncodeClaim, cs.value);
      forall i | 0 <= i < |cs.value| && i < |w.value| {
        ClaimIff(cs.value[i], w.value[i]);
      }
      hide EncodeClaim, ClaimSent;
      if ClaimsSent(cs, w) {
        assert all.Built?;
        assert all.value == w.value;
      }
    }
  }

  lemma AuthorizerIff(a: Option<AuthorizerConfiguration>, w: Wire.Authorizer)
    ensures EncodeAuthorizer(a) == Built(w) <==> AuthorizerSent(a, w)
  {
    if w.MemberCustomJWTAuthorizer? && a.Some? && a.value.customJWTAuthorizer.Some? {
      var j := a.value.customJWTAuthorizer.value;
      ListIff(j.allowedAudience, w.jwt.allowedAudience);
      ListIff(j.allowedClients, w.jwt.allowedClients);
      ListIff(j.allowedScopes, w.jwt.allowedScopes);
      ClaimsIff(j.customClaims, w.jwt.customClaims);
      hide EncodeList, List, EncodeClaims, ClaimsSent;
    }
  }

  lemma FilesystemsIff(fs: Option<seq<Option<FilesystemConfiguration>>>, w: Option<seq<Wire.Filesystem>>)
    ensures EncodeFilesystems(fs) == Built(w) <==> FilesystemsSent(fs, w)
  {
    if fs.Some? && w.Some? {
      EncodeAllOutcome(EncodeFilesystem, fs.value);
      var all := EncodeAll(EncodeFilesystem, fs.value);
      assert forall i | 0 <= i < |fs.value| && i < |w.value| ::
          EncodeFilesystem(fs.value[i]) == Built(w.value[i]) <==> FilesystemSent(fs.value[i], w.value[i]);
      hide EncodeFilesystem, FilesystemSent;
      if FilesystemsSent(fs, w) {
        assert all.Built?;
        assert all.value == w.value;
      }
    }
  }

  lemma NetworkIff(n: Option<NetworkConfiguration>, w: Option<Wire.Network>)
    ensures EncodeNetwork(n) == w <==> NetworkSent(n, w)
  {
    if n.Some? && w.Some? && n.value.networkModeConfig.Some? && w.value.networkModeConfig.Some? {
      var v, u := n.value.networkModeConfig.value, w.value.networkModeConfig.value;
      ListIff(v.securityGroups, u.securityGroups);
      ListIff(v.subnets, u.subnets);
      hide EncodeList, List;
    }
  }

  lemma SmallIff(l: Option<LifecycleConfiguration>, x: Option<Wire.Lifecycle>, p: Option<ProtocolConfiguration>,
                 y: Option<Wire.Protocol>)
    ensures EncodeLifecycle(l) == Built(x) <==> LifecycleSent(l, x)
    ensures EncodeProtocol(p) == y <==> ProtocolSent(p, y)
  {
  }

  lemma RequestHeaderIff(h: Option<RequestHeaderConfiguration>, w: Wire.RequestHeader)
    ensures EncodeRequestHeader(h) == w <==> RequestHeaderSent(h, w)
  {
    if h.Some? && w.MemberRequestHeaderAllowlist? {
      ListIff(h.value.requestHeaderAllowlist, Some(w.list));
    }
  }

  /** A create request is built exactly if it is the one that says what the spec says: no union with
      two members, no nil element, no over-wide timeout can be said. */
  lemma CreateSays(s: AgentRuntimeSpec, p: Wire.CreateInput)
    ensures EncodeCreate(s) == Built(p) <==> CreateSent(s, p)
  {
    ArtifactIff(s.agentRuntimeArtifact, p.artifact);
    AuthorizerIff(s.authorizerConfiguration, p.authorizer);
    MapIff(s.environmentVariables, p.environmentVariables);
    FilesystemsIff(s.filesystemConfigurations, p.filesystems);
    SmallIff(s.lifecycleConfiguration, p.lifecycle, s.protocolConfiguration, p.protocol);
    NetworkIff(s.networkConfiguration, p.network);
    RequestHeaderIff(s.requestHeaderConfiguration, p.requestHeader);
    MapIff(s.tags, p.tags);
    hide EncodeArtifact, EncodeAuthorizer, EncodeMap, EncodeFilesystems, EncodeLifecycle, EncodeProtocol, EncodeNetwork,
      EncodeRequestHeader, ArtifactSent, AuthorizerSent, Map, FilesystemsSent, LifecycleSent, ProtocolSent, NetworkSent,
      RequestHeaderSent;
  }

  /** The same of an update request, which carries the id in place of the name and the tags. */
  lemma UpdateSays(s: AgentRuntimeSpec, id: Option<string>, u: Wire.UpdateInput)
    ensures EncodeUpdate(s, id) == Built(u)
            <==> && u.id == id
                 && CreateSent(s, Wire.CreateInput(
                                 u.artifact, s.agentRuntimeName, u.authorizer, u.description, u.environmentVariables,
                                 u.filesystems, u.lifecycle, u.network, u.platformVersion, u.protocol, u.requestHeader,
                                 u.roleArn, EncodeMap(s.tags)))
  {
    UpdateRefinesCreate(s, id);
    CreateSays(s, Wire.CreateInput(
                    u.artifact, s.agentRuntimeName, u.authorizer, u.description, u.environmentVariables,
                    u.filesystems, u.lifecycle, u.network, u.platformVersion, u.protocol, u.requestHeader,
                    u.roleArn, EncodeMap(s.tags)));
    hide CreateSent, EncodeUpdate, EncodeArtifact, EncodeAuthorizer, EncodeMap, EncodeFilesystems, EncodeLifecycle,
      EncodeProtocol, EncodeNetwork, EncodeRequestHeader;
  }

  /** A timeout that is there but cannot be said in 32 bits. */
  predicate TooWide(t: Option<int64>) {
    t.Some? && !(-0x8000_0000 <= t.value as int <= 0x7fff_ffff)
  }

  function Exclusive(member: string): GoError {
    TerminalError("can only set one of the members for " + member)
  }

  function Wide(field: string): GoError {
    Plain("error: field " + field + " is of type int32")
  }

  lemma ClaimFaultSays(cs: seq<Option<CustomClaim>>)
    ensures EncodeAll(EncodeClaim, cs).Failed? ==> EncodeAll(EncodeClaim, cs).err == Exclusive("MatchValueStringList")
  {
    EncodeAllOutcome(EncodeClaim, cs);
    forall i | 0 <= i < |cs| && EncodeClaim(cs[i]).Failed?
      ensures EncodeClaim(cs[i]).err == Exclusive("MatchValueStringList")
    {
    }
    hide EncodeAll, EncodeClaim, Exclusive;
  }

  /** What a failing builder reports: the first fault, in the order the fields are built. */
  lemma FaultSays(s: AgentRuntimeSpec)
    requires EncodeCreate(s).Failed?
    ensures var e, l := EncodeCreate(s).err, s.lifecycleConfiguration;
            if ArtifactClash(s) then e == Exclusive("ContainerConfiguration")
            else if FirstClaimFaultIsClash(ClaimsOf(s)) then e == Exclusive("MatchValueStringList")
            else
              && l.Some?
              && (TooWide(l.value.idleRuntimeSessionTimeout) || TooWide(l.value.maxLifetime))
              && e == Wide(if TooWide(l.value.idleRuntimeSessionTimeout) then "idleRuntimeSessionTimeout"
                           else "maxLifetime")
  {
    ListFaults(s);
    ClaimsFailIff(ClaimsOf(s));
    ClaimFaultSays(ClaimsOf(s));
    LifecycleFaultSays(s.lifecycleConfiguration);
    assert EncodeArtifact(s.agentRuntimeArtifact).Failed? <==> ArtifactClash(s);
    assert ArtifactClash(s) ==> EncodeArtifact(s.agentRuntimeArtifact).err == Exclusive("ContainerConfiguration");
    hide EncodeAll, EncodeClaim, EncodeFilesystem, FirstClaimFaultIsClash, ArtifactClash, EncodeArtifact, EncodeMap,
      EncodeNetwork, EncodeProtocol, EncodeRequestHeader, EncodeList, ClaimFault, Exclusive, Wide, EncodeLifecycle,
      TooWide;
  }

  lemma LifecycleFaultSays(l: Option<LifecycleConfiguration>)
    ensures EncodeLifecycle(l).Failed? ==>
              && l.Some?
              && (TooWide(l.value.idleRuntimeSessionTimeout) || TooWide(l.value.maxLifetime))
              && EncodeLifecycle(l).err == Wide(if TooWide(l.value.idleRuntimeSessionTimeout)
                                                then "idleRuntimeSessionTimeout" else "maxLifetime")
  {
  }

  // ----- What is read -----

  /** An enum as read: "" as nil. */
  predicate Enum(w: string, p: Option<string>) {
    match p
    case None => w == ""
    case Some(s) => w == s && s != ""
  }

  predicate ListRead(w: Option<seq<string>>, l: StringList) {
    match (w, l)
    case (Some(w), Some(l)) => |l| == |w| && forall i | 0 <= i < |w| :: l[i] == Some(w[i])
    case _ => w.None? && l.None?
  }

  predicate MapRead(w: Option<map<string, string>>, m: StringMap) {
    match (w, m)
    case (Some(w), Some(m)) => m.Keys == w.Keys && forall k | k in w :: m[k] == Some(w[k])
    case _ => w.None? && m.None?
  }

  /** A member this client does not know is read as a set union without a member. */
  predicate CodeRead(w: Wire.CodeConfiguration, c: CodeConfiguration) {
    && (match w.code
        case NilCode => c.code == None
        case CodeMemberS3(s3) => c.code == Some(Code(Some(S3Location(s3.bucket, s3.prefix, s3.versionId))))
        case UnknownCode => c.code == Some(Code(None)))
    && ListRead(w.entryPoint, c.entryPoint)
    && Enum(w.runtime, c.runtime)
  }

  predicate ArtifactRead(w: Wire.Artifact, a: Option<AgentRuntimeArtifact>) {
    match w
    case NilArtifact => a == None
    case MemberCodeConfiguration(code) =>
      && a.Some? && a.value.containerConfiguration == None && a.value.codeConfiguration.Some?
      && CodeRead(code, a.value.codeConfiguration.value)
    case MemberContainerConfiguration(uri) =>
      a == Some(AgentRuntimeArtifact(None, Some(ContainerConfiguration(uri))))
    case UnknownArtifact => a == Some(AgentRuntimeArtifact(None, None))
  }

  predicate MatchValueRead(w: Wire.ClaimMatchValue, v: Option<ClaimMatchValue>) {
    match w
    case NilMatchValue => v == None
    case MemberMatchValueString(s) => v == Some(ClaimMatchValue(Some(s), None))
    case MemberMatchValueStringList(list) =>
      v.Some? && v.value.matchValueString == None && ListRead(Some(list), v.value.matchValueStringList)
    case UnknownMatchValue => v == Some(ClaimMatchValue(None, None))
  }

  predicate ClaimRead(w: Wire.CustomClaim, c: Option<CustomClaim>) {
    && c.Some?
    && c.value.inboundTokenClaimName == w.inboundTokenClaimName
    && Enum(w.inboundTokenClaimValueType, c.value.inboundTokenClaimValueType)
    && (match (w.authorizingClaimMatchValue, c.value.authorizingClaimMatchValue)
        case (Some(n), Some(m)) =>
          Enum(n.claimMatchOperator, m.claimMatchOperator) && MatchValueRead(n.claimMatchValue, m.claimMatchValue)
        case (n, m) => n.None? && m.None?)
  }

  predicate ClaimsRead(w: Option<seq<Wire.CustomClaim>>, cs: Option<seq<Option<CustomClaim>>>) {
    match (w, cs)
    case (Some(w), Some(cs)) => |cs| == |w| && forall i | 0 <= i < |w| :: ClaimRead(w[i], cs[i])
    case _ => w.None? && cs.None?
  }

  predicate AuthorizerRead(w: Wire.Authorizer, a: Option<AuthorizerConfiguration>) {
    match w
    case NilAuthorizer => a == None
    case MemberCustomJWTAuthorizer(jwt) =>
      && a.Some? && a.value.customJWTAuthorizer.Some?
      && var j := a.value.customJWTAuthorizer.value;
         && ListRead(jwt.allowedAudience, j.allowedAudience)
         && ListRead(jwt.allowedClients, j.allowedClients)
         && ListRead(jwt.allowedScopes, j.allowedScopes)
         && ClaimsRead(jwt.customClaims, j.customClaims)
         && j.discoveryURL == jwt.discoveryUrl
    case UnknownAuthorizer => a == Some(AuthorizerConfiguration(None))
  }

  predicate FilesystemsRead(w: Option<seq<Wire.Filesystem>>, fs: Option<seq<Option<FilesystemConfiguration>>>) {
    match (w, fs)
    case (Some(w), Some(fs)) =>
      && |fs| == |w|
      && forall i | 0 <= i < |w| ::
           fs[i] == Some(FilesystemConfiguration(
                           if w[i].MemberSessionStorage? then Some(SessionStorage(w[i].mountPath)) else None))
    case _ => w.None? && fs.None?
  }

  predicate LifecycleRead(w: Option<Wire.Lifecycle>, l: Option<LifecycleConfiguration>) {
    match (w, l)
    case (Some(w), Some(l)) =>
      Timeout(l.idleRuntimeSessionTimeout, w.idleRuntimeSessionTimeout) && Timeout(l.maxLifetime, w.maxLifetime)
    case _ => w.None? && l.None?
  }

  /** References are not among what is read. */
  predicate NetworkRead(w: Option<Wire.Network>, n: Option<NetworkConfiguration>) {
    match (w, n)
    case (Some(w), Some(n)) =>
      && Enum(w.networkMode, n.networkMode)
      && (match (w.networkModeConfig, n.networkModeConfig)
          case (Some(u), Some(v)) =>
            && ListRead(u.securityGroups, v.securityGroups) && ListRead(u.subnets, v.subnets)
            && v.securityGroupRefs == None && v.subnetRefs == None
          case (u, v) => u.None? && v.None?)
    case _ => w.None? && n.None?
  }

  predicate ProtocolRead(w: Option<Wire.Protocol>, p: Option<ProtocolConfiguration>) {
    match (w, p)
    case (Some(w), Some(p)) => Enum(w.serverProtocol, p.serverProtocol)
    case _ => w.None? && p.None?
  }

  predicate RequestHeaderRead(w: Wire.RequestHeader, h: Option<RequestHeaderConfiguration>) {
    match w
    case NilRequestHeader => h == None
    case MemberRequestHeaderAllowlist(list) => h.Some? && ListRead(Some(list), h.value.requestHeaderAllowlist)
    case UnknownRequestHeader => h == Some(RequestHeaderConfiguration(None))
  }

  /** s is the spec after r has been read onto a resource with these tags. */
  predicate SpecRead(r: Wire.GetOutput, tags: StringMap, s: AgentRuntimeSpec) {
    && ArtifactRead(r.artifact, s.agentRuntimeArtifact)
    && s.agentRuntimeName == r.name
    && AuthorizerRead(r.authorizer, s.authorizerConfiguration)
    && s.description == r.description
    && MapRead(r.environmentVariables, s.environmentVariables)
    && FilesystemsRead(r.filesystems, s.filesystemConfigurations)
    && LifecycleRead(r.lifecycle, s.lifecycleConfiguration)
    && NetworkRead(r.network, s.networkConfiguration)
    && s.platformVersion == r.platformVersion
    && ProtocolRead(r.protocol, s.protocolConfiguration)
    && RequestHeaderRead(r.requestHeader, s.requestHeaderConfiguration)
    && s.roleARN == r.roleArn
    && s.tags == tags
  }

  lemma ListReadIff(w: Option<seq<string>>, l: StringList)
    ensures DecodeList(w) == l <==> ListRead(w, l)
  {
    if w.Some? && l.Some? {
      var read := StringSlice(w.value);
      assert forall i | 0 <= i < |read| :: read[i] == Some(w.value[i]);
      assert ListRead(w, l) ==> read == l.value;
    }
  }

  lemma MapReadIff(w: Option<map<string, string>>, m: StringMap)
    ensures DecodeMap(w) == m <==> MapRead(w, m)
  {
    if w.Some? && m.Some? {
      var read := StringMapOf(w.value);
      assert read.Keys == w.value.Keys && forall k | k in w.value :: read[k] == Some(w.value[k]);
      assert MapRead(w, m) ==> read == m.value;
    }
  }

  lemma ArtifactReadIff(w: Wire.Artifact, a: Option<AgentRuntimeArtifact>)
    ensures DecodeArtifact(w) == a <==> ArtifactRead(w, a)
  {
    if w.MemberCodeConfiguration? && a.Some? && a.value.codeConfiguration.Some? {
      ListReadIff(w.code.entryPoint, a.value.codeConfiguration.value.entryPoint);
    }
  }

  lemma ClaimReadIff(w: Wire.CustomClaim, c: Option<CustomClaim>)
    ensures DecodeClaim(w) == c <==> ClaimRead(w, c)
  {
    if c.Some? && c.value.authorizingClaimMatchValue.Some? && w.authorizingClaimMatchValue.Some? {
      var v, u := c.value.authorizingClaimMatchValue.value.claimMatchValue,
                  w.authorizingClaimMatchValue.value.claimMatchValue;
      if v.Some? && u.MemberMatchValueStringList? {
        ListReadIff(Some(u.list), v.value.matchValueStringList);
      }
    }
  }

  lemma ClaimsReadIff(w: Option<seq<Wire.CustomClaim>>, cs: Option<seq<Option<CustomClaim>>>)
    ensures DecodeClaims(w) == cs <==> ClaimsRead(w, cs)
  {
    if w.Some? && cs.Some? {
      var read := DecodeClaims(w).value;
      forall i | 0 <= i < |w.value| && i < |cs.value| {
        ClaimReadIff(w.value[i], cs.value[i]);
      }
      assert forall i | 0 <= i < |w.value| :: read[i] == DecodeClaim(w.value[i]);
      hide DecodeClaim, ClaimRead;
      assert ClaimsRead(w, cs) ==> read == cs.value;
    }
  }

  lemma AuthorizerReadIff(w: Wire.Authorizer, a: Option<AuthorizerConfiguration>)
    ensures DecodeAuthorizer(w) == a <==> AuthorizerRead(w, a)
  {
    if w.MemberCustomJWTAuthorizer? && a.Some? && a.value.customJWTAuthorizer.Some? {
      var j := a.value.customJWTAuthorizer.value;
      ListReadIff(w.jwt.allowedAudience, j.allowedAudience);
      ListReadIff(w.jwt.allowedClients, j.allowedClients);
      ListReadIff(w.jwt.allowedScopes, j.allowedScopes);
      ClaimsReadIff(w.jwt.customClaims, j.customClaims);
      hide DecodeList, ListRead, DecodeClaims, ClaimsRead;
    }
  }

  lemma FilesystemsReadIff(w: Option<seq<Wire.Filesystem>>, fs: Option<seq<Option<FilesystemConfiguration>>>)
    ensures DecodeFilesystems(w) == fs <==> FilesystemsRead(w, fs)
  {
    if w.Some? && fs.Some? {
      var read := DecodeFilesystems(w).value;
      assert forall i | 0 <= i < |w.value| :: read[i] == DecodeFilesystem(w.value[i]);
      assert FilesystemsRead(w, fs) ==> read == fs.value;
    }
  }

  lemma NetworkReadIff(w: Option<Wire.Network>, n: Option<NetworkConfiguration>)
    ensures DecodeNetwork(w) == n <==> NetworkRead(w, n)
  {
    if n.Some? && w.Some? && n.value.networkModeConfig.Some? && w.value.networkModeConfig.Some? {
      var v, u := n.value.networkModeConfig.value, w.value.networkModeConfig.value;
      ListReadIff(u.securityGroups, v.securityGroups);
      ListReadIff(u.subnets, v.subnets);
      hide DecodeList, ListRead;
    }
  }

  lemma SmallReadIff(x: Option<Wire.Lifecycle>, l: Option<LifecycleConfiguration>, y: Option<Wire.Protocol>,
                     p: Option<ProtocolConfiguration>)
    ensures DecodeLifecycle(x) == l <==> LifecycleRead(x, l)
    ensures DecodeProtocol(y) == p <==> ProtocolRead(y, p)
  {
  }

  lemma RequestHeaderReadIff(w: Wire.RequestHeader, h: Option<RequestHeaderConfiguration>)
    ensures DecodeRequestHeader(w) == h <==> RequestHeaderRead(w, h)
  {
    if h.Some? && w.MemberRequestHeaderAllowlist? {
      ListReadIff(Some(w.list), h.value.requestHeaderAllowlist);
    }
  }

  /** The spec after a read is exactly the one that says what the answer says, with the tags of the
      resource that was read. */
  lemma ReadSays(r: Wire.GetOutput, base: AgentRuntimeSpec, s: AgentRuntimeSpec)
    ensures DecodeSpec(r, base) == s <==> SpecRead(r, base.tags, s)
  {
    ArtifactReadIff(r.artifact, s.agentRuntimeArtifact);
    AuthorizerReadIff(r.authorizer, s.authorizerConfiguration);
    MapReadIff(r.environmentVariables, s.environmentVariables);
    FilesystemsReadIff(r.filesystems, s.filesystemConfigurations);
    SmallReadIff(r.lifecycle, s.lifecycleConfiguration, r.protocol, s.protocolConfiguration);
    NetworkReadIff(r.network, s.networkConfiguration);
    RequestHeaderReadIff(r.requestHeader, s.requestHeaderConfiguration);
    hide DecodeArtifact, DecodeAuthorizer, DecodeMap, DecodeFilesystems, DecodeLifecycle, DecodeProtocol, DecodeNetwork,
      DecodeRequestHeader, ArtifactRead, AuthorizerRead, MapRead, FilesystemsRead, LifecycleRead, ProtocolRead,
      NetworkRead, RequestHeaderRead;
  }
}
