/** The spec/service codec of pkg/resource/agent_runtime/sdk.go: what a create or update
    request carries (the Encode functions) and what a read answer turns back into (the
    Decode functions), with the methods that build them step by step. */
module Codec {
  import opened Basics
  import opened Errors
  import opened Api
  import Wire

  // ----- What a request carries -----

  function OneMemberOnly(name: string): GoError {
    TerminalError("can only set one of the members for " + name)
  }

  function Int32Only(field: string): GoError {
    Plain("error: field " + field + " is of type int32")
  }

  function EncodeList(l: StringList): Option<seq<string>> {
    if l.Some? then Some(ToStringSlice(l.value)) else None
  }

  function EncodeMap(m: StringMap): Option<map<string, string>> {
    if m.Some? then Some(ToStringMap(m.value)) else None
  }

  function EncodeCode(c: CodeConfiguration): Wire.CodeConfiguration {
    Wire.CodeConfiguration(
      if c.code.Some? && c.code.value.s3.Some? then
        var s3 := c.code.value.s3.value;
        Wire.CodeMemberS3(Wire.S3Location(s3.bucket, s3.prefix, s3.versionID))
      else Wire.NilCode,
      EncodeList(c.entryPoint),
      Deref(c.runtime))
  }

  function EncodeArtifact(a: Option<AgentRuntimeArtifact>): Build<Wire.Artifact> {
    if a.None? then Built(Wire.NilArtifact)
    else
      match (a.value.codeConfiguration, a.value.containerConfiguration)
      case (Some(_), Some(_)) => Failed(OneMemberOnly("ContainerConfiguration"))
      case (Some(code), None) => Built(Wire.MemberCodeConfiguration(EncodeCode(code)))
      case (None, Some(container)) => Built(Wire.MemberContainerConfiguration(container.containerURI))
      case (None, None) => Built(Wire.NilArtifact)
  }

  function EncodeMatchValue(v: Option<ClaimMatchValue>): Build<Wire.ClaimMatchValue> {
    if v.None? then Built(Wire.NilMatchValue)
    else
      match (v.value.matchValueString, v.value.matchValueStringList)
      case (Some(_), Some(_)) => Failed(OneMemberOnly("MatchValueStringList"))
      case (Some(s), None) => Built(Wire.MemberMatchValueString(s))
      case (None, Some(l)) => Built(Wire.MemberMatchValueStringList(ToStringSlice(l)))
      case (None, None) => Built(Wire.NilMatchValue)
  }

  function EncodeClaim(c: Option<CustomClaim>): Build<Wire.CustomClaim> {
    if c.None? then Panicked
    else if c.value.authorizingClaimMatchValue.None? then
      Built(Wire.CustomClaim(None, c.value.inboundTokenClaimName, Deref(c.value.inboundTokenClaimValueType)))
    else
      var m := c.value.authorizingClaimMatchValue.value;
      var v :- EncodeMatchValue(m.claimMatchValue);
      Built(Wire.CustomClaim(
              Some(Wire.AuthorizingClaimMatchValue(Deref(m.claimMatchOperator), v)),
              c.value.inboundTokenClaimName,
              Deref(c.value.inboundTokenClaimValueType)))
  }

  function EncodeFilesystem(f: Option<FilesystemConfiguration>): Build<Wire.Filesystem> {
    if f.None? then Panicked
    else if f.value.sessionStorage.Some? then
      Built(Wire.MemberSessionStorage(f.value.sessionStorage.value.mountPath))
    else Built(Wire.NilFilesystem)
  }

  /** Encodes a list front to back; the first element that fails decides the outcome. */
  function EncodeAll<A, B>(encode: A -> Build<B>, l: seq<A>): Build<seq<B>> {
    if l == [] then Built([])
    else
      var front :- EncodeAll(encode, l[..|l| - 1]);
      var last :- encode(l[|l| - 1]);
      Built(front + [last])
  }

  function EncodeClaims(cs: Option<seq<Option<CustomClaim>>>): Build<Option<seq<Wire.CustomClaim>>> {
    if cs.None? then Built(None)
    else
      var l :- EncodeAll(EncodeClaim, cs.value);
      Built(Some(l))
  }

  function EncodeFilesystems(fs: Option<seq<Option<FilesystemConfiguration>>>): Build<Option<seq<Wire.Filesystem>>> {
    if fs.None? then Built(None)
    else
      var l :- EncodeAll(EncodeFilesystem, fs.value);
      Built(Some(l))
  }

  function EncodeAuthorizer(a: Option<AuthorizerConfiguration>): Build<Wire.Authorizer> {
    if a.None? || a.value.customJWTAuthorizer.None? then Built(Wire.NilAuthorizer)
    else
      var jwt := a.value.customJWTAuthorizer.value;
      var claims :- EncodeClaims(jwt.customClaims);
      Built(Wire.MemberCustomJWTAuthorizer(
              Wire.CustomJWTAuthorizer(
                EncodeList(jwt.allowedAudience),
                EncodeList(jwt.allowedClients),
                EncodeList(jwt.allowedScopes),
                claims,
                jwt.discoveryURL)))
  }

  predicate InInt32(t: Option<int64>) {
    t.Some? ==> MIN_INT32 <= t.value <= MAX_INT32
  }

  function Narrow(t: Option<int64>): Option<int32>
    requires InInt32(t)
  {
    if t.Some? then Some(t.value as int32) else None
  }

  function EncodeLifecycle(l: Option<LifecycleConfiguration>): Build<Option<Wire.Lifecycle>> {
    if l.None? then Built(None)
    else if !InInt32(l.value.idleRuntimeSessionTimeout) then Failed(Int32Only("idleRuntimeSessionTimeout"))
    else if !InInt32(l.value.maxLifetime) then Failed(Int32Only("maxLifetime"))
    else Built(Some(Wire.Lifecycle(Narrow(l.value.idleRuntimeSessionTimeout), Narrow(l.value.maxLifetime))))
  }

  function EncodeNetwork(n: Option<NetworkConfiguration>): Option<Wire.Network> {
    if n.None? then None
    else
      Some(Wire.Network(
             Deref(n.value.networkMode),
             if n.value.networkModeConfig.None? then None
             else
               var vpc := n.value.networkModeConfig.value;
               Some(Wire.VpcConfig(EncodeList(vpc.securityGroups), EncodeList(vpc.subnets)))))
  }

  function EncodeProtocol(p: Option<ProtocolConfiguration>): Option<Wire.Protocol> {
    if p.Some? then Some(Wire.Protocol(Deref(p.value.serverProtocol))) else None
  }

  function EncodeRequestHeader(h: Option<RequestHeaderConfiguration>): Wire.RequestHeader {
    if h.Some? && h.value.requestHeaderAllowlist.Some? then
      Wire.MemberRequestHeaderAllowlist(ToStringSlice(h.value.requestHeaderAllowlist.value))
    else Wire.NilRequestHeader
  }

  function EncodeCreate(s: AgentRuntimeSpec): Build<Wire.CreateInput> {
    var artifact :- EncodeArtifact(s.agentRuntimeArtifact);
    var authorizer :- EncodeAuthorizer(s.authorizerConfiguration);
    var filesystems :- EncodeFilesystems(s.filesystemConfigurations);
    var lifecycle :- EncodeLifecycle(s.lifecycleConfiguration);
    Built(Wire.CreateInput(
            artifact, s.agentRuntimeName, authorizer, s.description, EncodeMap(s.environmentVariables),
            filesystems, lifecycle, EncodeNetwork(s.networkConfiguration), s.platformVersion,
            EncodeProtocol(s.protocolConfiguration), EncodeRequestHeader(s.requestHeaderConfiguration),
            s.roleARN, EncodeMap(s.tags)))
  }

  function EncodeUpdate(s: AgentRuntimeSpec, id: Option<string>): Build<Wire.UpdateInput> {
    var artifact :- EncodeArtifact(s.agentRuntimeArtifact);
    var authorizer :- EncodeAuthorizer(s.authorizerConfiguration);
    var filesystems :- EncodeFilesystems(s.filesystemConfigurations);
    var lifecycle :- EncodeLifecycle(s.lifecycleConfiguration);
    Built(Wire.UpdateInput(
            artifact, id, authorizer, s.description, EncodeMap(s.environmentVariables),
            filesystems, lifecycle, EncodeNetwork(s.networkConfiguration), s.platformVersion,
            EncodeProtocol(s.protocolConfiguration), EncodeRequestHeader(s.requestHeaderConfiguration),
            s.roleARN))
  }

  // ----- What a read answer turns back into -----

  function DecodeList(l: Option<seq<string>>): StringList {
    if l.Some? then Some(StringSlice(l.value)) else None
  }

  function DecodeMap(m: Option<map<string, string>>): StringMap {
    if m.Some? then Some(StringMapOf(m.value)) else None
  }

  function DecodeCode(c: Wire.CodeConfiguration): CodeConfiguration {
    CodeConfiguration(
      match c.code
      case NilCode => None
      case CodeMemberS3(s3) => Some(Code(Some(S3Location(s3.bucket, s3.prefix, s3.versionId))))
      case UnknownCode => Some(Code(None)),
      DecodeList(c.entryPoint),
      NonEmpty(c.runtime))
  }

  function DecodeArtifact(a: Wire.Artifact): Option<AgentRuntimeArtifact> {
    match a
    case NilArtifact => None
    case MemberCodeConfiguration(code) => Some(AgentRuntimeArtifact(Some(DecodeCode(code)), None))
    case MemberContainerConfiguration(uri) => Some(AgentRuntimeArtifact(None, Some(ContainerConfiguration(uri))))
    case UnknownArtifact => Some(AgentRuntimeArtifact(None, None))
  }

  function DecodeMatchValue(v: Wire.ClaimMatchValue): Option<ClaimMatchValue> {
    match v
    case NilMatchValue => None
    case MemberMatchValueString(s) => Some(ClaimMatchValue(Some(s), None))
    case MemberMatchValueStringList(l) => Some(ClaimMatchValue(None, Some(StringSlice(l))))
    case UnknownMatchValue => Some(ClaimMatchValue(None, None))
  }

  function DecodeClaim(c: Wire.CustomClaim): Option<CustomClaim> {
    Some(CustomClaim(
           if c.authorizingClaimMatchValue.None? then None
           else
             var m := c.authorizingClaimMatchValue.value;
             Some(AuthorizingClaimMatchValue(NonEmpty(m.claimMatchOperator), DecodeMatchValue(m.claimMatchValue))),
           c.inboundTokenClaimName,
           NonEmpty(c.inboundTokenClaimValueType)))
  }

  function DecodeFilesystem(f: Wire.Filesystem): Option<FilesystemConfiguration> {
    if f.MemberSessionStorage? then Some(FilesystemConfiguration(Some(SessionStorage(f.mountPath))))
    else Some(FilesystemConfiguration(None))
  }

  function DecodeClaims(cs: Option<seq<Wire.CustomClaim>>): Option<seq<Option<CustomClaim>>> {
    if cs.None? then None
    else Some(seq(|cs.value|, i requires 0 <= i < |cs.value| => DecodeClaim(cs.value[i])))
  }

  function DecodeFilesystems(fs: Option<seq<Wire.Filesystem>>): Option<seq<Option<FilesystemConfiguration>>> {
    if fs.None? then None
    else Some(seq(|fs.value|, i requires 0 <= i < |fs.value| => DecodeFilesystem(fs.value[i])))
  }

  function DecodeAuthorizer(a: Wire.Authorizer): Option<AuthorizerConfiguration> {
    match a
    case NilAuthorizer => None
    case UnknownAuthorizer => Some(AuthorizerConfiguration(None))
    case MemberCustomJWTAuthorizer(jwt) =>
      Some(AuthorizerConfiguration(
             Some(CustomJWTAuthorizer(
                    DecodeList(jwt.allowedAudience),
                    DecodeList(jwt.allowedClients),
                    DecodeList(jwt.allowedScopes),
                    DecodeClaims(jwt.customClaims),
                    jwt.discoveryUrl))))
  }

  function Widen(t: Option<int32>): Option<int64> {
    if t.Some? then Some(t.value as int64) else None
  }

  function DecodeLifecycle(l: Option<Wire.Lifecycle>): Option<LifecycleConfiguration> {
    if l.Some? then
      Some(LifecycleConfiguration(Widen(l.value.idleRuntimeSessionTimeout), Widen(l.value.maxLifetime)))
    else None
  }

  function DecodeNetwork(n: Option<Wire.Network>): Option<NetworkConfiguration> {
    if n.None? then None
    else
      Some(NetworkConfiguration(
             NonEmpty(n.value.networkMode),
             if n.value.networkModeConfig.None? then None
             else
               var vpc := n.value.networkModeConfig.value;
               Some(VPCConfig(None, DecodeList(vpc.securityGroups), None, DecodeList(vpc.subnets)))))
  }

  function DecodeProtocol(p: Option<Wire.Protocol>): Option<ProtocolConfiguration> {
    if p.Some? then Some(ProtocolConfiguration(NonEmpty(p.value.serverProtocol))) else None
  }

  function DecodeRequestHeader(h: Wire.RequestHeader): Option<RequestHeaderConfiguration> {
    match h
    case NilRequestHeader => None
    case MemberRequestHeaderAllowlist(l) => Some(RequestHeaderConfiguration(Some(StringSlice(l))))
    case UnknownRequestHeader => Some(RequestHeaderConfiguration(None))
  }

  /** The spec after a read: every field but the tags comes from the answer. */
  function DecodeSpec(r: Wire.GetOutput, base: AgentRuntimeSpec): AgentRuntimeSpec {
    AgentRuntimeSpec(
      DecodeArtifact(r.artifact), r.name, DecodeAuthorizer(r.authorizer), r.description,
      DecodeMap(r.environmentVariables), DecodeFilesystems(r.filesystems), DecodeLifecycle(r.lifecycle),
      DecodeNetwork(r.network), r.platformVersion, DecodeProtocol(r.protocol),
      DecodeRequestHeader(r.requestHeader), r.roleArn, base.tags)
  }

  // ----- When a payload is built -----

  predicate ArtifactClash(s: AgentRuntimeSpec) {
    && s.agentRuntimeArtifact.Some?
    && s.agentRuntimeArtifact.value.codeConfiguration.Some?
    && s.agentRuntimeArtifact.value.containerConfiguration.Some?
  }

  predicate ClaimClash(c: Option<CustomClaim>) {
    && c.Some?
    && c.value.authorizingClaimMatchValue.Some?
    && c.value.authorizingClaimMatchValue.value.claimMatchValue.Some?
    && c.value.authorizingClaimMatchValue.value.claimMatchValue.value.matchValueString.Some?
    && c.value.authorizingClaimMatchValue.value.claimMatchValue.value.matchValueStringList.Some?
  }

  function ClaimsOf(s: AgentRuntimeSpec): seq<Option<CustomClaim>> {
    if s.authorizerConfiguration.Some? && s.authorizerConfiguration.value.customJWTAuthorizer.Some? then
      Items(s.authorizerConfiguration.value.customJWTAuthorizer.value.customClaims)
    else []
  }

  predicate TimeoutsFit(s: AgentRuntimeSpec) {
    s.lifecycleConfiguration.Some? ==>
      && InInt32(s.lifecycleConfiguration.value.idleRuntimeSessionTimeout)
      && InInt32(s.lifecycleConfiguration.value.maxLifetime)
  }

  predicate ClaimFault(c: Option<CustomClaim>) {
    c.None? || ClaimClash(c)
  }

  /** The first faulty claim sets two union members (rather than being nil). */
  predicate FirstClaimFaultIsClash(cs: seq<Option<CustomClaim>>) {
    exists i | 0 <= i < |cs| ::
      ClaimClash(cs[i]) && forall j | 0 <= j < i :: !ClaimFault(cs[j])
  }

  predicate Encodable(s: AgentRuntimeSpec) {
    && !ArtifactClash(s)
    && (forall c | c in ClaimsOf(s) :: !ClaimFault(c))
    && None !in Items(s.filesystemConfigurations)
    && TimeoutsFit(s)
  }

  /** Of a list: all elements encode, or the first that does not decides. */
  lemma {:induction false} EncodeAllOutcome<A, B>(encode: A -> Build<B>, l: seq<A>)
    ensures EncodeAll(encode, l).Built? <==> forall i | 0 <= i < |l| :: encode(l[i]).Built?
    ensures var r := EncodeAll(encode, l);
            if r.Built? then
              |r.value| == |l| && forall i | 0 <= i < |l| :: encode(l[i]) == Built(r.value[i])
            else
              exists i | 0 <= i < |l| ::
                && (forall j | 0 <= j < i :: encode(l[j]).Built?)
                && !encode(l[i]).Built?
                && r == encode(l[i]).PropagateFailure()
  {
    if l != [] {
      var front, last := l[..|l| - 1], l[|l| - 1];
      EncodeAllOutcome(encode, front);
      assert forall i | 0 <= i < |front| :: l[i] == front[i];
      var r := EncodeAll(encode, front);
      if !r.Built? {
        var i :| 0 <= i < |front| && (forall j | 0 <= j < i :: encode(front[j]).Built?)
                 && !encode(front[i]).Built? && r == encode(front[i]).PropagateFailure();
        assert !encode(l[i]).Built?;
      } else {
        assert encode(l[|l| - 1]) == encode(last);
      }
    }
  }

  lemma {:induction false} EncodeAllFaultPersists<A, B>(encode: A -> Build<B>, l: seq<A>, i: nat)
    requires i < |l|
    requires !EncodeAll(encode, l[..i + 1]).Built?
    ensures EncodeAll(encode, l) == EncodeAll(encode, l[..i + 1])
    decreases |l| - i
  {
    if i + 1 == |l| {
      assert l[..i + 1] == l;
    } else {
      var longer := l[..i + 2];
      assert longer[..|longer| - 1] == l[..i + 1];
      EncodeAllFaultPersists(encode, l, i + 1);
    }
  }

  lemma ListFaults(s: AgentRuntimeSpec)
    ensures EncodeAll(EncodeClaim, ClaimsOf(s)).Built? <==> forall c | c in ClaimsOf(s) :: !ClaimFault(c)
    ensures var fs := Items(s.filesystemConfigurations);
            EncodeAll(EncodeFilesystem, fs).Built? <==> None !in fs
    ensures !EncodeAll(EncodeFilesystem, Items(s.filesystemConfigurations)).Failed?
    ensures EncodeAll(EncodeClaim, ClaimsOf(s)).Failed? ==> TerminalClass(EncodeAll(EncodeClaim, ClaimsOf(s)).err)
  {
    var cs, fs := ClaimsOf(s), Items(s.filesystemConfigurations);
    EncodeAllOutcome(EncodeClaim, cs);
    EncodeAllOutcome(EncodeFilesystem, fs);
    assert forall i | 0 <= i < |cs| :: EncodeClaim(cs[i]).Built? <==> !ClaimFault(cs[i]);
    assert forall i | 0 <= i < |fs| :: EncodeFilesystem(fs[i]).Built? <==> fs[i] != None;
  }

  /** A payload is built exactly when nothing clashes, no list holds nil and timeouts fit. */
  lemma CreateBuiltIff(s: AgentRuntimeSpec)
    ensures EncodeCreate(s).Built? <==> Encodable(s)
  {
    ListFaults(s);
  }

  /** The builder's error is a TerminalError exactly when the first fault, in the order the
      fields are built, is a union with two members. */
  lemma CreateTerminalIff(s: AgentRuntimeSpec)
    ensures EncodeCreate(s).Failed? && TerminalClass(EncodeCreate(s).err)
            <==> ArtifactClash(s) || FirstClaimFaultIsClash(ClaimsOf(s))
  {
    ListFaults(s);
    ClaimsFailIff(ClaimsOf(s));
    hide EncodeAll, EncodeClaim, EncodeFilesystem, FirstClaimFaultIsClash;
  }

  lemma ClaimsFailIff(cs: seq<Option<CustomClaim>>)
    ensures EncodeAll(EncodeClaim, cs).Failed? <==> FirstClaimFaultIsClash(cs)
  {
    EncodeAllOutcome(EncodeClaim, cs);
    assert forall i | 0 <= i < |cs| :: EncodeClaim(cs[i]).Built? <==> !ClaimFault(cs[i]);
    assert forall i | 0 <= i < |cs| :: EncodeClaim(cs[i]).Failed? <==> ClaimClash(cs[i]);
  }

  /** It is a plain, retryable error exactly when the first fault is an over-wide timeout. */
  lemma CreateRetryableIff(s: AgentRuntimeSpec)
    ensures EncodeCreate(s).Failed? && !TerminalClass(EncodeCreate(s).err)
            <==> && !TimeoutsFit(s)
                 && !ArtifactClash(s)
                 && (forall c | c in ClaimsOf(s) :: !ClaimFault(c))
                 && None !in Items(s.filesystemConfigurations)
  {
    ListFaults(s);
  }

  /** The first faulty claim is a nil one. */
  predicate FirstClaimFaultIsNil(cs: seq<Option<CustomClaim>>) {
    exists i | 0 <= i < |cs| :: cs[i].None? && forall j | 0 <= j < i :: !ClaimFault(cs[j])
  }

  /** It panics exactly when the first fault is a nil claim or a nil filesystem. */
  lemma CreatePanicsIff(s: AgentRuntimeSpec)
    ensures EncodeCreate(s).Panicked?
            <==> && !ArtifactClash(s)
                 && (|| FirstClaimFaultIsNil(ClaimsOf(s))
                     || ((forall c | c in ClaimsOf(s) :: !ClaimFault(c)) && None in Items(s.filesystemConfigurations)))
  {
    ListFaults(s);
    ClaimsPanicIff(ClaimsOf(s));
    hide EncodeAll, EncodeClaim, EncodeFilesystem, FirstClaimFaultIsNil, ClaimFault;
  }

  lemma ClaimsPanicIff(cs: seq<Option<CustomClaim>>)
    ensures EncodeAll(EncodeClaim, cs).Panicked? <==> FirstClaimFaultIsNil(cs)
  {
    EncodeAllOutcome(EncodeClaim, cs);
    assert forall i | 0 <= i < |cs| :: EncodeClaim(cs[i]).Built? <==> !ClaimFault(cs[i]);
    assert forall i | 0 <= i < |cs| :: EncodeClaim(cs[i]).Panicked? <==> cs[i].None?;
  }

  /** The two builders succeed or fail together, with the same error, and agree on every
      field the two requests share; update adds the id and leaves out name and tags. */
  lemma UpdateRefinesCreate(s: AgentRuntimeSpec, id: Option<string>)
    ensures var c, u := EncodeCreate(s), EncodeUpdate(s, id);
            match c
            case Built(p) =>
              u == Built(Wire.UpdateInput(
                           p.artifact, id, p.authorizer, p.description, p.environmentVariables,
                           p.filesystems, p.lifecycle, p.network, p.platformVersion, p.protocol,
                           p.requestHeader, p.roleArn))
            case Failed(e) => u == Failed(e)
            case Panicked => u == Panicked
  {
  }

  // ----- Round trips -----

  /** The read answer of a service that stored a create request as it was sent. */
  function Echo(p: Wire.CreateInput, state: Wire.StateOutput): Wire.GetOutput {
    Wire.GetOutput(state, p.artifact, p.name, p.authorizer, p.description, p.environmentVariables,
                   p.filesystems, p.lifecycle, p.network, p.platformVersion, p.protocol,
                   p.requestHeader, p.roleArn)
  }

  function NormalizeList(l: StringList): StringList {
    if l.Some? then Some(FillNil(l.value)) else None
  }

  function NormalizeMap(m: StringMap): StringMap {
    if m.Some? then Some(map k | k in m.value :: Some(Deref(m.value[k]))) else None
  }

  /** An enum pointer to "" is indistinguishable from nil once sent. */
  function NormalizeEnum(e: Option<string>): Option<string> {
    if e == Some("") then None else e
  }

  function NormalizeArtifact(a: AgentRuntimeArtifact): Option<AgentRuntimeArtifact> {
    if a.codeConfiguration.None? && a.containerConfiguration.None? then None
    else if a.codeConfiguration.Some? then
      var c := a.codeConfiguration.value;
      Some(a.(codeConfiguration := Some(CodeConfiguration(
                if c.code == Some(Code(None)) then None else c.code,
                NormalizeList(c.entryPoint),
                NormalizeEnum(c.runtime)))))
    else Some(a)
  }

  function NormalizeMatchValue(v: ClaimMatchValue): Option<ClaimMatchValue> {
    if v == ClaimMatchValue(None, None) then None
    else Some(v.(matchValueStringList := NormalizeList(v.matchValueStringList)))
  }

  function NormalizeClaim(c: Option<CustomClaim>): Option<CustomClaim> {
    if c.None? then None
    else
      Some(CustomClaim(
             if c.value.authorizingClaimMatchValue.None? then None
             else
               var m := c.value.authorizingClaimMatchValue.value;
               Some(AuthorizingClaimMatchValue(
                      NormalizeEnum(m.claimMatchOperator),
                      if m.claimMatchValue.None? then None else NormalizeMatchValue(m.claimMatchValue.value))),
             c.value.inboundTokenClaimName,
             NormalizeEnum(c.value.inboundTokenClaimValueType)))
  }

  function NormalizeAuthorizer(a: AuthorizerConfiguration): Option<AuthorizerConfiguration> {
    if a.customJWTAuthorizer.None? then None
    else
      var jwt := a.customJWTAuthorizer.value;
      Some(AuthorizerConfiguration(
             Some(CustomJWTAuthorizer(
                    NormalizeList(jwt.allowedAudience),
                    NormalizeList(jwt.allowedClients),
                    NormalizeList(jwt.allowedScopes),
                    if jwt.customClaims.None? then None
                    else
                      var cs := jwt.customClaims.value;
                      Some(seq(|cs|, i requires 0 <= i < |cs| => NormalizeClaim(cs[i]))),
                    jwt.discoveryURL))))
  }

  function NormalizeNetwork(n: NetworkConfiguration): NetworkConfiguration {
    NetworkConfiguration(
      NormalizeEnum(n.networkMode),
      if n.networkModeConfig.None? then None
      else
        var vpc := n.networkModeConfig.value;
        Some(VPCConfig(None, NormalizeList(vpc.securityGroups), None, NormalizeList(vpc.subnets))))
  }

  function NormalizeRequestHeader(h: RequestHeaderConfiguration): Option<RequestHeaderConfiguration> {
    if h.requestHeaderAllowlist.None? then None
    else Some(RequestHeaderConfiguration(NormalizeList(h.requestHeaderAllowlist)))
  }

  /** What survives a trip through the service: references are dropped, a union with no
      member becomes nil, an enum "" becomes nil, and nil list or map entries become "". */
  function Normalize(s: AgentRuntimeSpec): AgentRuntimeSpec {
    s.(agentRuntimeArtifact := if s.agentRuntimeArtifact.None? then None
                               else NormalizeArtifact(s.agentRuntimeArtifact.value),
       authorizerConfiguration := if s.authorizerConfiguration.None? then None
                                  else NormalizeAuthorizer(s.authorizerConfiguration.value),
       environmentVariables := NormalizeMap(s.environmentVariables),
       networkConfiguration := if s.networkConfiguration.None? then None
                               else Some(NormalizeNetwork(s.networkConfiguration.value)),
       protocolConfiguration := if s.protocolConfiguration.None? then None
                                else
                                   Some(ProtocolConfiguration(
                                          NormalizeEnum(s.protocolConfiguration.value.serverProtocol))),
       requestHeaderConfiguration := if s.requestHeaderConfiguration.None? then None
                                     else NormalizeRequestHeader(s.requestHeaderConfiguration.value))
  }

  lemma ListRoundTrip(l: StringList)
    ensures DecodeList(EncodeList(l)) == NormalizeList(l)
    ensures EncodeList(NormalizeList(l)) == EncodeList(l)
  {
    if l.Some? {
      StringSliceAfterToStringSlice(l.value);
      ToStringSliceAfterFillNil(l.value);
    }
  }

  lemma MapRoundTrip(m: StringMap)
    ensures DecodeMap(EncodeMap(m)) == NormalizeMap(m)
    ensures EncodeMap(NormalizeMap(m)) == EncodeMap(m)
  {
    if m.Some? {
      assert StringMapOf(ToStringMap(m.value)) == NormalizeMap(m).value;
      assert ToStringMap(NormalizeMap(m).value) == ToStringMap(m.value);
    }
  }

  lemma ArtifactRoundTrip(a: Option<AgentRuntimeArtifact>)
    requires EncodeArtifact(a).Built?
    ensures var n := if a.None? then None else NormalizeArtifact(a.value);
            DecodeArtifact(EncodeArtifact(a).value) == n && EncodeArtifact(n) == EncodeArtifact(a)
  {
    if a.Some? && a.value.codeConfiguration.Some? {
      ListRoundTrip(a.value.codeConfiguration.value.entryPoint);
    }
  }

  lemma ClaimRoundTrip(c: Option<CustomClaim>)
    requires EncodeClaim(c).Built?
    ensures DecodeClaim(EncodeClaim(c).value) == NormalizeClaim(c)
    ensures EncodeClaim(NormalizeClaim(c)) == EncodeClaim(c)
  {
    if c.value.authorizingClaimMatchValue.Some? {
      var v := c.value.authorizingClaimMatchValue.value.claimMatchValue;
      if v.Some? {
        ListRoundTrip(v.value.matchValueStringList);
      }
    }
  }

  lemma AuthorizerRoundTrip(a: Option<AuthorizerConfiguration>)
    requires EncodeAuthorizer(a).Built?
    ensures var n := if a.None? then None else NormalizeAuthorizer(a.value);
            DecodeAuthorizer(EncodeAuthorizer(a).value) == n && EncodeAuthorizer(n) == EncodeAuthorizer(a)
  {
    if a.Some? && a.value.customJWTAuthorizer.Some? {
      var jwt := a.value.customJWTAuthorizer.value;
      ListRoundTrip(jwt.allowedAudience);
      ListRoundTrip(jwt.allowedClients);
      ListRoundTrip(jwt.allowedScopes);
      ClaimsRoundTrip(jwt.customClaims);
    }
  }

  lemma ClaimsRoundTrip(cs: Option<seq<Option<CustomClaim>>>)
    requires EncodeClaims(cs).Built?
    ensures var n := if cs.None? then None
                     else Some(seq(|cs.value|, i requires 0 <= i < |cs.value| => NormalizeClaim(cs.value[i])));
            DecodeClaims(EncodeClaims(cs).value) == n && EncodeClaims(n) == EncodeClaims(cs)
  {
    if cs.Some? {
      var l := cs.value;
      var n := seq(|l|, i requires 0 <= i < |l| => NormalizeClaim(l[i]));
      EncodeAllOutcome(EncodeClaim, l);
      EncodeAllOutcome(EncodeClaim, n);
      forall i | 0 <= i < |l| {
        ClaimRoundTrip(l[i]);
      }
      assert EncodeAll(EncodeClaim, n).value == EncodeAll(EncodeClaim, l).value;
      assert DecodeClaims(EncodeClaims(cs).value).value == n;
    }
  }

  lemma FilesystemsRoundTrip(fs: Option<seq<Option<FilesystemConfiguration>>>)
    requires EncodeFilesystems(fs).Built?
    ensures DecodeFilesystems(EncodeFilesystems(fs).value) == fs
  {
    if fs.Some? {
      EncodeAllOutcome(EncodeFilesystem, fs.value);
      assert DecodeFilesystems(EncodeFilesystems(fs).value).value == fs.value;
    }
  }

  lemma NetworkRoundTrip(n: NetworkConfiguration)
    ensures DecodeNetwork(EncodeNetwork(Some(n))) == Some(NormalizeNetwork(n))
    ensures EncodeNetwork(Some(NormalizeNetwork(n))) == EncodeNetwork(Some(n))
  {
    if n.networkModeConfig.Some? {
      ListRoundTrip(n.networkModeConfig.value.securityGroups);
      ListRoundTrip(n.networkModeConfig.value.subnets);
    }
  }

  lemma SmallRoundTrips(l: Option<LifecycleConfiguration>, p: Option<ProtocolConfiguration>,
                        h: Option<RequestHeaderConfiguration>)
    ensures EncodeLifecycle(l).Built? ==> DecodeLifecycle(EncodeLifecycle(l).value) == l
    ensures var n := if p.None? then None else Some(ProtocolConfiguration(NormalizeEnum(p.value.serverProtocol)));
            DecodeProtocol(EncodeProtocol(p)) == n && EncodeProtocol(n) == EncodeProtocol(p)
    ensures var n := if h.None? then None else NormalizeRequestHeader(h.value);
            DecodeRequestHeader(EncodeRequestHeader(h)) == n && EncodeRequestHeader(n) == EncodeRequestHeader(h)
  {
    if h.Some? {
      ListRoundTrip(h.value.requestHeaderAllowlist);
    }
  }

  /** Reading back what was created yields the original spec up to Normalize, and the
      normalised spec asks the service for exactly the same thing. */
  lemma RoundTrip(s: AgentRuntimeSpec, state: Wire.StateOutput)
    requires EncodeCreate(s).Built?
    ensures DecodeSpec(Echo(EncodeCreate(s).value, state), s) == Normalize(s)
    ensures EncodeCreate(Normalize(s)) == EncodeCreate(s)
  {
    ArtifactRoundTrip(s.agentRuntimeArtifact);
    AuthorizerRoundTrip(s.authorizerConfiguration);
    FilesystemsRoundTrip(s.filesystemConfigurations);
    MapRoundTrip(s.environmentVariables);
    if s.networkConfiguration.Some? {
      NetworkRoundTrip(s.networkConfiguration.value);
    }
    SmallRoundTrips(s.lifecycleConfiguration, s.protocolConfiguration, s.requestHeaderConfiguration);
    hide EncodeLifecycle, EncodeProtocol, EncodeRequestHeader, EncodeArtifact, EncodeAuthorizer, EncodeFilesystems,
      EncodeMap, EncodeNetwork, DecodeLifecycle, DecodeProtocol, DecodeRequestHeader, DecodeArtifact, DecodeAuthorizer,
      DecodeFilesystems, DecodeMap, DecodeNetwork, NormalizeArtifact, NormalizeAuthorizer, NormalizeMap,
      NormalizeNetwork;
  }

  /** So normalising twice is normalising once. */
  lemma NormalizeIdempotent(s: AgentRuntimeSpec)
    requires Encodable(s)
    ensures Normalize(Normalize(s)) == Normalize(s)
  {
    CreateBuiltIff(s);
    var state := Wire.StateOutput(None, None, None, None, "", None);
    RoundTrip(s, state);
    RoundTrip(Normalize(s), state);
  }

  /** No union of the answer holds a member this client does not know. */
  predicate KnownMembers(r: Wire.GetOutput) {
    && !r.artifact.UnknownArtifact?
    && (r.artifact.MemberCodeConfiguration? ==> !r.artifact.code.code.UnknownCode?)
    && !r.authorizer.UnknownAuthorizer?
    && (r.authorizer.MemberCustomJWTAuthorizer? ==>
          forall c | c in Items(r.authorizer.jwt.customClaims) ::
            c.authorizingClaimMatchValue.Some? ==>
              !c.authorizingClaimMatchValue.value.claimMatchValue.UnknownMatchValue?)
    && (forall f | f in Items(r.filesystems) :: !f.UnknownFilesystem?)
    && !r.requestHeader.UnknownRequestHeader?
  }

  lemma ListReadBack(l: Option<seq<string>>)
    ensures EncodeList(DecodeList(l)) == l
  {
    if l.Some? {
      assert ToStringSlice(StringSlice(l.value)) == l.value;
    }
  }

  lemma AuthorizerReadBack(a: Wire.Authorizer)
    ensures EncodeAuthorizer(DecodeAuthorizer(a)).Built?
    ensures EncodeAuthorizer(DecodeAuthorizer(a)).value == a
            <==> && !a.UnknownAuthorizer?
                 && (a.MemberCustomJWTAuthorizer? ==>
                       forall c | c in Items(a.jwt.customClaims) ::
                         c.authorizingClaimMatchValue.Some? ==>
                           !c.authorizingClaimMatchValue.value.claimMatchValue.UnknownMatchValue?)
  {
    if a.MemberCustomJWTAuthorizer? {
      ListReadBack(a.jwt.allowedAudience);
      ListReadBack(a.jwt.allowedClients);
      ListReadBack(a.jwt.allowedScopes);
      if a.jwt.customClaims.Some? {
        var cs := a.jwt.customClaims.value;
        var decoded := DecodeClaims(a.jwt.customClaims).value;
        EncodeAllOutcome(EncodeClaim, decoded);
        forall i | 0 <= i < |cs|
          ensures EncodeClaim(decoded[i]).Built?
          ensures EncodeClaim(decoded[i]).value == cs[i]
                  <==> (cs[i].authorizingClaimMatchValue.Some? ==>
                          !cs[i].authorizingClaimMatchValue.value.claimMatchValue.UnknownMatchValue?)
        {
          ClaimReadBack(cs[i]);
        }
        var again := EncodeAll(EncodeClaim, decoded).value;
        assert forall i | 0 <= i < |cs| :: again[i] == EncodeClaim(decoded[i]).value;
        assert again == cs <==> forall i | 0 <= i < |cs| :: again[i] == cs[i];
      }
    }
  }

  lemma ClaimReadBack(c: Wire.CustomClaim)
    ensures EncodeClaim(DecodeClaim(c)).Built?
    ensures EncodeClaim(DecodeClaim(c)).value == c
            <==> (c.authorizingClaimMatchValue.Some? ==>
                    !c.authorizingClaimMatchValue.value.claimMatchValue.UnknownMatchValue?)
  {
    if c.authorizingClaimMatchValue.Some? {
      var v := c.authorizingClaimMatchValue.value.claimMatchValue;
      if v.MemberMatchValueStringList? {
        ListReadBack(Some(v.list));
      }
    }
  }

  lemma FilesystemsReadBack(fs: Option<seq<Wire.Filesystem>>)
    ensures EncodeFilesystems(DecodeFilesystems(fs)).Built?
    ensures EncodeFilesystems(DecodeFilesystems(fs)).value == fs <==> forall f | f in Items(fs) :: !f.UnknownFilesystem?
  {
    if fs.Some? {
      var decoded := DecodeFilesystems(fs).value;
      EncodeAllOutcome(EncodeFilesystem, decoded);
      var again := EncodeAll(EncodeFilesystem, decoded).value;
      assert forall i | 0 <= i < |decoded| :: EncodeFilesystem(decoded[i]) == Built(again[i]);
      assert again == fs.value <==> forall i | 0 <= i < |again| :: again[i] == fs.value[i];
    }
  }

  lemma ArtifactReadBack(a: Wire.Artifact)
    ensures EncodeArtifact(DecodeArtifact(a)).Built?
    ensures EncodeArtifact(DecodeArtifact(a)).value == a
            <==> !a.UnknownArtifact? && (a.MemberCodeConfiguration? ==> !a.code.code.UnknownCode?)
  {
    if a.MemberCodeConfiguration? {
      ListReadBack(a.code.entryPoint);
    }
  }

  lemma NetworkReadBack(n: Option<Wire.Network>)
    ensures EncodeNetwork(DecodeNetwork(n)) == n
  {
    if n.Some? && n.value.networkModeConfig.Some? {
      ListReadBack(n.value.networkModeConfig.value.securityGroups);
      ListReadBack(n.value.networkModeConfig.value.subnets);
    }
  }

  lemma RequestHeaderReadBack(h: Wire.RequestHeader)
    ensures EncodeRequestHeader(DecodeRequestHeader(h)) == h <==> !h.UnknownRequestHeader?
  {
    if h.MemberRequestHeaderAllowlist? {
      ListReadBack(Some(h.list));
    }
  }

  lemma LifecycleReadBack(l: Option<Wire.Lifecycle>)
    ensures EncodeLifecycle(DecodeLifecycle(l)) == Built(l)
  {
  }

  lemma MapReadBack(m: Option<map<string, string>>)
    ensures EncodeMap(DecodeMap(m)) == m
  {
    if m.Some? {
      assert ToStringMap(StringMapOf(m.value)) == m.value;
    }
  }

  /** A spec that was read can always be sent again, and sending it says exactly what was
      read, tags aside, if and only if the answer holds no unknown union member. */
  lemma ReadBack(r: Wire.GetOutput, base: AgentRuntimeSpec)
    ensures EncodeCreate(DecodeSpec(r, base)).Built?
    ensures Echo(EncodeCreate(DecodeSpec(r, base)).value, r.state) == r <==> KnownMembers(r)
  {
    ArtifactReadBack(r.artifact);
    AuthorizerReadBack(r.authorizer);
    MapReadBack(r.environmentVariables);
    FilesystemsReadBack(r.filesystems);
    LifecycleReadBack(r.lifecycle);
    NetworkReadBack(r.network);
    RequestHeaderReadBack(r.requestHeader);
    var s := DecodeSpec(r, base);
    assert EncodeProtocol(s.protocolConfiguration) == r.protocol;
    var p := EncodeCreate(s).value;
    assert p == Wire.CreateInput(
                  EncodeArtifact(s.agentRuntimeArtifact).value, r.name,
                  EncodeAuthorizer(s.authorizerConfiguration).value, r.description, r.environmentVariables,
                  EncodeFilesystems(s.filesystemConfigurations).value, r.lifecycle, r.network,
                  r.platformVersion, r.protocol, EncodeRequestHeader(s.requestHeaderConfiguration),
                  r.roleArn, EncodeMap(s.tags));
  }
}
