/** The AgentRuntime spec as a tree of the fields that newResourceDelta compares
    (pkg/resource/agent_runtime/delta.go); references are not among them. Each struct is read
    in two ways, as a tree and by a field-by-field relation, and the two are proved to agree. */
module SpecView {
  import opened Basics
  import opened Api
  import opened Trees
  import Tags

  function StrNode(p: Option<string>): Tree {
    if p.Some? then Leaf(Str(p.value)) else Absent
  }

  function NumNode(p: Option<int64>): Tree {
    if p.Some? then Leaf(Num(p.value)) else Absent
  }

  function ListNode(l: StringList): Tree {
    Leaf(StrList(Items(l)))
  }

  function S3Node(p: Option<S3Location>): Tree {
    if p.None? then Absent
    else
      Struct(Field(Name.Bucket, StrNode(p.value.bucket),
             Field(Name.Prefix, StrNode(p.value.prefix),
             Field(Name.VersionID, StrNode(p.value.versionID), End))))
  }

  function CodeNode(p: Option<Code>): Tree {
    if p.None? then Absent
    else
      Struct(Field(Name.S3, S3Node(p.value.s3), End))
  }

  function CodeConfigurationNode(p: Option<CodeConfiguration>): Tree {
    if p.None? then Absent
    else
      Struct(Field(Name.Code, CodeNode(p.value.code),
             Field(Name.EntryPoint, ListNode(p.value.entryPoint),
             Field(Name.Runtime, StrNode(p.value.runtime), End))))
  }

  function ContainerNode(p: Option<ContainerConfiguration>): Tree {
    if p.None? then Absent
    else
      Struct(Field(Name.ContainerURI, StrNode(p.value.containerURI), End))
  }

  function ArtifactNode(p: Option<AgentRuntimeArtifact>): Tree {
    if p.None? then Absent
    else
      Struct(Field(Name.CodeConfiguration, CodeConfigurationNode(p.value.codeConfiguration),
             Field(Name.ContainerConfiguration, ContainerNode(p.value.containerConfiguration), End)))
  }

  function FieldsFromClaims(jwt: CustomJWTAuthorizer): Fields {
    Field(Name.CustomClaims, Leaf(Claims(Items(jwt.customClaims))),
    Field(Name.DiscoveryURL, StrNode(jwt.discoveryURL), End))
  }

  function JWTNode(p: Option<CustomJWTAuthorizer>): Tree {
    if p.None? then Absent
    else
      Struct(Field(Name.AllowedAudience, ListNode(p.value.allowedAudience),
             Field(Name.AllowedClients, ListNode(p.value.allowedClients),
             Field(Name.AllowedScopes, ListNode(p.value.allowedScopes), FieldsFromClaims(p.value)))))
  }

  function AuthorizerNode(p: Option<AuthorizerConfiguration>): Tree {
    if p.None? then Absent
    else
      Struct(Field(Name.CustomJWTAuthorizer, JWTNode(p.value.customJWTAuthorizer), End))
  }

  function LifecycleNode(p: Option<LifecycleConfiguration>): Tree {
    if p.None? then Absent
    else
      Struct(Field(Name.IdleRuntimeSessionTimeout, NumNode(p.value.idleRuntimeSessionTimeout),
             Field(Name.MaxLifetime, NumNode(p.value.maxLifetime), End)))
  }

  function VPCNode(p: Option<VPCConfig>): Tree {
    if p.None? then Absent
    else
      Struct(Field(Name.SecurityGroups, ListNode(p.value.securityGroups),
             Field(Name.Subnets, ListNode(p.value.subnets), End)))
  }

  function NetworkNode(p: Option<NetworkConfiguration>): Tree {
    if p.None? then Absent
    else
      Struct(Field(Name.NetworkMode, StrNode(p.value.networkMode),
             Field(Name.NetworkModeConfig, VPCNode(p.value.networkModeConfig), End)))
  }

  function ProtocolNode(p: Option<ProtocolConfiguration>): Tree {
    if p.None? then Absent
    else
      Struct(Field(Name.ServerProtocol, StrNode(p.value.serverProtocol), End))
  }

  function RequestHeaderNode(p: Option<RequestHeaderConfiguration>): Tree {
    if p.None? then Absent
    else
      Struct(Field(Name.RequestHeaderAllowlist, ListNode(p.value.requestHeaderAllowlist), End))
  }

  // The fields of the spec, in the order they are compared.

  function FieldsFromProtocol(s: AgentRuntimeSpec): Fields {
    Field(Name.ProtocolConfiguration, ProtocolNode(s.protocolConfiguration),
    Field(Name.RequestHeaderConfiguration, RequestHeaderNode(s.requestHeaderConfiguration),
    Field(Name.RoleARN, StrNode(s.roleARN),
    Field(Name.Tags, Leaf(TagMap(Tags.Plain(s.tags))), End))))
  }

  function FieldsFromFilesystems(s: AgentRuntimeSpec): Fields {
    Field(Name.FilesystemConfigurations, Leaf(Filesystems(Items(s.filesystemConfigurations))),
    Field(Name.LifecycleConfiguration, LifecycleNode(s.lifecycleConfiguration),
    Field(Name.NetworkConfiguration, NetworkNode(s.networkConfiguration),
    Field(Name.PlatformVersion, StrNode(s.platformVersion), FieldsFromProtocol(s)))))
  }

  function SpecFields(s: AgentRuntimeSpec): Fields {
    Field(Name.AgentRuntimeArtifact, ArtifactNode(s.agentRuntimeArtifact),
    Field(Name.AgentRuntimeName, StrNode(s.agentRuntimeName),
    Field(Name.AuthorizerConfiguration, AuthorizerNode(s.authorizerConfiguration),
    Field(Name.Description, StrNode(s.description),
    Field(Name.EnvironmentVariables, Leaf(StrMap(Entries(s.environmentVariables))), FieldsFromFilesystems(s))))))
  }

  function SpecTree(s: AgentRuntimeSpec): Tree {
    Struct(SpecFields(s))
  }

  // ----- Field-by-field equivalence -----

  /** Two lists are the same when both have no elements, or they have equally many and the
      supplied relation holds. */
  predicate SameList(eq: ListEq, l: StringList, m: StringList) {
    |Items(l)| == |Items(m)| && (|Items(l)| > 0 ==> eq(Items(l), Items(m)))
  }

  predicate SameCode(eq: ListEq, a: Option<CodeConfiguration>, b: Option<CodeConfiguration>) {
    if a.None? || b.None? then a == b
    else
      && a.value.code == b.value.code
      && SameList(eq, a.value.entryPoint, b.value.entryPoint)
      && a.value.runtime == b.value.runtime
  }

  predicate SameArtifact(eq: ListEq, a: Option<AgentRuntimeArtifact>, b: Option<AgentRuntimeArtifact>) {
    if a.None? || b.None? then a == b
    else
      && SameCode(eq, a.value.codeConfiguration, b.value.codeConfiguration)
      && a.value.containerConfiguration == b.value.containerConfiguration
  }

  predicate SameJWT(eq: ListEq, a: Option<CustomJWTAuthorizer>, b: Option<CustomJWTAuthorizer>) {
    if a.None? || b.None? then a == b
    else
      && SameList(eq, a.value.allowedAudience, b.value.allowedAudience)
      && SameList(eq, a.value.allowedClients, b.value.allowedClients)
      && SameList(eq, a.value.allowedScopes, b.value.allowedScopes)
      && ClaimsEqual(Items(a.value.customClaims), Items(b.value.customClaims))
      && a.value.discoveryURL == b.value.discoveryURL
  }

  predicate SameAuthorizer(eq: ListEq, a: Option<AuthorizerConfiguration>, b: Option<AuthorizerConfiguration>) {
    if a.None? || b.None? then a == b
    else SameJWT(eq, a.value.customJWTAuthorizer, b.value.customJWTAuthorizer)
  }

  predicate SameVPC(eq: ListEq, a: Option<VPCConfig>, b: Option<VPCConfig>) {
    if a.None? || b.None? then a == b
    else
      && SameList(eq, a.value.securityGroups, b.value.securityGroups)
      && SameList(eq, a.value.subnets, b.value.subnets)
  }

  predicate SameNetwork(eq: ListEq, a: Option<NetworkConfiguration>, b: Option<NetworkConfiguration>) {
    if a.None? || b.None? then a == b
    else
      && a.value.networkMode == b.value.networkMode
      && SameVPC(eq, a.value.networkModeConfig, b.value.networkModeConfig)
  }

  predicate SameRequestHeader(eq: ListEq, a: Option<RequestHeaderConfiguration>,
                              b: Option<RequestHeaderConfiguration>)
  {
    if a.None? || b.None? then a == b
    else SameList(eq, a.value.requestHeaderAllowlist, b.value.requestHeaderAllowlist)
  }

  /** Two claims are the same when they agree field by field, a nil list of match values and an empty
      one being alike. */
  predicate SameClaim(c: Option<CustomClaim>, d: Option<CustomClaim>) {
    match (c, d)
    case (Some(c), Some(d)) =>
      && c.inboundTokenClaimName == d.inboundTokenClaimName
      && c.inboundTokenClaimValueType == d.inboundTokenClaimValueType
      && (match (c.authorizingClaimMatchValue, d.authorizingClaimMatchValue)
          case (Some(m), Some(n)) =>
            && m.claimMatchOperator == n.claimMatchOperator
            && (match (m.claimMatchValue, n.claimMatchValue)
                case (Some(v), Some(w)) =>
                  && v.matchValueString == w.matchValueString
                  && Items(v.matchValueStringList) == Items(w.matchValueStringList)
                case (v, w) => v == w)
          case (m, n) => m == n)
    case _ => c == d
  }

  lemma ClaimsEqualExact(cs: seq<Option<CustomClaim>>, ds: seq<Option<CustomClaim>>)
    ensures ClaimsEqual(cs, ds) <==> |cs| == |ds| && forall i | 0 <= i < |cs| :: SameClaim(cs[i], ds[i])
  {
    forall i | 0 <= i < |cs| && |cs| == |ds|
      ensures EmptyIsNil(cs[i]) == EmptyIsNil(ds[i]) <==> SameClaim(cs[i], ds[i])
    {
    }
    hide SameClaim, EmptyIsNil;
  }

  /** Field-by-field equivalence of two specs: equal pointers' targets, lists up to the
      supplied relation, nil and empty collections alike, references ignored. */
  predicate SpecEquivalent(eq: ListEq, a: AgentRuntimeSpec, b: AgentRuntimeSpec) {
    && SameArtifact(eq, a.agentRuntimeArtifact, b.agentRuntimeArtifact)
    && a.agentRuntimeName == b.agentRuntimeName
    && SameAuthorizer(eq, a.authorizerConfiguration, b.authorizerConfiguration)
    && a.description == b.description
    && Entries(a.environmentVariables) == Entries(b.environmentVariables)
    && Items(a.filesystemConfigurations) == Items(b.filesystemConfigurations)
    && a.lifecycleConfiguration == b.lifecycleConfiguration
    && SameNetwork(eq, a.networkConfiguration, b.networkConfiguration)
    && a.platformVersion == b.platformVersion
    && a.protocolConfiguration == b.protocolConfiguration
    && SameRequestHeader(eq, a.requestHeaderConfiguration, b.requestHeaderConfiguration)
    && a.roleARN == b.roleARN
    && Tags.Plain(a.tags) == Tags.Plain(b.tags)
  }

  // ----- The two readings agree -----

  lemma StrTrees(eq: ListEq, a: Option<string>, b: Option<string>)
    ensures Comparable(StrNode(a), StrNode(b))
    ensures Equivalent(eq, StrNode(a), StrNode(b)) <==> a == b
  {
  }

  lemma NumTrees(eq: ListEq, a: Option<int64>, b: Option<int64>)
    ensures Comparable(NumNode(a), NumNode(b))
    ensures Equivalent(eq, NumNode(a), NumNode(b)) <==> a == b
  {
  }

  lemma ListTrees(eq: ListEq, a: StringList, b: StringList)
    ensures Comparable(ListNode(a), ListNode(b))
    ensures Equivalent(eq, ListNode(a), ListNode(b)) <==> SameList(eq, a, b)
  {
  }

  lemma S3Fields(eq: ListEq, x: S3Location, y: S3Location)
    ensures var a, b := S3Node(Some(x)), S3Node(Some(y));
            Comparable(a, b) && Comparable(a, Absent) && (Equivalent(eq, a, b) <==> x == y)
  {
    StrTrees(eq, x.bucket, y.bucket);
    StrTrees(eq, x.prefix, y.prefix);
    StrTrees(eq, x.versionID, y.versionID);
    var fa, fb := End, End;
    NoFields(eq);
    hide Comparable, ComparableFields, HasField, Equivalent, EquivalentFields, StrNode;
    fa, fb := Prepend(eq, Name.VersionID, StrNode(x.versionID), StrNode(y.versionID), fa, fb);
    fa, fb := Prepend(eq, Name.Prefix, StrNode(x.prefix), StrNode(y.prefix), fa, fb);
    fa, fb := Prepend(eq, Name.Bucket, StrNode(x.bucket), StrNode(y.bucket), fa, fb);
    WrapStruct(eq, fa, fb);
  }

  lemma S3Trees(eq: ListEq, a: Option<S3Location>, b: Option<S3Location>)
    ensures Comparable(S3Node(a), S3Node(b))
    ensures Equivalent(eq, S3Node(a), S3Node(b)) <==> a == b
  {
    if a.Some? {
      S3Fields(eq, a.value, if b.Some? then b.value else a.value);
      NilNode(eq, S3Node(a));
    } else {
      NilNode(eq, S3Node(b));
    }
  }

  lemma CodeTrees(eq: ListEq, a: Option<Code>, b: Option<Code>)
    ensures Comparable(CodeNode(a), CodeNode(b))
    ensures Equivalent(eq, CodeNode(a), CodeNode(b)) <==> a == b
  {
    if a.None? {
      NilNode(eq, CodeNode(b));
      return;
    }
    var x, y := a.value, if b.Some? then b.value else a.value;
    NilNode(eq, CodeNode(a));
    S3Trees(eq, x.s3, y.s3);
    var fa, fb := End, End;
    NoFields(eq);
    hide Comparable, ComparableFields, HasField, Equivalent, EquivalentFields, S3Node;
    fa, fb := Prepend(eq, Name.S3, S3Node(x.s3), S3Node(y.s3), fa, fb);
    WrapStruct(eq, fa, fb);
  }

  lemma CodeConfigurationFields(eq: ListEq, x: CodeConfiguration, y: CodeConfiguration)
    ensures var a, b := CodeConfigurationNode(Some(x)), CodeConfigurationNode(Some(y));
            Comparable(a, b) && Comparable(a, Absent) && (Equivalent(eq, a, b) <==> SameCode(eq, Some(x), Some(y)))
  {
    CodeTrees(eq, x.code, y.code);
    ListTrees(eq, x.entryPoint, y.entryPoint);
    StrTrees(eq, x.runtime, y.runtime);
    var fa, fb := End, End;
    NoFields(eq);
    hide Comparable, ComparableFields, HasField, Equivalent, EquivalentFields, CodeNode, ListNode, StrNode;
    fa, fb := Prepend(eq, Name.Runtime, StrNode(x.runtime), StrNode(y.runtime), fa, fb);
    fa, fb := Prepend(eq, Name.EntryPoint, ListNode(x.entryPoint), ListNode(y.entryPoint), fa, fb);
    fa, fb := Prepend(eq, Name.Code, CodeNode(x.code), CodeNode(y.code), fa, fb);
    WrapStruct(eq, fa, fb);
  }

  lemma CodeConfigurationTrees(eq: ListEq, a: Option<CodeConfiguration>, b: Option<CodeConfiguration>)
    ensures Comparable(CodeConfigurationNode(a), CodeConfigurationNode(b))
    ensures Equivalent(eq, CodeConfigurationNode(a), CodeConfigurationNode(b)) <==> SameCode(eq, a, b)
  {
    if a.Some? {
      CodeConfigurationFields(eq, a.value, if b.Some? then b.value else a.value);
      NilNode(eq, CodeConfigurationNode(a));
    } else {
      NilNode(eq, CodeConfigurationNode(b));
    }
  }

  lemma ContainerTrees(eq: ListEq, a: Option<ContainerConfiguration>, b: Option<ContainerConfiguration>)
    ensures Comparable(ContainerNode(a), ContainerNode(b))
    ensures Equivalent(eq, ContainerNode(a), ContainerNode(b)) <==> a == b
  {
    if a.None? {
      NilNode(eq, ContainerNode(b));
      return;
    }
    var x, y := a.value, if b.Some? then b.value else a.value;
    NilNode(eq, ContainerNode(a));
    StrTrees(eq, x.containerURI, y.containerURI);
    var fa, fb := End, End;
    NoFields(eq);
    hide Comparable, ComparableFields, HasField, Equivalent, EquivalentFields, StrNode;
    fa, fb := Prepend(eq, Name.ContainerURI, StrNode(x.containerURI), StrNode(y.containerURI), fa, fb);
    WrapStruct(eq, fa, fb);
  }

  lemma ArtifactTrees(eq: ListEq, a: Option<AgentRuntimeArtifact>, b: Option<AgentRuntimeArtifact>)
    ensures Comparable(ArtifactNode(a), ArtifactNode(b))
    ensures Equivalent(eq, ArtifactNode(a), ArtifactNode(b)) <==> SameArtifact(eq, a, b)
  {
    if a.None? {
      NilNode(eq, ArtifactNode(b));
      return;
    }
    var x, y := a.value, if b.Some? then b.value else a.value;
    NilNode(eq, ArtifactNode(a));
    CodeConfigurationTrees(eq, x.codeConfiguration, y.codeConfiguration);
    ContainerTrees(eq, x.containerConfiguration, y.containerConfiguration);
    var fa, fb := End, End;
    NoFields(eq);
    hide Comparable, ComparableFields, HasField, Equivalent, EquivalentFields, CodeConfigurationNode, ContainerNode;
    fa, fb := Prepend(eq, Name.ContainerConfiguration, ContainerNode(x.containerConfiguration),
      ContainerNode(y.containerConfiguration), fa, fb);
    fa, fb := Prepend(eq, Name.CodeConfiguration, CodeConfigurationNode(x.codeConfiguration),
      CodeConfigurationNode(y.codeConfiguration), fa, fb);
    WrapStruct(eq, fa, fb);
  }

  lemma WrapClaims(eq: ListEq, a: Option<seq<Option<CustomClaim>>>, b: Option<seq<Option<CustomClaim>>>)
    ensures var x, y := Leaf(Claims(Items(a))), Leaf(Claims(Items(b)));
            Comparable(x, y) && (Equivalent(eq, x, y) <==> ClaimsEqual(Items(a), Items(b)))
  {
  }

  lemma JWTFields(eq: ListEq, x: CustomJWTAuthorizer, y: CustomJWTAuthorizer)
    ensures var a, b := JWTNode(Some(x)), JWTNode(Some(y));
            Comparable(a, b) && Comparable(a, Absent) && (Equivalent(eq, a, b) <==> SameJWT(eq, Some(x), Some(y)))
  {
    ListTrees(eq, x.allowedAudience, y.allowedAudience);
    ListTrees(eq, x.allowedClients, y.allowedClients);
    ListTrees(eq, x.allowedScopes, y.allowedScopes);
    WrapClaims(eq, x.customClaims, y.customClaims);
    StrTrees(eq, x.discoveryURL, y.discoveryURL);
    var fa, fb := End, End;
    NoFields(eq);
    hide Comparable, ComparableFields, HasField, Equivalent, EquivalentFields, ListNode, StrNode, ValueEq, Items,
      SameList, ClaimsEqual;
    fa, fb := Prepend(eq, Name.DiscoveryURL, StrNode(x.discoveryURL), StrNode(y.discoveryURL), fa, fb);
    fa, fb := Prepend(eq, Name.CustomClaims, Leaf(Claims(Items(x.customClaims))), Leaf(Claims(Items(y.customClaims))),
      fa, fb);
    fa, fb := Prepend(eq, Name.AllowedScopes, ListNode(x.allowedScopes), ListNode(y.allowedScopes), fa, fb);
    fa, fb := Prepend(eq, Name.AllowedClients, ListNode(x.allowedClients), ListNode(y.allowedClients), fa, fb);
    fa, fb := Prepend(eq, Name.AllowedAudience, ListNode(x.allowedAudience), ListNode(y.allowedAudience), fa, fb);
    WrapStruct(eq, fa, fb);
  }

  lemma JWTTrees(eq: ListEq, a: Option<CustomJWTAuthorizer>, b: Option<CustomJWTAuthorizer>)
    ensures Comparable(JWTNode(a), JWTNode(b))
    ensures Equivalent(eq, JWTNode(a), JWTNode(b)) <==> SameJWT(eq, a, b)
  {
    if a.Some? {
      JWTFields(eq, a.value, if b.Some? then b.value else a.value);
      NilNode(eq, JWTNode(a));
    } else {
      NilNode(eq, JWTNode(b));
    }
  }

  lemma AuthorizerTrees(eq: ListEq, a: Option<AuthorizerConfiguration>, b: Option<AuthorizerConfiguration>)
    ensures Comparable(AuthorizerNode(a), AuthorizerNode(b))
    ensures Equivalent(eq, AuthorizerNode(a), AuthorizerNode(b)) <==> SameAuthorizer(eq, a, b)
  {
    if a.None? {
      NilNode(eq, AuthorizerNode(b));
      return;
    }
    var x, y := a.value, if b.Some? then b.value else a.value;
    NilNode(eq, AuthorizerNode(a));
    JWTTrees(eq, x.customJWTAuthorizer, y.customJWTAuthorizer);
    var fa, fb := End, End;
    NoFields(eq);
    hide Comparable, ComparableFields, HasField, Equivalent, EquivalentFields, JWTNode;
    fa, fb := Prepend(eq, Name.CustomJWTAuthorizer, JWTNode(x.customJWTAuthorizer), JWTNode(y.customJWTAuthorizer), fa,
      fb);
    WrapStruct(eq, fa, fb);
  }

  lemma LifecycleTrees(eq: ListEq, a: Option<LifecycleConfiguration>, b: Option<LifecycleConfiguration>)
    ensures Comparable(LifecycleNode(a), LifecycleNode(b))
    ensures Equivalent(eq, LifecycleNode(a), LifecycleNode(b)) <==> a == b
  {
    if a.None? {
      NilNode(eq, LifecycleNode(b));
      return;
    }
    var x, y := a.value, if b.Some? then b.value else a.value;
    NilNode(eq, LifecycleNode(a));
    NumTrees(eq, x.idleRuntimeSessionTimeout, y.idleRuntimeSessionTimeout);
    NumTrees(eq, x.maxLifetime, y.maxLifetime);
    var fa, fb := End, End;
    NoFields(eq);
    hide Comparable, ComparableFields, HasField, Equivalent, EquivalentFields, NumNode;
    fa, fb := Prepend(eq, Name.MaxLifetime, NumNode(x.maxLifetime), NumNode(y.maxLifetime), fa, fb);
    fa, fb := Prepend(eq, Name.IdleRuntimeSessionTimeout, NumNode(x.idleRuntimeSessionTimeout),
      NumNode(y.idleRuntimeSessionTimeout), fa, fb);
    WrapStruct(eq, fa, fb);
  }

  lemma VPCTrees(eq: ListEq, a: Option<VPCConfig>, b: Option<VPCConfig>)
    ensures Comparable(VPCNode(a), VPCNode(b))
    ensures Equivalent(eq, VPCNode(a), VPCNode(b)) <==> SameVPC(eq, a, b)
  {
    if a.None? {
      NilNode(eq, VPCNode(b));
      return;
    }
    var x, y := a.value, if b.Some? then b.value else a.value;
    NilNode(eq, VPCNode(a));
    ListTrees(eq, x.securityGroups, y.securityGroups);
    ListTrees(eq, x.subnets, y.subnets);
    var fa, fb := End, End;
    NoFields(eq);
    hide Comparable, ComparableFields, HasField, Equivalent, EquivalentFields, ListNode;
    fa, fb := Prepend(eq, Name.Subnets, ListNode(x.subnets), ListNode(y.subnets), fa, fb);
    fa, fb := Prepend(eq, Name.SecurityGroups, ListNode(x.securityGroups), ListNode(y.securityGroups), fa, fb);
    WrapStruct(eq, fa, fb);
  }

  lemma NetworkTrees(eq: ListEq, a: Option<NetworkConfiguration>, b: Option<NetworkConfiguration>)
    ensures Comparable(NetworkNode(a), NetworkNode(b))
    ensures Equivalent(eq, NetworkNode(a), NetworkNode(b)) <==> SameNetwork(eq, a, b)
  {
    if a.None? {
      NilNode(eq, NetworkNode(b));
      return;
    }
    var x, y := a.value, if b.Some? then b.value else a.value;
    NilNode(eq, NetworkNode(a));
    StrTrees(eq, x.networkMode, y.networkMode);
    VPCTrees(eq, x.networkModeConfig, y.networkModeConfig);
    var fa, fb := End, End;
    NoFields(eq);
    hide Comparable, ComparableFields, HasField, Equivalent, EquivalentFields, StrNode, VPCNode;
    fa, fb := Prepend(eq, Name.NetworkModeConfig, VPCNode(x.networkModeConfig), VPCNode(y.networkModeConfig), fa, fb);
    fa, fb := Prepend(eq, Name.NetworkMode, StrNode(x.networkMode), StrNode(y.networkMode), fa, fb);
    WrapStruct(eq, fa, fb);
  }

  lemma ProtocolTrees(eq: ListEq, a: Option<ProtocolConfiguration>, b: Option<ProtocolConfiguration>)
    ensures Comparable(ProtocolNode(a), ProtocolNode(b))
    ensures Equivalent(eq, ProtocolNode(a), ProtocolNode(b)) <==> a == b
  {
    if a.None? {
      NilNode(eq, ProtocolNode(b));
      return;
    }
    var x, y := a.value, if b.Some? then b.value else a.value;
    NilNode(eq, ProtocolNode(a));
    StrTrees(eq, x.serverProtocol, y.serverProtocol);
    var fa, fb := End, End;
    NoFields(eq);
    hide Comparable, ComparableFields, HasField, Equivalent, EquivalentFields, StrNode;
    fa, fb := Prepend(eq, Name.ServerProtocol, StrNode(x.serverProtocol), StrNode(y.serverProtocol), fa, fb);
    WrapStruct(eq, fa, fb);
  }

  lemma RequestHeaderTrees(eq: ListEq, a: Option<RequestHeaderConfiguration>, b: Option<RequestHeaderConfiguration>)
    ensures Comparable(RequestHeaderNode(a), RequestHeaderNode(b))
    ensures Equivalent(eq, RequestHeaderNode(a), RequestHeaderNode(b)) <==> SameRequestHeader(eq, a, b)
  {
    if a.None? {
      NilNode(eq, RequestHeaderNode(b));
      return;
    }
    var x, y := a.value, if b.Some? then b.value else a.value;
    NilNode(eq, RequestHeaderNode(a));
    ListTrees(eq, x.requestHeaderAllowlist, y.requestHeaderAllowlist);
    var fa, fb := End, End;
    NoFields(eq);
    hide Comparable, ComparableFields, HasField, Equivalent, EquivalentFields, ListNode;
    fa, fb := Prepend(eq, Name.RequestHeaderAllowlist, ListNode(x.requestHeaderAllowlist),
      ListNode(y.requestHeaderAllowlist), fa, fb);
    WrapStruct(eq, fa, fb);
  }

  lemma WrapMap(eq: ListEq, a: StringMap, b: StringMap)
    ensures var x, y := Leaf(StrMap(Entries(a))), Leaf(StrMap(Entries(b)));
            Comparable(x, y) && (Equivalent(eq, x, y) <==> Entries(a) == Entries(b))
  {
  }

  lemma WrapTags(eq: ListEq, a: StringMap, b: StringMap)
    ensures var x, y := Leaf(TagMap(Tags.Plain(a))), Leaf(TagMap(Tags.Plain(b)));
            Comparable(x, y) && (Equivalent(eq, x, y) <==> Tags.Plain(a) == Tags.Plain(b))
  {
  }

  lemma WrapFilesystems(eq: ListEq, a: Option<seq<Option<FilesystemConfiguration>>>,
                        b: Option<seq<Option<FilesystemConfiguration>>>)
    ensures var x, y := Leaf(Filesystems(Items(a))), Leaf(Filesystems(Items(b)));
            Comparable(x, y) && (Equivalent(eq, x, y) <==> Items(a) == Items(b))
  {
  }

  lemma FieldsFromProtocolTrees(eq: ListEq, a: AgentRuntimeSpec, b: AgentRuntimeSpec)
    ensures ComparableFields(FieldsFromProtocol(a), FieldsFromProtocol(b))
    ensures EquivalentFields(eq, FieldsFromProtocol(a), FieldsFromProtocol(b))
            <==> && a.protocolConfiguration == b.protocolConfiguration
                 && SameRequestHeader(eq, a.requestHeaderConfiguration, b.requestHeaderConfiguration)
                 && a.roleARN == b.roleARN
                 && Tags.Plain(a.tags) == Tags.Plain(b.tags)
    ensures forall n :: HasField(FieldsFromProtocol(a), n)
                   <==> n == Name.ProtocolConfiguration || n == Name.RequestHeaderConfiguration || n == Name.RoleARN
                        || n == Name.Tags
  {
    ProtocolTrees(eq, a.protocolConfiguration, b.protocolConfiguration);
    RequestHeaderTrees(eq, a.requestHeaderConfiguration, b.requestHeaderConfiguration);
    StrTrees(eq, a.roleARN, b.roleARN);
    WrapTags(eq, a.tags, b.tags);
    NoFields(eq);
    hide Comparable, ComparableFields, HasField, Equivalent, EquivalentFields, ProtocolNode, RequestHeaderNode, StrNode,
      SameRequestHeader, ValueEq, Tags.Plain;
    var fa, fb := End, End;
    fa, fb := Prepend(eq, Name.Tags, Leaf(TagMap(Tags.Plain(a.tags))), Leaf(TagMap(Tags.Plain(b.tags))), fa, fb);
    fa, fb := Prepend(eq, Name.RoleARN, StrNode(a.roleARN), StrNode(b.roleARN), fa, fb);
    fa, fb := Prepend(eq, Name.RequestHeaderConfiguration, RequestHeaderNode(a.requestHeaderConfiguration),
      RequestHeaderNode(b.requestHeaderConfiguration), fa, fb);
    fa, fb := Prepend(eq, Name.ProtocolConfiguration, ProtocolNode(a.protocolConfiguration),
      ProtocolNode(b.protocolConfiguration), fa, fb);
  }

  lemma FieldsFromFilesystemsTrees(eq: ListEq, a: AgentRuntimeSpec, b: AgentRuntimeSpec)
    ensures ComparableFields(FieldsFromFilesystems(a), FieldsFromFilesystems(b))
    ensures EquivalentFields(eq, FieldsFromFilesystems(a), FieldsFromFilesystems(b))
            <==> && Items(a.filesystemConfigurations) == Items(b.filesystemConfigurations)
                 && a.lifecycleConfiguration == b.lifecycleConfiguration
                 && SameNetwork(eq, a.networkConfiguration, b.networkConfiguration)
                 && a.platformVersion == b.platformVersion
                 && EquivalentFields(eq, FieldsFromProtocol(a), FieldsFromProtocol(b))
    ensures forall n :: HasField(FieldsFromFilesystems(a), n)
                   <==> n == Name.FilesystemConfigurations || n == Name.LifecycleConfiguration
                        || n == Name.NetworkConfiguration || n == Name.PlatformVersion
                        || n == Name.ProtocolConfiguration || n == Name.RequestHeaderConfiguration
                        || n == Name.RoleARN || n == Name.Tags
  {
    WrapFilesystems(eq, a.filesystemConfigurations, b.filesystemConfigurations);
    LifecycleTrees(eq, a.lifecycleConfiguration, b.lifecycleConfiguration);
    NetworkTrees(eq, a.networkConfiguration, b.networkConfiguration);
    StrTrees(eq, a.platformVersion, b.platformVersion);
    FieldsFromProtocolTrees(eq, a, b);
    hide Comparable, ComparableFields, HasField, Equivalent, EquivalentFields, LifecycleNode, NetworkNode, StrNode,
      SameNetwork, FieldsFromProtocol, ValueEq, Items;
    var fa, fb := FieldsFromProtocol(a), FieldsFromProtocol(b);
    fa, fb := Prepend(eq, Name.PlatformVersion, StrNode(a.platformVersion), StrNode(b.platformVersion), fa, fb);
    fa, fb := Prepend(eq, Name.NetworkConfiguration, NetworkNode(a.networkConfiguration),
      NetworkNode(b.networkConfiguration), fa, fb);
    fa, fb := Prepend(eq, Name.LifecycleConfiguration, LifecycleNode(a.lifecycleConfiguration),
      LifecycleNode(b.lifecycleConfiguration), fa, fb);
    fa, fb := Prepend(eq, Name.FilesystemConfigurations, Leaf(Filesystems(Items(a.filesystemConfigurations))),
      Leaf(Filesystems(Items(b.filesystemConfigurations))), fa, fb);
  }

  lemma LaterFields(eq: ListEq, a: AgentRuntimeSpec, b: AgentRuntimeSpec)
    ensures var fa, fb := FieldsFromFilesystems(a), FieldsFromFilesystems(b);
            && ComparableFields(fa, fb)
            && !HasField(fa, Name.EnvironmentVariables) && !HasField(fa, Name.Description)
            && !HasField(fa, Name.AuthorizerConfiguration) && !HasField(fa, Name.AgentRuntimeName)
            && !HasField(fa, Name.AgentRuntimeArtifact)
  {
    hide ComparableFields, HasField, EquivalentFields, FieldsFromFilesystems;
    FieldsFromFilesystemsTrees(eq, a, b);
  }

  lemma SpecFieldsTrees(eq: ListEq, a: AgentRuntimeSpec, b: AgentRuntimeSpec)
    ensures ComparableFields(SpecFields(a), SpecFields(b))
    ensures EquivalentFields(eq, SpecFields(a), SpecFields(b))
            <==> && SameArtifact(eq, a.agentRuntimeArtifact, b.agentRuntimeArtifact)
                 && a.agentRuntimeName == b.agentRuntimeName
                 && SameAuthorizer(eq, a.authorizerConfiguration, b.authorizerConfiguration)
                 && a.description == b.description
                 && Entries(a.environmentVariables) == Entries(b.environmentVariables)
                 && EquivalentFields(eq, FieldsFromFilesystems(a), FieldsFromFilesystems(b))
  {
    ArtifactTrees(eq, a.agentRuntimeArtifact, b.agentRuntimeArtifact);
    StrTrees(eq, a.agentRuntimeName, b.agentRuntimeName);
    AuthorizerTrees(eq, a.authorizerConfiguration, b.authorizerConfiguration);
    StrTrees(eq, a.description, b.description);
    WrapMap(eq, a.environmentVariables, b.environmentVariables);
    var fa, fb := FieldsFromFilesystems(a), FieldsFromFilesystems(b);
    LaterFields(eq, a, b);
    hide Comparable, ComparableFields, HasField, Equivalent, EquivalentFields, ArtifactNode, StrNode, AuthorizerNode,
      SameArtifact, SameAuthorizer, FieldsFromFilesystems, ValueEq, Entries;
    fa, fb := Prepend(eq, Name.EnvironmentVariables, Leaf(StrMap(Entries(a.environmentVariables))),
      Leaf(StrMap(Entries(b.environmentVariables))), fa, fb);
    fa, fb := Prepend(eq, Name.Description, StrNode(a.description), StrNode(b.description), fa, fb);
    fa, fb := Prepend(eq, Name.AuthorizerConfiguration, AuthorizerNode(a.authorizerConfiguration),
      AuthorizerNode(b.authorizerConfiguration), fa, fb);
    fa, fb := Prepend(eq, Name.AgentRuntimeName, StrNode(a.agentRuntimeName), StrNode(b.agentRuntimeName), fa, fb);
    fa, fb := Prepend(eq, Name.AgentRuntimeArtifact, ArtifactNode(a.agentRuntimeArtifact),
      ArtifactNode(b.agentRuntimeArtifact), fa, fb);
  }

  /** The trees of any two specs have one shape and distinct names, and are equivalent exactly
      when the specs are, field by field. */
  lemma SpecTrees(eq: ListEq, a: AgentRuntimeSpec, b: AgentRuntimeSpec)
    ensures SameShape(SpecTree(a), SpecTree(b)) && DistinctNames(SpecTree(a))
    ensures Equivalent(eq, SpecTree(a), SpecTree(b)) <==> SpecEquivalent(eq, a, b)
  {
    SpecFieldsTrees(eq, a, b);
    FieldsFromFilesystemsTrees(eq, a, b);
    FieldsFromProtocolTrees(eq, a, b);
    hide ComparableFields, Equivalent, EquivalentFields, SpecFields, SameArtifact, SameAuthorizer, SameNetwork,
      SameRequestHeader;
    WrapStruct(eq, SpecFields(a), SpecFields(b));
  }
}
