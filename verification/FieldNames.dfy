/** Which field a path names. Looking a path up in a spec by the Go field names, without the tree
    that the differ walks, and the proof that the differ reports exactly what this look-up finds
    different. */
module FieldNames {
  import opened Basics
  import opened Api
  import opened Trees
  import opened SpecView
  import opened Delta
  import Tags

  /** What a path leads to: nothing, because a struct on the way is nil or has no such field; a nil
      pointer; a struct; or a value. */
  datatype Seen = Nowhere | Nil | Inside | Holds(value: Value)

  function OfString(v: Option<string>, p: Path): Seen {
    if p != [] then Nowhere else if v.Some? then Holds(Str(v.value)) else Nil
  }

  function OfNumber(v: Option<int64>, p: Path): Seen {
    if p != [] then Nowhere else if v.Some? then Holds(Num(v.value)) else Nil
  }

  function OfValue(v: Value, p: Path): Seen {
    if p != [] then Nowhere else Holds(v)
  }

  function OfS3(o: Option<S3Location>, p: Path): Seen {
    if p == [] then (if o.Some? then Inside else Nil)
    else if o.None? then Nowhere
    else
      match p[0]
      case Bucket => OfString(o.value.bucket, p[1..])
      case Prefix => OfString(o.value.prefix, p[1..])
      case VersionID => OfString(o.value.versionID, p[1..])
      case _ => Nowhere
  }

  function OfCode(o: Option<Code>, p: Path): Seen {
    if p == [] then (if o.Some? then Inside else Nil)
    else if o.None? || p[0] != Name.S3 then Nowhere
    else OfS3(o.value.s3, p[1..])
  }

  function OfCodeConfiguration(o: Option<CodeConfiguration>, p: Path): Seen {
    if p == [] then (if o.Some? then Inside else Nil)
    else if o.None? then Nowhere
    else
      match p[0]
      case Code => OfCode(o.value.code, p[1..])
      case EntryPoint => OfValue(StrList(Items(o.value.entryPoint)), p[1..])
      case Runtime => OfString(o.value.runtime, p[1..])
      case _ => Nowhere
  }

  function OfContainer(o: Option<ContainerConfiguration>, p: Path): Seen {
    if p == [] then (if o.Some? then Inside else Nil)
    else if o.None? || p[0] != Name.ContainerURI then Nowhere
    else OfString(o.value.containerURI, p[1..])
  }

  function OfArtifact(o: Option<AgentRuntimeArtifact>, p: Path): Seen {
    if p == [] then (if o.Some? then Inside else Nil)
    else if o.None? then Nowhere
    else
      match p[0]
      case CodeConfiguration => OfCodeConfiguration(o.value.codeConfiguration, p[1..])
      case ContainerConfiguration => OfContainer(o.value.containerConfiguration, p[1..])
      case _ => Nowhere
  }

  function OfJWT(o: Option<CustomJWTAuthorizer>, p: Path): Seen {
    if p == [] then (if o.Some? then Inside else Nil)
    else if o.None? then Nowhere
    else
      match p[0]
      case AllowedAudience => OfValue(StrList(Items(o.value.allowedAudience)), p[1..])
      case AllowedClients => OfValue(StrList(Items(o.value.allowedClients)), p[1..])
      case AllowedScopes => OfValue(StrList(Items(o.value.allowedScopes)), p[1..])
      case CustomClaims => OfValue(Claims(Items(o.value.customClaims)), p[1..])
      case DiscoveryURL => OfString(o.value.discoveryURL, p[1..])
      case _ => Nowhere
  }

  function OfAuthorizer(o: Option<AuthorizerConfiguration>, p: Path): Seen {
    if p == [] then (if o.Some? then Inside else Nil)
    else if o.None? || p[0] != Name.CustomJWTAuthorizer then Nowhere
    else OfJWT(o.value.customJWTAuthorizer, p[1..])
  }

  function OfLifecycle(o: Option<LifecycleConfiguration>, p: Path): Seen {
    if p == [] then (if o.Some? then Inside else Nil)
    else if o.None? then Nowhere
    else
      match p[0]
      case IdleRuntimeSessionTimeout => OfNumber(o.value.idleRuntimeSessionTimeout, p[1..])
      case MaxLifetime => OfNumber(o.value.maxLifetime, p[1..])
      case _ => Nowhere
  }

  function OfVPC(o: Option<VPCConfig>, p: Path): Seen {
    if p == [] then (if o.Some? then Inside else Nil)
    else if o.None? then Nowhere
    else
      match p[0]
      case SecurityGroups => OfValue(StrList(Items(o.value.securityGroups)), p[1..])
      case Subnets => OfValue(StrList(Items(o.value.subnets)), p[1..])
      case _ => Nowhere
  }

  function OfNetwork(o: Option<NetworkConfiguration>, p: Path): Seen {
    if p == [] then (if o.Some? then Inside else Nil)
    else if o.None? then Nowhere
    else
      match p[0]
      case NetworkMode => OfString(o.value.networkMode, p[1..])
      case NetworkModeConfig => OfVPC(o.value.networkModeConfig, p[1..])
      case _ => Nowhere
  }

  function OfProtocol(o: Option<ProtocolConfiguration>, p: Path): Seen {
    if p == [] then (if o.Some? then Inside else Nil)
    else if o.None? || p[0] != Name.ServerProtocol then Nowhere
    else OfString(o.value.serverProtocol, p[1..])
  }

  function OfRequestHeader(o: Option<RequestHeaderConfiguration>, p: Path): Seen {
    if p == [] then (if o.Some? then Inside else Nil)
    else if o.None? || p[0] != Name.RequestHeaderAllowlist then Nowhere
    else OfValue(StrList(Items(o.value.requestHeaderAllowlist)), p[1..])
  }

  /** The field of a spec under its Go name. */
  function Look(s: AgentRuntimeSpec, p: Path): Seen {
    if p == [] then Inside
    else
      match p[0]
      case AgentRuntimeArtifact => OfArtifact(s.agentRuntimeArtifact, p[1..])
      case AgentRuntimeName => OfString(s.agentRuntimeName, p[1..])
      case AuthorizerConfiguration => OfAuthorizer(s.authorizerConfiguration, p[1..])
      case Description => OfString(s.description, p[1..])
      case EnvironmentVariables => OfValue(StrMap(Entries(s.environmentVariables)), p[1..])
      case FilesystemConfigurations => OfValue(Filesystems(Items(s.filesystemConfigurations)), p[1..])
      case LifecycleConfiguration => OfLifecycle(s.lifecycleConfiguration, p[1..])
      case NetworkConfiguration => OfNetwork(s.networkConfiguration, p[1..])
      case PlatformVersion => OfString(s.platformVersion, p[1..])
      case ProtocolConfiguration => OfProtocol(s.protocolConfiguration, p[1..])
      case RequestHeaderConfiguration => OfRequestHeader(s.requestHeaderConfiguration, p[1..])
      case RoleARN => OfString(s.roleARN, p[1..])
      case Tags => OfValue(TagMap(Tags.Plain(s.tags)), p[1..])
      case _ => Nowhere
  }

  function SeenOf(t: Option<Tree>): Seen {
    match t
    case None => Nowhere
    case Some(Absent) => Nil
    case Some(Struct(_)) => Inside
    case Some(Leaf(v)) => Holds(v)
  }

  // ----- The tree agrees, struct by struct -----

  /** A node that is not a struct, and one field of a struct. */
  lemma AtEnd(t: Tree, p: Path)
    requires !t.Struct? || p == []
    ensures At(t, p) == if p == [] then Some(t) else None
  {
  }

  lemma Into(t: Tree, p: Path)
    requires t.Struct? && p != []
    ensures At(t, p) == AtField(t.fields, p)
  {
  }

  lemma LeafAgrees(v: Option<string>, n: Option<int64>, w: Value, p: Path)
    ensures SeenOf(At(StrNode(v), p)) == OfString(v, p)
    ensures SeenOf(At(NumNode(n), p)) == OfNumber(n, p)
    ensures SeenOf(At(Leaf(w), p)) == OfValue(w, p)
  {
    AtEnd(StrNode(v), p);
    AtEnd(NumNode(n), p);
    AtEnd(Leaf(w), p);
  }

  lemma PastSeen(f: Fields, p: Path, seen: Seen) returns (rest: Fields)
    requires p != [] && f.Field? && SeenOf(At(f.node, p[1..])) == seen
    ensures rest == f.rest
    ensures SeenOf(AtField(f, p)) == if f.name == p[0] then seen else SeenOf(AtField(rest, p))
    ensures rest.End? ==> SeenOf(AtField(rest, p)) == Nowhere
  {
    rest := f.rest;
  }

  const NONE: Value := Str("")

  lemma S3Agrees(o: Option<S3Location>, p: Path)
    ensures SeenOf(At(S3Node(o), p)) == OfS3(o, p)
  {
    if o.None? || p == [] {
      AtEnd(S3Node(o), p);
    } else {
      Into(S3Node(o), p);
      var v, q, f := o.value, p[1..], S3Node(o).fields;
      LeafAgrees(v.bucket, None, NONE, q);
      LeafAgrees(v.prefix, None, NONE, q);
      LeafAgrees(v.versionID, None, NONE, q);
      hide At, AtField, SeenOf, OfString, StrNode;
      f := PastSeen(f, p, OfString(v.bucket, q));
      f := PastSeen(f, p, OfString(v.prefix, q));
      f := PastSeen(f, p, OfString(v.versionID, q));
    }
  }

  lemma CodeAgrees(o: Option<Code>, p: Path)
    ensures SeenOf(At(CodeNode(o), p)) == OfCode(o, p)
  {
    if o.None? || p == [] {
      AtEnd(CodeNode(o), p);
    } else {
      Into(CodeNode(o), p);
      var v, q, f := o.value, p[1..], CodeNode(o).fields;
      S3Agrees(v.s3, q);
      hide At, AtField, SeenOf, OfS3, S3Node;
      f := PastSeen(f, p, OfS3(v.s3, q));
    }
  }

  lemma CodeConfigurationFieldsAgree(c: CodeConfiguration, p: Path)
    requires p != []
    ensures SeenOf(At(CodeConfigurationNode(Some(c)), p))
         == if p[0] == Name.Code then OfCode(c.code, p[1..])
            else if p[0] == Name.EntryPoint then OfValue(StrList(Items(c.entryPoint)), p[1..])
            else if p[0] == Name.Runtime then OfString(c.runtime, p[1..])
            else Nowhere
  {
    var t, q := CodeConfigurationNode(Some(c)), p[1..];
    Into(t, p);
    CodeAgrees(c.code, q);
    LeafAgrees(c.runtime, None, StrList(Items(c.entryPoint)), q);
    var f := t.fields;
    hide At, AtField, SeenOf, OfCode, OfString, OfValue, CodeNode, StrNode, Items;
    f := PastSeen(f, p, OfCode(c.code, q));
    f := PastSeen(f, p, OfValue(StrList(Items(c.entryPoint)), q));
    f := PastSeen(f, p, OfString(c.runtime, q));
  }

  lemma CodeConfigurationAgrees(o: Option<CodeConfiguration>, p: Path)
    ensures SeenOf(At(CodeConfigurationNode(o), p)) == OfCodeConfiguration(o, p)
  {
    if o.None? || p == [] {
      AtEnd(CodeConfigurationNode(o), p);
    } else {
      CodeConfigurationFieldsAgree(o.value, p);
      hide At, SeenOf, OfCode, OfValue, OfString, Items, CodeConfigurationNode;
    }
  }

  lemma ContainerAgrees(o: Option<ContainerConfiguration>, p: Path)
    ensures SeenOf(At(ContainerNode(o), p)) == OfContainer(o, p)
  {
    if o.None? || p == [] {
      AtEnd(ContainerNode(o), p);
    } else {
      Into(ContainerNode(o), p);
      var v, q, f := o.value, p[1..], ContainerNode(o).fields;
      LeafAgrees(v.containerURI, None, NONE, q);
      hide At, AtField, SeenOf, OfString, StrNode;
      f := PastSeen(f, p, OfString(v.containerURI, q));
    }
  }

  lemma ArtifactAgrees(o: Option<AgentRuntimeArtifact>, p: Path)
    ensures SeenOf(At(ArtifactNode(o), p)) == OfArtifact(o, p)
  {
    if o.None? || p == [] {
      AtEnd(ArtifactNode(o), p);
    } else {
      Into(ArtifactNode(o), p);
      var v, q, f := o.value, p[1..], ArtifactNode(o).fields;
      CodeConfigurationAgrees(v.codeConfiguration, q);
      ContainerAgrees(v.containerConfiguration, q);
      hide At, AtField, SeenOf, OfCodeConfiguration, OfContainer, CodeConfigurationNode, ContainerNode;
      f := PastSeen(f, p, OfCodeConfiguration(v.codeConfiguration, q));
      f := PastSeen(f, p, OfContainer(v.containerConfiguration, q));
    }
  }

  lemma ClaimsOnAgrees(j: CustomJWTAuthorizer, p: Path)
    requires p != []
    ensures SeenOf(AtField(FieldsFromClaims(j), p))
         == if p[0] == Name.CustomClaims then OfValue(Claims(Items(j.customClaims)), p[1..])
            else if p[0] == Name.DiscoveryURL then OfString(j.discoveryURL, p[1..])
            else Nowhere
  {
    var q, f := p[1..], FieldsFromClaims(j);
    LeafAgrees(j.discoveryURL, None, Claims(Items(j.customClaims)), q);
    hide At, AtField, SeenOf, OfString, OfValue, StrNode, Items;
    f := PastSeen(f, p, OfValue(Claims(Items(j.customClaims)), q));
    f := PastSeen(f, p, OfString(j.discoveryURL, q));
  }

  lemma JWTFieldsAgree(j: CustomJWTAuthorizer, p: Path)
    requires p != []
    ensures SeenOf(At(JWTNode(Some(j)), p))
         == if p[0] == Name.AllowedAudience then OfValue(StrList(Items(j.allowedAudience)), p[1..])
            else if p[0] == Name.AllowedClients then OfValue(StrList(Items(j.allowedClients)), p[1..])
            else if p[0] == Name.AllowedScopes then OfValue(StrList(Items(j.allowedScopes)), p[1..])
            else SeenOf(AtField(FieldsFromClaims(j), p))
  {
    var t, q := JWTNode(Some(j)), p[1..];
    Into(t, p);
    LeafAgrees(None, None, StrList(Items(j.allowedAudience)), q);
    LeafAgrees(None, None, StrList(Items(j.allowedClients)), q);
    LeafAgrees(None, None, StrList(Items(j.allowedScopes)), q);
    var f := t.fields;
    hide At, AtField, SeenOf, OfValue, FieldsFromClaims, Items;
    f := PastSeen(f, p, OfValue(StrList(Items(j.allowedAudience)), q));
    f := PastSeen(f, p, OfValue(StrList(Items(j.allowedClients)), q));
    f := PastSeen(f, p, OfValue(StrList(Items(j.allowedScopes)), q));
  }

  lemma JWTAgrees(o: Option<CustomJWTAuthorizer>, p: Path)
    ensures SeenOf(At(JWTNode(o), p)) == OfJWT(o, p)
  {
    if o.None? || p == [] {
      AtEnd(JWTNode(o), p);
    } else {
      JWTFieldsAgree(o.value, p);
      ClaimsOnAgrees(o.value, p);
      hide At, AtField, SeenOf, OfValue, OfString, FieldsFromClaims, Items, JWTNode;
    }
  }

  lemma AuthorizerAgrees(o: Option<AuthorizerConfiguration>, p: Path)
    ensures SeenOf(At(AuthorizerNode(o), p)) == OfAuthorizer(o, p)
  {
    if o.None? || p == [] {
      AtEnd(AuthorizerNode(o), p);
    } else {
      Into(AuthorizerNode(o), p);
      var v, q, f := o.value, p[1..], AuthorizerNode(o).fields;
      JWTAgrees(v.customJWTAuthorizer, q);
      hide At, AtField, SeenOf, OfJWT, JWTNode;
      f := PastSeen(f, p, OfJWT(v.customJWTAuthorizer, q));
    }
  }

  lemma LifecycleAgrees(o: Option<LifecycleConfiguration>, p: Path)
    ensures SeenOf(At(LifecycleNode(o), p)) == OfLifecycle(o, p)
  {
    if o.None? || p == [] {
      AtEnd(LifecycleNode(o), p);
    } else {
      Into(LifecycleNode(o), p);
      var v, q, f := o.value, p[1..], LifecycleNode(o).fields;
      LeafAgrees(None, v.idleRuntimeSessionTimeout, NONE, q);
      LeafAgrees(None, v.maxLifetime, NONE, q);
      hide At, AtField, SeenOf, OfNumber, NumNode;
      f := PastSeen(f, p, OfNumber(v.idleRuntimeSessionTimeout, q));
      f := PastSeen(f, p, OfNumber(v.maxLifetime, q));
    }
  }

  lemma VPCAgrees(o: Option<VPCConfig>, p: Path)
    ensures SeenOf(At(VPCNode(o), p)) == OfVPC(o, p)
  {
    if o.None? || p == [] {
      AtEnd(VPCNode(o), p);
    } else {
      Into(VPCNode(o), p);
      var v, q, f := o.value, p[1..], VPCNode(o).fields;
      LeafAgrees(None, None, StrList(Items(v.securityGroups)), q);
      LeafAgrees(None, None, StrList(Items(v.subnets)), q);
      hide At, AtField, SeenOf, OfValue, Items;
      f := PastSeen(f, p, OfValue(StrList(Items(v.securityGroups)), q));
      f := PastSeen(f, p, OfValue(StrList(Items(v.subnets)), q));
    }
  }

  lemma NetworkAgrees(o: Option<NetworkConfiguration>, p: Path)
    ensures SeenOf(At(NetworkNode(o), p)) == OfNetwork(o, p)
  {
    if o.None? || p == [] {
      AtEnd(NetworkNode(o), p);
    } else {
      Into(NetworkNode(o), p);
      var v, q, f := o.value, p[1..], NetworkNode(o).fields;
      LeafAgrees(v.networkMode, None, NONE, q);
      VPCAgrees(v.networkModeConfig, q);
      hide At, AtField, SeenOf, OfString, OfVPC, StrNode, VPCNode;
      f := PastSeen(f, p, OfString(v.networkMode, q));
      f := PastSeen(f, p, OfVPC(v.networkModeConfig, q));
    }
  }

  lemma ProtocolAgrees(o: Option<ProtocolConfiguration>, p: Path)
    ensures SeenOf(At(ProtocolNode(o), p)) == OfProtocol(o, p)
  {
    if o.None? || p == [] {
      AtEnd(ProtocolNode(o), p);
    } else {
      Into(ProtocolNode(o), p);
      var v, q, f := o.value, p[1..], ProtocolNode(o).fields;
      LeafAgrees(v.serverProtocol, None, NONE, q);
      hide At, AtField, SeenOf, OfString, StrNode;
      f := PastSeen(f, p, OfString(v.serverProtocol, q));
    }
  }

  lemma RequestHeaderAgrees(o: Option<RequestHeaderConfiguration>, p: Path)
    ensures SeenOf(At(RequestHeaderNode(o), p)) == OfRequestHeader(o, p)
  {
    if o.None? || p == [] {
      AtEnd(RequestHeaderNode(o), p);
    } else {
      Into(RequestHeaderNode(o), p);
      var v, q, f := o.value, p[1..], RequestHeaderNode(o).fields;
      LeafAgrees(None, None, StrList(Items(v.requestHeaderAllowlist)), q);
      hide At, AtField, SeenOf, OfValue, Items;
      f := PastSeen(f, p, OfValue(StrList(Items(v.requestHeaderAllowlist)), q));
    }
  }

  lemma ProtocolOnAgrees(s: AgentRuntimeSpec, p: Path)
    requires p != []
    ensures SeenOf(AtField(FieldsFromProtocol(s), p))
         == if p[0] == Name.ProtocolConfiguration then OfProtocol(s.protocolConfiguration, p[1..])
            else if p[0] == Name.RequestHeaderConfiguration then OfRequestHeader(s.requestHeaderConfiguration, p[1..])
            else if p[0] == Name.RoleARN then OfString(s.roleARN, p[1..])
            else if p[0] == Name.Tags then OfValue(TagMap(Tags.Plain(s.tags)), p[1..])
            else Nowhere
  {
    var q := p[1..];
    ProtocolAgrees(s.protocolConfiguration, q);
    RequestHeaderAgrees(s.requestHeaderConfiguration, q);
    LeafAgrees(s.roleARN, None, TagMap(Tags.Plain(s.tags)), q);
    var f := FieldsFromProtocol(s);
    hide At, AtField, SeenOf, ProtocolNode, RequestHeaderNode, StrNode, OfProtocol, OfRequestHeader, OfString, OfValue,
      Tags.Plain;
    f := PastSeen(f, p, OfProtocol(s.protocolConfiguration, q));
    f := PastSeen(f, p, OfRequestHeader(s.requestHeaderConfiguration, q));
    f := PastSeen(f, p, OfString(s.roleARN, q));
    f := PastSeen(f, p, OfValue(TagMap(Tags.Plain(s.tags)), q));
  }

  lemma FilesystemsOnAgrees(s: AgentRuntimeSpec, p: Path)
    requires p != []
    ensures SeenOf(AtField(FieldsFromFilesystems(s), p))
         == if p[0] == Name.FilesystemConfigurations
            then OfValue(Filesystems(Items(s.filesystemConfigurations)), p[1..])
            else if p[0] == Name.LifecycleConfiguration then OfLifecycle(s.lifecycleConfiguration, p[1..])
            else if p[0] == Name.NetworkConfiguration then OfNetwork(s.networkConfiguration, p[1..])
            else if p[0] == Name.PlatformVersion then OfString(s.platformVersion, p[1..])
            else SeenOf(AtField(FieldsFromProtocol(s), p))
  {
    var q := p[1..];
    LeafAgrees(s.platformVersion, None, Filesystems(Items(s.filesystemConfigurations)), q);
    LifecycleAgrees(s.lifecycleConfiguration, q);
    NetworkAgrees(s.networkConfiguration, q);
    var f := FieldsFromFilesystems(s);
    hide At, AtField, SeenOf, LifecycleNode, NetworkNode, StrNode, FieldsFromProtocol, OfLifecycle, OfNetwork, OfString,
      OfValue, Items;
    f := PastSeen(f, p, OfValue(Filesystems(Items(s.filesystemConfigurations)), q));
    f := PastSeen(f, p, OfLifecycle(s.lifecycleConfiguration, q));
    f := PastSeen(f, p, OfNetwork(s.networkConfiguration, q));
    f := PastSeen(f, p, OfString(s.platformVersion, q));
  }

  lemma SpecAgrees(s: AgentRuntimeSpec, p: Path)
    requires p != []
    ensures SeenOf(AtField(SpecFields(s), p))
         == if p[0] == Name.AgentRuntimeArtifact then OfArtifact(s.agentRuntimeArtifact, p[1..])
            else if p[0] == Name.AgentRuntimeName then OfString(s.agentRuntimeName, p[1..])
            else if p[0] == Name.AuthorizerConfiguration then OfAuthorizer(s.authorizerConfiguration, p[1..])
            else if p[0] == Name.Description then OfString(s.description, p[1..])
            else if p[0] == Name.EnvironmentVariables then OfValue(StrMap(Entries(s.environmentVariables)), p[1..])
            else SeenOf(AtField(FieldsFromFilesystems(s), p))
  {
    var q := p[1..];
    ArtifactAgrees(s.agentRuntimeArtifact, q);
    AuthorizerAgrees(s.authorizerConfiguration, q);
    LeafAgrees(s.agentRuntimeName, None, StrMap(Entries(s.environmentVariables)), q);
    LeafAgrees(s.description, None, NONE, q);
    var f := SpecFields(s);
    hide At, AtField, SeenOf, ArtifactNode, AuthorizerNode, StrNode, FieldsFromFilesystems, OfArtifact, OfAuthorizer,
      OfString, OfValue, Entries;
    f := PastSeen(f, p, OfArtifact(s.agentRuntimeArtifact, q));
    f := PastSeen(f, p, OfString(s.agentRuntimeName, q));
    f := PastSeen(f, p, OfAuthorizer(s.authorizerConfiguration, q));
    f := PastSeen(f, p, OfString(s.description, q));
    f := PastSeen(f, p, OfValue(StrMap(Entries(s.environmentVariables)), q));
  }

  lemma LookByName(s: AgentRuntimeSpec, p: Path)
    requires p != []
    ensures Look(s, p)
         == if p[0] == Name.AgentRuntimeArtifact then OfArtifact(s.agentRuntimeArtifact, p[1..])
            else if p[0] == Name.AgentRuntimeName then OfString(s.agentRuntimeName, p[1..])
            else if p[0] == Name.AuthorizerConfiguration then OfAuthorizer(s.authorizerConfiguration, p[1..])
            else if p[0] == Name.Description then OfString(s.description, p[1..])
            else if p[0] == Name.EnvironmentVariables then OfValue(StrMap(Entries(s.environmentVariables)), p[1..])
            else if p[0] == Name.FilesystemConfigurations
            then OfValue(Filesystems(Items(s.filesystemConfigurations)), p[1..])
            else if p[0] == Name.LifecycleConfiguration then OfLifecycle(s.lifecycleConfiguration, p[1..])
            else if p[0] == Name.NetworkConfiguration then OfNetwork(s.networkConfiguration, p[1..])
            else if p[0] == Name.PlatformVersion then OfString(s.platformVersion, p[1..])
            else if p[0] == Name.ProtocolConfiguration then OfProtocol(s.protocolConfiguration, p[1..])
            else if p[0] == Name.RequestHeaderConfiguration then OfRequestHeader(s.requestHeaderConfiguration, p[1..])
            else if p[0] == Name.RoleARN then OfString(s.roleARN, p[1..])
            else if p[0] == Name.Tags then OfValue(TagMap(Tags.Plain(s.tags)), p[1..])
            else Nowhere
  {
    hide OfArtifact, OfAuthorizer, OfString, OfValue, OfLifecycle, OfNetwork, OfProtocol, OfRequestHeader, Entries,
      Items, Tags.Plain;
  }

  /** At every path the tree of a spec has what the spec has under that name. */
  lemma LookAgrees(s: AgentRuntimeSpec, p: Path)
    ensures SeenOf(At(SpecTree(s), p)) == Look(s, p)
  {
    if p == [] {
      AtEnd(SpecTree(s), p);
    } else {
      Into(SpecTree(s), p);
      hide *;
      SpecAgrees(s, p);
      FilesystemsOnAgrees(s, p);
      ProtocolOnAgrees(s, p);
      LookByName(s, p);
    }
  }

  /** Two looks that the differ reports as a difference: one nil and the other not, or two values
      that are not the same to it. */
  predicate Differ(eq: ListEq, a: Seen, b: Seen) {
    match (a, b)
    case (Nowhere, _) => false
    case (_, Nowhere) => false
    case (Nil, _) => !b.Nil?
    case (_, Nil) => true
    case (Holds(v), Holds(w)) => !ValueEq(eq, v, w)
    case _ => false
  }

  lemma DifferIff(eq: ListEq, x: Option<Tree>, y: Option<Tree>)
    ensures Differ(eq, SeenOf(x), SeenOf(y)) <==> x.Some? && y.Some? && LocallyDiffer(eq, x.value, y.value)
  {
  }

  /** A difference is reported at a path exactly if what the two specs have under that name
      differs. */
  lemma ReportedIff(eq: ListEq, a: AgentRuntimeSpec, b: AgentRuntimeSpec, p: Path)
    ensures (exists d | d in SpecDiff(eq, a, b) :: d.path == SPEC + p) <==> Differ(eq, Look(a, p), Look(b, p))
  {
    LookAgrees(a, p);
    LookAgrees(b, p);
    assert p == [] ==> Look(a, p) == Look(b, p) == Inside;
    var x, y := At(SpecTree(a), p), At(SpecTree(b), p);
    assert (SPEC + p)[1..] == p;
    DifferIff(eq, x, y);
    hide SpecTree, SpecDiff, At, Look, LocallyDiffer, Differ, SeenOf;
    if x.Some? && y.Some? {
      DeltaExact(eq, a, b, Difference(SPEC + p, x.value, y.value));
    }
    if d :| d in SpecDiff(eq, a, b) && d.path == SPEC + p {
      DeltaExact(eq, a, b, d);
    }
  }

  // ----- What an update decides on -----

  /** The desired spec with the tags of the latest, and its version too where none is desired. */
  function ButForTags(a: AgentRuntimeSpec, b: AgentRuntimeSpec): AgentRuntimeSpec {
    Versioned(a, b).(tags := b.tags)
  }

  function Versioned(a: AgentRuntimeSpec, b: AgentRuntimeSpec): AgentRuntimeSpec {
    if a.platformVersion.None? then a.(platformVersion := b.platformVersion) else a
  }

  lemma DeltaOfVersioned(eq: ListEq, a: AgentRuntimeSpec, b: AgentRuntimeSpec)
    ensures forall d :: d in ResourceDelta(eq, a, b) <==> d in SpecDiff(eq, Versioned(a, b), b)
  {
    if a.platformVersion.None? {
      UnsetVersionOnly(eq, a, b);
    }
    hide SpecDiff, DropAt;
  }

  /** Outside the tags a difference is reported where it is reported with equal tags. */
  lemma SameButForTags(eq: ListEq, a: AgentRuntimeSpec, b: AgentRuntimeSpec, p: Path)
    requires p != []
    ensures Differ(eq, Look(ButForTags(a, b), p), Look(b, p))
            <==> p[0] != Name.Tags && Differ(eq, Look(Versioned(a, b), p), Look(b, p))
  {
    hide OfArtifact, OfAuthorizer, OfString, OfLifecycle, OfNetwork, OfProtocol, OfRequestHeader, Tags.Plain;
  }

  lemma TagsDiffer(eq: ListEq, a: AgentRuntimeSpec, b: AgentRuntimeSpec, p: Path)
    requires p != [] && p[0] == Name.Tags
    ensures Differ(eq, Look(a, p), Look(b, p)) <==> p == [Name.Tags] && Tags.Plain(a.tags) != Tags.Plain(b.tags)
  {
    assert p == [Name.Tags] <==> p[1..] == [] by {
      assert p == [p[0]] + p[1..];
    }
    hide Tags.Plain;
  }

  /** Where a difference of the delta lies. */
  lemma Located(eq: ListEq, a: AgentRuntimeSpec, b: AgentRuntimeSpec, d: Difference)
    requires d in SpecDiff(eq, a, b)
    ensures SPEC < d.path && d.path == SPEC + d.path[1..]
    ensures Contains(d.path, TAGS) <==> d.path[1] == Name.Tags
    ensures Differ(eq, Look(a, d.path[1..]), Look(b, d.path[1..]))
  {
    hide Look, Differ, SpecDiff, SpecTree, LocallyDiffer;
    DeltaExact(eq, a, b, d);
    assert d.path == SPEC + d.path[1..];
    ReportedIff(eq, a, b, d.path[1..]);
  }

  /** What a difference of the delta is evidence of. */
  lemma Evidence(eq: ListEq, a: AgentRuntimeSpec, b: AgentRuntimeSpec, d: Difference)
    requires d in ResourceDelta(eq, a, b)
    ensures Contains(d.path, TAGS) ==> Tags.Plain(a.tags) != Tags.Plain(b.tags)
    ensures !Contains(d.path, TAGS) ==> SpecDiff(eq, ButForTags(a, b), b) != []
  {
    var v := Versioned(a, b);
    assert v.tags == a.tags;
    DeltaOfVersioned(eq, a, b);
    Located(eq, v, b, d);
    var p := d.path[1..];
    SameButForTags(eq, a, b, p);
    hide Look, Differ, SpecDiff, ResourceDelta, Versioned, ButForTags, Tags.Plain, Contains;
    if p[0] == Name.Tags {
      TagsDiffer(eq, v, b, p);
    } else {
      ReportedIff(eq, ButForTags(a, b), b, p);
    }
  }

  lemma TagsReported(eq: ListEq, a: AgentRuntimeSpec, b: AgentRuntimeSpec)
    requires Tags.Plain(a.tags) != Tags.Plain(b.tags)
    ensures exists d | d in ResourceDelta(eq, a, b) :: Contains(d.path, TAGS)
  {
    var v := Versioned(a, b);
    assert v.tags == a.tags;
    DeltaOfVersioned(eq, a, b);
    assert SPEC + [Name.Tags] == TAGS && Contains(TAGS, TAGS);
    hide Look, Differ, SpecDiff, ResourceDelta, Versioned, Tags.Plain, Contains;
    ReportedIff(eq, v, b, [Name.Tags]);
    TagsDiffer(eq, v, b, [Name.Tags]);
  }

  lemma OthersReported(eq: ListEq, a: AgentRuntimeSpec, b: AgentRuntimeSpec)
    requires SpecDiff(eq, ButForTags(a, b), b) != []
    ensures exists d | d in ResourceDelta(eq, a, b) :: !Contains(d.path, TAGS)
  {
    var v, c := Versioned(a, b), ButForTags(a, b);
    var d := SpecDiff(eq, c, b)[0];
    Located(eq, c, b, d);
    var p := d.path[1..];
    SameButForTags(eq, a, b, p);
    DeltaOfVersioned(eq, a, b);
    hide Look, Differ, SpecDiff, ResourceDelta, Versioned, ButForTags;
    ReportedIff(eq, v, b, p);
  }

  /** The two questions an update asks of the delta. Are the tags different: exactly if the two maps
      are, nil values read as "". Is anything else: exactly if the specs are not equivalent once the
      tags, and an unset desired version, are taken to agree. */
  lemma UpdateAsks(eq: ListEq, a: AgentRuntimeSpec, b: AgentRuntimeSpec)
    ensures var ds := ResourceDelta(eq, a, b);
            && (DifferentAt(ds, TAGS) <==> Tags.Plain(a.tags) != Tags.Plain(b.tags))
            && (DifferentExcept(ds, TAGS) <==> !SpecEquivalent(eq, ButForTags(a, b), b))
  {
    var ds := ResourceDelta(eq, a, b);
    DeltaEmptyIff(eq, ButForTags(a, b), b);
    hide SpecDiff, SpecEquivalent, ResourceDelta, ButForTags, Tags.Plain, Contains;
    forall i | 0 <= i < |ds| {
      Evidence(eq, a, b, ds[i]);
    }
    if Tags.Plain(a.tags) != Tags.Plain(b.tags) {
      TagsReported(eq, a, b);
    }
    if SpecDiff(eq, ButForTags(a, b), b) != [] {
      OthersReported(eq, a, b);
    }
  }
}
