/** The generated deep copies of apis/v1alpha1/zz_generated.deepcopy.go: AgentRuntimeSpec,
    AgentRuntimeStatus and every struct they reach, pointer by pointer. Each struct has its cells
    (`In`), its value (`At`) and its copy; a wider bound changes no value (`Widen`). The fields of
    one struct are copied independently of each other, so their order is free. */
module DeepCopy {
  import opened Basics
  import opened Pointers
  import Api
  import Resource

  datatype S3Location = S3Location(bucket: Ref?<string>, prefix: Ref?<string>, versionID: Ref?<string>)
  datatype Code = Code(s3: Ref?<S3Location>)
  datatype CodeConfiguration = CodeConfiguration(code: Ref?<Code>, entryPoint: Slice<string>, runtime: Ref?<string>)

  datatype ContainerConfiguration = ContainerConfiguration(containerURI: Ref?<string>)
  datatype AgentRuntimeArtifact = AgentRuntimeArtifact(
    codeConfiguration: Ref?<CodeConfiguration>,
    containerConfiguration: Ref?<ContainerConfiguration>)
  datatype ClaimMatchValue = ClaimMatchValue(matchValueString: Ref?<string>, matchValueStringList: Slice<string>)
  datatype AuthorizingClaimMatchValue = AuthorizingClaimMatchValue(
    claimMatchOperator: Ref?<string>,
    claimMatchValue: Ref?<ClaimMatchValue>)
  datatype CustomClaim = CustomClaim(
    authorizingClaimMatchValue: Ref?<AuthorizingClaimMatchValue>,
    inboundTokenClaimName: Ref?<string>,
    inboundTokenClaimValueType: Ref?<string>)
  datatype CustomJWTAuthorizer = CustomJWTAuthorizer(
    allowedAudience: Slice<string>,
    allowedClients: Slice<string>,
    allowedScopes: Slice<string>,
    customClaims: Slice<CustomClaim>,
    discoveryURL: Ref?<string>)
  datatype AuthorizerConfiguration = AuthorizerConfiguration(customJWTAuthorizer: Ref?<CustomJWTAuthorizer>)
  datatype SessionStorage = SessionStorage(mountPath: Ref?<string>)
  datatype FilesystemConfiguration = FilesystemConfiguration(sessionStorage: Ref?<SessionStorage>)
  datatype LifecycleConfiguration = LifecycleConfiguration(
    idleRuntimeSessionTimeout: Ref?<int64>,
    maxLifetime: Ref?<int64>)
  datatype ResourceReference = ResourceReference(name: Ref?<string>, namespace: Ref?<string>)
  datatype ReferenceWrapper = ReferenceWrapper(from: Ref?<ResourceReference>)
  datatype VPCConfig = VPCConfig(
    securityGroupRefs: Slice<ReferenceWrapper>,
    securityGroups: Slice<string>,
    subnetRefs: Slice<ReferenceWrapper>,
    subnets: Slice<string>)
  datatype NetworkConfiguration = NetworkConfiguration(networkMode: Ref?<string>, networkModeConfig: Ref?<VPCConfig>)
  datatype ProtocolConfiguration = ProtocolConfiguration(serverProtocol: Ref?<string>)
  datatype RequestHeaderConfiguration = RequestHeaderConfiguration(requestHeaderAllowlist: Slice<string>)
  datatype AgentRuntimeSpec = AgentRuntimeSpec(
    agentRuntimeArtifact: Ref?<AgentRuntimeArtifact>,
    agentRuntimeName: Ref?<string>,
    authorizerConfiguration: Ref?<AuthorizerConfiguration>,
    description: Ref?<string>,
    environmentVariables: GoMap?,
    filesystemConfigurations: Slice<FilesystemConfiguration>,
    lifecycleConfiguration: Ref?<LifecycleConfiguration>,
    networkConfiguration: Ref?<NetworkConfiguration>,
    platformVersion: Ref?<string>,
    protocolConfiguration: Ref?<ProtocolConfiguration>,
    requestHeaderConfiguration: Ref?<RequestHeaderConfiguration>,
    roleARN: Ref?<string>,
    tags: GoMap?)

  datatype ResourceMetadata = ResourceMetadata(
    arn: Ref?<string>,
    region: Ref?<string>,
    partition: Ref?<string>,
    ownerAccountID: Ref?<string>)
  datatype Condition = Condition(
    kind: Resource.ConditionType,
    status: Resource.ConditionStatus,
    message: Ref?<string>,
    reason: Ref?<string>,
    lastTransitionTime: Ref?<int>)
  datatype WorkloadIdentityDetails = WorkloadIdentityDetails(workloadIdentityARN: Ref?<string>)
  datatype AgentRuntimeStatus = AgentRuntimeStatus(
    metadata: Ref?<ResourceMetadata>,
    conditions: Slice<Condition>,
    agentRuntimeID: Ref?<string>,
    agentRuntimeVersion: Ref?<string>,
    createdAt: Ref?<int>,
    status: Ref?<string>,
    workloadIdentityDetails: Ref?<WorkloadIdentityDetails>)

  // ----- AgentRuntimeArtifact -----

  ghost predicate S3In(p: Ref?<S3Location>, c: Cells)
    reads c
  {
    In(p, c) && (p != null ==> In(p.value.bucket, c) && In(p.value.prefix, c) && In(p.value.versionID, c))
  }

  ghost function S3At(p: Ref?<S3Location>, c: Cells): Option<Api.S3Location>
    requires S3In(p, c)
    reads c
  {
    if p == null then None
    else Some(Api.S3Location(At(p.value.bucket, c), At(p.value.prefix, c), At(p.value.versionID, c)))
  }

  method CopyS3(p: Ref?<S3Location>, ghost c: Cells) returns (out: Ref?<S3Location>, ghost n: Cells)
    requires S3In(p, c)
    ensures S3In(out, n) && fresh(n) && S3At(out, n) == old(S3At(p, c))
  {
    out, n := p, {};
    if p != null {
      var s := p.value;
      var bucket, n0 := Copy(s.bucket, c);
      var prefix, n1 := Copy(s.prefix, c);
      var versionID, n2 := Copy(s.versionID, c);
      s := s.(bucket := bucket, prefix := prefix, versionID := versionID);
      out := new Ref(s);
      n := {out} + n0 + n1 + n2;
    }
  }

  ghost predicate CodeIn(p: Ref?<Code>, c: Cells)
    reads c
  {
    In(p, c) && (p != null ==> S3In(p.value.s3, c))
  }

  ghost function CodeAt(p: Ref?<Code>, c: Cells): Option<Api.Code>
    requires CodeIn(p, c)
    reads c
  {
    if p == null then None else Some(Api.Code(S3At(p.value.s3, c)))
  }

  method CopyCode(p: Ref?<Code>, ghost c: Cells) returns (out: Ref?<Code>, ghost n: Cells)
    requires CodeIn(p, c)
    ensures CodeIn(out, n) && fresh(n) && CodeAt(out, n) == old(CodeAt(p, c))
  {
    out, n := p, {};
    if p != null {
      var s3, m := CopyS3(p.value.s3, c);
      out := new Ref(Code(s3));
      n := m + {out};
    }
  }

  ghost predicate CodeConfigurationIn(p: Ref?<CodeConfiguration>, c: Cells)
    reads c
  {
    In(p, c) && (p != null ==> CodeIn(p.value.code, c) && ListIn(p.value.entryPoint, c) && In(p.value.runtime, c))
  }

  ghost function CodeConfigurationAt(p: Ref?<CodeConfiguration>, c: Cells): Option<Api.CodeConfiguration>
    requires CodeConfigurationIn(p, c)
    reads c
  {
    if p == null then None
    else Some(Api.CodeConfiguration(CodeAt(p.value.code, c), ListAt(p.value.entryPoint, c), At(p.value.runtime, c)))
  }

  lemma WidenCodeConfiguration(p: Ref?<CodeConfiguration>, c: Cells, d: Cells)
    requires CodeConfigurationIn(p, c) && c <= d
    ensures CodeConfigurationIn(p, d) && CodeConfigurationAt(p, d) == CodeConfigurationAt(p, c)
  {
    if p != null {
      WidenList(p.value.entryPoint, c, d);
    }
  }

  method CopyCodeConfiguration(p: Ref?<CodeConfiguration>, ghost c: Cells)
    returns (out: Ref?<CodeConfiguration>, ghost n: Cells)
    requires CodeConfigurationIn(p, c)
    ensures CodeConfigurationIn(out, n) && fresh(n) && CodeConfigurationAt(out, n) == old(CodeConfigurationAt(p, c))
  {
    out, n := p, {};
    if p != null {
      var v := p.value;
      var code, n0 := CopyCode(v.code, c);
      v := v.(code := code);
      var entryPoint, n1 := CopyList(v.entryPoint, c);
      v := v.(entryPoint := entryPoint);
      var runtime, n2 := Copy(v.runtime, c);
      v := v.(runtime := runtime);
      out := new Ref(v);
      n := n0 + n1 + n2 + {out};
      WidenList(entryPoint, n1, n);
    }
  }

  ghost predicate ContainerIn(p: Ref?<ContainerConfiguration>, c: Cells)
    reads c
  {
    In(p, c) && (p != null ==> In(p.value.containerURI, c))
  }

  ghost function ContainerAt(p: Ref?<ContainerConfiguration>, c: Cells): Option<Api.ContainerConfiguration>
    requires ContainerIn(p, c)
    reads c
  {
    if p == null then None else Some(Api.ContainerConfiguration(At(p.value.containerURI, c)))
  }

  method CopyContainer(p: Ref?<ContainerConfiguration>, ghost c: Cells)
    returns (out: Ref?<ContainerConfiguration>, ghost n: Cells)
    requires ContainerIn(p, c)
    ensures ContainerIn(out, n) && fresh(n) && ContainerAt(out, n) == old(ContainerAt(p, c))
  {
    out, n := p, {};
    if p != null {
      var uri, m := Copy(p.value.containerURI, c);
      out := new Ref(ContainerConfiguration(uri));
      n := m + {out};
    }
  }

  ghost predicate ArtifactIn(p: Ref?<AgentRuntimeArtifact>, c: Cells)
    reads c
  {
    && In(p, c)
    && (p != null ==>
          CodeConfigurationIn(p.value.codeConfiguration, c) && ContainerIn(p.value.containerConfiguration, c))
  }

  ghost function ArtifactAt(p: Ref?<AgentRuntimeArtifact>, c: Cells): Option<Api.AgentRuntimeArtifact>
    requires ArtifactIn(p, c)
    reads c
  {
    if p == null then None
    else
      Some(Api.AgentRuntimeArtifact(
             CodeConfigurationAt(p.value.codeConfiguration, c), ContainerAt(p.value.containerConfiguration, c)))
  }

  lemma WidenArtifact(p: Ref?<AgentRuntimeArtifact>, c: Cells, d: Cells)
    requires ArtifactIn(p, c) && c <= d
    ensures ArtifactIn(p, d) && ArtifactAt(p, d) == ArtifactAt(p, c)
  {
    if p != null {
      WidenCodeConfiguration(p.value.codeConfiguration, c, d);
    }
  }

  method CopyArtifact(p: Ref?<AgentRuntimeArtifact>, ghost c: Cells)
    returns (out: Ref?<AgentRuntimeArtifact>, ghost n: Cells)
    requires ArtifactIn(p, c)
    ensures ArtifactIn(out, n) && fresh(n) && ArtifactAt(out, n) == old(ArtifactAt(p, c))
  {
    out, n := p, {};
    if p != null {
      var v := p.value;
      var code, n0 := CopyCodeConfiguration(v.codeConfiguration, c);
      v := v.(codeConfiguration := code);
      var container, n1 := CopyContainer(v.containerConfiguration, c);
      v := v.(containerConfiguration := container);
      out := new Ref(v);
      n := n0 + n1 + {out};
      WidenCodeConfiguration(code, n0, n);
    }
  }

  // ----- AuthorizerConfiguration -----

  ghost predicate MatchValueIn(p: Ref?<ClaimMatchValue>, c: Cells)
    reads c
  {
    In(p, c) && (p != null ==> In(p.value.matchValueString, c) && ListIn(p.value.matchValueStringList, c))
  }

  ghost function MatchValueAt(p: Ref?<ClaimMatchValue>, c: Cells): Option<Api.ClaimMatchValue>
    requires MatchValueIn(p, c)
    reads c
  {
    if p == null then None
    else Some(Api.ClaimMatchValue(At(p.value.matchValueString, c), ListAt(p.value.matchValueStringList, c)))
  }

  lemma WidenMatchValue(p: Ref?<ClaimMatchValue>, c: Cells, d: Cells)
    requires MatchValueIn(p, c) && c <= d
    ensures MatchValueIn(p, d) && MatchValueAt(p, d) == MatchValueAt(p, c)
  {
    if p != null {
      WidenList(p.value.matchValueStringList, c, d);
    }
  }

  method CopyMatchValue(p: Ref?<ClaimMatchValue>, ghost c: Cells) returns (out: Ref?<ClaimMatchValue>, ghost n: Cells)
    requires MatchValueIn(p, c)
    ensures MatchValueIn(out, n) && fresh(n) && MatchValueAt(out, n) == old(MatchValueAt(p, c))
  {
    out, n := p, {};
    if p != null {
      var v := p.value;
      var s, n0 := Copy(v.matchValueString, c);
      v := v.(matchValueString := s);
      var list, n1 := CopyList(v.matchValueStringList, c);
      v := v.(matchValueStringList := list);
      out := new Ref(v);
      n := n0 + n1 + {out};
      WidenList(list, n1, n);
    }
  }

  ghost predicate MatchIn(p: Ref?<AuthorizingClaimMatchValue>, c: Cells)
    reads c
  {
    In(p, c) && (p != null ==> In(p.value.claimMatchOperator, c) && MatchValueIn(p.value.claimMatchValue, c))
  }

  ghost function MatchAt(p: Ref?<AuthorizingClaimMatchValue>, c: Cells): Option<Api.AuthorizingClaimMatchValue>
    requires MatchIn(p, c)
    reads c
  {
    if p == null then None
    else
      Some(Api.AuthorizingClaimMatchValue(
             At(p.value.claimMatchOperator, c), MatchValueAt(p.value.claimMatchValue, c)))
  }

  lemma WidenMatch(p: Ref?<AuthorizingClaimMatchValue>, c: Cells, d: Cells)
    requires MatchIn(p, c) && c <= d
    ensures MatchIn(p, d) && MatchAt(p, d) == MatchAt(p, c)
  {
    if p != null {
      WidenMatchValue(p.value.claimMatchValue, c, d);
    }
  }

  method CopyMatch(p: Ref?<AuthorizingClaimMatchValue>, ghost c: Cells)
    returns (out: Ref?<AuthorizingClaimMatchValue>, ghost n: Cells)
    requires MatchIn(p, c)
    ensures MatchIn(out, n) && fresh(n) && MatchAt(out, n) == old(MatchAt(p, c))
  {
    out, n := p, {};
    if p != null {
      var v := p.value;
      var operator, n0 := Copy(v.claimMatchOperator, c);
      v := v.(claimMatchOperator := operator);
      var value, n1 := CopyMatchValue(v.claimMatchValue, c);
      v := v.(claimMatchValue := value);
      out := new Ref(v);
      n := n0 + n1 + {out};
      WidenMatchValue(value, n1, n);
    }
  }

  ghost predicate ClaimIn(p: Ref?<CustomClaim>, c: Cells)
    reads c
  {
    In(p, c) && (p != null ==>
          && MatchIn(p.value.authorizingClaimMatchValue, c)
          && In(p.value.inboundTokenClaimName, c)
          && In(p.value.inboundTokenClaimValueType, c))
  }

  ghost function ClaimAt(p: Ref?<CustomClaim>, c: Cells): Option<Api.CustomClaim>
    requires ClaimIn(p, c)
    reads c
  {
    if p == null then None else Some(Api.CustomClaim(
             MatchAt(p.value.authorizingClaimMatchValue, c),
             At(p.value.inboundTokenClaimName, c),
             At(p.value.inboundTokenClaimValueType, c)))
  }

  lemma WidenClaim(p: Ref?<CustomClaim>, c: Cells, d: Cells)
    requires ClaimIn(p, c) && c <= d
    ensures ClaimIn(p, d) && ClaimAt(p, d) == ClaimAt(p, c)
  {
    if p != null {
      WidenMatch(p.value.authorizingClaimMatchValue, c, d);
    }
  }

  method CopyClaim(p: Ref?<CustomClaim>, ghost c: Cells) returns (out: Ref?<CustomClaim>, ghost n: Cells)
    requires ClaimIn(p, c)
    ensures ClaimIn(out, n) && fresh(n) && ClaimAt(out, n) == old(ClaimAt(p, c))
  {
    out, n := p, {};
    if p != null {
      var v := p.value;
      var authorizing, n0 := CopyMatch(v.authorizingClaimMatchValue, c);
      v := v.(authorizingClaimMatchValue := authorizing);
      var name, n1 := Copy(v.inboundTokenClaimName, c);
      v := v.(inboundTokenClaimName := name);
      var valueType, n2 := Copy(v.inboundTokenClaimValueType, c);
      v := v.(inboundTokenClaimValueType := valueType);
      out := new Ref(v);
      n := n0 + n1 + n2 + {out};
      WidenMatch(authorizing, n0, n);
    }
  }

  ghost predicate ClaimsIn(a: Slice<CustomClaim>, c: Cells)
    reads c
  {
    a != null ==> a in c && forall i | 0 <= i < a.Length :: ClaimIn(a[i], c)
  }

  ghost function ClaimsAt(a: Slice<CustomClaim>, c: Cells): (r: Option<seq<Option<Api.CustomClaim>>>)
    requires ClaimsIn(a, c)
    reads c
    ensures a != null ==>
              r.Some? && |r.value| == a.Length && forall i | 0 <= i < a.Length :: r.value[i] == ClaimAt(a[i], c)
  {
    if a == null then None
    else Some(seq(a.Length, i requires 0 <= i < a.Length && ClaimsIn(a, c) reads c => ClaimAt(a[i], c)))
  }

  lemma WidenClaims(a: Slice<CustomClaim>, c: Cells, d: Cells)
    requires ClaimsIn(a, c) && c <= d
    ensures ClaimsIn(a, d) && ClaimsAt(a, d) == ClaimsAt(a, c)
  {
    if a != null {
      forall i | 0 <= i < a.Length {
        WidenClaim(a[i], c, d);
      }
      assert ClaimsAt(a, d).value == ClaimsAt(a, c).value;
    }
  }

  /** The first elements of a copy, and what they stand for. */
  ghost predicate ClaimsDone(done: seq<Ref?<CustomClaim>>, was: seq<Option<Api.CustomClaim>>, n: Cells)
    reads n
  {
    |done| <= |was| && forall j | 0 <= j < |done| :: ClaimIn(done[j], n) && ClaimAt(done[j], n) == was[j]
  }

  lemma ClaimsStep(done: seq<Ref?<CustomClaim>>, was: seq<Option<Api.CustomClaim>>, n: Cells, p: Ref?<CustomClaim>,
                   m: Cells)
    requires ClaimsDone(done, was, n) && |done| < |was|
    requires ClaimIn(p, m) && ClaimAt(p, m) == was[|done|]
    ensures ClaimsDone(done + [p], was, n + m)
  {
    hide ClaimIn, ClaimAt;
    forall j | 0 <= j < |done| {
      WidenClaim(done[j], n, n + m);
    }
    WidenClaim(p, m, n + m);
  }

  lemma ClaimsFinished(a: Slice<CustomClaim>, was: seq<Option<Api.CustomClaim>>, n: Cells)
    requires a != null && ClaimsDone(a[..], was, n) && a.Length == |was|
    ensures ClaimsIn(a, n + {a}) && ClaimsAt(a, n + {a}) == Some(was)
  {
    hide ClaimIn, ClaimAt;
    forall j | 0 <= j < a.Length
      ensures ClaimIn(a[j], n + {a}) && ClaimAt(a[j], n + {a}) == was[j]
    {
      assert a[j] == a[..][j];
      WidenClaim(a[j], n, n + {a});
    }
    assert ClaimsAt(a, n + {a}).value == was;
  }

  method CopyClaims(a: Slice<CustomClaim>, ghost c: Cells) returns (out: Slice<CustomClaim>, ghost n: Cells)
    requires ClaimsIn(a, c)
    ensures ClaimsIn(out, n) && fresh(n) && ClaimsAt(out, n) == old(ClaimsAt(a, c))
  {
    out, n := a, {};
    if a != null {
      ghost var was := ClaimsAt(a, c).value;
      var done: seq<Ref?<CustomClaim>> := [];
      hide ClaimIn, ClaimAt, ClaimsDone;
      assert ClaimsDone(done, was, n);
      for i := 0 to a.Length
        invariant fresh(n) && |done| == i && ClaimsDone(done, was, n)
      {
        var copy, m := CopyClaim(a[i], c);
        ClaimsStep(done, was, n, copy, m);
        done, n := done + [copy], n + m;
      }
      out := new Ref?<CustomClaim>[|done|](i requires 0 <= i < |done| => done[i]);
      assert out[..] == done;
      ClaimsFinished(out, was, n);
      n := n + {out};
    }
  }

  method CopyThree(x: Slice<string>, y: Slice<string>, z: Slice<string>, ghost c: Cells)
    returns (x': Slice<string>, y': Slice<string>, z': Slice<string>, ghost n: Cells)
    requires ListIn(x, c) && ListIn(y, c) && ListIn(z, c)
    ensures fresh(n) && ListIn(x', n) && ListIn(y', n) && ListIn(z', n)
    ensures ListAt(x', n) == old(ListAt(x, c)) && ListAt(y', n) == old(ListAt(y, c))
    ensures ListAt(z', n) == old(ListAt(z, c))
  {
    hide ListIn, ListAt;
    ghost var n0, n1, n2;
    x', n0 := CopyList(x, c);
    y', n1 := CopyList(y, c);
    z', n2 := CopyList(z, c);
    n := n0 + n1 + n2;
    WidenList(x', n0, n);
    WidenList(y', n1, n);
    WidenList(z', n2, n);
  }

  ghost predicate JWTIn(p: Ref?<CustomJWTAuthorizer>, c: Cells)
    reads c
  {
    In(p, c) && (p != null ==>
          && ListIn(p.value.allowedAudience, c) && ListIn(p.value.allowedClients, c) && ListIn(p.value.allowedScopes, c)
          && ClaimsIn(p.value.customClaims, c) && In(p.value.discoveryURL, c))
  }

  ghost function JWTAt(p: Ref?<CustomJWTAuthorizer>, c: Cells): Option<Api.CustomJWTAuthorizer>
    requires JWTIn(p, c)
    reads c
  {
    if p == null then None else Some(Api.CustomJWTAuthorizer(
             ListAt(p.value.allowedAudience, c), ListAt(p.value.allowedClients, c), ListAt(p.value.allowedScopes, c),
             ClaimsAt(p.value.customClaims, c), At(p.value.discoveryURL, c)))
  }

  lemma WidenJWT(p: Ref?<CustomJWTAuthorizer>, c: Cells, d: Cells)
    requires JWTIn(p, c) && c <= d
    ensures JWTIn(p, d) && JWTAt(p, d) == JWTAt(p, c)
  {
    if p != null {
      WidenList(p.value.allowedAudience, c, d);
      WidenList(p.value.allowedClients, c, d);
      WidenList(p.value.allowedScopes, c, d);
      WidenClaims(p.value.customClaims, c, d);
    }
  }

  method CopyJWT(p: Ref?<CustomJWTAuthorizer>, ghost c: Cells) returns (out: Ref?<CustomJWTAuthorizer>, ghost n: Cells)
    requires JWTIn(p, c)
    ensures JWTIn(out, n) && fresh(n) && JWTAt(out, n) == old(JWTAt(p, c))
  {
    out, n := p, {};
    if p != null {
      var v := p.value;
      var audience, clients, scopes, n0 := CopyThree(v.allowedAudience, v.allowedClients, v.allowedScopes, c);
      v := v.(allowedAudience := audience, allowedClients := clients, allowedScopes := scopes);
      var claims, n1 := CopyClaims(v.customClaims, c);
      v := v.(customClaims := claims);
      var url, n2 := Copy(v.discoveryURL, c);
      v := v.(discoveryURL := url);
      out := new Ref(v);
      n := n0 + n1 + n2 + {out};
      WidenList(audience, n0, n);
      WidenList(clients, n0, n);
      WidenList(scopes, n0, n);
      WidenClaims(claims, n1, n);
    }
  }

  ghost predicate AuthorizerIn(p: Ref?<AuthorizerConfiguration>, c: Cells)
    reads c
  {
    In(p, c) && (p != null ==> JWTIn(p.value.customJWTAuthorizer, c))
  }

  ghost function AuthorizerAt(p: Ref?<AuthorizerConfiguration>, c: Cells): Option<Api.AuthorizerConfiguration>
    requires AuthorizerIn(p, c)
    reads c
  {
    if p == null then None else Some(Api.AuthorizerConfiguration(JWTAt(p.value.customJWTAuthorizer, c)))
  }

  lemma WidenAuthorizer(p: Ref?<AuthorizerConfiguration>, c: Cells, d: Cells)
    requires AuthorizerIn(p, c) && c <= d
    ensures AuthorizerIn(p, d) && AuthorizerAt(p, d) == AuthorizerAt(p, c)
  {
    if p != null {
      WidenJWT(p.value.customJWTAuthorizer, c, d);
    }
  }

  method CopyAuthorizer(p: Ref?<AuthorizerConfiguration>, ghost c: Cells)
    returns (out: Ref?<AuthorizerConfiguration>, ghost n: Cells)
    requires AuthorizerIn(p, c)
    ensures AuthorizerIn(out, n) && fresh(n) && AuthorizerAt(out, n) == old(AuthorizerAt(p, c))
  {
    out, n := p, {};
    if p != null {
      var jwt, m := CopyJWT(p.value.customJWTAuthorizer, c);
      out := new Ref(AuthorizerConfiguration(jwt));
      n := m + {out};
      WidenJWT(jwt, m, n);
    }
  }

  // ----- FilesystemConfigurations, LifecycleConfiguration -----

  ghost predicate StorageIn(p: Ref?<SessionStorage>, c: Cells)
    reads c
  {
    In(p, c) && (p != null ==> In(p.value.mountPath, c))
  }

  ghost function StorageAt(p: Ref?<SessionStorage>, c: Cells): Option<Api.SessionStorage>
    requires StorageIn(p, c)
    reads c
  {
    if p == null then None else Some(Api.SessionStorage(At(p.value.mountPath, c)))
  }

  method CopyStorage(p: Ref?<SessionStorage>, ghost c: Cells) returns (out: Ref?<SessionStorage>, ghost n: Cells)
    requires StorageIn(p, c)
    ensures StorageIn(out, n) && fresh(n) && StorageAt(out, n) == old(StorageAt(p, c))
  {
    out, n := p, {};
    if p != null {
      var mountPath, m := Copy(p.value.mountPath, c);
      out := new Ref(SessionStorage(mountPath));
      n := m + {out};
    }
  }

  ghost predicate FilesystemIn(p: Ref?<FilesystemConfiguration>, c: Cells)
    reads c
  {
    In(p, c) && (p != null ==> StorageIn(p.value.sessionStorage, c))
  }

  ghost function FilesystemAt(p: Ref?<FilesystemConfiguration>, c: Cells): Option<Api.FilesystemConfiguration>
    requires FilesystemIn(p, c)
    reads c
  {
    if p == null then None else Some(Api.FilesystemConfiguration(StorageAt(p.value.sessionStorage, c)))
  }

  lemma WidenFilesystem(p: Ref?<FilesystemConfiguration>, c: Cells, d: Cells)
    requires FilesystemIn(p, c) && c <= d
    ensures FilesystemIn(p, d) && FilesystemAt(p, d) == FilesystemAt(p, c)
  {
  }

  method CopyFilesystem(p: Ref?<FilesystemConfiguration>, ghost c: Cells)
    returns (out: Ref?<FilesystemConfiguration>, ghost n: Cells)
    requires FilesystemIn(p, c)
    ensures FilesystemIn(out, n) && fresh(n) && FilesystemAt(out, n) == old(FilesystemAt(p, c))
  {
    out, n := p, {};
    if p != null {
      var storage, m := CopyStorage(p.value.sessionStorage, c);
      out := new Ref(FilesystemConfiguration(storage));
      n := m + {out};
    }
  }

  ghost predicate FilesystemsIn(a: Slice<FilesystemConfiguration>, c: Cells)
    reads c
  {
    a != null ==> a in c && forall i | 0 <= i < a.Length :: FilesystemIn(a[i], c)
  }

  ghost function FilesystemsAt(a: Slice<FilesystemConfiguration>, c: Cells)
    : (r: Option<seq<Option<Api.FilesystemConfiguration>>>)
    requires FilesystemsIn(a, c)
    reads c
    ensures a != null ==>
              r.Some? && |r.value| == a.Length && forall i | 0 <= i < a.Length :: r.value[i] == FilesystemAt(a[i], c)
  {
    if a == null then None
    else Some(seq(a.Length, i requires 0 <= i < a.Length && FilesystemsIn(a, c) reads c => FilesystemAt(a[i], c)))
  }

  lemma WidenFilesystems(a: Slice<FilesystemConfiguration>, c: Cells, d: Cells)
    requires FilesystemsIn(a, c) && c <= d
    ensures FilesystemsIn(a, d) && FilesystemsAt(a, d) == FilesystemsAt(a, c)
  {
    if a != null {
      forall i | 0 <= i < a.Length {
        WidenFilesystem(a[i], c, d);
      }
      assert FilesystemsAt(a, d).value == FilesystemsAt(a, c).value;
    }
  }

  /** The first elements of a copy, and what they stand for. */
  ghost predicate FilesystemsDone(done: seq<Ref?<FilesystemConfiguration>>,
                                  was: seq<Option<Api.FilesystemConfiguration>>, n: Cells)
    reads n
  {
    |done| <= |was| && forall j | 0 <= j < |done| :: FilesystemIn(done[j], n) && FilesystemAt(done[j], n) == was[j]
  }

  lemma FilesystemsStep(done: seq<Ref?<FilesystemConfiguration>>, was: seq<Option<Api.FilesystemConfiguration>>,
                        n: Cells, p: Ref?<FilesystemConfiguration>, m: Cells)
    requires FilesystemsDone(done, was, n) && |done| < |was|
    requires FilesystemIn(p, m) && FilesystemAt(p, m) == was[|done|]
    ensures FilesystemsDone(done + [p], was, n + m)
  {
    hide FilesystemIn, FilesystemAt;
    forall j | 0 <= j < |done| {
      WidenFilesystem(done[j], n, n + m);
    }
    WidenFilesystem(p, m, n + m);
  }

  lemma FilesystemsFinished(a: Slice<FilesystemConfiguration>, was: seq<Option<Api.FilesystemConfiguration>>, n: Cells)
    requires a != null && FilesystemsDone(a[..], was, n) && a.Length == |was|
    ensures FilesystemsIn(a, n + {a}) && FilesystemsAt(a, n + {a}) == Some(was)
  {
    hide FilesystemIn, FilesystemAt;
    forall j | 0 <= j < a.Length
      ensures FilesystemIn(a[j], n + {a}) && FilesystemAt(a[j], n + {a}) == was[j]
    {
      assert a[j] == a[..][j];
      WidenFilesystem(a[j], n, n + {a});
    }
    assert FilesystemsAt(a, n + {a}).value == was;
  }

  method CopyFilesystems(a: Slice<FilesystemConfiguration>, ghost c: Cells)
    returns (out: Slice<FilesystemConfiguration>, ghost n: Cells)
    requires FilesystemsIn(a, c)
    ensures FilesystemsIn(out, n) && fresh(n) && FilesystemsAt(out, n) == old(FilesystemsAt(a, c))
  {
    out, n := a, {};
    if a != null {
      ghost var was := FilesystemsAt(a, c).value;
      var done: seq<Ref?<FilesystemConfiguration>> := [];
      hide FilesystemIn, FilesystemAt, FilesystemsDone;
      assert FilesystemsDone(done, was, n);
      for i := 0 to a.Length
        invariant fresh(n) && |done| == i && FilesystemsDone(done, was, n)
      {
        var copy, m := CopyFilesystem(a[i], c);
        FilesystemsStep(done, was, n, copy, m);
        done, n := done + [copy], n + m;
      }
      out := new Ref?<FilesystemConfiguration>[|done|](i requires 0 <= i < |done| => done[i]);
      assert out[..] == done;
      FilesystemsFinished(out, was, n);
      n := n + {out};
    }
  }

  ghost predicate LifecycleIn(p: Ref?<LifecycleConfiguration>, c: Cells)
    reads c
  {
    In(p, c) && (p != null ==> In(p.value.idleRuntimeSessionTimeout, c) && In(p.value.maxLifetime, c))
  }

  ghost function LifecycleAt(p: Ref?<LifecycleConfiguration>, c: Cells): Option<Api.LifecycleConfiguration>
    requires LifecycleIn(p, c)
    reads c
  {
    if p == null then None
    else Some(Api.LifecycleConfiguration(At(p.value.idleRuntimeSessionTimeout, c), At(p.value.maxLifetime, c)))
  }

  lemma WidenLifecycle(p: Ref?<LifecycleConfiguration>, c: Cells, d: Cells)
    requires LifecycleIn(p, c) && c <= d
    ensures LifecycleIn(p, d) && LifecycleAt(p, d) == LifecycleAt(p, c)
  {
  }

  method CopyLifecycle(p: Ref?<LifecycleConfiguration>, ghost c: Cells)
    returns (out: Ref?<LifecycleConfiguration>, ghost n: Cells)
    requires LifecycleIn(p, c)
    ensures LifecycleIn(out, n) && fresh(n) && LifecycleAt(out, n) == old(LifecycleAt(p, c))
  {
    out, n := p, {};
    if p != null {
      var v := p.value;
      var idle, n0 := Copy(v.idleRuntimeSessionTimeout, c);
      v := v.(idleRuntimeSessionTimeout := idle);
      var maxLifetime, n1 := Copy(v.maxLifetime, c);
      v := v.(maxLifetime := maxLifetime);
      out := new Ref(v);
      n := n0 + n1 + {out};
    }
  }

  // ----- NetworkConfiguration -----

  ghost predicate ReferenceIn(p: Ref?<ResourceReference>, c: Cells)
    reads c
  {
    In(p, c) && (p != null ==> In(p.value.name, c) && In(p.value.namespace, c))
  }

  ghost function ReferenceAt(p: Ref?<ResourceReference>, c: Cells): Option<Api.ResourceReference>
    requires ReferenceIn(p, c)
    reads c
  {
    if p == null then None else Some(Api.ResourceReference(At(p.value.name, c), At(p.value.namespace, c)))
  }

  method CopyReference(p: Ref?<ResourceReference>, ghost c: Cells)
    returns (out: Ref?<ResourceReference>, ghost n: Cells)
    requires ReferenceIn(p, c)
    ensures ReferenceIn(out, n) && fresh(n) && ReferenceAt(out, n) == old(ReferenceAt(p, c))
  {
    out, n := p, {};
    if p != null {
      var v := p.value;
      var name, n0 := Copy(v.name, c);
      v := v.(name := name);
      var namespace, n1 := Copy(v.namespace, c);
      v := v.(namespace := namespace);
      out := new Ref(v);
      n := n0 + n1 + {out};
    }
  }

  ghost predicate WrapperIn(p: Ref?<ReferenceWrapper>, c: Cells)
    reads c
  {
    In(p, c) && (p != null ==> ReferenceIn(p.value.from, c))
  }

  ghost function WrapperAt(p: Ref?<ReferenceWrapper>, c: Cells): Option<Api.ReferenceWrapper>
    requires WrapperIn(p, c)
    reads c
  {
    if p == null then None else Some(Api.ReferenceWrapper(ReferenceAt(p.value.from, c)))
  }

  lemma WidenWrapper(p: Ref?<ReferenceWrapper>, c: Cells, d: Cells)
    requires WrapperIn(p, c) && c <= d
    ensures WrapperIn(p, d) && WrapperAt(p, d) == WrapperAt(p, c)
  {
  }

  method CopyWrapper(p: Ref?<ReferenceWrapper>, ghost c: Cells) returns (out: Ref?<ReferenceWrapper>, ghost n: Cells)
    requires WrapperIn(p, c)
    ensures WrapperIn(out, n) && fresh(n) && WrapperAt(out, n) == old(WrapperAt(p, c))
  {
    out, n := p, {};
    if p != null {
      var from, m := CopyReference(p.value.from, c);
      out := new Ref(ReferenceWrapper(from));
      n := m + {out};
    }
  }

  ghost predicate WrappersIn(a: Slice<ReferenceWrapper>, c: Cells)
    reads c
  {
    a != null ==> a in c && forall i | 0 <= i < a.Length :: WrapperIn(a[i], c)
  }

  ghost function WrappersAt(a: Slice<ReferenceWrapper>, c: Cells): (r: Option<seq<Option<Api.ReferenceWrapper>>>)
    requires WrappersIn(a, c)
    reads c
    ensures a != null ==>
              r.Some? && |r.value| == a.Length && forall i | 0 <= i < a.Length :: r.value[i] == WrapperAt(a[i], c)
  {
    if a == null then None
    else Some(seq(a.Length, i requires 0 <= i < a.Length && WrappersIn(a, c) reads c => WrapperAt(a[i], c)))
  }

  lemma WidenWrappers(a: Slice<ReferenceWrapper>, c: Cells, d: Cells)
    requires WrappersIn(a, c) && c <= d
    ensures WrappersIn(a, d) && WrappersAt(a, d) == WrappersAt(a, c)
  {
    if a != null {
      forall i | 0 <= i < a.Length {
        WidenWrapper(a[i], c, d);
      }
      assert WrappersAt(a, d).value == WrappersAt(a, c).value;
    }
  }

  /** The first elements of a copy, and what they stand for. */
  ghost predicate WrappersDone(done: seq<Ref?<ReferenceWrapper>>, was: seq<Option<Api.ReferenceWrapper>>, n: Cells)
    reads n
  {
    |done| <= |was| && forall j | 0 <= j < |done| :: WrapperIn(done[j], n) && WrapperAt(done[j], n) == was[j]
  }

  lemma WrappersStep(done: seq<Ref?<ReferenceWrapper>>, was: seq<Option<Api.ReferenceWrapper>>, n: Cells,
                     p: Ref?<ReferenceWrapper>, m: Cells)
    requires WrappersDone(done, was, n) && |done| < |was|
    requires WrapperIn(p, m) && WrapperAt(p, m) == was[|done|]
    ensures WrappersDone(done + [p], was, n + m)
  {
    hide WrapperIn, WrapperAt;
    forall j | 0 <= j < |done| {
      WidenWrapper(done[j], n, n + m);
    }
    WidenWrapper(p, m, n + m);
  }

  lemma WrappersFinished(a: Slice<ReferenceWrapper>, was: seq<Option<Api.ReferenceWrapper>>, n: Cells)
    requires a != null && WrappersDone(a[..], was, n) && a.Length == |was|
    ensures WrappersIn(a, n + {a}) && WrappersAt(a, n + {a}) == Some(was)
  {
    hide WrapperIn, WrapperAt;
    forall j | 0 <= j < a.Length
      ensures WrapperIn(a[j], n + {a}) && WrapperAt(a[j], n + {a}) == was[j]
    {
      assert a[j] == a[..][j];
      WidenWrapper(a[j], n, n + {a});
    }
    assert WrappersAt(a, n + {a}).value == was;
  }

  method CopyWrappers(a: Slice<ReferenceWrapper>, ghost c: Cells) returns (out: Slice<ReferenceWrapper>, ghost n: Cells)
    requires WrappersIn(a, c)
    ensures WrappersIn(out, n) && fresh(n) && WrappersAt(out, n) == old(WrappersAt(a, c))
  {
    out, n := a, {};
    if a != null {
      ghost var was := WrappersAt(a, c).value;
      var done: seq<Ref?<ReferenceWrapper>> := [];
      hide WrapperIn, WrapperAt, WrappersDone;
      assert WrappersDone(done, was, n);
      for i := 0 to a.Length
        invariant fresh(n) && |done| == i && WrappersDone(done, was, n)
      {
        var copy, m := CopyWrapper(a[i], c);
        WrappersStep(done, was, n, copy, m);
        done, n := done + [copy], n + m;
      }
      out := new Ref?<ReferenceWrapper>[|done|](i requires 0 <= i < |done| => done[i]);
      assert out[..] == done;
      WrappersFinished(out, was, n);
      n := n + {out};
    }
  }

  ghost predicate VPCIn(v: VPCConfig, c: Cells)
    reads c
  {
    && WrappersIn(v.securityGroupRefs, c) && ListIn(v.securityGroups, c)
    && WrappersIn(v.subnetRefs, c) && ListIn(v.subnets, c)
  }

  ghost function VPCAt(v: VPCConfig, c: Cells): Api.VPCConfig
    requires VPCIn(v, c)
    reads c
  {
    Api.VPCConfig(
      WrappersAt(v.securityGroupRefs, c), ListAt(v.securityGroups, c),
      WrappersAt(v.subnetRefs, c), ListAt(v.subnets, c))
  }

  lemma WidenVPC(v: VPCConfig, c: Cells, d: Cells)
    requires VPCIn(v, c) && c <= d
    ensures VPCIn(v, d) && VPCAt(v, d) == VPCAt(v, c)
  {
    WidenWrappers(v.securityGroupRefs, c, d);
    WidenList(v.securityGroups, c, d);
    WidenWrappers(v.subnetRefs, c, d);
    WidenList(v.subnets, c, d);
  }

  /** The two lists of one kind. */
  method CopyKind(refs: Slice<ReferenceWrapper>, ids: Slice<string>, ghost c: Cells)
    returns (refs': Slice<ReferenceWrapper>, ids': Slice<string>, ghost n: Cells)
    requires WrappersIn(refs, c) && ListIn(ids, c)
    ensures fresh(n) && WrappersIn(refs', n) && ListIn(ids', n)
    ensures WrappersAt(refs', n) == old(WrappersAt(refs, c)) && ListAt(ids', n) == old(ListAt(ids, c))
  {
    ghost var n0, n1;
    refs', n0 := CopyWrappers(refs, c);
    ids', n1 := CopyList(ids, c);
    n := n0 + n1;
    WidenWrappers(refs', n0, n);
    WidenList(ids', n1, n);
  }

  /** The shallow copy first, then each field that is not nil. */
  method CopyVPC(v: VPCConfig, ghost c: Cells) returns (out: VPCConfig, ghost n: Cells)
    requires VPCIn(v, c)
    ensures VPCIn(out, n) && fresh(n) && VPCAt(out, n) == old(VPCAt(v, c))
  {
    hide WrappersIn, WrappersAt, ListIn, ListAt;
    out := v;
    var groupRefs, groups, n0 := CopyKind(v.securityGroupRefs, v.securityGroups, c);
    out := out.(securityGroupRefs := groupRefs, securityGroups := groups);
    var subnetRefs, subnets, n1 := CopyKind(v.subnetRefs, v.subnets, c);
    out := out.(subnetRefs := subnetRefs, subnets := subnets);
    n := n0 + n1;
    WidenWrappers(groupRefs, n0, n);
    WidenList(groups, n0, n);
    WidenWrappers(subnetRefs, n1, n);
    WidenList(subnets, n1, n);
  }

  ghost predicate ConfigIn(p: Ref?<VPCConfig>, c: Cells)
    reads c
  {
    In(p, c) && (p != null ==> VPCIn(p.value, c))
  }

  ghost function ConfigAt(p: Ref?<VPCConfig>, c: Cells): Option<Api.VPCConfig>
    requires ConfigIn(p, c)
    reads c
  {
    if p == null then None else Some(VPCAt(p.value, c))
  }

  /** `lists` bounds what the struct's own fields reach. */
  lemma WidenConfig(p: Ref?<VPCConfig>, c: Cells, d: Cells)
    requires ConfigIn(p, c) && c <= d
    ensures ConfigIn(p, d) && ConfigAt(p, d) == ConfigAt(p, c)
  {
    hide VPCIn, VPCAt;
    if p != null {
      WidenVPC(p.value, c, d);
    }
  }

  method CopyConfig(p: Ref?<VPCConfig>, ghost c: Cells)
    returns (out: Ref?<VPCConfig>, ghost n: Cells, ghost lists: Cells)
    requires ConfigIn(p, c)
    ensures ConfigIn(out, n) && fresh(n) && ConfigAt(out, n) == old(ConfigAt(p, c))
    ensures lists <= n && (out != null ==> out !in lists && VPCIn(out.value, lists))
  {
    hide VPCIn, VPCAt;
    out, n, lists := p, {}, {};
    if p != null {
      var v;
      v, lists := CopyVPC(p.value, c);
      out := new Ref(v);
      n := lists + {out};
      WidenVPC(v, lists, n);
    }
  }

  ghost predicate NetworkIn(p: Ref?<NetworkConfiguration>, c: Cells)
    reads c
  {
    In(p, c) && (p != null ==> In(p.value.networkMode, c) && ConfigIn(p.value.networkModeConfig, c))
  }

  ghost function NetworkAt(p: Ref?<NetworkConfiguration>, c: Cells): Option<Api.NetworkConfiguration>
    requires NetworkIn(p, c)
    reads c
  {
    if p == null then None
    else Some(Api.NetworkConfiguration(At(p.value.networkMode, c), ConfigAt(p.value.networkModeConfig, c)))
  }

  lemma WidenNetwork(p: Ref?<NetworkConfiguration>, c: Cells, d: Cells)
    requires NetworkIn(p, c) && c <= d
    ensures NetworkIn(p, d) && NetworkAt(p, d) == NetworkAt(p, c)
  {
    hide VPCIn, VPCAt;
    if p != null {
      WidenConfig(p.value.networkModeConfig, c, d);
    }
  }

  /** The two struct cells of a network configuration are not among the cells their fields reach. */
  ghost predicate Apart(p: Ref?<NetworkConfiguration>, c: Cells, fields: Cells)
    reads c, fields
  {
    && fields <= c
    && In(p, c)
    && (p != null ==>
          && p !in fields && In(p.value.networkMode, fields) && In(p.value.networkModeConfig, c)
          && (p.value.networkModeConfig != null ==>
                p.value.networkModeConfig !in fields && VPCIn(p.value.networkModeConfig.value, fields)))
  }

  method CopyNetwork(p: Ref?<NetworkConfiguration>, ghost c: Cells)
    returns (out: Ref?<NetworkConfiguration>, ghost n: Cells, ghost fields: Cells)
    requires NetworkIn(p, c)
    ensures Apart(out, n, fields)
    ensures NetworkIn(out, n) && fresh(n) && NetworkAt(out, n) == old(NetworkAt(p, c))
  {
    out, n, fields := p, {}, {};
    if p != null {
      hide VPCIn, VPCAt;
      var v := p.value;
      var mode, n0 := Copy(v.networkMode, c);
      v := v.(networkMode := mode);
      var config, n1, m := CopyConfig(v.networkModeConfig, c);
      v := v.(networkModeConfig := config);
      out := new Ref(v);
      n, fields := n0 + n1 + {out}, n0 + m;
      WidenConfig(config, n1, n);
      if config != null {
        WidenVPC(config.value, m, fields);
      }
    }
  }

  // ----- The remaining structs, and the spec -----

  ghost predicate ProtocolIn(p: Ref?<ProtocolConfiguration>, c: Cells)
    reads c
  {
    In(p, c) && (p != null ==> In(p.value.serverProtocol, c))
  }

  ghost function ProtocolAt(p: Ref?<ProtocolConfiguration>, c: Cells): Option<Api.ProtocolConfiguration>
    requires ProtocolIn(p, c)
    reads c
  {
    if p == null then None else Some(Api.ProtocolConfiguration(At(p.value.serverProtocol, c)))
  }

  lemma WidenProtocol(p: Ref?<ProtocolConfiguration>, c: Cells, d: Cells)
    requires ProtocolIn(p, c) && c <= d
    ensures ProtocolIn(p, d) && ProtocolAt(p, d) == ProtocolAt(p, c)
  {
  }

  method CopyProtocol(p: Ref?<ProtocolConfiguration>, ghost c: Cells)
    returns (out: Ref?<ProtocolConfiguration>, ghost n: Cells)
    requires ProtocolIn(p, c)
    ensures ProtocolIn(out, n) && fresh(n) && ProtocolAt(out, n) == old(ProtocolAt(p, c))
  {
    out, n := p, {};
    if p != null {
      var serverProtocol, m := Copy(p.value.serverProtocol, c);
      out := new Ref(ProtocolConfiguration(serverProtocol));
      n := m + {out};
    }
  }

  ghost predicate RequestHeaderIn(p: Ref?<RequestHeaderConfiguration>, c: Cells)
    reads c
  {
    In(p, c) && (p != null ==> ListIn(p.value.requestHeaderAllowlist, c))
  }

  ghost function RequestHeaderAt(p: Ref?<RequestHeaderConfiguration>, c: Cells): Option<Api.RequestHeaderConfiguration>
    requires RequestHeaderIn(p, c)
    reads c
  {
    if p == null then None else Some(Api.RequestHeaderConfiguration(ListAt(p.value.requestHeaderAllowlist, c)))
  }

  lemma WidenRequestHeader(p: Ref?<RequestHeaderConfiguration>, c: Cells, d: Cells)
    requires RequestHeaderIn(p, c) && c <= d
    ensures RequestHeaderIn(p, d) && RequestHeaderAt(p, d) == RequestHeaderAt(p, c)
  {
    if p != null {
      WidenList(p.value.requestHeaderAllowlist, c, d);
    }
  }

  method CopyRequestHeader(p: Ref?<RequestHeaderConfiguration>, ghost c: Cells)
    returns (out: Ref?<RequestHeaderConfiguration>, ghost n: Cells)
    requires RequestHeaderIn(p, c)
    ensures RequestHeaderIn(out, n) && fresh(n) && RequestHeaderAt(out, n) == old(RequestHeaderAt(p, c))
  {
    out, n := p, {};
    if p != null {
      var allowlist, m := CopyList(p.value.requestHeaderAllowlist, c);
      out := new Ref(RequestHeaderConfiguration(allowlist));
      n := m + {out};
      WidenList(allowlist, m, n);
    }
  }

  /** Every field but the network configuration, which EnsureReferences writes to. */
  ghost predicate RestIn(s: AgentRuntimeSpec, c: Cells)
    reads c
  {
    && ArtifactIn(s.agentRuntimeArtifact, c)
    && In(s.agentRuntimeName, c)
    && AuthorizerIn(s.authorizerConfiguration, c)
    && In(s.description, c)
    && MapIn(s.environmentVariables, c)
    && FilesystemsIn(s.filesystemConfigurations, c)
    && LifecycleIn(s.lifecycleConfiguration, c)
    && In(s.platformVersion, c)
    && ProtocolIn(s.protocolConfiguration, c)
    && RequestHeaderIn(s.requestHeaderConfiguration, c)
    && In(s.roleARN, c)
    && MapIn(s.tags, c)
  }

  ghost function RestAt(s: AgentRuntimeSpec, c: Cells): Api.AgentRuntimeSpec
    requires RestIn(s, c)
    reads c
  {
    Api.AgentRuntimeSpec(
      ArtifactAt(s.agentRuntimeArtifact, c),
      At(s.agentRuntimeName, c),
      AuthorizerAt(s.authorizerConfiguration, c),
      At(s.description, c),
      MapAt(s.environmentVariables, c),
      FilesystemsAt(s.filesystemConfigurations, c),
      LifecycleAt(s.lifecycleConfiguration, c),
      None,
      At(s.platformVersion, c),
      ProtocolAt(s.protocolConfiguration, c),
      RequestHeaderAt(s.requestHeaderConfiguration, c),
      At(s.roleARN, c),
      MapAt(s.tags, c))
  }

  ghost predicate SpecIn(s: AgentRuntimeSpec, c: Cells)
    reads c
  {
    RestIn(s, c) && NetworkIn(s.networkConfiguration, c)
  }

  ghost function SpecAt(s: AgentRuntimeSpec, c: Cells): Api.AgentRuntimeSpec
    requires SpecIn(s, c)
    reads c
  {
    RestAt(s, c).(networkConfiguration := NetworkAt(s.networkConfiguration, c))
  }

  // Runs of fields, in the order of the source; the network configuration comes last.

  method CopyArtifactToDescription(s: AgentRuntimeSpec, ghost c: Cells) returns (out: AgentRuntimeSpec, ghost n: Cells)
    requires ArtifactIn(s.agentRuntimeArtifact, c)
    requires In(s.agentRuntimeName, c)
    requires AuthorizerIn(s.authorizerConfiguration, c)
    requires In(s.description, c)
    ensures fresh(n)
    ensures out == s.(agentRuntimeArtifact := out.agentRuntimeArtifact, agentRuntimeName := out.agentRuntimeName,
                      authorizerConfiguration := out.authorizerConfiguration, description := out.description)
    ensures ArtifactIn(out.agentRuntimeArtifact, n)
    ensures ArtifactAt(out.agentRuntimeArtifact, n) == old(ArtifactAt(s.agentRuntimeArtifact, c))
    ensures In(out.agentRuntimeName, n) && At(out.agentRuntimeName, n) == old(At(s.agentRuntimeName, c))
    ensures AuthorizerIn(out.authorizerConfiguration, n)
    ensures AuthorizerAt(out.authorizerConfiguration, n) == old(AuthorizerAt(s.authorizerConfiguration, c))
    ensures In(out.description, n) && At(out.description, n) == old(At(s.description, c))
  {
    hide In, At, ArtifactIn, ArtifactAt, AuthorizerIn, AuthorizerAt;
    out := s;
    var f0, n0 := CopyArtifact(s.agentRuntimeArtifact, c);
    out := out.(agentRuntimeArtifact := f0);
    var f1, n1 := Copy(s.agentRuntimeName, c);
    out := out.(agentRuntimeName := f1);
    var f2, n2 := CopyAuthorizer(s.authorizerConfiguration, c);
    out := out.(authorizerConfiguration := f2);
    var f3, n3 := Copy(s.description, c);
    out := out.(description := f3);
    n := n0 + n1 + n2 + n3;
    WidenArtifact(f0, n0, n);
    Widen(f1, n1, n);
    WidenAuthorizer(f2, n2, n);
    Widen(f3, n3, n);
  }

  method CopyEnvironmentToLifecycle(s: AgentRuntimeSpec, ghost c: Cells) returns (out: AgentRuntimeSpec, ghost n: Cells)
    requires MapIn(s.environmentVariables, c)
    requires FilesystemsIn(s.filesystemConfigurations, c)
    requires LifecycleIn(s.lifecycleConfiguration, c)
    ensures fresh(n)
    ensures out == s.(environmentVariables := out.environmentVariables,
                      filesystemConfigurations := out.filesystemConfigurations,
                      lifecycleConfiguration := out.lifecycleConfiguration)
    ensures MapIn(out.environmentVariables, n)
    ensures MapAt(out.environmentVariables, n) == old(MapAt(s.environmentVariables, c))
    ensures FilesystemsIn(out.filesystemConfigurations, n)
    ensures FilesystemsAt(out.filesystemConfigurations, n) == old(FilesystemsAt(s.filesystemConfigurations, c))
    ensures LifecycleIn(out.lifecycleConfiguration, n)
    ensures LifecycleAt(out.lifecycleConfiguration, n) == old(LifecycleAt(s.lifecycleConfiguration, c))
  {
    hide In, At, MapIn, MapAt, FilesystemsIn, FilesystemsAt, LifecycleIn, LifecycleAt;
    out := s;
    var f0, n0 := CopyMap(s.environmentVariables, c);
    out := out.(environmentVariables := f0);
    var f1, n1 := CopyFilesystems(s.filesystemConfigurations, c);
    out := out.(filesystemConfigurations := f1);
    var f2, n2 := CopyLifecycle(s.lifecycleConfiguration, c);
    out := out.(lifecycleConfiguration := f2);
    n := n0 + n1 + n2;
    WidenMap(f0, n0, n);
    WidenFilesystems(f1, n1, n);
    WidenLifecycle(f2, n2, n);
  }

  method CopyPlatformAndProtocol(s: AgentRuntimeSpec, ghost c: Cells) returns (out: AgentRuntimeSpec, ghost n: Cells)
    requires In(s.platformVersion, c) && ProtocolIn(s.protocolConfiguration, c)
    ensures fresh(n)
    ensures out == s.(platformVersion := out.platformVersion, protocolConfiguration := out.protocolConfiguration)
    ensures In(out.platformVersion, n) && At(out.platformVersion, n) == old(At(s.platformVersion, c))
    ensures ProtocolIn(out.protocolConfiguration, n)
    ensures ProtocolAt(out.protocolConfiguration, n) == old(ProtocolAt(s.protocolConfiguration, c))
  {
    hide In, At, ProtocolIn, ProtocolAt;
    out := s;
    var f0, n0 := Copy(s.platformVersion, c);
    out := out.(platformVersion := f0);
    var f1, n1 := CopyProtocol(s.protocolConfiguration, c);
    out := out.(protocolConfiguration := f1);
    n := n0 + n1;
    Widen(f0, n0, n);
    WidenProtocol(f1, n1, n);
  }

  method CopyHeaderToTags(s: AgentRuntimeSpec, ghost c: Cells) returns (out: AgentRuntimeSpec, ghost n: Cells)
    requires RequestHeaderIn(s.requestHeaderConfiguration, c) && In(s.roleARN, c) && MapIn(s.tags, c)
    ensures fresh(n)
    ensures out == s.(requestHeaderConfiguration := out.requestHeaderConfiguration, roleARN := out.roleARN,
                      tags := out.tags)
    ensures RequestHeaderIn(out.requestHeaderConfiguration, n)
    ensures RequestHeaderAt(out.requestHeaderConfiguration, n) == old(RequestHeaderAt(s.requestHeaderConfiguration, c))
    ensures In(out.roleARN, n) && At(out.roleARN, n) == old(At(s.roleARN, c))
    ensures MapIn(out.tags, n) && MapAt(out.tags, n) == old(MapAt(s.tags, c))
  {
    hide In, At, RequestHeaderIn, RequestHeaderAt, MapIn, MapAt;
    out := s;
    var f0, n0 := CopyRequestHeader(s.requestHeaderConfiguration, c);
    out := out.(requestHeaderConfiguration := f0);
    var f1, n1 := Copy(s.roleARN, c);
    out := out.(roleARN := f1);
    var f2, n2 := CopyMap(s.tags, c);
    out := out.(tags := f2);
    n := n0 + n1 + n2;
    WidenRequestHeader(f0, n0, n);
    Widen(f1, n1, n);
    WidenMap(f2, n2, n);
  }

  method CopyUpToLifecycle(s: AgentRuntimeSpec, ghost c: Cells) returns (out: AgentRuntimeSpec, ghost n: Cells)
    requires ArtifactIn(s.agentRuntimeArtifact, c)
    requires In(s.agentRuntimeName, c)
    requires AuthorizerIn(s.authorizerConfiguration, c)
    requires In(s.description, c)
    requires MapIn(s.environmentVariables, c)
    requires FilesystemsIn(s.filesystemConfigurations, c)
    requires LifecycleIn(s.lifecycleConfiguration, c)
    ensures fresh(n)
    ensures out == s.(agentRuntimeArtifact := out.agentRuntimeArtifact, agentRuntimeName := out.agentRuntimeName,
                      authorizerConfiguration := out.authorizerConfiguration, description := out.description,
                      environmentVariables := out.environmentVariables,
                      filesystemConfigurations := out.filesystemConfigurations,
                      lifecycleConfiguration := out.lifecycleConfiguration)
    ensures ArtifactIn(out.agentRuntimeArtifact, n)
    ensures ArtifactAt(out.agentRuntimeArtifact, n) == old(ArtifactAt(s.agentRuntimeArtifact, c))
    ensures In(out.agentRuntimeName, n) && At(out.agentRuntimeName, n) == old(At(s.agentRuntimeName, c))
    ensures AuthorizerIn(out.authorizerConfiguration, n)
    ensures AuthorizerAt(out.authorizerConfiguration, n) == old(AuthorizerAt(s.authorizerConfiguration, c))
    ensures In(out.description, n) && At(out.description, n) == old(At(s.description, c))
    ensures MapIn(out.environmentVariables, n)
    ensures MapAt(out.environmentVariables, n) == old(MapAt(s.environmentVariables, c))
    ensures FilesystemsIn(out.filesystemConfigurations, n)
    ensures FilesystemsAt(out.filesystemConfigurations, n) == old(FilesystemsAt(s.filesystemConfigurations, c))
    ensures LifecycleIn(out.lifecycleConfiguration, n)
    ensures LifecycleAt(out.lifecycleConfiguration, n) == old(LifecycleAt(s.lifecycleConfiguration, c))
  {
    hide In, At, ArtifactIn, ArtifactAt, AuthorizerIn, AuthorizerAt, MapIn, MapAt, FilesystemsIn, FilesystemsAt,
      LifecycleIn, LifecycleAt;
    ghost var n0, n1;
    out, n0 := CopyArtifactToDescription(s, c);
    out, n1 := CopyEnvironmentToLifecycle(out, c);
    n := n0 + n1;
    WidenArtifact(out.agentRuntimeArtifact, n0, n);
    Widen(out.agentRuntimeName, n0, n);
    WidenAuthorizer(out.authorizerConfiguration, n0, n);
    Widen(out.description, n0, n);
    WidenMap(out.environmentVariables, n1, n);
    WidenFilesystems(out.filesystemConfigurations, n1, n);
    WidenLifecycle(out.lifecycleConfiguration, n1, n);
  }

  method CopyFromPlatform(s: AgentRuntimeSpec, ghost c: Cells) returns (out: AgentRuntimeSpec, ghost n: Cells)
    requires In(s.platformVersion, c) && ProtocolIn(s.protocolConfiguration, c)
    requires RequestHeaderIn(s.requestHeaderConfiguration, c) && In(s.roleARN, c) && MapIn(s.tags, c)
    ensures fresh(n)
    ensures out == s.(platformVersion := out.platformVersion, protocolConfiguration := out.protocolConfiguration,
                      requestHeaderConfiguration := out.requestHeaderConfiguration, roleARN := out.roleARN,
                      tags := out.tags)
    ensures In(out.platformVersion, n) && At(out.platformVersion, n) == old(At(s.platformVersion, c))
    ensures ProtocolIn(out.protocolConfiguration, n)
    ensures ProtocolAt(out.protocolConfiguration, n) == old(ProtocolAt(s.protocolConfiguration, c))
    ensures RequestHeaderIn(out.requestHeaderConfiguration, n)
    ensures RequestHeaderAt(out.requestHeaderConfiguration, n) == old(RequestHeaderAt(s.requestHeaderConfiguration, c))
    ensures In(out.roleARN, n) && At(out.roleARN, n) == old(At(s.roleARN, c))
    ensures MapIn(out.tags, n) && MapAt(out.tags, n) == old(MapAt(s.tags, c))
  {
    hide In, At, ProtocolIn, ProtocolAt, RequestHeaderIn, RequestHeaderAt, MapIn, MapAt;
    ghost var n0, n1;
    out, n0 := CopyPlatformAndProtocol(s, c);
    out, n1 := CopyHeaderToTags(out, c);
    n := n0 + n1;
    Widen(out.platformVersion, n0, n);
    WidenProtocol(out.protocolConfiguration, n0, n);
    WidenRequestHeader(out.requestHeaderConfiguration, n1, n);
    Widen(out.roleARN, n1, n);
    WidenMap(out.tags, n1, n);
  }

  lemma WidenRest(s: AgentRuntimeSpec, c: Cells, d: Cells)
    requires RestIn(s, c) && c <= d
    ensures RestIn(s, d) && RestAt(s, d) == RestAt(s, c)
  {
    hide In, At, ArtifactIn, ArtifactAt, AuthorizerIn, AuthorizerAt, MapIn, MapAt, FilesystemsIn, FilesystemsAt,
      LifecycleIn, LifecycleAt, NetworkIn, NetworkAt, ProtocolIn, ProtocolAt, RequestHeaderIn, RequestHeaderAt;
    WidenArtifact(s.agentRuntimeArtifact, c, d);
    Widen(s.agentRuntimeName, c, d);
    WidenAuthorizer(s.authorizerConfiguration, c, d);
    Widen(s.description, c, d);
    WidenMap(s.environmentVariables, c, d);
    WidenFilesystems(s.filesystemConfigurations, c, d);
    WidenLifecycle(s.lifecycleConfiguration, c, d);
    Widen(s.platformVersion, c, d);
    WidenProtocol(s.protocolConfiguration, c, d);
    WidenRequestHeader(s.requestHeaderConfiguration, c, d);
    Widen(s.roleARN, c, d);
    WidenMap(s.tags, c, d);
  }

  lemma RestOf(s: AgentRuntimeSpec, network: Ref?<NetworkConfiguration>, c: Cells)
    requires RestIn(s, c)
    ensures var t := s.(networkConfiguration := network);
            RestIn(t, c) && RestAt(t, c) == RestAt(s, c)
  {
    hide In, At, ArtifactIn, ArtifactAt, AuthorizerIn, AuthorizerAt, MapIn, MapAt, FilesystemsIn, FilesystemsAt,
      LifecycleIn, LifecycleAt, NetworkIn, NetworkAt, ProtocolIn, ProtocolAt, RequestHeaderIn, RequestHeaderAt;
  }

  method CopyRest(s: AgentRuntimeSpec, ghost c: Cells) returns (out: AgentRuntimeSpec, ghost n: Cells)
    requires RestIn(s, c)
    ensures RestIn(out, n) && fresh(n) && RestAt(out, n) == old(RestAt(s, c))
    ensures out.networkConfiguration == s.networkConfiguration
  {
    hide In, At, ArtifactIn, ArtifactAt, AuthorizerIn, AuthorizerAt, MapIn, MapAt, FilesystemsIn, FilesystemsAt,
      LifecycleIn, LifecycleAt, NetworkIn, NetworkAt, ProtocolIn, ProtocolAt, RequestHeaderIn, RequestHeaderAt;
    ghost var n0, n1;
    out, n0 := CopyUpToLifecycle(s, c);
    out, n1 := CopyFromPlatform(out, c);
    n := n0 + n1;
    WidenArtifact(out.agentRuntimeArtifact, n0, n);
    Widen(out.agentRuntimeName, n0, n);
    WidenAuthorizer(out.authorizerConfiguration, n0, n);
    Widen(out.description, n0, n);
    WidenMap(out.environmentVariables, n0, n);
    WidenFilesystems(out.filesystemConfigurations, n0, n);
    WidenLifecycle(out.lifecycleConfiguration, n0, n);
    Widen(out.platformVersion, n1, n);
    WidenProtocol(out.protocolConfiguration, n1, n);
    WidenRequestHeader(out.requestHeaderConfiguration, n1, n);
    Widen(out.roleARN, n1, n);
    WidenMap(out.tags, n1, n);
  }

  lemma Assemble(s: AgentRuntimeSpec, rest: Cells, network: Ref?<NetworkConfiguration>, m: Cells)
    requires RestIn(s, rest) && NetworkIn(network, m)
    ensures var out := s.(networkConfiguration := network);
            && SpecIn(out, rest + m)
            && SpecAt(out, rest + m) == RestAt(s, rest).(networkConfiguration := NetworkAt(network, m))
  {
    hide RestIn, RestAt, NetworkIn, NetworkAt;
    RestOf(s, network, rest);
    WidenRest(s.(networkConfiguration := network), rest, rest + m);
    WidenNetwork(network, m, rest + m);
  }

  /** AgentRuntimeSpec's DeepCopyInto: the shallow copy, then every field that is not nil replaced.
      The copy stands for the same spec, and everything it reaches is new; its network
      configuration has cells of its own. */
  method CopySpec(s: AgentRuntimeSpec, ghost c: Cells)
    returns (out: AgentRuntimeSpec, ghost rest: Cells, ghost network: Cells, ghost fields: Cells)
    requires SpecIn(s, c)
    ensures fresh(rest + network) && rest !! network
    ensures SpecIn(out, rest + network) && SpecAt(out, rest + network) == old(SpecAt(s, c))
    ensures RestIn(out, rest) && RestAt(out, rest) == old(RestAt(s, c))
    ensures NetworkIn(out.networkConfiguration, network) && Apart(out.networkConfiguration, network, fields)
    ensures NetworkAt(out.networkConfiguration, network) == old(NetworkAt(s.networkConfiguration, c))
  {
    hide RestIn, RestAt, NetworkIn, NetworkAt, Apart;
    out, rest := CopyRest(s, c);
    var copy;
    copy, network, fields := CopyNetwork(s.networkConfiguration, c);
    Assemble(out, rest, copy, network);
    RestOf(out, copy, rest);
    out := out.(networkConfiguration := copy);
    WidenRest(out, rest, rest + network);
  }

  // ----- AgentRuntimeStatus -----

  ghost predicate MetadataIn(p: Ref?<ResourceMetadata>, c: Cells)
    reads c
  {
    In(p, c) && (p != null ==>
          && In(p.value.arn, c) && In(p.value.region, c) && In(p.value.partition, c) && In(p.value.ownerAccountID, c))
  }

  ghost function MetadataAt(p: Ref?<ResourceMetadata>, c: Cells): Option<Resource.Metadata>
    requires MetadataIn(p, c)
    reads c
  {
    if p == null then None
    else
      Some(Resource.Metadata(
             At(p.value.arn, c), At(p.value.region, c), At(p.value.partition, c), At(p.value.ownerAccountID, c)))
  }

  lemma WidenMetadata(p: Ref?<ResourceMetadata>, c: Cells, d: Cells)
    requires MetadataIn(p, c) && c <= d
    ensures MetadataIn(p, d) && MetadataAt(p, d) == MetadataAt(p, c)
  {
  }

  method CopyMetadata(p: Ref?<ResourceMetadata>, ghost c: Cells) returns (out: Ref?<ResourceMetadata>, ghost n: Cells)
    requires MetadataIn(p, c)
    ensures MetadataIn(out, n) && fresh(n) && MetadataAt(out, n) == old(MetadataAt(p, c))
  {
    out, n := p, {};
    if p != null {
      var v := p.value;
      var arn, n0 := Copy(v.arn, c);
      v := v.(arn := arn);
      var region, n1 := Copy(v.region, c);
      v := v.(region := region);
      var partition, n2 := Copy(v.partition, c);
      v := v.(partition := partition);
      var owner, n3 := Copy(v.ownerAccountID, c);
      v := v.(ownerAccountID := owner);
      out := new Ref(v);
      n := n0 + n1 + n2 + n3 + {out};
    }
  }

  ghost predicate ConditionIn(p: Ref?<Condition>, c: Cells)
    reads c
  {
    In(p, c) && (p != null ==>
          && In(p.value.message, c) && In(p.value.reason, c) && In(p.value.lastTransitionTime, c))
  }

  ghost function ConditionAt(p: Ref?<Condition>, c: Cells): Option<Resource.Cond>
    requires ConditionIn(p, c)
    reads c
  {
    if p == null then None else Some(Resource.Cond(
             p.value.kind, p.value.status, At(p.value.message, c), At(p.value.reason, c),
             At(p.value.lastTransitionTime, c)))
  }

  lemma WidenCondition(p: Ref?<Condition>, c: Cells, d: Cells)
    requires ConditionIn(p, c) && c <= d
    ensures ConditionIn(p, d) && ConditionAt(p, d) == ConditionAt(p, c)
  {
  }

  method CopyCondition(p: Ref?<Condition>, ghost c: Cells) returns (out: Ref?<Condition>, ghost n: Cells)
    requires ConditionIn(p, c)
    ensures ConditionIn(out, n) && fresh(n) && ConditionAt(out, n) == old(ConditionAt(p, c))
  {
    out, n := p, {};
    if p != null {
      var v := p.value;
      var message, n0 := Copy(v.message, c);
      v := v.(message := message);
      var reason, n1 := Copy(v.reason, c);
      v := v.(reason := reason);
      var time, n2 := Copy(v.lastTransitionTime, c);
      v := v.(lastTransitionTime := time);
      out := new Ref(v);
      n := n0 + n1 + n2 + {out};
    }
  }

  ghost predicate ConditionsIn(a: Slice<Condition>, c: Cells)
    reads c
  {
    a != null ==> a in c && forall i | 0 <= i < a.Length :: ConditionIn(a[i], c)
  }

  ghost function ConditionsAt(a: Slice<Condition>, c: Cells): (r: Option<seq<Option<Resource.Cond>>>)
    requires ConditionsIn(a, c)
    reads c
    ensures a != null ==>
              r.Some? && |r.value| == a.Length && forall i | 0 <= i < a.Length :: r.value[i] == ConditionAt(a[i], c)
  {
    if a == null then None
    else Some(seq(a.Length, i requires 0 <= i < a.Length && ConditionsIn(a, c) reads c => ConditionAt(a[i], c)))
  }

  lemma WidenConditions(a: Slice<Condition>, c: Cells, d: Cells)
    requires ConditionsIn(a, c) && c <= d
    ensures ConditionsIn(a, d) && ConditionsAt(a, d) == ConditionsAt(a, c)
  {
    if a != null {
      forall i | 0 <= i < a.Length {
        WidenCondition(a[i], c, d);
      }
      assert ConditionsAt(a, d).value == ConditionsAt(a, c).value;
    }
  }

  /** The first elements of a copy, and what they stand for. */
  ghost predicate ConditionsDone(done: seq<Ref?<Condition>>, was: seq<Option<Resource.Cond>>, n: Cells)
    reads n
  {
    |done| <= |was| && forall j | 0 <= j < |done| :: ConditionIn(done[j], n) && ConditionAt(done[j], n) == was[j]
  }

  lemma ConditionsStep(done: seq<Ref?<Condition>>, was: seq<Option<Resource.Cond>>, n: Cells, p: Ref?<Condition>,
                       m: Cells)
    requires ConditionsDone(done, was, n) && |done| < |was|
    requires ConditionIn(p, m) && ConditionAt(p, m) == was[|done|]
    ensures ConditionsDone(done + [p], was, n + m)
  {
    hide ConditionIn, ConditionAt;
    forall j | 0 <= j < |done| {
      WidenCondition(done[j], n, n + m);
    }
    WidenCondition(p, m, n + m);
  }

  lemma ConditionsFinished(a: Slice<Condition>, was: seq<Option<Resource.Cond>>, n: Cells)
    requires a != null && ConditionsDone(a[..], was, n) && a.Length == |was|
    ensures ConditionsIn(a, n + {a}) && ConditionsAt(a, n + {a}) == Some(was)
  {
    hide ConditionIn, ConditionAt;
    forall j | 0 <= j < a.Length
      ensures ConditionIn(a[j], n + {a}) && ConditionAt(a[j], n + {a}) == was[j]
    {
      assert a[j] == a[..][j];
      WidenCondition(a[j], n, n + {a});
    }
    assert ConditionsAt(a, n + {a}).value == was;
  }

  method CopyConditions(a: Slice<Condition>, ghost c: Cells) returns (out: Slice<Condition>, ghost n: Cells)
    requires ConditionsIn(a, c)
    ensures ConditionsIn(out, n) && fresh(n) && ConditionsAt(out, n) == old(ConditionsAt(a, c))
  {
    out, n := a, {};
    if a != null {
      ghost var was := ConditionsAt(a, c).value;
      var done: seq<Ref?<Condition>> := [];
      hide ConditionIn, ConditionAt, ConditionsDone;
      assert ConditionsDone(done, was, n);
      for i := 0 to a.Length
        invariant fresh(n) && |done| == i && ConditionsDone(done, was, n)
      {
        var copy, m := CopyCondition(a[i], c);
        ConditionsStep(done, was, n, copy, m);
        done, n := done + [copy], n + m;
      }
      out := new Ref?<Condition>[|done|](i requires 0 <= i < |done| => done[i]);
      assert out[..] == done;
      ConditionsFinished(out, was, n);
      n := n + {out};
    }
  }

  ghost predicate DetailsIn(p: Ref?<WorkloadIdentityDetails>, c: Cells)
    reads c
  {
    In(p, c) && (p != null ==> In(p.value.workloadIdentityARN, c))
  }

  ghost function DetailsAt(p: Ref?<WorkloadIdentityDetails>, c: Cells): Option<Option<string>>
    requires DetailsIn(p, c)
    reads c
  {
    if p == null then None else Some(At(p.value.workloadIdentityARN, c))
  }

  lemma WidenDetails(p: Ref?<WorkloadIdentityDetails>, c: Cells, d: Cells)
    requires DetailsIn(p, c) && c <= d
    ensures DetailsIn(p, d) && DetailsAt(p, d) == DetailsAt(p, c)
  {
  }

  method CopyDetails(p: Ref?<WorkloadIdentityDetails>, ghost c: Cells)
    returns (out: Ref?<WorkloadIdentityDetails>, ghost n: Cells)
    requires DetailsIn(p, c)
    ensures DetailsIn(out, n) && fresh(n) && DetailsAt(out, n) == old(DetailsAt(p, c))
  {
    out, n := p, {};
    if p != null {
      var arn, m := Copy(p.value.workloadIdentityARN, c);
      out := new Ref(WorkloadIdentityDetails(arn));
      n := m + {out};
    }
  }

  ghost predicate StatusIn(s: AgentRuntimeStatus, c: Cells)
    reads c
  {
    && MetadataIn(s.metadata, c)
    && ConditionsIn(s.conditions, c)
    && DetailsIn(s.workloadIdentityDetails, c)
    && In(s.agentRuntimeID, c)
    && In(s.agentRuntimeVersion, c)
    && In(s.createdAt, c)
    && In(s.status, c)
  }

  /** The status, and its conditions list. */
  ghost function StatusAt(s: AgentRuntimeStatus, c: Cells): (Resource.RuntimeStatus, Option<seq<Option<Resource.Cond>>>)
    requires StatusIn(s, c)
    reads c
  {
    (Resource.RuntimeStatus(
       MetadataAt(s.metadata, c), At(s.agentRuntimeID, c), At(s.agentRuntimeVersion, c), At(s.createdAt, c),
       At(s.status, c), DetailsAt(s.workloadIdentityDetails, c)),
     ConditionsAt(s.conditions, c))
  }

  method CopyMetadataToDetails(s: AgentRuntimeStatus, ghost c: Cells) returns (out: AgentRuntimeStatus, ghost n: Cells)
    requires MetadataIn(s.metadata, c) && ConditionsIn(s.conditions, c) && DetailsIn(s.workloadIdentityDetails, c)
    ensures fresh(n)
    ensures out == s.(metadata := out.metadata, conditions := out.conditions,
                      workloadIdentityDetails := out.workloadIdentityDetails)
    ensures MetadataIn(out.metadata, n) && MetadataAt(out.metadata, n) == old(MetadataAt(s.metadata, c))
    ensures ConditionsIn(out.conditions, n) && ConditionsAt(out.conditions, n) == old(ConditionsAt(s.conditions, c))
    ensures DetailsIn(out.workloadIdentityDetails, n)
    ensures DetailsAt(out.workloadIdentityDetails, n) == old(DetailsAt(s.workloadIdentityDetails, c))
  {
    hide MetadataIn, MetadataAt, ConditionsIn, ConditionsAt, DetailsIn, DetailsAt;
    out := s;
    var f0, n0 := CopyMetadata(s.metadata, c);
    out := out.(metadata := f0);
    var f1, n1 := CopyConditions(s.conditions, c);
    out := out.(conditions := f1);
    var f2, n2 := CopyDetails(s.workloadIdentityDetails, c);
    out := out.(workloadIdentityDetails := f2);
    n := n0 + n1 + n2;
    WidenMetadata(f0, n0, n);
    WidenConditions(f1, n1, n);
    WidenDetails(f2, n2, n);
  }

  method CopyScalars(s: AgentRuntimeStatus, ghost c: Cells) returns (out: AgentRuntimeStatus, ghost n: Cells)
    requires In(s.agentRuntimeID, c) && In(s.agentRuntimeVersion, c) && In(s.createdAt, c) && In(s.status, c)
    ensures fresh(n)
    ensures out == s.(agentRuntimeID := out.agentRuntimeID, agentRuntimeVersion := out.agentRuntimeVersion,
                      createdAt := out.createdAt, status := out.status)
    ensures In(out.agentRuntimeID, n) && At(out.agentRuntimeID, n) == old(At(s.agentRuntimeID, c))
    ensures In(out.agentRuntimeVersion, n) && At(out.agentRuntimeVersion, n) == old(At(s.agentRuntimeVersion, c))
    ensures In(out.createdAt, n) && At(out.createdAt, n) == old(At(s.createdAt, c))
    ensures In(out.status, n) && At(out.status, n) == old(At(s.status, c))
  {
    hide In, At;
    out := s;
    var f0, n0 := Copy(s.agentRuntimeID, c);
    out := out.(agentRuntimeID := f0);
    var f1, n1 := Copy(s.agentRuntimeVersion, c);
    out := out.(agentRuntimeVersion := f1);
    var f2, n2 := Copy(s.createdAt, c);
    out := out.(createdAt := f2);
    var f3, n3 := Copy(s.status, c);
    out := out.(status := f3);
    n := n0 + n1 + n2 + n3;
    Widen(f0, n0, n);
    Widen(f1, n1, n);
    Widen(f2, n2, n);
    Widen(f3, n3, n);
  }

  /** AgentRuntimeStatus's DeepCopyInto. */
  method CopyStatus(s: AgentRuntimeStatus, ghost c: Cells) returns (out: AgentRuntimeStatus, ghost n: Cells)
    requires StatusIn(s, c)
    ensures StatusIn(out, n) && fresh(n) && StatusAt(out, n) == old(StatusAt(s, c))
  {
    hide In, At, MetadataIn, MetadataAt, ConditionsIn, ConditionsAt, DetailsIn, DetailsAt;
    ghost var n0, n1;
    out, n0 := CopyMetadataToDetails(s, c);
    out, n1 := CopyScalars(out, c);
    n := n0 + n1;
    WidenMetadata(out.metadata, n0, n);
    WidenConditions(out.conditions, n0, n);
    WidenDetails(out.workloadIdentityDetails, n0, n);
    Widen(out.agentRuntimeID, n1, n);
    Widen(out.agentRuntimeVersion, n1, n);
    Widen(out.createdAt, n1, n);
    Widen(out.status, n1, n);
  }
}
