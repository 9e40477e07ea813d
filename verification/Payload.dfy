/** The payload builders and the read of pkg/resource/agent_runtime/sdk.go in the order the
    source works: a request is filled field by field, every union keeps an isInterfaceSet
    flag, and lists are appended to in a loop. Each method is proved equal to Codec's
    function of the same field. */
module Payload {
  import opened Basics
  import opened Errors
  import opened Api
  import opened Codec
  import Wire

  method BuildArtifact(a: AgentRuntimeArtifact) returns (r: Build<Wire.Artifact>)
    ensures r == EncodeArtifact(Some(a))
  {
    var f0 := Wire.NilArtifact;
    var isInterfaceSet := false;
    if a.codeConfiguration.Some? {
      var c := a.codeConfiguration.value;
      var f0f0 := Wire.CodeConfiguration(Wire.NilCode, None, "");
      if c.code.Some? && c.code.value.s3.Some? {
        var s3 := c.code.value.s3.value;
        f0f0 := f0f0.(code := Wire.CodeMemberS3(Wire.S3Location(s3.bucket, s3.prefix, s3.versionID)));
      }
      if c.entryPoint.Some? {
        f0f0 := f0f0.(entryPoint := Some(ToStringSlice(c.entryPoint.value)));
      }
      if c.runtime.Some? {
        f0f0 := f0f0.(runtime := c.runtime.value);
      }
      f0 := Wire.MemberCodeConfiguration(f0f0);
      isInterfaceSet := true;
    }
    if a.containerConfiguration.Some? {
      if isInterfaceSet {
        return Failed(OneMemberOnly("ContainerConfiguration"));
      }
      f0 := Wire.MemberContainerConfiguration(a.containerConfiguration.value.containerURI);
      isInterfaceSet := true;
    }
    return Built(f0);
  }

  method BuildMatchValue(v: ClaimMatchValue) returns (r: Build<Wire.ClaimMatchValue>)
    ensures r == EncodeMatchValue(Some(v))
  {
    var f := Wire.NilMatchValue;
    var isInterfaceSet := false;
    if v.matchValueString.Some? {
      f := Wire.MemberMatchValueString(v.matchValueString.value);
      isInterfaceSet := true;
    }
    if v.matchValueStringList.Some? {
      if isInterfaceSet {
        return Failed(OneMemberOnly("MatchValueStringList"));
      }
      f := Wire.MemberMatchValueStringList(ToStringSlice(v.matchValueStringList.value));
      isInterfaceSet := true;
    }
    return Built(f);
  }

  method BuildClaim(c: CustomClaim) returns (r: Build<Wire.CustomClaim>)
    ensures r == EncodeClaim(Some(c))
  {
    var elem := Wire.CustomClaim(None, None, "");
    if c.authorizingClaimMatchValue.Some? {
      var m := c.authorizingClaimMatchValue.value;
      var elemf0 := Wire.AuthorizingClaimMatchValue("", Wire.NilMatchValue);
      if m.claimMatchOperator.Some? {
        elemf0 := elemf0.(claimMatchOperator := m.claimMatchOperator.value);
      }
      if m.claimMatchValue.Some? {
        var v := BuildMatchValue(m.claimMatchValue.value);
        if !v.Built? {
          return v.PropagateFailure();
        }
        elemf0 := elemf0.(claimMatchValue := v.value);
      }
      elem := elem.(authorizingClaimMatchValue := Some(elemf0));
    }
    if c.inboundTokenClaimName.Some? {
      elem := elem.(inboundTokenClaimName := c.inboundTokenClaimName);
    }
    if c.inboundTokenClaimValueType.Some? {
      elem := elem.(inboundTokenClaimValueType := c.inboundTokenClaimValueType.value);
    }
    return Built(elem);
  }

  method BuildClaims(cs: seq<Option<CustomClaim>>) returns (r: Build<seq<Wire.CustomClaim>>)
    ensures r == EncodeAll(EncodeClaim, cs)
  {
    var f := [];
    for i := 0 to |cs|
      invariant EncodeAll(EncodeClaim, cs[..i]) == Built(f)
    {
      ghost var next := cs[..i + 1];
      assert next[..|next| - 1] == cs[..i];
      if cs[i].None? {
        EncodeAllFaultPersists(EncodeClaim, cs, i);
        return Panicked;
      }
      var elem := BuildClaim(cs[i].value);
      if !elem.Built? {
        EncodeAllFaultPersists(EncodeClaim, cs, i);
        return elem.PropagateFailure();
      }
      f := f + [elem.value];
    }
    assert cs[..|cs|] == cs;
    return Built(f);
  }

  method BuildAuthorizer(a: AuthorizerConfiguration) returns (r: Build<Wire.Authorizer>)
    ensures r == EncodeAuthorizer(Some(a))
  {
    if a.customJWTAuthorizer.None? {
      return Built(Wire.NilAuthorizer);
    }
    var jwt := a.customJWTAuthorizer.value;
    var f := Wire.CustomJWTAuthorizer(None, None, None, None, None);
    if jwt.allowedAudience.Some? {
      f := f.(allowedAudience := Some(ToStringSlice(jwt.allowedAudience.value)));
    }
    if jwt.allowedClients.Some? {
      f := f.(allowedClients := Some(ToStringSlice(jwt.allowedClients.value)));
    }
    if jwt.allowedScopes.Some? {
      f := f.(allowedScopes := Some(ToStringSlice(jwt.allowedScopes.value)));
    }
    if jwt.customClaims.Some? {
      var claims := BuildClaims(jwt.customClaims.value);
      if !claims.Built? {
        return claims.PropagateFailure();
      }
      f := f.(customClaims := Some(claims.value));
    }
    if jwt.discoveryURL.Some? {
      f := f.(discoveryUrl := jwt.discoveryURL);
    }
    return Built(Wire.MemberCustomJWTAuthorizer(f));
  }

  method BuildFilesystems(fs: seq<Option<FilesystemConfiguration>>) returns (r: Build<seq<Wire.Filesystem>>)
    ensures r == EncodeAll(EncodeFilesystem, fs)
  {
    var f := [];
    for i := 0 to |fs|
      invariant EncodeAll(EncodeFilesystem, fs[..i]) == Built(f)
    {
      ghost var next := fs[..i + 1];
      assert next[..|next| - 1] == fs[..i];
      if fs[i].None? {
        EncodeAllFaultPersists(EncodeFilesystem, fs, i);
        return Panicked;
      }
      var elem := Wire.NilFilesystem;
      if fs[i].value.sessionStorage.Some? {
        elem := Wire.MemberSessionStorage(fs[i].value.sessionStorage.value.mountPath);
      }
      f := f + [elem];
    }
    assert fs[..|fs|] == fs;
    return Built(f);
  }

  method BuildLifecycle(l: LifecycleConfiguration) returns (r: Build<Wire.Lifecycle>)
    ensures EncodeLifecycle(Some(l)) == if r.Built? then Built(Some(r.value)) else r.PropagateFailure()
  {
    var f := Wire.Lifecycle(None, None);
    if l.idleRuntimeSessionTimeout.Some? {
      var wide := l.idleRuntimeSessionTimeout.value;
      if wide > MAX_INT32 || wide < MIN_INT32 {
        return Failed(Int32Only("idleRuntimeSessionTimeout"));
      }
      f := f.(idleRuntimeSessionTimeout := Some(wide as int32));
    }
    if l.maxLifetime.Some? {
      var wide := l.maxLifetime.value;
      if wide > MAX_INT32 || wide < MIN_INT32 {
        return Failed(Int32Only("maxLifetime"));
      }
      f := f.(maxLifetime := Some(wide as int32));
    }
    return Built(f);
  }

  method BuildNetwork(n: NetworkConfiguration) returns (f: Wire.Network)
    ensures EncodeNetwork(Some(n)) == Some(f)
  {
    f := Wire.Network("", None);
    if n.networkMode.Some? {
      f := f.(networkMode := n.networkMode.value);
    }
    if n.networkModeConfig.Some? {
      var vpc := n.networkModeConfig.value;
      var f1 := Wire.VpcConfig(None, None);
      if vpc.securityGroups.Some? {
        f1 := f1.(securityGroups := Some(ToStringSlice(vpc.securityGroups.value)));
      }
      if vpc.subnets.Some? {
        f1 := f1.(subnets := Some(ToStringSlice(vpc.subnets.value)));
      }
      f := f.(networkModeConfig := Some(f1));
    }
  }

  // In the source a pointer is copied under a nil check; copying nil unconditionally is the
  // same assignment.
  method NewCreateRequestPayload(s: AgentRuntimeSpec) returns (r: Build<Wire.CreateInput>)
    ensures r == EncodeCreate(s)
  {
    var res := Wire.CreateInput(Wire.NilArtifact, None, Wire.NilAuthorizer, None, None, None, None, None, None,
                                None, Wire.NilRequestHeader, None, None);
    if s.agentRuntimeArtifact.Some? {
      var f := BuildArtifact(s.agentRuntimeArtifact.value);
      if !f.Built? {
        return f.PropagateFailure();
      }
      res := res.(artifact := f.value);
    }
    assert EncodeArtifact(s.agentRuntimeArtifact) == Built(res.artifact);
    res := res.(name := s.agentRuntimeName);
    if s.authorizerConfiguration.Some? {
      var f := BuildAuthorizer(s.authorizerConfiguration.value);
      if !f.Built? {
        return f.PropagateFailure();
      }
      res := res.(authorizer := f.value);
    }
    assert EncodeAuthorizer(s.authorizerConfiguration) == Built(res.authorizer);
    res := res.(description := s.description, environmentVariables := EncodeMap(s.environmentVariables));
    if s.filesystemConfigurations.Some? {
      var f := BuildFilesystems(s.filesystemConfigurations.value);
      if !f.Built? {
        return f.PropagateFailure();
      }
      res := res.(filesystems := Some(f.value));
    }
    assert EncodeFilesystems(s.filesystemConfigurations) == Built(res.filesystems);
    if s.lifecycleConfiguration.Some? {
      var f := BuildLifecycle(s.lifecycleConfiguration.value);
      if !f.Built? {
        return f.PropagateFailure();
      }
      res := res.(lifecycle := Some(f.value));
    }
    assert EncodeLifecycle(s.lifecycleConfiguration) == Built(res.lifecycle);
    if s.networkConfiguration.Some? {
      var f := BuildNetwork(s.networkConfiguration.value);
      res := res.(network := Some(f));
    }
    res := res.(platformVersion := s.platformVersion,
                protocol := EncodeProtocol(s.protocolConfiguration),
                requestHeader := EncodeRequestHeader(s.requestHeaderConfiguration),
                roleArn := s.roleARN, tags := EncodeMap(s.tags));
    return Built(res);
  }

  method NewUpdateRequestPayload(s: AgentRuntimeSpec, agentRuntimeID: Option<string>)
    returns (r: Build<Wire.UpdateInput>)
    ensures r == EncodeUpdate(s, agentRuntimeID)
  {
    var res := Wire.UpdateInput(Wire.NilArtifact, None, Wire.NilAuthorizer, None, None, None, None, None, None,
                                None, Wire.NilRequestHeader, None);
    if s.agentRuntimeArtifact.Some? {
      var f := BuildArtifact(s.agentRuntimeArtifact.value);
      if !f.Built? {
        return f.PropagateFailure();
      }
      res := res.(artifact := f.value);
    }
    assert EncodeArtifact(s.agentRuntimeArtifact) == Built(res.artifact);
    res := res.(id := agentRuntimeID);
    if s.authorizerConfiguration.Some? {
      var f := BuildAuthorizer(s.authorizerConfiguration.value);
      if !f.Built? {
        return f.PropagateFailure();
      }
      res := res.(authorizer := f.value);
    }
    assert EncodeAuthorizer(s.authorizerConfiguration) == Built(res.authorizer);
    res := res.(description := s.description, environmentVariables := EncodeMap(s.environmentVariables));
    if s.filesystemConfigurations.Some? {
      var f := BuildFilesystems(s.filesystemConfigurations.value);
      if !f.Built? {
        return f.PropagateFailure();
      }
      res := res.(filesystems := Some(f.value));
    }
    assert EncodeFilesystems(s.filesystemConfigurations) == Built(res.filesystems);
    if s.lifecycleConfiguration.Some? {
      var f := BuildLifecycle(s.lifecycleConfiguration.value);
      if !f.Built? {
        return f.PropagateFailure();
      }
      res := res.(lifecycle := Some(f.value));
    }
    assert EncodeLifecycle(s.lifecycleConfiguration) == Built(res.lifecycle);
    if s.networkConfiguration.Some? {
      var f := BuildNetwork(s.networkConfiguration.value);
      res := res.(network := Some(f));
    }
    res := res.(platformVersion := s.platformVersion,
                protocol := EncodeProtocol(s.protocolConfiguration),
                requestHeader := EncodeRequestHeader(s.requestHeaderConfiguration),
                roleArn := s.roleARN);
    return Built(res);
  }

  // ----- The read -----

  method ReadMatchValue(w: Wire.ClaimMatchValue) returns (r: Option<ClaimMatchValue>)
    ensures r == DecodeMatchValue(w)
  {
    r := None;
    if !w.NilMatchValue? {
      var f := ClaimMatchValue(None, None);
      match w {
        case MemberMatchValueString(s) => f := f.(matchValueString := Some(s));
        case MemberMatchValueStringList(l) => f := f.(matchValueStringList := Some(StringSlice(l)));
        case _ =>
      }
      r := Some(f);
    }
  }

  method ReadClaims(cs: seq<Wire.CustomClaim>) returns (f: seq<Option<CustomClaim>>)
    ensures Some(f) == DecodeClaims(Some(cs))
  {
    f := [];
    for i := 0 to |cs|
      invariant |f| == i
      invariant forall j | 0 <= j < i :: f[j] == DecodeClaim(cs[j])
    {
      var elem := CustomClaim(None, None, None);
      if cs[i].authorizingClaimMatchValue.Some? {
        var m := cs[i].authorizingClaimMatchValue.value;
        var elemf0 := AuthorizingClaimMatchValue(None, None);
        if m.claimMatchOperator != "" {
          elemf0 := elemf0.(claimMatchOperator := Some(m.claimMatchOperator));
        }
        var v := ReadMatchValue(m.claimMatchValue);
        elemf0 := elemf0.(claimMatchValue := v);
        elem := elem.(authorizingClaimMatchValue := Some(elemf0));
      }
      if cs[i].inboundTokenClaimName.Some? {
        elem := elem.(inboundTokenClaimName := cs[i].inboundTokenClaimName);
      }
      if cs[i].inboundTokenClaimValueType != "" {
        elem := elem.(inboundTokenClaimValueType := Some(cs[i].inboundTokenClaimValueType));
      }
      f := f + [Some(elem)];
    }
    assert f == DecodeClaims(Some(cs)).value;
  }

  method ReadAuthorizer(a: Wire.Authorizer) returns (r: Option<AuthorizerConfiguration>)
    ensures r == DecodeAuthorizer(a)
  {
    r := None;
    if !a.NilAuthorizer? {
      var f := AuthorizerConfiguration(None);
      if a.MemberCustomJWTAuthorizer? {
        var jwt := CustomJWTAuthorizer(None, None, None, None, None);
        if a.jwt.allowedAudience.Some? {
          jwt := jwt.(allowedAudience := Some(StringSlice(a.jwt.allowedAudience.value)));
        }
        if a.jwt.allowedClients.Some? {
          jwt := jwt.(allowedClients := Some(StringSlice(a.jwt.allowedClients.value)));
        }
        if a.jwt.allowedScopes.Some? {
          jwt := jwt.(allowedScopes := Some(StringSlice(a.jwt.allowedScopes.value)));
        }
        if a.jwt.customClaims.Some? {
          var claims := ReadClaims(a.jwt.customClaims.value);
          jwt := jwt.(customClaims := Some(claims));
        }
        if a.jwt.discoveryUrl.Some? {
          jwt := jwt.(discoveryURL := a.jwt.discoveryUrl);
        }
        f := AuthorizerConfiguration(Some(jwt));
      }
      r := Some(f);
    }
  }

  method ReadFilesystems(fs: seq<Wire.Filesystem>) returns (f: seq<Option<FilesystemConfiguration>>)
    ensures Some(f) == DecodeFilesystems(Some(fs))
  {
    f := [];
    for i := 0 to |fs|
      invariant |f| == i
      invariant forall j | 0 <= j < i :: f[j] == DecodeFilesystem(fs[j])
    {
      var elem := FilesystemConfiguration(None);
      if fs[i].MemberSessionStorage? {
        elem := elem.(sessionStorage := Some(SessionStorage(fs[i].mountPath)));
      }
      f := f + [Some(elem)];
    }
    assert f == DecodeFilesystems(Some(fs)).value;
  }

  /** The spec half of sdkFind: overwrites, on a copy of the resource's spec, every field the
      answer carries; an absent field becomes nil. */
  method ReadSpec(resp: Wire.GetOutput, spec: AgentRuntimeSpec) returns (ko: AgentRuntimeSpec)
    ensures ko == DecodeSpec(resp, spec)
  {
    ko := spec;
    var artifact: Option<AgentRuntimeArtifact> := None;
    if !resp.artifact.NilArtifact? {
      var f1 := AgentRuntimeArtifact(None, None);
      match resp.artifact {
        case MemberCodeConfiguration(c) =>
          var code: Option<Code> := None;
          if !c.code.NilCode? {
            code := Some(Code(if c.code.CodeMemberS3? then
                                Some(S3Location(c.code.s3.bucket, c.code.s3.prefix, c.code.s3.versionId))
                              else None));
          }
          f1 := f1.(codeConfiguration := Some(CodeConfiguration(code, DecodeList(c.entryPoint), NonEmpty(c.runtime))));
        case MemberContainerConfiguration(uri) =>
          f1 := f1.(containerConfiguration := Some(ContainerConfiguration(uri)));
        case _ =>
      }
      artifact := Some(f1);
    }
    ko := ko.(agentRuntimeArtifact := artifact, agentRuntimeName := resp.name);
    var authorizer := ReadAuthorizer(resp.authorizer);
    ko := ko.(authorizerConfiguration := authorizer, description := resp.description,
              environmentVariables := DecodeMap(resp.environmentVariables));
    if resp.filesystems.Some? {
      var f10 := ReadFilesystems(resp.filesystems.value);
      ko := ko.(filesystemConfigurations := Some(f10));
    } else {
      ko := ko.(filesystemConfigurations := None);
    }
    if resp.lifecycle.Some? {
      var f12 := LifecycleConfiguration(None, None);
      if resp.lifecycle.value.idleRuntimeSessionTimeout.Some? {
        f12 := f12.(idleRuntimeSessionTimeout := Some(resp.lifecycle.value.idleRuntimeSessionTimeout.value as int64));
      }
      if resp.lifecycle.value.maxLifetime.Some? {
        f12 := f12.(maxLifetime := Some(resp.lifecycle.value.maxLifetime.value as int64));
      }
      ko := ko.(lifecycleConfiguration := Some(f12));
    } else {
      ko := ko.(lifecycleConfiguration := None);
    }
    ko := ko.(networkConfiguration := DecodeNetwork(resp.network), platformVersion := resp.platformVersion,
              protocolConfiguration := DecodeProtocol(resp.protocol),
              requestHeaderConfiguration := DecodeRequestHeader(resp.requestHeader), roleARN := resp.roleArn);
  }
}
