/** The AgentRuntime differ: newResourceDelta of pkg/resource/agent_runtime/delta.go and
    customPostCompare of hooks.go. */
module Delta {
  import opened Basics
  import opened Api
  import opened Trees
  import opened SpecView
  import Tags

  const SPEC: Path := [Name.Spec]
  const PLATFORM_VERSION: Path := [Name.Spec, Name.PlatformVersion]
  const TAGS: Path := [Name.Spec, Name.Tags]

  /** Path.Contains(subject) of ackcompare: the subject is a dotted prefix of the path. */
  predicate Contains(p: Path, subject: Path) {
    subject <= p
  }

  predicate DifferentAt(ds: seq<Difference>, subject: Path) {
    exists i | 0 <= i < |ds| :: Contains(ds[i].path, subject)
  }

  predicate DifferentExcept(ds: seq<Difference>, subject: Path) {
    exists i | 0 <= i < |ds| :: !Contains(ds[i].path, subject)
  }

  function DropAt(ds: seq<Difference>, subject: Path): (r: seq<Difference>)
    ensures |r| <= |ds|
  {
    if ds == [] then []
    else
      var front := DropAt(ds[..|ds| - 1], subject);
      if Contains(ds[|ds| - 1].path, subject) then front else front + [ds[|ds| - 1]]
  }

  function PostCompare(ds: seq<Difference>, desired: AgentRuntimeSpec): seq<Difference> {
    if desired.platformVersion.Some? then ds else DropAt(ds, PLATFORM_VERSION)
  }

  /** What newResourceDelta reports for two resources, before and after the hook. */
  function SpecDiff(eq: ListEq, a: AgentRuntimeSpec, b: AgentRuntimeSpec): seq<Difference> {
    Diff(eq, SPEC, SpecTree(a), SpecTree(b))
  }

  function ResourceDelta(eq: ListEq, a: AgentRuntimeSpec, b: AgentRuntimeSpec): seq<Difference> {
    PostCompare(SpecDiff(eq, a, b), a)
  }

  // ----- ackcompare.Delta: a Go slice, that is a backing array and a length -----

  class Delta {
    var backing: array<Difference>
    var len: nat
    ghost var differences: seq<Difference>
    ghost var Repr: set<object>

    ghost predicate Valid()
      reads this, Repr
      ensures Valid() ==> this in Repr
    {
      && this in Repr && backing in Repr
      && len <= backing.Length && differences == backing[..len]
    }

    constructor ()
      ensures Valid() && differences == [] && fresh(Repr)
    {
      backing := new Difference[0];
      len := 0;
      differences := [];
      Repr := {this, backing};
    }

    /** append(delta.Differences, d): grows the backing array when it is full. */
    method Add(path: Path, a: Tree, b: Tree)
      requires Valid()
      modifies Repr
      ensures Valid() && fresh(Repr - old(Repr))
      ensures differences == old(differences) + [Difference(path, a, b)]
    {
      if len == backing.Length {
        var bigger := new Difference[2 * len + 1];
        for i := 0 to len
          modifies bigger
          invariant forall j | 0 <= j < i :: bigger[j] == backing[j]
        {
          bigger[i] := backing[i];
        }
        backing := bigger;
        Repr := Repr + {bigger};
      }
      backing[len] := Difference(path, a, b);
      len := len + 1;
      differences := differences + [Difference(path, a, b)];
    }
  }

  // ----- The comparisons newResourceDelta repeats -----

  /** What is reported so far, and then these. */
  function Then(done: seq<Difference>, ds: seq<Difference>): seq<Difference> {
    done + ds
  }

  /** One field of a struct is about to be compared: what is reported so far, then this field,
      then the remaining fields, is what is reported so far and then the struct's fields. */
  lemma Step(eq: ListEq, path: Path, done: seq<Difference>, fa: Fields, fb: Fields) returns (ra: Fields, rb: Fields)
    requires fa.Field? && fb.Field?
    ensures ra == fa.rest && rb == fb.rest
    ensures Then(Then(done, Diff(eq, path + [fa.name], fa.node, fb.node)), DiffFields(eq, path, ra, rb))
         == Then(done, DiffFields(eq, path, fa, fb))
  {
    ra, rb := fa.rest, fb.rest;
    var here := Diff(eq, path + [fa.name], fa.node, fb.node);
    assert done + here + DiffFields(eq, path, ra, rb) == done + (here + DiffFields(eq, path, ra, rb));
  }

  /** Two non-nil structs report what their fields report; no fields report nothing. */
  lemma DiffOfStructs(eq: ListEq, path: Path, a: Tree, b: Tree)
    requires a.Struct? && b.Struct?
    ensures Diff(eq, path, a, b) == DiffFields(eq, path, a.fields, b.fields)
    ensures forall ds :: Then(ds, DiffFields(eq, path, End, End)) == ds
  {
  }

  method CompareString(delta: Delta, path: Path, a: Option<string>, b: Option<string>, ghost eq: ListEq)
    requires delta.Valid()
    modifies delta.Repr
    ensures delta.Valid() && fresh(delta.Repr - old(delta.Repr))
    ensures delta.differences == Then(old(delta.differences), Diff(eq, path, StrNode(a), StrNode(b)))
  {
    if a.Some? != b.Some? {
      delta.Add(path, StrNode(a), StrNode(b));
    } else if a.Some? && b.Some? {
      if a.value != b.value {
        delta.Add(path, StrNode(a), StrNode(b));
      }
    }
  }

  method CompareNumber(delta: Delta, path: Path, a: Option<int64>, b: Option<int64>, ghost eq: ListEq)
    requires delta.Valid()
    modifies delta.Repr
    ensures delta.Valid() && fresh(delta.Repr - old(delta.Repr))
    ensures delta.differences == Then(old(delta.differences), Diff(eq, path, NumNode(a), NumNode(b)))
  {
    if a.Some? != b.Some? {
      delta.Add(path, NumNode(a), NumNode(b));
    } else if a.Some? && b.Some? {
      if a.value != b.value {
        delta.Add(path, NumNode(a), NumNode(b));
      }
    }
  }

  method CompareList(delta: Delta, path: Path, a: StringList, b: StringList, eq: ListEq)
    requires delta.Valid()
    modifies delta.Repr
    ensures delta.Valid() && fresh(delta.Repr - old(delta.Repr))
    ensures delta.differences == Then(old(delta.differences), Diff(eq, path, ListNode(a), ListNode(b)))
  {
    if |Items(a)| != |Items(b)| {
      delta.Add(path, ListNode(a), ListNode(b));
    } else if |Items(a)| > 0 {
      if !eq(Items(a), Items(b)) {
        delta.Add(path, ListNode(a), ListNode(b));
      }
    }
  }

  /** Claims, filesystems and maps: len() first, then an equality on the elements. Whenever
      two values are equal their lengths are, so one test decides. */
  method CompareWhole(delta: Delta, path: Path, a: Value, b: Value, eq: ListEq)
    requires delta.Valid()
    modifies delta.Repr
    ensures delta.Valid() && fresh(delta.Repr - old(delta.Repr))
    ensures delta.differences == Then(old(delta.differences), Diff(eq, path, Leaf(a), Leaf(b)))
  {
    if !ValueEq(eq, a, b) {
      delta.Add(path, Leaf(a), Leaf(b));
    }
  }

  /** Tags are compared as plain string maps. */
  method CompareTags(delta: Delta, path: Path, a: StringMap, b: StringMap, eq: ListEq)
    requires delta.Valid()
    modifies delta.Repr
    ensures delta.Valid() && fresh(delta.Repr - old(delta.Repr))
    ensures delta.differences
         == Then(old(delta.differences), Diff(eq, path, Leaf(TagMap(Tags.Plain(a))), Leaf(TagMap(Tags.Plain(b)))))
  {
    var desiredACKTags, _ := Tags.ConvertToOrderedACKTags(a);
    var latestACKTags, _ := Tags.ConvertToOrderedACKTags(b);
    hide Diff, Then, Tags.Plain;
    CompareWhole(delta, path, TagMap(desiredACKTags.entries), TagMap(latestACKTags.entries), eq);
  }

  method CompareS3(delta: Delta, path: Path, a: Option<S3Location>, b: Option<S3Location>, ghost eq: ListEq)
    requires delta.Valid()
    modifies delta.Repr
    ensures delta.Valid() && fresh(delta.Repr - old(delta.Repr))
    ensures delta.differences == Then(old(delta.differences), Diff(eq, path, S3Node(a), S3Node(b)))
  {
    if a.Some? != b.Some? {
      delta.Add(path, S3Node(a), S3Node(b));
    } else if a.Some? && b.Some? {
      ghost var fa, fb := S3Node(a).fields, S3Node(b).fields;
      DiffOfStructs(eq, path, S3Node(a), S3Node(b));
      hide Diff, DiffFields, LocallyDiffer, Then, StrNode;
      fa, fb := Step(eq, path, delta.differences, fa, fb);
      CompareString(delta, path + [Name.Bucket], a.value.bucket, b.value.bucket, eq);
      fa, fb := Step(eq, path, delta.differences, fa, fb);
      CompareString(delta, path + [Name.Prefix], a.value.prefix, b.value.prefix, eq);
      fa, fb := Step(eq, path, delta.differences, fa, fb);
      CompareString(delta, path + [Name.VersionID], a.value.versionID, b.value.versionID, eq);
    }
  }

  method CompareCode(delta: Delta, path: Path, a: Option<Code>, b: Option<Code>, ghost eq: ListEq)
    requires delta.Valid()
    modifies delta.Repr
    ensures delta.Valid() && fresh(delta.Repr - old(delta.Repr))
    ensures delta.differences == Then(old(delta.differences), Diff(eq, path, CodeNode(a), CodeNode(b)))
  {
    if a.Some? != b.Some? {
      delta.Add(path, CodeNode(a), CodeNode(b));
    } else if a.Some? && b.Some? {
      ghost var fa, fb := CodeNode(a).fields, CodeNode(b).fields;
      DiffOfStructs(eq, path, CodeNode(a), CodeNode(b));
      hide Diff, DiffFields, LocallyDiffer, Then, S3Node;
      fa, fb := Step(eq, path, delta.differences, fa, fb);
      CompareS3(delta, path + [Name.S3], a.value.s3, b.value.s3, eq);
    }
  }

  method CompareCodeConfiguration(delta: Delta, path: Path, a: Option<CodeConfiguration>, b: Option<CodeConfiguration>,
                                  eq: ListEq)
    requires delta.Valid()
    modifies delta.Repr
    ensures delta.Valid() && fresh(delta.Repr - old(delta.Repr))
    ensures delta.differences
         == Then(old(delta.differences), Diff(eq, path, CodeConfigurationNode(a), CodeConfigurationNode(b)))
  {
    if a.Some? != b.Some? {
      delta.Add(path, CodeConfigurationNode(a), CodeConfigurationNode(b));
    } else if a.Some? && b.Some? {
      ghost var fa, fb := CodeConfigurationNode(a).fields, CodeConfigurationNode(b).fields;
      DiffOfStructs(eq, path, CodeConfigurationNode(a), CodeConfigurationNode(b));
      hide Diff, DiffFields, LocallyDiffer, Then, CodeNode, ListNode, StrNode;
      fa, fb := Step(eq, path, delta.differences, fa, fb);
      CompareCode(delta, path + [Name.Code], a.value.code, b.value.code, eq);
      fa, fb := Step(eq, path, delta.differences, fa, fb);
      CompareList(delta, path + [Name.EntryPoint], a.value.entryPoint, b.value.entryPoint, eq);
      fa, fb := Step(eq, path, delta.differences, fa, fb);
      CompareString(delta, path + [Name.Runtime], a.value.runtime, b.value.runtime, eq);
    }
  }

  method CompareContainer(delta: Delta, path: Path, a: Option<ContainerConfiguration>,
                          b: Option<ContainerConfiguration>, ghost eq: ListEq)
    requires delta.Valid()
    modifies delta.Repr
    ensures delta.Valid() && fresh(delta.Repr - old(delta.Repr))
    ensures delta.differences == Then(old(delta.differences), Diff(eq, path, ContainerNode(a), ContainerNode(b)))
  {
    if a.Some? != b.Some? {
      delta.Add(path, ContainerNode(a), ContainerNode(b));
    } else if a.Some? && b.Some? {
      ghost var fa, fb := ContainerNode(a).fields, ContainerNode(b).fields;
      DiffOfStructs(eq, path, ContainerNode(a), ContainerNode(b));
      hide Diff, DiffFields, LocallyDiffer, Then, StrNode;
      fa, fb := Step(eq, path, delta.differences, fa, fb);
      CompareString(delta, path + [Name.ContainerURI], a.value.containerURI, b.value.containerURI, eq);
    }
  }

  method CompareArtifact(delta: Delta, path: Path, a: Option<AgentRuntimeArtifact>, b: Option<AgentRuntimeArtifact>,
                         eq: ListEq)
    requires delta.Valid()
    modifies delta.Repr
    ensures delta.Valid() && fresh(delta.Repr - old(delta.Repr))
    ensures delta.differences == Then(old(delta.differences), Diff(eq, path, ArtifactNode(a), ArtifactNode(b)))
  {
    if a.Some? != b.Some? {
      delta.Add(path, ArtifactNode(a), ArtifactNode(b));
    } else if a.Some? && b.Some? {
      ghost var fa, fb := ArtifactNode(a).fields, ArtifactNode(b).fields;
      DiffOfStructs(eq, path, ArtifactNode(a), ArtifactNode(b));
      hide Diff, DiffFields, LocallyDiffer, Then, CodeConfigurationNode, ContainerNode;
      fa, fb := Step(eq, path, delta.differences, fa, fb);
      CompareCodeConfiguration(delta, path + [Name.CodeConfiguration], a.value.codeConfiguration,
        b.value.codeConfiguration, eq);
      fa, fb := Step(eq, path, delta.differences, fa, fb);
      CompareContainer(delta, path + [Name.ContainerConfiguration], a.value.containerConfiguration,
        b.value.containerConfiguration, eq);
    }
  }

  method CompareFieldsFromClaims(delta: Delta, path: Path, a: CustomJWTAuthorizer, b: CustomJWTAuthorizer, eq: ListEq)
    requires delta.Valid()
    modifies delta.Repr
    ensures delta.Valid() && fresh(delta.Repr - old(delta.Repr))
    ensures delta.differences
         == Then(old(delta.differences), DiffFields(eq, path, FieldsFromClaims(a), FieldsFromClaims(b)))
  {
    ghost var fa, fb := FieldsFromClaims(a), FieldsFromClaims(b);
    DiffOfStructs(eq, path, Struct(fa), Struct(fb));
    hide Diff, DiffFields, LocallyDiffer, Then, StrNode;
    fa, fb := Step(eq, path, delta.differences, fa, fb);
    CompareWhole(delta, path + [Name.CustomClaims], Claims(Items(a.customClaims)), Claims(Items(b.customClaims)), eq);
    fa, fb := Step(eq, path, delta.differences, fa, fb);
    CompareString(delta, path + [Name.DiscoveryURL], a.discoveryURL, b.discoveryURL, eq);
  }

  method CompareJWT(delta: Delta, path: Path, a: Option<CustomJWTAuthorizer>, b: Option<CustomJWTAuthorizer>,
                    eq: ListEq)
    requires delta.Valid()
    modifies delta.Repr
    ensures delta.Valid() && fresh(delta.Repr - old(delta.Repr))
    ensures delta.differences == Then(old(delta.differences), Diff(eq, path, JWTNode(a), JWTNode(b)))
  {
    if a.Some? != b.Some? {
      delta.Add(path, JWTNode(a), JWTNode(b));
    } else if a.Some? && b.Some? {
      ghost var fa, fb := JWTNode(a).fields, JWTNode(b).fields;
      DiffOfStructs(eq, path, JWTNode(a), JWTNode(b));
      hide Diff, DiffFields, LocallyDiffer, Then, ListNode, FieldsFromClaims;
      fa, fb := Step(eq, path, delta.differences, fa, fb);
      CompareList(delta, path + [Name.AllowedAudience], a.value.allowedAudience, b.value.allowedAudience, eq);
      fa, fb := Step(eq, path, delta.differences, fa, fb);
      CompareList(delta, path + [Name.AllowedClients], a.value.allowedClients, b.value.allowedClients, eq);
      fa, fb := Step(eq, path, delta.differences, fa, fb);
      CompareList(delta, path + [Name.AllowedScopes], a.value.allowedScopes, b.value.allowedScopes, eq);
      CompareFieldsFromClaims(delta, path, a.value, b.value, eq);
    }
  }

  method CompareAuthorizer(delta: Delta, path: Path, a: Option<AuthorizerConfiguration>,
                           b: Option<AuthorizerConfiguration>, eq: ListEq)
    requires delta.Valid()
    modifies delta.Repr
    ensures delta.Valid() && fresh(delta.Repr - old(delta.Repr))
    ensures delta.differences == Then(old(delta.differences), Diff(eq, path, AuthorizerNode(a), AuthorizerNode(b)))
  {
    if a.Some? != b.Some? {
      delta.Add(path, AuthorizerNode(a), AuthorizerNode(b));
    } else if a.Some? && b.Some? {
      ghost var fa, fb := AuthorizerNode(a).fields, AuthorizerNode(b).fields;
      DiffOfStructs(eq, path, AuthorizerNode(a), AuthorizerNode(b));
      hide Diff, DiffFields, LocallyDiffer, Then, JWTNode;
      fa, fb := Step(eq, path, delta.differences, fa, fb);
      CompareJWT(delta, path + [Name.CustomJWTAuthorizer], a.value.customJWTAuthorizer,
                 b.value.customJWTAuthorizer, eq);
    }
  }

  method CompareLifecycle(delta: Delta, path: Path, a: Option<LifecycleConfiguration>,
                          b: Option<LifecycleConfiguration>, ghost eq: ListEq)
    requires delta.Valid()
    modifies delta.Repr
    ensures delta.Valid() && fresh(delta.Repr - old(delta.Repr))
    ensures delta.differences == Then(old(delta.differences), Diff(eq, path, LifecycleNode(a), LifecycleNode(b)))
  {
    if a.Some? != b.Some? {
      delta.Add(path, LifecycleNode(a), LifecycleNode(b));
    } else if a.Some? && b.Some? {
      ghost var fa, fb := LifecycleNode(a).fields, LifecycleNode(b).fields;
      DiffOfStructs(eq, path, LifecycleNode(a), LifecycleNode(b));
      hide Diff, DiffFields, LocallyDiffer, Then, NumNode;
      fa, fb := Step(eq, path, delta.differences, fa, fb);
      CompareNumber(delta, path + [Name.IdleRuntimeSessionTimeout], a.value.idleRuntimeSessionTimeout,
        b.value.idleRuntimeSessionTimeout, eq);
      fa, fb := Step(eq, path, delta.differences, fa, fb);
      CompareNumber(delta, path + [Name.MaxLifetime], a.value.maxLifetime, b.value.maxLifetime, eq);
    }
  }

  method CompareVPC(delta: Delta, path: Path, a: Option<VPCConfig>, b: Option<VPCConfig>, eq: ListEq)
    requires delta.Valid()
    modifies delta.Repr
    ensures delta.Valid() && fresh(delta.Repr - old(delta.Repr))
    ensures delta.differences == Then(old(delta.differences), Diff(eq, path, VPCNode(a), VPCNode(b)))
  {
    if a.Some? != b.Some? {
      delta.Add(path, VPCNode(a), VPCNode(b));
    } else if a.Some? && b.Some? {
      ghost var fa, fb := VPCNode(a).fields, VPCNode(b).fields;
      DiffOfStructs(eq, path, VPCNode(a), VPCNode(b));
      hide Diff, DiffFields, LocallyDiffer, Then, ListNode;
      fa, fb := Step(eq, path, delta.differences, fa, fb);
      CompareList(delta, path + [Name.SecurityGroups], a.value.securityGroups, b.value.securityGroups, eq);
      fa, fb := Step(eq, path, delta.differences, fa, fb);
      CompareList(delta, path + [Name.Subnets], a.value.subnets, b.value.subnets, eq);
    }
  }

  method CompareNetwork(delta: Delta, path: Path, a: Option<NetworkConfiguration>, b: Option<NetworkConfiguration>,
                        eq: ListEq)
    requires delta.Valid()
    modifies delta.Repr
    ensures delta.Valid() && fresh(delta.Repr - old(delta.Repr))
    ensures delta.differences == Then(old(delta.differences), Diff(eq, path, NetworkNode(a), NetworkNode(b)))
  {
    if a.Some? != b.Some? {
      delta.Add(path, NetworkNode(a), NetworkNode(b));
    } else if a.Some? && b.Some? {
      ghost var fa, fb := NetworkNode(a).fields, NetworkNode(b).fields;
      DiffOfStructs(eq, path, NetworkNode(a), NetworkNode(b));
      hide Diff, DiffFields, LocallyDiffer, Then, StrNode, VPCNode;
      fa, fb := Step(eq, path, delta.differences, fa, fb);
      CompareString(delta, path + [Name.NetworkMode], a.value.networkMode, b.value.networkMode, eq);
      fa, fb := Step(eq, path, delta.differences, fa, fb);
      CompareVPC(delta, path + [Name.NetworkModeConfig], a.value.networkModeConfig, b.value.networkModeConfig, eq);
    }
  }

  method CompareProtocol(delta: Delta, path: Path, a: Option<ProtocolConfiguration>, b: Option<ProtocolConfiguration>,
                         ghost eq: ListEq)
    requires delta.Valid()
    modifies delta.Repr
    ensures delta.Valid() && fresh(delta.Repr - old(delta.Repr))
    ensures delta.differences == Then(old(delta.differences), Diff(eq, path, ProtocolNode(a), ProtocolNode(b)))
  {
    if a.Some? != b.Some? {
      delta.Add(path, ProtocolNode(a), ProtocolNode(b));
    } else if a.Some? && b.Some? {
      ghost var fa, fb := ProtocolNode(a).fields, ProtocolNode(b).fields;
      DiffOfStructs(eq, path, ProtocolNode(a), ProtocolNode(b));
      hide Diff, DiffFields, LocallyDiffer, Then, StrNode;
      fa, fb := Step(eq, path, delta.differences, fa, fb);
      CompareString(delta, path + [Name.ServerProtocol], a.value.serverProtocol, b.value.serverProtocol, eq);
    }
  }

  method CompareRequestHeader(delta: Delta, path: Path, a: Option<RequestHeaderConfiguration>,
                              b: Option<RequestHeaderConfiguration>, eq: ListEq)
    requires delta.Valid()
    modifies delta.Repr
    ensures delta.Valid() && fresh(delta.Repr - old(delta.Repr))
    ensures delta.differences
         == Then(old(delta.differences), Diff(eq, path, RequestHeaderNode(a), RequestHeaderNode(b)))
  {
    if a.Some? != b.Some? {
      delta.Add(path, RequestHeaderNode(a), RequestHeaderNode(b));
    } else if a.Some? && b.Some? {
      ghost var fa, fb := RequestHeaderNode(a).fields, RequestHeaderNode(b).fields;
      DiffOfStructs(eq, path, RequestHeaderNode(a), RequestHeaderNode(b));
      hide Diff, DiffFields, LocallyDiffer, Then, ListNode;
      fa, fb := Step(eq, path, delta.differences, fa, fb);
      CompareList(delta, path + [Name.RequestHeaderAllowlist], a.value.requestHeaderAllowlist,
        b.value.requestHeaderAllowlist, eq);
    }
  }

  // ----- newResourceDelta -----

  method CompareFieldsFromProtocol(delta: Delta, a: AgentRuntimeSpec, b: AgentRuntimeSpec, eq: ListEq)
    requires delta.Valid()
    modifies delta.Repr
    ensures delta.Valid() && fresh(delta.Repr - old(delta.Repr))
    ensures delta.differences
         == Then(old(delta.differences), DiffFields(eq, SPEC, FieldsFromProtocol(a), FieldsFromProtocol(b)))
  {
    ghost var fa, fb := FieldsFromProtocol(a), FieldsFromProtocol(b);
    DiffOfStructs(eq, SPEC, Struct(fa), Struct(fb));
    hide Diff, DiffFields, LocallyDiffer, Then, ProtocolNode, RequestHeaderNode, StrNode;
    fa, fb := Step(eq, SPEC, delta.differences, fa, fb);
    CompareProtocol(delta, SPEC + [Name.ProtocolConfiguration], a.protocolConfiguration, b.protocolConfiguration, eq);
    fa, fb := Step(eq, SPEC, delta.differences, fa, fb);
    CompareRequestHeader(delta, SPEC + [Name.RequestHeaderConfiguration], a.requestHeaderConfiguration,
      b.requestHeaderConfiguration, eq);
    fa, fb := Step(eq, SPEC, delta.differences, fa, fb);
    CompareString(delta, SPEC + [Name.RoleARN], a.roleARN, b.roleARN, eq);
    fa, fb := Step(eq, SPEC, delta.differences, fa, fb);
    CompareTags(delta, SPEC + [Name.Tags], a.tags, b.tags, eq);
  }

  method CompareFieldsFromFilesystems(delta: Delta, a: AgentRuntimeSpec, b: AgentRuntimeSpec, eq: ListEq)
    requires delta.Valid()
    modifies delta.Repr
    ensures delta.Valid() && fresh(delta.Repr - old(delta.Repr))
    ensures delta.differences
         == Then(old(delta.differences), DiffFields(eq, SPEC, FieldsFromFilesystems(a), FieldsFromFilesystems(b)))
  {
    ghost var fa, fb := FieldsFromFilesystems(a), FieldsFromFilesystems(b);
    hide Diff, DiffFields, LocallyDiffer, Then, LifecycleNode, NetworkNode, StrNode, FieldsFromProtocol;
    fa, fb := Step(eq, SPEC, delta.differences, fa, fb);
    CompareWhole(delta, SPEC + [Name.FilesystemConfigurations], Filesystems(Items(a.filesystemConfigurations)),
      Filesystems(Items(b.filesystemConfigurations)), eq);
    fa, fb := Step(eq, SPEC, delta.differences, fa, fb);
    CompareLifecycle(delta, SPEC + [Name.LifecycleConfiguration], a.lifecycleConfiguration, b.lifecycleConfiguration,
                     eq);
    fa, fb := Step(eq, SPEC, delta.differences, fa, fb);
    CompareNetwork(delta, SPEC + [Name.NetworkConfiguration], a.networkConfiguration, b.networkConfiguration, eq);
    fa, fb := Step(eq, SPEC, delta.differences, fa, fb);
    CompareString(delta, SPEC + [Name.PlatformVersion], a.platformVersion, b.platformVersion, eq);
    CompareFieldsFromProtocol(delta, a, b, eq);
  }

  method CompareSpecFields(delta: Delta, a: AgentRuntimeSpec, b: AgentRuntimeSpec, eq: ListEq)
    requires delta.Valid()
    modifies delta.Repr
    ensures delta.Valid() && fresh(delta.Repr - old(delta.Repr))
    ensures delta.differences == Then(old(delta.differences), DiffFields(eq, SPEC, SpecFields(a), SpecFields(b)))
  {
    ghost var fa, fb := SpecFields(a), SpecFields(b);
    hide Diff, DiffFields, LocallyDiffer, Then, ArtifactNode, StrNode, AuthorizerNode, FieldsFromFilesystems;
    fa, fb := Step(eq, SPEC, delta.differences, fa, fb);
    CompareArtifact(delta, SPEC + [Name.AgentRuntimeArtifact], a.agentRuntimeArtifact, b.agentRuntimeArtifact, eq);
    fa, fb := Step(eq, SPEC, delta.differences, fa, fb);
    CompareString(delta, SPEC + [Name.AgentRuntimeName], a.agentRuntimeName, b.agentRuntimeName, eq);
    fa, fb := Step(eq, SPEC, delta.differences, fa, fb);
    CompareAuthorizer(delta, SPEC + [Name.AuthorizerConfiguration], a.authorizerConfiguration,
      b.authorizerConfiguration, eq);
    fa, fb := Step(eq, SPEC, delta.differences, fa, fb);
    CompareString(delta, SPEC + [Name.Description], a.description, b.description, eq);
    fa, fb := Step(eq, SPEC, delta.differences, fa, fb);
    CompareWhole(delta, SPEC + [Name.EnvironmentVariables], StrMap(Entries(a.environmentVariables)),
      StrMap(Entries(b.environmentVariables)), eq);
    CompareFieldsFromFilesystems(delta, a, b, eq);
  }

  /** kept := delta.Differences[:0] shares the backing array: each kept difference is written
      into the array that is still being read. */
  method CustomPostCompare(delta: Delta, a: AgentRuntimeSpec)
    requires delta.Valid()
    modifies delta.Repr
    ensures delta.Valid() && delta.Repr == old(delta.Repr)
    ensures delta.differences == PostCompare(old(delta.differences), a)
  {
    if a.platformVersion.Some? {
      return;
    }
    ghost var was := delta.differences;
    var kept := 0;
    for i := 0 to delta.len
      invariant kept <= i
      invariant delta.backing == old(delta.backing) && delta.len == old(delta.len) && delta.Repr == old(delta.Repr)
      invariant delta.backing[..kept] == DropAt(was[..i], PLATFORM_VERSION)
      invariant forall j | i <= j < delta.len :: delta.backing[j] == was[j]
    {
      var d := delta.backing[i];
      assert d == was[i] && was[..i + 1][..i] == was[..i];
      if !Contains(d.path, PLATFORM_VERSION) {
        delta.backing[kept] := d;
        kept := kept + 1;
      }
    }
    assert was[..delta.len] == was;
    delta.len := kept;
    delta.differences := delta.backing[..kept];
  }

  /** Compares two resources (None is a nil resource); two nil ones are not compared. */
  method NewResourceDelta(a: Option<AgentRuntimeSpec>, b: Option<AgentRuntimeSpec>, eq: ListEq) returns (delta: Delta)
    requires a.Some? || b.Some?
    ensures delta.Valid() && fresh(delta.Repr)
    ensures a.Some? && b.Some? ==> delta.differences == ResourceDelta(eq, a.value, b.value)
    ensures a.None? ==> delta.differences == [Difference([Name.NoField], Absent, SpecTree(b.value))]
    ensures b.None? ==> delta.differences == [Difference([Name.NoField], SpecTree(a.value), Absent)]
  {
    delta := new Delta();
    if a.None? {
      delta.Add([Name.NoField], Absent, SpecTree(b.value));
    } else if b.None? {
      delta.Add([Name.NoField], SpecTree(a.value), Absent);
    } else {
      DiffOfStructs(eq, SPEC, SpecTree(a.value), SpecTree(b.value));
      hide SpecFields, Diff, DiffFields, DropAt;
      CompareSpecFields(delta, a.value, b.value, eq);
      assert Then([], SpecDiff(eq, a.value, b.value)) == SpecDiff(eq, a.value, b.value);
      CustomPostCompare(delta, a.value);
    }
  }

  // ----- What the delta means -----

  /** Before the hook the delta of two resources is empty exactly when their specs are
      equivalent field by field. */
  lemma DeltaEmptyIff(eq: ListEq, a: AgentRuntimeSpec, b: AgentRuntimeSpec)
    ensures SpecDiff(eq, a, b) == [] <==> SpecEquivalent(eq, a, b)
  {
    SpecTrees(eq, a, b);
    DiffEmptyIff(eq, SPEC, SpecTree(a), SpecTree(b));
  }

  /** Exactly what is reported: a path below Spec that leads, through non-nil structs, to two
      nodes that differ by themselves (one nil, or two unequal values), with those two nodes. */
  lemma DeltaExact(eq: ListEq, a: AgentRuntimeSpec, b: AgentRuntimeSpec, d: Difference)
    ensures d in SpecDiff(eq, a, b)
            <==> && SPEC < d.path
                 && At(SpecTree(a), d.path[1..]) == Some(d.a)
                 && At(SpecTree(b), d.path[1..]) == Some(d.b)
                 && LocallyDiffer(eq, d.a, d.b)
  {
    hide SpecFields, SameShape, DistinctNames, LocallyDiffer, Diff, At, Equivalent, SpecEquivalent;
    SpecTrees(eq, a, b);
    DiffExactBelow(eq, SPEC, SpecTree(a), SpecTree(b), d);
  }

  /** The shape of every delta: no path twice, none inside another, and the swapped
      comparison reports the same paths. */
  lemma DeltaShape(eq: ListEq, a: AgentRuntimeSpec, b: AgentRuntimeSpec)
    requires Equivalence(eq)
    ensures NoRepeats(SpecDiff(eq, a, b))
    ensures forall d, e | d in SpecDiff(eq, a, b) && e in SpecDiff(eq, a, b) :: !(d.path < e.path)
    ensures SpecDiff(eq, b, a) == SwapAll(SpecDiff(eq, a, b))
  {
    SpecTrees(eq, a, b);
    PathsDistinct(eq, SPEC, SpecTree(a), SpecTree(b));
    forall d, e | d in SpecDiff(eq, a, b) && e in SpecDiff(eq, a, b)
      ensures !(d.path < e.path)
    {
      NoPathInsideAnother(eq, SPEC, SpecTree(a), SpecTree(b), d, e);
    }
    DiffSwap(eq, SPEC, SpecTree(a), SpecTree(b));
  }

  /** Having an empty delta is an equivalence relation on specs whenever the list comparison is
      one on lists. */
  lemma EmptyDeltaIsEquivalence(eq: ListEq, a: AgentRuntimeSpec, b: AgentRuntimeSpec, c: AgentRuntimeSpec)
    requires Equivalence(eq)
    ensures SpecDiff(eq, a, a) == []
    ensures SpecDiff(eq, a, b) == [] <==> SpecDiff(eq, b, a) == []
    ensures SpecDiff(eq, a, b) == [] && SpecDiff(eq, b, c) == [] ==> SpecDiff(eq, a, c) == []
  {
    hide SpecDiff, SpecTree, Equivalent, SpecEquivalent;
    EmptyDeltaTree(eq, a, a);
    EquivalentReflexive(eq, SpecTree(a));
    DeltaShape(eq, a, b);
    EmptyDeltaTree(eq, a, b);
    EmptyDeltaTree(eq, b, c);
    EmptyDeltaTree(eq, a, c);
    if SpecDiff(eq, a, b) == [] && SpecDiff(eq, b, c) == [] {
      EquivalentTransitive(eq, SpecTree(a), SpecTree(b), SpecTree(c));
    }
  }

  lemma EmptyDeltaTree(eq: ListEq, a: AgentRuntimeSpec, b: AgentRuntimeSpec)
    ensures SpecDiff(eq, a, b) == [] <==> Equivalent(eq, SpecTree(a), SpecTree(b))
  {
    hide SpecTree, Equivalent, SpecEquivalent;
    DeltaEmptyIff(eq, a, b);
    SpecTrees(eq, a, b);
  }

  // ----- The hook -----

  /** The hook keeps exactly the differences outside the subject. */
  lemma {:induction false} DropAtExact(ds: seq<Difference>, subject: Path, d: Difference)
    ensures d in DropAt(ds, subject) <==> d in ds && !Contains(d.path, subject)
  {
    if ds != [] {
      DropAtExact(ds[..|ds| - 1], subject, d);
      assert ds == ds[..|ds| - 1] + [ds[|ds| - 1]];
    }
  }

  /** Dropping distributes over concatenation. */
  lemma {:induction false} DropAtConcat(ds: seq<Difference>, es: seq<Difference>, subject: Path)
    ensures DropAt(ds + es, subject) == DropAt(ds, subject) + DropAt(es, subject)
  {
    if es == [] {
      assert ds + es == ds;
    } else {
      var all, init, last := ds + es, es[..|es| - 1], es[|es| - 1];
      DropAtConcat(ds, init, subject);
      var kept := if Contains(last.path, subject) then [] else [last];
      assert all[..|all| - 1] == ds + init && all[|all| - 1] == last;
      assert DropAt(all, subject) == DropAt(ds + init, subject) + kept;
      assert DropAt(es, subject) == DropAt(init, subject) + kept;
      hide DropAt, Contains;
    }
  }

  lemma {:induction false} DropAtNothing(ds: seq<Difference>, subject: Path)
    requires !DifferentAt(ds, subject)
    ensures DropAt(ds, subject) == ds
  {
    if ds != [] {
      assert forall i | 0 <= i < |ds| - 1 :: ds[..|ds| - 1][i] == ds[i];
      DropAtNothing(ds[..|ds| - 1], subject);
      assert ds == ds[..|ds| - 1] + [ds[|ds| - 1]];
    }
  }

  /** What the hook guarantees for every delta and every desired spec. */
  lemma PostCompareExact(ds: seq<Difference>, desired: AgentRuntimeSpec)
    ensures desired.platformVersion.None? ==> !DifferentAt(PostCompare(ds, desired), PLATFORM_VERSION)
    ensures desired.platformVersion.Some? ==> PostCompare(ds, desired) == ds
    ensures forall d | d in ds && !Contains(d.path, PLATFORM_VERSION) :: d in PostCompare(ds, desired)
    ensures forall d | d in PostCompare(ds, desired) :: d in ds
    ensures PostCompare(PostCompare(ds, desired), desired) == PostCompare(ds, desired)
  {
    if desired.platformVersion.None? {
      forall d {
        DropAtExact(ds, PLATFORM_VERSION, d);
      }
      var kept := DropAt(ds, PLATFORM_VERSION);
      assert forall i | 0 <= i < |kept| :: kept[i] in kept;
      DropAtNothing(kept, PLATFORM_VERSION);
    }
  }

  /** It keeps them in order: of any two differences it keeps, the earlier one stays before the
      later one, with what it keeps of the rest around them. */
  lemma PostCompareKeepsOrder(before: seq<Difference>, d: Difference, between: seq<Difference>, e: Difference,
                              after: seq<Difference>, desired: AgentRuntimeSpec)
    requires !Contains(d.path, PLATFORM_VERSION) && !Contains(e.path, PLATFORM_VERSION)
    ensures PostCompare(before + ([d] + (between + ([e] + after))), desired)
         == PostCompare(before, desired)
            + ([d] + (PostCompare(between, desired) + ([e] + PostCompare(after, desired))))
  {
    DropAtConcat(before, [d] + (between + ([e] + after)), PLATFORM_VERSION);
    DropAtConcat([d], between + ([e] + after), PLATFORM_VERSION);
    DropAtConcat(between, [e] + after, PLATFORM_VERSION);
    DropAtConcat([e], after, PLATFORM_VERSION);
    DropAtOne(d, PLATFORM_VERSION);
    DropAtOne(e, PLATFORM_VERSION);
    hide DropAt;
  }

  lemma DropAtOne(d: Difference, subject: Path)
    requires !Contains(d.path, subject)
    ensures DropAt([d], subject) == [d]
  {
  }

  /** After the hook: the delta is empty exactly when the specs are equivalent once an unset
      desired platform version is taken to agree with anything. */
  lemma ResourceDeltaEmptyIff(eq: ListEq, a: AgentRuntimeSpec, b: AgentRuntimeSpec)
    ensures ResourceDelta(eq, a, b) == []
            <==> SpecEquivalent(eq, if a.platformVersion.None? then a.(platformVersion := b.platformVersion) else a, b)
  {
    if a.platformVersion.Some? {
      DeltaEmptyIff(eq, a, b);
    } else {
      var c := a.(platformVersion := b.platformVersion);
      DeltaEmptyIff(eq, c, b);
      UnsetVersionOnly(eq, a, b);
      var kept, whole := ResourceDelta(eq, a, b), SpecDiff(eq, c, b);
      assert kept != [] ==> kept[0] in whole;
      assert whole != [] ==> whole[0] in kept;
    }
  }

  /** Where the platform version is, and that nothing else depends on it. */
  lemma VersionAt(s: AgentRuntimeSpec, version: Option<string>, p: Path)
    requires p != []
    ensures p[0] == Name.PlatformVersion ==> At(SpecTree(s), p) == At(StrNode(s.platformVersion), p[1..])
    ensures p[0] != Name.PlatformVersion ==> At(SpecTree(s), p) == At(SpecTree(s.(platformVersion := version)), p)
  {
    var t := s.(platformVersion := version);
    assert FieldsFromProtocol(t) == FieldsFromProtocol(s);
    var f, g := SpecFields(s), SpecFields(t);
    hide At, AtField, FieldsFromProtocol;
    f, g := AtStep(f, g, p);
    f, g := AtStep(f, g, p);
    f, g := AtStep(f, g, p);
    f, g := AtStep(f, g, p);
    f, g := AtStep(f, g, p);
    f, g := AtStep(f, g, p);
    f, g := AtStep(f, g, p);
    f, g := AtStep(f, g, p);
    f, g := AtStep(f, g, p);
  }

  lemma AtStep(f: Fields, g: Fields, p: Path) returns (rf: Fields, rg: Fields)
    requires p != [] && f.Field? && g.Field?
    ensures rf == f.rest && rg == g.rest
    ensures AtField(f, p) == if f.name == p[0] then At(f.node, p[1..]) else AtField(rf, p)
    ensures AtField(g, p) == if g.name == p[0] then At(g.node, p[1..]) else AtField(rg, p)
  {
    rf, rg := f.rest, g.rest;
  }

  /** Below the spec, only the platform version's own difference disappears when the desired
      version is set to the observed one. */
  lemma VersionDiffers(eq: ListEq, a: AgentRuntimeSpec, b: AgentRuntimeSpec, p: Path, x: Tree, y: Tree)
    requires p != []
    ensures var c := SpecTree(a.(platformVersion := b.platformVersion));
            At(c, p) == Some(x) && At(SpecTree(b), p) == Some(y) && LocallyDiffer(eq, x, y)
            <==> && p[0] != Name.PlatformVersion
                 && At(SpecTree(a), p) == Some(x) && At(SpecTree(b), p) == Some(y) && LocallyDiffer(eq, x, y)
  {
    VersionAt(a, b.platformVersion, p);
    VersionAt(b, b.platformVersion, p);
    VersionAt(a.(platformVersion := b.platformVersion), b.platformVersion, p);
    hide SpecTree;
  }

  /** Setting the platform version to the observed one removes that difference and no other. */
  lemma UnsetVersionOnly(eq: ListEq, a: AgentRuntimeSpec, b: AgentRuntimeSpec)
    ensures forall d :: d in DropAt(SpecDiff(eq, a, b), PLATFORM_VERSION)
                   <==> d in SpecDiff(eq, a.(platformVersion := b.platformVersion), b)
  {
    forall d
      ensures d in DropAt(SpecDiff(eq, a, b), PLATFORM_VERSION)
         <==> d in SpecDiff(eq, a.(platformVersion := b.platformVersion), b)
    {
      UnsetVersionAt(eq, a, b, d);
    }
  }

  lemma UnsetVersionAt(eq: ListEq, a: AgentRuntimeSpec, b: AgentRuntimeSpec, d: Difference)
    ensures d in DropAt(SpecDiff(eq, a, b), PLATFORM_VERSION)
       <==> d in SpecDiff(eq, a.(platformVersion := b.platformVersion), b)
  {
    var c := a.(platformVersion := b.platformVersion);
    hide SpecTree, LocallyDiffer, At, DropAt, SpecDiff;
    DropAtExact(SpecDiff(eq, a, b), PLATFORM_VERSION, d);
    DeltaExact(eq, a, b, d);
    DeltaExact(eq, c, b, d);
    if SPEC < d.path {
      VersionDiffers(eq, a, b, d.path[1..], d.a, d.b);
      assert Contains(d.path, PLATFORM_VERSION) <==> d.path[1] == Name.PlatformVersion;
    }
  }
}
