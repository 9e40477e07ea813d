/** What a read overwrites decides what a delta can name. sdkFind of
    pkg/resource/agent_runtime/sdk.go rebuilds every field of the spec but the tags, which it
    copies from the very resource it is compared with. */
module ReadOverwrite {
  import opened Basics
  import opened Errors
  import opened Api
  import opened Trees
  import opened SpecView
  import opened Delta
  import opened LateInit
  import opened Quiescence
  import Codec
  import Tags
  import Wire

  const REBUILT: set<Name> := {
    Name.AgentRuntimeArtifact, Name.AgentRuntimeName, Name.AuthorizerConfiguration, Name.Description,
    Name.EnvironmentVariables, Name.FilesystemConfigurations, Name.LifecycleConfiguration,
    Name.NetworkConfiguration, Name.PlatformVersion, Name.ProtocolConfiguration,
    Name.RequestHeaderConfiguration, Name.RoleARN}

  /** Where the tags are, and that every other path below the spec starts at a rebuilt field. */
  lemma TagsAt(s: AgentRuntimeSpec, p: Path)
    requires p != []
    ensures p[0] == Name.Tags ==> At(SpecTree(s), p) == At(Leaf(TagMap(Tags.Plain(s.tags))), p[1..])
    ensures At(SpecTree(s), p).Some? ==> p[0] == Name.Tags || p[0] in REBUILT
  {
    var f, g := SpecFields(s), SpecFields(s);
    assert AtField(End, p) == None;
    hide At, AtField;
    f, g := AtStep(f, g, p);
    f, g := AtStep(f, g, p);
    f, g := AtStep(f, g, p);
    f, g := AtStep(f, g, p);
    f, g := AtStep(f, g, p);
    f, g := AtStep(f, g, p);
    f, g := AtStep(f, g, p);
    f, g := AtStep(f, g, p);
    f, g := AtStep(f, g, p);
    f, g := AtStep(f, g, p);
    f, g := AtStep(f, g, p);
    f, g := AtStep(f, g, p);
    f, g := AtStep(f, g, p);
  }

  /** Every difference of two specs with the same tags lies at a rebuilt field. */
  lemma RebuiltDifference(eq: ListEq, a: AgentRuntimeSpec, b: AgentRuntimeSpec, d: Difference)
    requires Tags.Plain(a.tags) == Tags.Plain(b.tags) && d in SpecDiff(eq, a, b)
    ensures SPEC < d.path && d.path[1] in REBUILT
  {
    hide SpecDiff, SpecTree, Tags.Plain;
    DeltaExact(eq, a, b, d);
    TagsAt(a, d.path[1..]);
    TagsAt(b, d.path[1..]);
  }

  lemma KeptRebuilt(eq: ListEq, a: AgentRuntimeSpec, b: AgentRuntimeSpec)
    requires Tags.Plain(a.tags) == Tags.Plain(b.tags)
    ensures forall d | d in ResourceDelta(eq, a, b) :: SPEC < d.path && d.path[1] in REBUILT
    ensures !DifferentAt(ResourceDelta(eq, a, b), TAGS)
  {
    PostCompareExact(SpecDiff(eq, a, b), a);
    var delta := ResourceDelta(eq, a, b);
    hide SpecDiff, PostCompare, Tags.Plain;
    forall d | d in delta
      ensures SPEC < d.path && d.path[1] in REBUILT
    {
      RebuiltDifference(eq, a, b, d);
    }
    assert forall i | 0 <= i < |delta| :: delta[i] in delta;
  }

  /** Every difference between a declared resource and its own read lies at a field the read
      rebuilds; none is about the tags, so no tag change ever reaches syncTags. */
  lemma OnlyRebuiltFields(eq: ListEq, declared: AgentRuntimeSpec, answer: Wire.GetOutput)
    ensures var delta := NextDelta(eq, declared, answer);
            && (forall d | d in delta :: SPEC < d.path && d.path[1] in REBUILT)
            && !DifferentAt(delta, TAGS)
  {
    var latest := Codec.DecodeSpec(answer, declared);
    assert latest.tags == declared.tags;
    var desired := declared.(tags := Tags.Mirrored(declared.tags, latest.tags));
    Tags.MirrorOwn(declared.tags);
    hide ResourceDelta, Codec.DecodeSpec, Tags.Mirrored, Tags.Plain;
    KeptRebuilt(eq, desired, latest);
  }

  lemma TagsIgnoredFromProtocol(eq: ListEq, a: AgentRuntimeSpec, b: AgentRuntimeSpec, t: StringMap, u: StringMap)
    requires Tags.Plain(a.tags) == Tags.Plain(b.tags) && Tags.Plain(t) == Tags.Plain(u)
    ensures DiffFields(eq, SPEC, FieldsFromProtocol(a), FieldsFromProtocol(b))
         == DiffFields(eq, SPEC, FieldsFromProtocol(a.(tags := t)), FieldsFromProtocol(b.(tags := u)))
  {
    var x, y := Leaf(TagMap(Tags.Plain(a.tags))), Leaf(TagMap(Tags.Plain(t)));
    assert DiffFields(eq, SPEC, Field(Name.Tags, x, End), Field(Name.Tags, x, End)) == [];
    assert DiffFields(eq, SPEC, Field(Name.Tags, y, End), Field(Name.Tags, y, End)) == [];
    var f, g := FieldsFromProtocol(a), FieldsFromProtocol(b);
    var h, k := FieldsFromProtocol(a.(tags := t)), FieldsFromProtocol(b.(tags := u));
    hide Diff, DiffFields, Tags.Plain, ProtocolNode, RequestHeaderNode, StrNode;
    f, g, h, k := Peel(eq, f, g, h, k);
    f, g, h, k := Peel(eq, f, g, h, k);
    f, g, h, k := Peel(eq, f, g, h, k);
  }

  lemma TagsIgnoredFromFilesystems(eq: ListEq, a: AgentRuntimeSpec, b: AgentRuntimeSpec, t: StringMap, u: StringMap)
    requires Tags.Plain(a.tags) == Tags.Plain(b.tags) && Tags.Plain(t) == Tags.Plain(u)
    ensures DiffFields(eq, SPEC, FieldsFromFilesystems(a), FieldsFromFilesystems(b))
         == DiffFields(eq, SPEC, FieldsFromFilesystems(a.(tags := t)), FieldsFromFilesystems(b.(tags := u)))
  {
    TagsIgnoredFromProtocol(eq, a, b, t, u);
    var f, g := FieldsFromFilesystems(a), FieldsFromFilesystems(b);
    var h, k := FieldsFromFilesystems(a.(tags := t)), FieldsFromFilesystems(b.(tags := u));
    hide Diff, DiffFields, LifecycleNode, NetworkNode, StrNode, FieldsFromProtocol;
    f, g, h, k := Peel(eq, f, g, h, k);
    f, g, h, k := Peel(eq, f, g, h, k);
    f, g, h, k := Peel(eq, f, g, h, k);
    f, g, h, k := Peel(eq, f, g, h, k);
  }

  /** Two pairs of specs that differ in their tags alone, each pair agreeing on its own tags,
      compare alike. */
  lemma TagsIgnored(eq: ListEq, a: AgentRuntimeSpec, b: AgentRuntimeSpec, t: StringMap, u: StringMap)
    requires Tags.Plain(a.tags) == Tags.Plain(b.tags) && Tags.Plain(t) == Tags.Plain(u)
    ensures SpecDiff(eq, a, b) == SpecDiff(eq, a.(tags := t), b.(tags := u))
  {
    hide Diff, DiffFields, Tags.Plain, ArtifactNode, StrNode, AuthorizerNode, FieldsFromFilesystems;
    var f, g, h, k := SpecFields(a), SpecFields(b), SpecFields(a.(tags := t)), SpecFields(b.(tags := u));
    DiffOfStructs(eq, SPEC, Struct(f), Struct(g));
    DiffOfStructs(eq, SPEC, Struct(h), Struct(k));
    TagsIgnoredFromFilesystems(eq, a, b, t, u);
    f, g, h, k := Peel(eq, f, g, h, k);
    f, g, h, k := Peel(eq, f, g, h, k);
    f, g, h, k := Peel(eq, f, g, h, k);
    f, g, h, k := Peel(eq, f, g, h, k);
    f, g, h, k := Peel(eq, f, g, h, k);
  }

  lemma Peel(eq: ListEq, f: Fields, g: Fields, h: Fields, k: Fields)
    returns (rf: Fields, rg: Fields, rh: Fields, rk: Fields)
    requires f.Field? && g.Field? && h.Field? && k.Field?
    requires f.name == h.name && f.node == h.node && g.node == k.node
    ensures rf == f.rest && rg == g.rest && rh == h.rest && rk == k.rest
    ensures DiffFields(eq, SPEC, rf, rg) == DiffFields(eq, SPEC, rh, rk)
            ==> DiffFields(eq, SPEC, f, g) == DiffFields(eq, SPEC, h, k)
  {
    rf, rg, rh, rk := f.rest, g.rest, h.rest, k.rest;
  }

  /** So whatever tags are declared, the delta is the same: a tag change on an AgentRuntime is
      never noticed. */
  lemma TagChangesUnseen(eq: ListEq, declared: AgentRuntimeSpec, tags: StringMap, answer: Wire.GetOutput)
    ensures NextDelta(eq, declared.(tags := tags), answer) == NextDelta(eq, declared, answer)
  {
    var other := declared.(tags := tags);
    var a, b := declared.(tags := Tags.Mirrored(declared.tags, declared.tags)), Codec.DecodeSpec(answer, declared);
    assert Codec.DecodeSpec(answer, other) == b.(tags := tags);
    Tags.MirrorOwn(declared.tags);
    Tags.MirrorOwn(tags);
    hide SpecDiff, Codec.DecodeSpec, Tags.Mirrored, Tags.Plain;
    TagsIgnored(eq, a, b, Tags.Mirrored(tags, tags), tags);
  }

  // ----- A changed name -----

  const NAME: Path := [Name.Spec, Name.AgentRuntimeName]

  /** Where the name is, and that nothing else depends on it. */
  lemma NameAt(s: AgentRuntimeSpec, name: Option<string>, p: Path)
    requires p != []
    ensures p[0] == Name.AgentRuntimeName ==> At(SpecTree(s), p) == At(StrNode(s.agentRuntimeName), p[1..])
    ensures p[0] != Name.AgentRuntimeName ==> At(SpecTree(s), p) == At(SpecTree(s.(agentRuntimeName := name)), p)
  {
    var t := s.(agentRuntimeName := name);
    assert FieldsFromFilesystems(t) == FieldsFromFilesystems(s);
    var f, g := SpecFields(s), SpecFields(t);
    hide At, AtField, FieldsFromFilesystems;
    f, g := AtStep(f, g, p);
    f, g := AtStep(f, g, p);
    f, g := AtStep(f, g, p);
    f, g := AtStep(f, g, p);
    f, g := AtStep(f, g, p);
  }

  /** What a spec with another name differs in besides, it differs in with the right name too. */
  lemma BesidesName(eq: ListEq, a: AgentRuntimeSpec, b: AgentRuntimeSpec, d: Difference)
    requires d in ResourceDelta(eq, a, b) && d.path != NAME
    ensures d in ResourceDelta(eq, a.(agentRuntimeName := b.agentRuntimeName), b)
  {
    var g := a.(agentRuntimeName := b.agentRuntimeName);
    DropAtExact(SpecDiff(eq, a, b), PLATFORM_VERSION, d);
    DropAtExact(SpecDiff(eq, g, b), PLATFORM_VERSION, d);
    hide SpecDiff, SpecTree, At, DropAt;
    DeltaExact(eq, a, b, d);
    DeltaExact(eq, g, b, d);
    var p := d.path[1..];
    NameAt(a, b.agentRuntimeName, p);
    assert d.path == SPEC + ([p[0]] + p[1..]);
    StringAt(a.agentRuntimeName, p[1..]);
  }

  lemma StringAt(v: Option<string>, p: Path)
    ensures At(StrNode(v), p) == if p == [] then Some(StrNode(v)) else None
  {
  }

  /** After an applied update of a settled spec that names the runtime otherwise than the service:
      the name is all that still differs. */
  lemma RenamedDelta(eq: ListEq, s: AgentRuntimeSpec, id: Option<string>, name: Option<string>, u: Wire.UpdateInput,
                     r: Wire.GetOutput)
    requires Equivalence(eq) && Settled(eq, s) && s.agentRuntimeName != name
    requires Codec.EncodeUpdate(s, id) == Built(u) && ServesUpdate(u, name, r)
    ensures var delta := NextDelta(eq, FirstStored(s, r), r);
            delta != [] && forall d | d in delta :: d.path == NAME
  {
    RenamedInput(eq, s, id, name, u, r);
    RenamedUpdate(eq, s, id, name);
    var renamed := s.(agentRuntimeName := name);
    UpdateSettlesIff(eq, renamed, id, name, u, r);
    RenamedStored(s, name, r);
    var f, g := FirstStored(s, r), FirstStored(renamed, r);
    var latest := Codec.DecodeSpec(r, f);
    hide Settled, Codec.EncodeUpdate, ServesUpdate, FirstStored, Codec.DecodeSpec, ResourceDelta, Tags.Mirrored;
    forall d | d in NextDelta(eq, f, r)
      ensures d.path == NAME
    {
      if d.path != NAME {
        BesidesName(eq, f.(tags := Tags.Mirrored(f.tags, latest.tags)), latest, d);
      }
    }
  }

  // ----- What late initialisation leaves to differ -----

  const IDLE: Path := [Name.LifecycleConfiguration, Name.IdleRuntimeSessionTimeout]
  const MAX_LIFETIME: Path := [Name.LifecycleConfiguration, Name.MaxLifetime]
  const SERVER_PROTOCOL: Path := [Name.ProtocolConfiguration, Name.ServerProtocol]

  /** Where the structs of the late-initialised fields are. */
  lemma LifecycleAt(s: AgentRuntimeSpec, p: Path)
    requires p != [] && p[0] == Name.LifecycleConfiguration
    ensures At(SpecTree(s), p) == At(LifecycleNode(s.lifecycleConfiguration), p[1..])
  {
    var f, g := SpecFields(s), SpecFields(s);
    assert At(SpecTree(s), p) == AtField(f, p);
    hide At, AtField, LifecycleNode;
    f, g := AtStep(f, g, p);
    f, g := AtStep(f, g, p);
    f, g := AtStep(f, g, p);
    f, g := AtStep(f, g, p);
    f, g := AtStep(f, g, p);
    f, g := AtStep(f, g, p);
    f, g := AtStep(f, g, p);
  }

  lemma ProtocolAt(s: AgentRuntimeSpec, p: Path)
    requires p != [] && p[0] == Name.ProtocolConfiguration
    ensures At(SpecTree(s), p) == At(ProtocolNode(s.protocolConfiguration), p[1..])
  {
    var f, g := SpecFields(s), SpecFields(s);
    assert At(SpecTree(s), p) == AtField(f, p);
    hide At, AtField, ProtocolNode;
    f, g := AtStep(f, g, p);
    f, g := AtStep(f, g, p);
    f, g := AtStep(f, g, p);
    f, g := AtStep(f, g, p);
    f, g := AtStep(f, g, p);
    f, g := AtStep(f, g, p);
    f, g := AtStep(f, g, p);
    f, g := AtStep(f, g, p);
    f, g := AtStep(f, g, p);
    f, g := AtStep(f, g, p);
  }

  lemma OfField(f: Fields, name: Name)
    requires f.Field?
    ensures At(Struct(f), [name]) == AtField(f, [name])
    ensures AtField(f, [name]) == if f.name == name then Some(f.node) else AtField(f.rest, [name])
  {
  }

  lemma LifecycleNodes(s: AgentRuntimeSpec)
    ensures var some := s.lifecycleConfiguration.Some?;
            && At(SpecTree(s), IDLE) == (if some then Some(NumNode(IdleOf(s))) else None)
            && At(SpecTree(s), MAX_LIFETIME) == (if some then Some(NumNode(MaxLifetimeOf(s))) else None)
  {
    LifecycleAt(s, IDLE);
    LifecycleAt(s, MAX_LIFETIME);
    assert IDLE[1..] == [Name.IdleRuntimeSessionTimeout] && MAX_LIFETIME[1..] == [Name.MaxLifetime];
    var t := LifecycleNode(s.lifecycleConfiguration);
    if t.Struct? {
      OfField(t.fields, Name.IdleRuntimeSessionTimeout);
      OfField(t.fields, Name.MaxLifetime);
      OfField(t.fields.rest, Name.MaxLifetime);
    }
    hide SpecTree, NumNode, AtField;
  }

  lemma ProtocolNodes(s: AgentRuntimeSpec)
    ensures At(SpecTree(s), SERVER_PROTOCOL)
         == if s.protocolConfiguration.Some? then Some(StrNode(ServerProtocolOf(s))) else None
  {
    ProtocolAt(s, SERVER_PROTOCOL);
    assert SERVER_PROTOCOL[1..] == [Name.ServerProtocol];
    var t := ProtocolNode(s.protocolConfiguration);
    if t.Struct? {
      OfField(t.fields, Name.ServerProtocol);
    }
    hide SpecTree, StrNode, AtField;
  }

  /** At the end of a path, or where it ends in a nil struct: a difference is reported there exactly
      when both sides have a node and the two differ. */
  lemma DifferentAtEnd(eq: ListEq, a: AgentRuntimeSpec, b: AgentRuntimeSpec, p: Path)
    requires p != [] && (At(SpecTree(a), p).None? || !At(SpecTree(a), p).value.Struct?)
    ensures DifferentAt(SpecDiff(eq, a, b), SPEC + p)
            <==> && At(SpecTree(a), p).Some? && At(SpecTree(b), p).Some?
                 && LocallyDiffer(eq, At(SpecTree(a), p).value, At(SpecTree(b), p).value)
  {
    var ds := SpecDiff(eq, a, b);
    hide SpecDiff, SpecTree, LocallyDiffer;
    if At(SpecTree(a), p).Some? && At(SpecTree(b), p).Some? {
      var d := Difference(SPEC + p, At(SpecTree(a), p).value, At(SpecTree(b), p).value);
      DeltaExact(eq, a, b, d);
      assert d.path[1..] == p;
      assert d in ds ==> Contains(d.path, SPEC + p);
    }
    forall i | 0 <= i < |ds| && Contains(ds[i].path, SPEC + p)
      ensures ds[i].path == SPEC + p && ds[i].path[1..] == p
    {
      DeltaExact(eq, a, b, ds[i]);
      var q := ds[i].path[1 + |p|..];
      assert ds[i].path[1..] == p + q;
      if q != [] {
        AtBelow(SpecTree(a), p, q);
      }
    }
    forall i | 0 <= i < |ds| && Contains(ds[i].path, SPEC + p) {
      DeltaExact(eq, a, b, ds[i]);
    }
  }

  lemma NodesDiffer(eq: ListEq, m: Option<int64>, n: Option<int64>, v: Option<string>, w: Option<string>)
    ensures LocallyDiffer(eq, NumNode(m), NumNode(n)) <==> m != n
    ensures LocallyDiffer(eq, StrNode(v), StrNode(w)) <==> v != w
  {
  }

  lemma DifferentNumber(eq: ListEq, a: AgentRuntimeSpec, b: AgentRuntimeSpec, p: Path, m: Option<int64>,
                        n: Option<int64>)
    requires p != [] && At(SpecTree(a), p) in [None, Some(NumNode(m))] && At(SpecTree(b), p) in [None, Some(NumNode(n))]
    ensures DifferentAt(SpecDiff(eq, a, b), SPEC + p)
            <==> At(SpecTree(a), p).Some? && At(SpecTree(b), p).Some? && m != n
  {
    NodesDiffer(eq, m, n, None, None);
    assert !NumNode(m).Struct?;
    hide SpecDiff, SpecTree, At, NumNode, LocallyDiffer, DifferentAt;
    DifferentAtEnd(eq, a, b, p);
  }

  lemma DifferentString(eq: ListEq, a: AgentRuntimeSpec, b: AgentRuntimeSpec, p: Path, v: Option<string>,
                        w: Option<string>)
    requires p != [] && At(SpecTree(a), p) in [None, Some(StrNode(v))] && At(SpecTree(b), p) in [None, Some(StrNode(w))]
    ensures DifferentAt(SpecDiff(eq, a, b), SPEC + p)
            <==> At(SpecTree(a), p).Some? && At(SpecTree(b), p).Some? && v != w
  {
    NodesDiffer(eq, None, None, v, w);
    assert !StrNode(v).Struct?;
    hide SpecDiff, SpecTree, At, StrNode, LocallyDiffer, DifferentAt;
    DifferentAtEnd(eq, a, b, p);
  }

  lemma VersionNode(s: AgentRuntimeSpec)
    ensures At(SpecTree(s), [Name.PlatformVersion]) == Some(StrNode(s.platformVersion))
  {
    VersionAt(s, None, [Name.PlatformVersion]);
    hide SpecTree, StrNode;
    assert [Name.PlatformVersion][1..] == [];
  }

  /** Whatever was observed and whatever the user set: after late initialisation one of the four
      fields differs from the observed resource exactly where the user set a value and the service
      reports another, or no struct to hold one. What the user left unset and the service supplied
      never differs. */
  lemma LateInitDelta(eq: ListEq, observed: AgentRuntimeSpec, latest: AgentRuntimeSpec)
    ensures var delta := SpecDiff(eq, LateInitialized(observed, latest), observed);
            && (DifferentAt(delta, SPEC + IDLE)
                <==> && observed.lifecycleConfiguration.Some?
                     && IdleOf(latest).Some? && IdleOf(latest) != IdleOf(observed))
            && (DifferentAt(delta, SPEC + MAX_LIFETIME)
                <==> && observed.lifecycleConfiguration.Some?
                     && MaxLifetimeOf(latest).Some? && MaxLifetimeOf(latest) != MaxLifetimeOf(observed))
            && (DifferentAt(delta, SPEC + SERVER_PROTOCOL)
                <==> && observed.protocolConfiguration.Some?
                     && ServerProtocolOf(latest).Some? && ServerProtocolOf(latest) != ServerProtocolOf(observed))
            && (DifferentAt(delta, PLATFORM_VERSION)
                <==> latest.platformVersion.Some? && latest.platformVersion != observed.platformVersion)
  {
    var r := LateInitialized(observed, latest);
    Conservative(observed, latest);
    LifecycleNodes(r);
    LifecycleNodes(observed);
    ProtocolNodes(r);
    ProtocolNodes(observed);
    VersionNode(r);
    VersionNode(observed);
    assert SPEC + [Name.PlatformVersion] == PLATFORM_VERSION;
    hide LateInitialized, SpecDiff, SpecTree, DifferentAt, At, NumNode, StrNode;
    DifferentNumber(eq, r, observed, IDLE, IdleOf(r), IdleOf(observed));
    DifferentNumber(eq, r, observed, MAX_LIFETIME, MaxLifetimeOf(r), MaxLifetimeOf(observed));
    DifferentString(eq, r, observed, SERVER_PROTOCOL, ServerProtocolOf(r), ServerProtocolOf(observed));
    DifferentString(eq, r, observed, [Name.PlatformVersion], r.platformVersion, observed.platformVersion);
  }
}
