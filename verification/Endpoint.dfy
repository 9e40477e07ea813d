/** The AgentRuntimeEndpoint read and differ: a read that rebuilds only part of the spec
    (pkg/resource/agent_runtime_endpoint/sdk.go and delta.go). */
module Endpoint {
  import opened Basics
  import opened Trees
  import opened SpecView
  import opened Delta
  import Tags

  datatype EndpointSpec = EndpointSpec(
    agentRuntimeID: Option<string>,
    agentRuntimeVersion: Option<string>,
    description: Option<string>,
    name: Option<string>,
    tags: StringMap)

  /** The fields of GetAgentRuntimeEndpointOutput that sdkFind writes into the spec. */
  datatype Answer = Answer(description: Option<string>, name: Option<string>)

  function Read(r: EndpointSpec, answer: Answer): EndpointSpec {
    r.(description := answer.description, name := answer.name)
  }

  /** The spec half of sdkFind after a successful call, on the spec of a deep copy. */
  method SdkFind(r: EndpointSpec, resp: Answer) returns (ko: EndpointSpec)
    ensures ko == Read(r, resp)
  {
    ko := r;
    if resp.description.Some? {
      ko := ko.(description := resp.description);
    } else {
      ko := ko.(description := None);
    }
    if resp.name.Some? {
      ko := ko.(name := resp.name);
    } else {
      ko := ko.(name := None);
    }
  }

  function FieldsFromName(s: EndpointSpec): Fields {
    Field(Name.FieldName, StrNode(s.name),
    Field(Name.Tags, Leaf(TagMap(Tags.Plain(s.tags))), End))
  }

  function EndpointTree(s: EndpointSpec): Tree {
    Struct(Field(Name.AgentRuntimeID, StrNode(s.agentRuntimeID),
           Field(Name.AgentRuntimeVersion, StrNode(s.agentRuntimeVersion),
           Field(Name.Description, StrNode(s.description),
           FieldsFromName(s)))))
  }

  function EndpointDelta(eq: ListEq, a: EndpointSpec, b: EndpointSpec): seq<Difference> {
    Diff(eq, SPEC, EndpointTree(a), EndpointTree(b))
  }

  /** Compares two endpoints (None is a nil one); two nil ones are not compared. */
  method NewResourceDelta(a: Option<EndpointSpec>, b: Option<EndpointSpec>, eq: ListEq) returns (delta: Delta)
    requires a.Some? || b.Some?
    ensures delta.Valid() && fresh(delta.Repr)
    ensures a.Some? && b.Some? ==> delta.differences == EndpointDelta(eq, a.value, b.value)
    ensures a.None? ==> delta.differences == [Difference([Name.NoField], Absent, EndpointTree(b.value))]
    ensures b.None? ==> delta.differences == [Difference([Name.NoField], EndpointTree(a.value), Absent)]
  {
    delta := new Delta();
    if a.None? {
      delta.Add([Name.NoField], Absent, EndpointTree(b.value));
    } else if b.None? {
      delta.Add([Name.NoField], EndpointTree(a.value), Absent);
    } else {
      assert Then([], EndpointDelta(eq, a.value, b.value)) == EndpointDelta(eq, a.value, b.value);
      CompareFields(delta, a.value, b.value, eq);
    }
  }

  method CompareFieldsFromName(delta: Delta, a: EndpointSpec, b: EndpointSpec, eq: ListEq)
    requires delta.Valid()
    modifies delta.Repr
    ensures delta.Valid() && fresh(delta.Repr - old(delta.Repr))
    ensures delta.differences
         == Then(old(delta.differences), DiffFields(eq, SPEC, FieldsFromName(a), FieldsFromName(b)))
  {
    ghost var fa, fb := FieldsFromName(a), FieldsFromName(b);
    DiffOfStructs(eq, SPEC, Struct(fa), Struct(fb));
    hide Diff, DiffFields, LocallyDiffer, Then, StrNode, Tags.Plain;
    fa, fb := Step(eq, SPEC, delta.differences, fa, fb);
    CompareString(delta, SPEC + [Name.FieldName], a.name, b.name, eq);
    fa, fb := Step(eq, SPEC, delta.differences, fa, fb);
    CompareTags(delta, SPEC + [Name.Tags], a.tags, b.tags, eq);
  }

  method CompareFields(delta: Delta, a: EndpointSpec, b: EndpointSpec, eq: ListEq)
    requires delta.Valid()
    modifies delta.Repr
    ensures delta.Valid() && fresh(delta.Repr - old(delta.Repr))
    ensures delta.differences == Then(old(delta.differences), EndpointDelta(eq, a, b))
  {
    ghost var fa, fb := EndpointTree(a).fields, EndpointTree(b).fields;
    DiffOfStructs(eq, SPEC, EndpointTree(a), EndpointTree(b));
    hide Diff, DiffFields, LocallyDiffer, Then, StrNode, FieldsFromName;
    fa, fb := Step(eq, SPEC, delta.differences, fa, fb);
    CompareString(delta, SPEC + [Name.AgentRuntimeID], a.agentRuntimeID, b.agentRuntimeID, eq);
    fa, fb := Step(eq, SPEC, delta.differences, fa, fb);
    CompareString(delta, SPEC + [Name.AgentRuntimeVersion], a.agentRuntimeVersion, b.agentRuntimeVersion, eq);
    fa, fb := Step(eq, SPEC, delta.differences, fa, fb);
    CompareString(delta, SPEC + [Name.Description], a.description, b.description, eq);
    CompareFieldsFromName(delta, a, b, eq);
  }

  /** The delta of two endpoints, one difference at most for each field, in order. */
  lemma DeltaByField(eq: ListEq, a: EndpointSpec, b: EndpointSpec)
    ensures EndpointDelta(eq, a, b)
         == StrDiff(Name.AgentRuntimeID, a.agentRuntimeID, b.agentRuntimeID)
            + (StrDiff(Name.AgentRuntimeVersion, a.agentRuntimeVersion, b.agentRuntimeVersion)
            + (StrDiff(Name.Description, a.description, b.description)
            + (StrDiff(Name.FieldName, a.name, b.name)
            + TagDiff(a.tags, b.tags))))
  {
    var fa, fb := EndpointTree(a).fields, EndpointTree(b).fields;
    DiffOfStructs(eq, SPEC, EndpointTree(a), EndpointTree(b));
    StrDiffIs(eq, Name.AgentRuntimeID, a.agentRuntimeID, b.agentRuntimeID);
    StrDiffIs(eq, Name.AgentRuntimeVersion, a.agentRuntimeVersion, b.agentRuntimeVersion);
    StrDiffIs(eq, Name.Description, a.description, b.description);
    StrDiffIs(eq, Name.FieldName, a.name, b.name);
    TagDiffIs(eq, a.tags, b.tags);
    hide Diff, DiffFields, LocallyDiffer, StrNode, StrDiff, TagDiff;
    fa, fb := Unfold(eq, fa, fb);
    fa, fb := Unfold(eq, fa, fb);
    fa, fb := Unfold(eq, fa, fb);
    fa, fb := Unfold(eq, fa, fb);
    fa, fb := Unfold(eq, fa, fb);
  }

  /** What one string field, or the tags, contribute to a delta. */
  function StrDiff(name: Name, a: Option<string>, b: Option<string>): seq<Difference> {
    if a == b then [] else [Difference(SPEC + [name], StrNode(a), StrNode(b))]
  }

  function TagDiff(a: StringMap, b: StringMap): seq<Difference> {
    if Tags.Plain(a) == Tags.Plain(b) then []
    else [Difference(TAGS, Leaf(TagMap(Tags.Plain(a))), Leaf(TagMap(Tags.Plain(b))))]
  }

  lemma StrDiffIs(eq: ListEq, name: Name, a: Option<string>, b: Option<string>)
    ensures Diff(eq, SPEC + [name], StrNode(a), StrNode(b)) == StrDiff(name, a, b)
  {
  }

  lemma TagDiffIs(eq: ListEq, a: StringMap, b: StringMap)
    ensures Diff(eq, SPEC + [Name.Tags], Leaf(TagMap(Tags.Plain(a))), Leaf(TagMap(Tags.Plain(b)))) == TagDiff(a, b)
  {
    assert SPEC + [Name.Tags] == TAGS;
  }

  lemma Unfold(eq: ListEq, fa: Fields, fb: Fields) returns (ra: Fields, rb: Fields)
    requires fa.Field? && fb.Field?
    ensures ra == fa.rest && rb == fb.rest
    ensures DiffFields(eq, SPEC, fa, fb)
         == if ra.End? then Diff(eq, SPEC + [fa.name], fa.node, fb.node)
            else Diff(eq, SPEC + [fa.name], fa.node, fb.node) + DiffFields(eq, SPEC, ra, rb)
  {
    ra, rb := fa.rest, fb.rest;
  }

  /** Between a declared endpoint, its tags mirrored, and its own read only the description and
      the name can differ: a changed runtime id, version or tag map is never noticed. */
  lemma OnlyDescriptionAndName(eq: ListEq, declared: EndpointSpec, answer: Answer)
    ensures var latest := Read(declared, answer);
            var desired := declared.(tags := Tags.Mirrored(declared.tags, latest.tags));
            EndpointDelta(eq, desired, latest)
            == StrDiff(Name.Description, declared.description, answer.description)
               + StrDiff(Name.FieldName, declared.name, answer.name)
  {
    var latest := Read(declared, answer);
    var desired := declared.(tags := Tags.Mirrored(declared.tags, latest.tags));
    DeltaByField(eq, desired, latest);
    Tags.MirrorOwn(declared.tags);
    hide Tags.Mirrored;
    var two := StrDiff(Name.Description, declared.description, answer.description)
               + StrDiff(Name.FieldName, declared.name, answer.name);
    assert [] + ([] + (StrDiff(Name.Description, declared.description, answer.description)
                       + (StrDiff(Name.FieldName, declared.name, answer.name) + []))) == two;
  }

  /** Hence whatever version or tags are declared, the endpoint's delta is the same. */
  lemma VersionNeverUpdates(eq: ListEq, declared: EndpointSpec, answer: Answer, version: Option<string>,
                            tags: StringMap)
    ensures var other := declared.(agentRuntimeVersion := version, tags := tags);
            EndpointDelta(eq, declared.(tags := Tags.Mirrored(declared.tags, declared.tags)), Read(declared, answer))
            == EndpointDelta(eq, other.(tags := Tags.Mirrored(other.tags, other.tags)), Read(other, answer))
  {
    OnlyDescriptionAndName(eq, declared, answer);
    OnlyDescriptionAndName(eq, declared.(agentRuntimeVersion := version, tags := tags), answer);
  }
}
