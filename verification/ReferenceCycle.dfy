/** The reconcile cycle of a resource that declares references: resolve, create, read,
    late-initialise, restore, clear, store, and resolve again at the next reconcile. */
module ReferenceCycle {
  import opened Basics
  import opened Errors
  import opened Api
  import opened Codec
  import opened SpecView
  import opened Delta
  import opened LateInit
  import opened Quiescence
  import opened References
  import Tags
  import Wire

  /** What is stored after the first cycle: references restored, the ids they resolved to gone. */
  function StoredAfter(s: AgentRuntimeSpec, r: Wire.GetOutput): AgentRuntimeSpec {
    Cleared(Ensured(s, FirstStored(s, r)))
  }

  /** Two resolutions found the same ids, as far as the list comparison can tell. */
  predicate SameIds(eq: ListEq, s: AgentRuntimeSpec, t: AgentRuntimeSpec) {
    forall k :: SameList(eq, Some(Ids(s, k)), Some(Ids(t, k)))
  }

  /** Late initialisation does not touch the network configuration, so there is nothing to restore. */
  lemma NothingToRestore(s: AgentRuntimeSpec, r: Wire.GetOutput)
    ensures Ensured(s, FirstStored(s, r)) == FirstStored(s, r)
  {
    var f := FirstStored(s, r);
    assert VPC(f) == VPC(s);
    hide FirstStored;
    EnsuredKindExact(s, f, SecurityGroups);
    EnsuredKindExact(s, f, Subnets);
  }

  /** What resolution finds depends on the declared references and ids alone. */
  lemma SameResolution(a: AgentRuntimeSpec, b: AgentRuntimeSpec, c: Cluster)
    requires forall k :: Refs(a, k) == Refs(b, k) && Ids(a, k) == Ids(b, k)
    ensures forall k :: Ids(Resolved(a, c).spec, k) == Ids(Resolved(b, c).spec, k)
  {
    ResolvedExact(a, c);
    ResolvedExact(b, c);
    hide Resolved, ResolveOne, StopsAt, IdsOf, Refs, Ids, ValidateReferenceFields;
    assert Refs(a, SecurityGroups) == Refs(b, SecurityGroups) && Refs(a, Subnets) == Refs(b, Subnets);
    assert Ids(a, SecurityGroups) == Ids(b, SecurityGroups) && Ids(a, Subnets) == Ids(b, Subnets);
    forall k
      ensures Ids(Resolved(a, c).spec, k) == Ids(Resolved(b, c).spec, k)
    {
      assert k == SecurityGroups || k == Subnets;
    }
  }

  /** Of a valid resource: clearing gives the declared references and ids back. */
  lemma ClearedIds(declared: AgentRuntimeSpec, c: Cluster)
    requires ValidReferences(declared)
    ensures var s := Resolved(declared, c).spec;
            forall k :: Refs(Cleared(s), k) == Refs(declared, k) && Ids(Cleared(s), k) == Ids(declared, k)
  {
    var s := Resolved(declared, c).spec;
    ResolvedExact(declared, c);
    ClearedExact(s);
    assert forall k | Refs(declared, k) == [] :: Ids(s, k) == Ids(declared, k) by {
      NoneResolved(declared, c);
    }
    hide Resolved, ResolveOne, StopsAt, IdsOf, Refs, Ids, ValidateReferenceFields, Cleared;
    assert ValidKind(declared, SecurityGroups) && ValidKind(declared, Subnets);
    assert forall k :: ValidKind(declared, k);
  }

  lemma NoneResolved(s: AgentRuntimeSpec, c: Cluster)
    ensures forall k | Refs(s, k) == [] :: Ids(Resolved(s, c).spec, k) == Ids(s, k)
  {
    if VPC(s).Some? {
      var groups, subnets := ResolvedShape(s, c);
      hide Resolved;
      assert VPC(Resolved(s, c).spec) == Some(VPC(s).value.(securityGroups := groups, subnets := subnets));
    }
  }

  /** Neither clearing nor resolving touches anything but the two id lists. */
  lemma OnlyIds(s: AgentRuntimeSpec, c: Cluster)
    ensures var t := Resolved(Cleared(s), c).spec;
            && (VPC(t).Some? <==> VPC(s).Some?)
            && t == if VPC(t).Some? && VPC(s).Some? then WithVPC(s, VPC(t).value) else s
  {
    if VPC(s).Some? {
      var x := Cleared(s);
      assert VPC(x).Some? && x == WithVPC(s, VPC(x).value);
      var groups, subnets := ResolvedShape(x, c);
      hide Resolved, Cleared;
    }
  }

  /** Resolving what was stored: the stored spec with the ids found now where references are
      declared, and with its own where not. */
  lemma ResolvedAgain(declared: AgentRuntimeSpec, c: Cluster, d: Cluster, r: Wire.GetOutput)
    requires ValidReferences(declared)
    ensures var s := Resolved(declared, c).spec;
            var f, t := FirstStored(s, r), Resolved(StoredAfter(s, r), d).spec;
            && (VPC(t).Some? <==> VPC(s).Some?) && VPC(f) == VPC(s)
            && t == (if VPC(t).Some? && VPC(s).Some? then WithVPC(f, VPC(t).value) else f)
            && forall k :: Ids(t, k) == Ids(Resolved(declared, d).spec, k)
  {
    var s := Resolved(declared, c).spec;
    var f := FirstStored(s, r);
    assert VPC(f) == VPC(s);
    NothingToRestore(s, r);
    ClearedIds(declared, c);
    ClearedExact(s);
    ClearedExact(f);
    OnlyIds(f, d);
    assert forall k :: Refs(f, k) == Refs(s, k) && Ids(f, k) == Ids(s, k);
    hide Resolved, Cleared, Ensured, FirstStored, Refs, Ids, VPC, WithVPC, ValidReferences;
    SameResolution(Cleared(f), declared, d);
  }

  /** Ids found by resolving are never nil; without references both resolutions leave the declared
      ids. */
  lemma IdsFound(declared: AgentRuntimeSpec, c: Cluster, d: Cluster, kind: Kind)
    requires ValidReferences(declared)
    ensures var s, found := Ids(Resolved(declared, c).spec, kind), Ids(Resolved(declared, d).spec, kind);
            None !in s || found == s
  {
    NoneResolved(declared, c);
    NoneResolved(declared, d);
    ResolvedExact(declared, c);
    hide Resolved, ResolveOne, StopsAt, IdsOf, Refs, Ids, ValidateReferenceFields;
    assert ValidKind(declared, SecurityGroups) && ValidKind(declared, Subnets);
  }

  /** One list, as found now, as created with, and as the service stores it. */
  lemma FoundList(eq: ListEq, found: StringList, s: StringList)
    requires Equivalence(eq) && (None !in Items(s) || Items(found) == Items(s))
    ensures SameList(eq, found, NormalizeList(s)) <==> SettledList(eq, s) && SameList(eq, found, s)
  {
    ListSettles(eq, s);
    if None !in Items(s) {
      assert Items(NormalizeList(s)) == Items(s);
    }
  }

  lemma FoundNetwork(eq: ListEq, found: VPCConfig, n: NetworkConfiguration)
    requires Equivalence(eq) && n.networkModeConfig.Some?
    requires var v := n.networkModeConfig.value;
             && (None !in Items(v.securityGroups) || Items(found.securityGroups) == Items(v.securityGroups))
             && (None !in Items(v.subnets) || Items(found.subnets) == Items(v.subnets))
    ensures var v := n.networkModeConfig.value;
            SameNetwork(eq, Some(n.(networkModeConfig := Some(found))), Some(NormalizeNetwork(n)))
            <==> && SettledNetwork(eq, n)
                 && SameList(eq, found.securityGroups, v.securityGroups)
                 && SameList(eq, found.subnets, v.subnets)
  {
    FoundList(eq, found.securityGroups, n.networkModeConfig.value.securityGroups);
    FoundList(eq, found.subnets, n.networkModeConfig.value.subnets);
    hide SameList, SettledList, NormalizeList;
  }

  /** The network configuration of the next cycle against what the service stores. */
  lemma NetworkAgainst(eq: ListEq, declared: AgentRuntimeSpec, c: Cluster, d: Cluster, r: Wire.GetOutput)
    requires Equivalence(eq) && ValidReferences(declared)
    ensures var s, found := Resolved(declared, c).spec, Resolved(declared, d).spec;
            var t, n := Resolved(StoredAfter(s, r), d).spec, Normalize(s).networkConfiguration;
            SameNetwork(eq, t.networkConfiguration, n)
            <==> SameNetwork(eq, s.networkConfiguration, n) && SameIds(eq, found, s)
  {
    var s, found := Resolved(declared, c).spec, Resolved(declared, d).spec;
    var t := Resolved(StoredAfter(s, r), d).spec;
    ResolvedAgain(declared, c, d, r);
    IdsFound(declared, c, d, SecurityGroups);
    IdsFound(declared, c, d, Subnets);
    TwoKinds(eq, found, s);
    assert s.networkConfiguration == FirstStored(s, r).networkConfiguration;
    if VPC(s).Some? {
      var n := s.networkConfiguration.value;
      NetworkSettles(eq, n);
      FoundNetwork(eq, VPC(t).value, n);
    }
    hide Resolved, StoredAfter, FirstStored, NormalizeList, SettledList, ValidReferences, SameIds;
  }

  lemma TwoKinds(eq: ListEq, s: AgentRuntimeSpec, t: AgentRuntimeSpec)
    ensures SameIds(eq, s, t)
            <==> && SameList(eq, Some(Ids(s, SecurityGroups)), Some(Ids(t, SecurityGroups)))
                 && SameList(eq, Some(Ids(s, Subnets)), Some(Ids(t, Subnets)))
  {
    assert SameIds(eq, s, t) ==> SameList(eq, Some(Ids(s, Subnets)), Some(Ids(t, Subnets)));
  }

  /** Two specs that differ in the network configuration alone. */
  lemma NetworkOnly(eq: ListEq, f: AgentRuntimeSpec, t: AgentRuntimeSpec, q: Wire.GetOutput)
    requires t == f.(networkConfiguration := t.networkConfiguration)
    ensures var o := DecodeSpec(q, f).networkConfiguration;
            && (NextDelta(eq, t, q) == [] ==> SameNetwork(eq, t.networkConfiguration, o))
            && (NextDelta(eq, f, q) == [] ==> SameNetwork(eq, f.networkConfiguration, o))
            && (SameNetwork(eq, t.networkConfiguration, o) && SameNetwork(eq, f.networkConfiguration, o)
                ==> (NextDelta(eq, t, q) == [] <==> NextDelta(eq, f, q) == []))
  {
    var latest := DecodeSpec(q, f);
    assert DecodeSpec(q, t) == latest;
    var tags := Tags.Mirrored(f.tags, latest.tags);
    ResourceDeltaEmptyIff(eq, f.(tags := tags), latest);
    ResourceDeltaEmptyIff(eq, t.(tags := tags), latest);
    hide DecodeSpec, ResourceDelta, SameNetwork, SameArtifact, SameAuthorizer, SameRequestHeader, Tags.Mirrored,
      Tags.Plain;
  }

  /** For every valid resource with references, wherever it is resolved: the next reconcile, which
      resolves what was stored against the cluster as it is then, finds no difference if and only if
      the spec created is settled, the service has kept to its choices, and the references resolve
      to the same ids. */
  lemma ResolvedQuiescentIff(eq: ListEq, declared: AgentRuntimeSpec, c: Cluster, d: Cluster, p: Wire.CreateInput,
                             r: Wire.GetOutput, q: Wire.GetOutput)
    requires Equivalence(eq) && ValidReferences(declared)
    requires EncodeCreate(Resolved(declared, c).spec) == Built(p) && Serves(p, r) && Serves(p, q)
    ensures var s, found := Resolved(declared, c).spec, Resolved(declared, d).spec;
            NextDelta(eq, Resolved(StoredAfter(s, r), d).spec, q) == []
            <==> Settled(eq, s) && SameChoices(r, q) && SameIds(eq, found, s)
  {
    var s, found := Resolved(declared, c).spec, Resolved(declared, d).spec;
    var f, t := FirstStored(s, r), Resolved(StoredAfter(s, r), d).spec;
    ResolvedAgain(declared, c, d, r);
    assert t == f.(networkConfiguration := t.networkConfiguration);
    assert f.networkConfiguration == s.networkConfiguration;
    hide Resolved, StoredAfter, FirstStored, DecodeSpec, Normalize, NextDelta, SameNetwork, SameIds, SameChoices,
      Serves, EncodeCreate, ValidReferences, Settled;
    ReadOfServed(s, p, q, f);
    QuiescentAcrossIff(eq, s, p, r, q);
    NetworkAgainst(eq, declared, c, d, r);
    NetworkOnly(eq, f, t, q);
  }
}
