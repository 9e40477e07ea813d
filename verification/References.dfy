/** The reference lifecycle of pkg/resource/agent_runtime/references.go: references resolve to
    concrete ids, a read drops them, EnsureReferences restores them and
    ClearResolvedReferences suppresses the ids they resolved to. */
module References {
  import opened Basics
  import opened Errors
  import opened Api
  import opened Resource
  import Codec
  import Wire

  /** The two reference lists; the source repeats its code for each. */
  datatype Kind = SecurityGroups | Subnets

  /** A referenced EC2 object, as the API reader returns it. */
  datatype Referenced = Referenced(conditions: seq<Cond>, id: Option<string>)

  /** The cluster during one resolution: what reading the reference at a position of a list
      answers, and ackrt.ValidateCrossNamespaceReference, which is not part of this model. */
  datatype Cluster = Cluster(
    read: (Kind, nat, string, string) -> Result<Referenced>,
    crossNamespace: (Option<string>, string) -> Result<string>)

  // ----- Field access -----

  function VPC(s: AgentRuntimeSpec): Option<VPCConfig> {
    if s.networkConfiguration.None? then None else s.networkConfiguration.value.networkModeConfig
  }

  function WithVPC(s: AgentRuntimeSpec, v: VPCConfig): AgentRuntimeSpec
    requires VPC(s).Some?
  {
    s.(networkConfiguration := Some(s.networkConfiguration.value.(networkModeConfig := Some(v))))
  }

  function RefList(v: VPCConfig, kind: Kind): ReferenceList {
    if kind == SecurityGroups then v.securityGroupRefs else v.subnetRefs
  }

  function IdList(v: VPCConfig, kind: Kind): StringList {
    if kind == SecurityGroups then v.securityGroups else v.subnets
  }

  function WithIds(v: VPCConfig, kind: Kind, ids: StringList): VPCConfig {
    if kind == SecurityGroups then v.(securityGroups := ids) else v.(subnets := ids)
  }

  function WithRefs(v: VPCConfig, kind: Kind, refs: ReferenceList): VPCConfig {
    if kind == SecurityGroups then v.(securityGroupRefs := refs) else v.(subnetRefs := refs)
  }

  /** Declared references and stored ids of a spec; a missing struct has none. */
  function Refs(s: AgentRuntimeSpec, kind: Kind): seq<Option<ReferenceWrapper>> {
    if VPC(s).None? then [] else Items(RefList(VPC(s).value, kind))
  }

  function Ids(s: AgentRuntimeSpec, kind: Kind): Strings {
    if VPC(s).None? then [] else Items(IdList(VPC(s).value, kind))
  }

  // ----- Resolution -----

  predicate Has(conds: seq<Cond>, kind: ConditionType) {
    exists i | 0 <= i < |conds| :: conds[i].kind == kind && conds[i].status == True
  }

  function ObjectKind(kind: Kind): string {
    if kind == SecurityGroups then "SecurityGroup" else "Subnet"
  }

  function IdField(kind: Kind): string {
    if kind == SecurityGroups then "NetworkConfiguration.NetworkModeConfig.SecurityGroups"
    else "NetworkConfiguration.NetworkModeConfig.Subnets"
  }

  function RefField(kind: Kind): string {
    if kind == SecurityGroups then "NetworkConfiguration.NetworkModeConfig.SecurityGroupRefs"
    else "NetworkConfiguration.NetworkModeConfig.SubnetRefs"
  }

  /** getReferencedResourceState: the id to use, or why the reference does not resolve. */
  function ReferencedState(read: Result<Referenced>, kind: Kind, namespace: string, name: string): Result<string> {
    if read.Err? then Err(read.err)
    else if Has(read.value.conditions, TerminalCondition) then Err(ReferenceTerminal(ObjectKind(kind), namespace, name))
    else if !Has(read.value.conditions, ResourceSynced) then Err(ReferenceNotSynced(ObjectKind(kind), namespace, name))
    else if read.value.id.None? then Err(ReferenceMissingTargetField(ObjectKind(kind), namespace, name))
    else Ok(read.value.id.value)
  }

  /** One element of a reference list: None when it is skipped (nil, or no From). */
  function ResolveOne(ref: Option<ReferenceWrapper>, kind: Kind, i: nat, c: Cluster): Option<Result<string>> {
    if ref.None? || ref.value.from.None? then None
    else
      var arr := ref.value.from.value;
      if arr.name.None? || arr.name.value == "" then Some(Err(ReferenceEmpty(RefField(kind))))
      else
        var ns := c.crossNamespace(arr.namespace, arr.name.value);
        if ns.Err? then Some(Err(ns.err))
        else Some(ReferencedState(c.read(kind, i, ns.value, arr.name.value), kind, ns.value, arr.name.value))
  }

  predicate Fails(refs: seq<Option<ReferenceWrapper>>, kind: Kind, i: nat, c: Cluster)
    requires i < |refs|
  {
    ResolveOne(refs[i], kind, i, c).Some? && ResolveOne(refs[i], kind, i, c).value.Err?
  }

  /** Where the loop stops: the first reference that fails, or the end. */
  function StopsAt(refs: seq<Option<ReferenceWrapper>>, kind: Kind, from: nat, c: Cluster): (n: nat)
    requires from <= |refs|
    ensures from <= n <= |refs|
    ensures forall i | from <= i < n :: !Fails(refs, kind, i, c)
    ensures n < |refs| ==> Fails(refs, kind, n, c)
    decreases |refs| - from
  {
    if from == |refs| || Fails(refs, kind, from, c) then from else StopsAt(refs, kind, from + 1, c)
  }

  /** The ids of the first n references, in order, skipped elements leaving nothing. */
  function IdsOf(refs: seq<Option<ReferenceWrapper>>, kind: Kind, n: nat, c: Cluster): seq<string>
    requires n <= |refs|
    requires forall i | 0 <= i < n :: !Fails(refs, kind, i, c)
  {
    if n == 0 then []
    else
      assert !Fails(refs, kind, n - 1, c);
      var r := ResolveOne(refs[n - 1], kind, n - 1, c);
      IdsOf(refs, kind, n - 1, c) + if r.None? then [] else [r.value.value]
  }

  /** Appending to a nil list allocates it; appending nothing leaves it nil. */
  function Appended(l: StringList, ids: seq<string>): StringList {
    if ids == [] then l else Some(Items(l) + StringSlice(ids))
  }

  predicate Declares(ref: Option<ReferenceWrapper>) {
    ref.Some? && ref.value.from.Some?
  }

  datatype Resolution = Resolution(spec: AgentRuntimeSpec, hasReferences: bool, err: Option<GoError>)

  function ResolvedKind(s: AgentRuntimeSpec, kind: Kind, c: Cluster): Resolution {
    if VPC(s).None? then Resolution(s, false, None)
    else
      var v := VPC(s).value;
      var refs := Items(RefList(v, kind));
      var n := StopsAt(refs, kind, 0, c);
      Resolution(
        WithVPC(s, WithIds(v, kind, Appended(IdList(v, kind), IdsOf(refs, kind, n, c)))),
        exists i | 0 <= i < |refs| && i <= n :: Declares(refs[i]),
        if n < |refs| then Some(ResolveOne(refs[n], kind, n, c).value.err) else None)
  }

  /** validateReferenceFields */
  predicate ValidKind(s: AgentRuntimeSpec, kind: Kind) {
    Refs(s, kind) == [] || Ids(s, kind) == []
  }

  predicate ValidReferences(s: AgentRuntimeSpec) {
    ValidKind(s, SecurityGroups) && ValidKind(s, Subnets)
  }

  function ValidateReferenceFields(s: AgentRuntimeSpec): Option<GoError> {
    if !ValidKind(s, SecurityGroups)
    then Some(ReferenceAndIDNotSupported(IdField(SecurityGroups), RefField(SecurityGroups)))
    else if !ValidKind(s, Subnets) then Some(ReferenceAndIDNotSupported(IdField(Subnets), RefField(Subnets)))
    else None
  }

  /** An invalid resource is resolved all the same; its error is reported last. */
  function Resolved(s: AgentRuntimeSpec, c: Cluster): Resolution {
    var first := ResolvedKind(s, SecurityGroups, c);
    if first.err.Some? then first
    else
      var second := ResolvedKind(first.spec, Subnets, c);
      Resolution(second.spec, first.hasReferences || second.hasReferences,
                 if second.err.Some? then second.err else ValidateReferenceFields(s))
  }

  method GetReferencedResourceState(read: Result<Referenced>, kind: Kind, namespace: string, name: string)
    returns (r: Result<string>)
    ensures r == ReferencedState(read, kind, namespace, name)
  {
    if read.Err? {
      return Err(read.err);
    }
    var conds := read.value.conditions;
    for i := 0 to |conds|
      invariant forall j | 0 <= j < i :: !(conds[j].kind == TerminalCondition && conds[j].status == True)
    {
      if conds[i].kind == TerminalCondition && conds[i].status == True {
        return Err(ReferenceTerminal(ObjectKind(kind), namespace, name));
      }
    }
    var refResourceSynced := false;
    for i := 0 to |conds|
      invariant refResourceSynced
           <==> exists j | 0 <= j < i :: conds[j].kind == ResourceSynced && conds[j].status == True
    {
      if conds[i].kind == ResourceSynced && conds[i].status == True {
        refResourceSynced := true;
      }
    }
    if !refResourceSynced {
      return Err(ReferenceNotSynced(ObjectKind(kind), namespace, name));
    }
    if read.value.id.None? {
      return Err(ReferenceMissingTargetField(ObjectKind(kind), namespace, name));
    }
    return Ok(read.value.id.value);
  }

  /** resolveReferenceForNetworkConfiguration_NetworkModeConfig_*: appends to the list in place,
      and leaves what was appended there when a later reference fails. */
  method ResolveKind(ko: AgentRuntime, kind: Kind, c: Cluster) returns (hasReferences: bool, err: Option<GoError>)
    modifies ko`spec
    ensures Resolution(ko.spec, hasReferences, err) == ResolvedKind(old(ko.spec), kind, c)
  {
    hasReferences, err := false, None;
    if VPC(ko.spec).None? {
      return;
    }
    ghost var s := ko.spec;
    ghost var was := IdList(VPC(s).value, kind);
    var refs := Items(RefList(VPC(ko.spec).value, kind));
    ghost var stop := StopsAt(refs, kind, 0, c);
    assert Appended(was, IdsOf(refs, kind, 0, c)) == was;
    hide Appended, IdsOf, ResolveOne, VPC, WithVPC, WithIds, IdList;
    for i := 0 to |refs|
      invariant i <= stop
      invariant ko.spec == WithVPC(s, WithIds(VPC(s).value, kind, Appended(was, IdsOf(refs, kind, i, c))))
      invariant hasReferences <==> exists j | 0 <= j < i :: Declares(refs[j])
    {
      IdsStep(refs, kind, i, c);
      if Declares(refs[i]) {
        hasReferences := true;
        var id := ResolveElement(refs[i].value.from.value, kind, i, c);
        assert ResolveOne(refs[i], kind, i, c) == Some(id);
        assert Fails(refs, kind, i, c) <==> id.Err?;
        if id.Err? {
          return hasReferences, Some(id.err);
        }
        StoreOne(s, kind, was, IdsOf(refs, kind, i, c), id.value);
        var list := Items(IdList(VPC(ko.spec).value, kind));
        ko.spec := WithVPC(ko.spec, WithIds(VPC(ko.spec).value, kind, Some(list + [Some(id.value)])));
      }
    }
  }

  /** The body of the loop: one reference with a From. */
  method ResolveElement(arr: ResourceReference, kind: Kind, i: nat, c: Cluster) returns (r: Result<string>)
    ensures ResolveOne(Some(ReferenceWrapper(Some(arr))), kind, i, c) == Some(r)
  {
    if arr.name.None? || arr.name.value == "" {
      return Err(ReferenceEmpty(RefField(kind)));
    }
    var ns := c.crossNamespace(arr.namespace, arr.name.value);
    if ns.Err? {
      return Err(ns.err);
    }
    r := GetReferencedResourceState(c.read(kind, i, ns.value, arr.name.value), kind, ns.value, arr.name.value);
  }

  lemma IdsStep(refs: seq<Option<ReferenceWrapper>>, kind: Kind, i: nat, c: Cluster)
    requires i < |refs| && forall j | 0 <= j < i :: !Fails(refs, kind, j, c)
    ensures ResolveOne(refs[i], kind, i, c).Some? <==> Declares(refs[i])
    ensures !Declares(refs[i]) ==> !Fails(refs, kind, i, c) && IdsOf(refs, kind, i + 1, c) == IdsOf(refs, kind, i, c)
    ensures Declares(refs[i]) && !Fails(refs, kind, i, c) ==>
              IdsOf(refs, kind, i + 1, c) == IdsOf(refs, kind, i, c) + [ResolveOne(refs[i], kind, i, c).value.value]
  {
    hide ReferencedState;
  }

  lemma AppendOne(l: StringList, ids: seq<string>, id: string)
    ensures Appended(l, ids + [id]) == Some(Items(Appended(l, ids)) + [Some(id)])
  {
    assert StringSlice(ids + [id]) == StringSlice(ids) + [Some(id)];
    assert Items(l) + (StringSlice(ids) + [Some(id)]) == Items(l) + StringSlice(ids) + [Some(id)];
    assert Items(Appended(l, ids)) == Items(l) + StringSlice(ids);
  }

  /** Appending one id to the list as it stands in the spec. */
  lemma StoreOne(s: AgentRuntimeSpec, kind: Kind, was: StringList, ids: seq<string>, id: string)
    requires VPC(s).Some?
    ensures var now := WithVPC(s, WithIds(VPC(s).value, kind, Appended(was, ids)));
            && VPC(now).Some?
            && WithVPC(now, WithIds(VPC(now).value, kind, Some(Items(IdList(VPC(now).value, kind)) + [Some(id)])))
               == WithVPC(s, WithIds(VPC(s).value, kind, Appended(was, ids + [id])))
  {
    AppendOne(was, ids, id);
  }

  /** ResolveReferences. Its comment promises a copy; the code resolves into the resource it is
      given and hands that same object back, and so does the model. */
  method ResolveReferences(ko: AgentRuntime, c: Cluster) returns (hasReferences: bool, err: Option<GoError>)
    modifies ko`spec
    ensures Resolution(ko.spec, hasReferences, err) == Resolved(old(ko.spec), c)
  {
    var invalid := ValidateReferenceFields(ko.spec);
    var first, firstErr := ResolveKind(ko, SecurityGroups, c);
    if firstErr.Some? {
      return first, firstErr;
    }
    var second, secondErr := ResolveKind(ko, Subnets, c);
    if secondErr.Some? {
      return first || second, secondErr;
    }
    return first || second, invalid;
  }

  // ----- Clearing and restoring -----

  function ClearedKind(s: AgentRuntimeSpec, kind: Kind): AgentRuntimeSpec {
    if Refs(s, kind) == [] then s else WithVPC(s, WithIds(VPC(s).value, kind, None))
  }

  function Cleared(s: AgentRuntimeSpec): AgentRuntimeSpec {
    ClearedKind(ClearedKind(s, SecurityGroups), Subnets)
  }

  function WithStructs(s: AgentRuntimeSpec): AgentRuntimeSpec {
    var n := if s.networkConfiguration.Some? then s.networkConfiguration.value else NetworkConfiguration(None, None);
    var v := if n.networkModeConfig.Some? then n.networkModeConfig.value else VPCConfig(None, None, None, None);
    s.(networkConfiguration := Some(n.(networkModeConfig := Some(v))))
  }

  function EnsuredKind(desired: AgentRuntimeSpec, latest: AgentRuntimeSpec, kind: Kind): AgentRuntimeSpec {
    if Refs(desired, kind) == [] then latest
    else
      var s := WithStructs(latest);
      if Refs(s, kind) != [] then s
      else WithVPC(s, WithRefs(VPC(s).value, kind, RefList(VPC(desired).value, kind)))
  }

  function Ensured(desired: AgentRuntimeSpec, latest: AgentRuntimeSpec): AgentRuntimeSpec {
    EnsuredKind(desired, EnsuredKind(desired, latest, SecurityGroups), Subnets)
  }

  /** ClearResolvedReferences works on a deep copy. */
  method ClearResolvedReferences(res: AgentRuntime) returns (ko: AgentRuntime)
    ensures ko.Valid() && fresh(ko.Repr)
    ensures ko.spec == Cleared(old(res.spec)) && ko.status == old(res.status) && ko.Conds() == old(res.Conds())
  {
    ko := res.DeepCopy();
    ghost var conds := ko.Conds();
    if ko.spec.networkConfiguration.Some? {
      if ko.spec.networkConfiguration.value.networkModeConfig.Some? {
        var v := ko.spec.networkConfiguration.value.networkModeConfig.value;
        if |Items(v.securityGroupRefs)| > 0 {
          ko.spec := WithVPC(ko.spec, v.(securityGroups := None));
        }
      }
    }
    if ko.spec.networkConfiguration.Some? {
      if ko.spec.networkConfiguration.value.networkModeConfig.Some? {
        var v := ko.spec.networkConfiguration.value.networkModeConfig.value;
        if |Items(v.subnetRefs)| > 0 {
          ko.spec := WithVPC(ko.spec, v.(subnets := None));
        }
      }
    }
    assert ko.Conds() == conds;
  }

  /** The restoring of one list onto the copied latest object. */
  method EnsureKind(desired: AgentRuntimeSpec, latestKO: AgentRuntimeSpec, kind: Kind)
    returns (latest: AgentRuntimeSpec)
    requires VPC(desired).Some?
    ensures latest == EnsuredKind(desired, latestKO, kind)
  {
    latest := latestKO;
    var declared := RefList(VPC(desired).value, kind);
    if |Items(declared)| > 0 {
      if latest.networkConfiguration.None? {
        latest := latest.(networkConfiguration := Some(NetworkConfiguration(None, None)));
      }
      if latest.networkConfiguration.value.networkModeConfig.None? {
        latest := latest.(networkConfiguration :=
          Some(latest.networkConfiguration.value.(networkModeConfig := Some(VPCConfig(None, None, None, None)))));
      }
      if |Items(RefList(VPC(latest).value, kind))| == 0 {
        latest := WithVPC(latest, WithRefs(VPC(latest).value, kind, declared));
      }
    }
  }

  /** EnsureReferences works on deep copies of both resources. */
  method EnsureReferences(desired: AgentRuntime, latest: AgentRuntime) returns (ko: AgentRuntime)
    ensures ko.Valid() && fresh(ko.Repr)
    ensures ko.spec == Ensured(old(desired.spec), old(latest.spec))
    ensures ko.status == old(latest.status) && ko.Conds() == old(latest.Conds())
  {
    var desiredKO := desired.DeepCopy();
    ko := latest.DeepCopy();
    ghost var conds := ko.Conds();
    if VPC(desiredKO.spec).Some? {
      var s := EnsureKind(desiredKO.spec, ko.spec, SecurityGroups);
      s := EnsureKind(desiredKO.spec, s, Subnets);
      ko.spec := s;
    }
    assert ko.Conds() == conds;
  }

  // ----- Resolution is exact -----

  /** An object that was read is Synced=True, not Terminal=True, and has the id. */
  predicate Yields(read: Result<Referenced>, id: string) {
    && read.Ok?
    && (exists i | 0 <= i < |read.value.conditions| ::
          read.value.conditions[i].kind == ResourceSynced && read.value.conditions[i].status == True)
    && (forall i | 0 <= i < |read.value.conditions| ::
          read.value.conditions[i].kind == TerminalCondition ==> read.value.conditions[i].status != True)
    && read.value.id == Some(id)
  }

  /** A reference yields an id exactly when its object does; otherwise the error is that of the
      read, or names the object: as terminal before not synced, and that before lacking an id. */
  lemma ReferencedStateExact(read: Result<Referenced>, kind: Kind, namespace: string, name: string)
    ensures var r := ReferencedState(read, kind, namespace, name);
            var what := if kind == SecurityGroups then "SecurityGroup" else "Subnet";
            && (forall id :: r == Ok(id) <==> Yields(read, id))
            && (read.Err? ==> r == Err(read.err))
            && (read.Ok? ==>
                  var conds := read.value.conditions;
                  && (r == Err(ReferenceTerminal(what, namespace, name))
                      <==> exists i | 0 <= i < |conds| :: conds[i].kind == TerminalCondition && conds[i].status == True)
                  && (r == Err(ReferenceNotSynced(what, namespace, name))
                      <==> forall i | 0 <= i < |conds| ::
                             conds[i].status == True ==>
                               conds[i].kind != TerminalCondition && conds[i].kind != ResourceSynced)
                  && (r.Err? ==> r.err in {ReferenceTerminal(what, namespace, name),
                                           ReferenceNotSynced(what, namespace, name),
                                           ReferenceMissingTargetField(what, namespace, name)}))
  {
  }

  /** Every reference of the list resolves or is skipped. */
  predicate AllResolve(s: AgentRuntimeSpec, kind: Kind, c: Cluster) {
    forall i | 0 <= i < |Refs(s, kind)| :: !Fails(Refs(s, kind), kind, i, c)
  }

  /** After one list: up to the first failure the ids are there, in order, behind what was
      there before; the error is that of the first failure; nothing else has changed. */
  lemma ResolvedKindExact(s: AgentRuntimeSpec, kind: Kind, c: Cluster)
    ensures var r := ResolvedKind(s, kind, c);
            var refs := Refs(s, kind);
            var n := StopsAt(refs, kind, 0, c);
            && Ids(r.spec, kind) == Ids(s, kind) + StringSlice(IdsOf(refs, kind, n, c))
            && (r.err.None? <==> AllResolve(s, kind, c))
            && (r.err.Some? ==> n < |refs| && ResolveOne(refs[n], kind, n, c) == Some(Err(r.err.value)))
            && forall k :: Refs(r.spec, k) == Refs(s, k) && (k != kind ==> Ids(r.spec, k) == Ids(s, k))
  {
    if VPC(s).Some? {
      var v := VPC(s).value;
      var n := StopsAt(Refs(s, kind), kind, 0, c);
      var ids := IdsOf(Refs(s, kind), kind, n, c);
      var w := WithIds(v, kind, Appended(IdList(v, kind), ids));
      assert VPC(WithVPC(s, w)) == Some(w);
      assert Ids(s, kind) + StringSlice([]) == Ids(s, kind);
    }
  }

  /** The error of ResolveReferences is nil exactly when the resource is valid and every
      reference of both lists resolves. */
  lemma ResolvedErrIff(s: AgentRuntimeSpec, c: Cluster)
    ensures Resolved(s, c).err.None?
            <==> ValidReferences(s) && AllResolve(s, SecurityGroups, c) && AllResolve(s, Subnets, c)
  {
    ResolvedKindExact(s, SecurityGroups, c);
    ResolvedKindExact(ResolvedKind(s, SecurityGroups, c).spec, Subnets, c);
  }

  /** The positions of the references among the first n elements; the others, nil or without
      From, are skipped. */
  function Declaring(refs: seq<Option<ReferenceWrapper>>, n: nat): (r: seq<nat>)
    requires n <= |refs|
    ensures forall k | 0 <= k < |r| :: r[k] < n
  {
    if n == 0 then []
    else Declaring(refs, n - 1) + if Declares(refs[n - 1]) then [n - 1] else []
  }

  /** The id of a reference, and that it is there: the object read at its position is Synced=True,
      not Terminal=True and has that id. */
  predicate YieldsId(refs: seq<Option<ReferenceWrapper>>, kind: Kind, i: nat, c: Cluster, id: string)
    requires i < |refs|
  {
    && Declares(refs[i]) && refs[i].value.from.value.name.Some?
    && var arr := refs[i].value.from.value;
       var ns := c.crossNamespace(arr.namespace, arr.name.value);
       ns.Ok? && Yields(c.read(kind, i, ns.value, arr.name.value), id)
  }

  /** The positions are in increasing order, and exactly those of the references. */
  lemma {:induction false} DeclaringExact(refs: seq<Option<ReferenceWrapper>>, n: nat)
    requires n <= |refs|
    ensures forall k, l | 0 <= k < l < |Declaring(refs, n)| :: Declaring(refs, n)[k] < Declaring(refs, n)[l]
    ensures forall i | 0 <= i < n :: Declares(refs[i]) <==> i in Declaring(refs, n)
  {
    hide Declares;
    if n > 0 {
      DeclaringExact(refs, n - 1);
      var at := Declaring(refs, n - 1);
      if Declares(refs[n - 1]) {
        assert Declaring(refs, n) == at + [n - 1];
        assert Declaring(refs, n)[|at|] == n - 1;
      }
    }
  }

  /** The k-th id is that of the reference at the k-th position. */
  lemma {:induction false} IdsYielded(refs: seq<Option<ReferenceWrapper>>, kind: Kind, n: nat, c: Cluster)
    requires n <= |refs| && forall j | 0 <= j < n :: !Fails(refs, kind, j, c)
    ensures var ids, at := IdsOf(refs, kind, n, c), Declaring(refs, n);
            |ids| == |at| && forall k | 0 <= k < |at| :: YieldsId(refs, kind, at[k], c, ids[k])
  {
    if n > 0 {
      IdsYielded(refs, kind, n - 1, c);
      var r := ResolveOne(refs[n - 1], kind, n - 1, c);
      assert !Fails(refs, kind, n - 1, c);
      assert r.None? <==> !Declares(refs[n - 1]);
      assert r.Some? ==> YieldsId(refs, kind, n - 1, c, r.value.value);
      hide ResolveOne, YieldsId, Declares, Fails, ReferencedState;
    }
  }

  /** Of any list, whatever it skips: up to a point before which nothing fails, there are as many
      ids as references, in their order, and id k is that of the k-th reference. */
  lemma IdsInOrder(refs: seq<Option<ReferenceWrapper>>, kind: Kind, n: nat, c: Cluster)
    requires n <= |refs| && forall j | 0 <= j < n :: !Fails(refs, kind, j, c)
    ensures var ids, at := IdsOf(refs, kind, n, c), Declaring(refs, n);
            && |ids| == |at|
            && (forall k | 0 <= k < |at| :: YieldsId(refs, kind, at[k], c, ids[k]))
            && (forall k, l | 0 <= k < l < |at| :: at[k] < at[l])
            && (forall i | 0 <= i < n :: Declares(refs[i]) <==> i in at)
  {
    hide IdsOf, Declaring, YieldsId, Declares, Fails;
    IdsYielded(refs, kind, n, c);
    DeclaringExact(refs, n);
  }

  /** After both lists: a failure in the first leaves the second untouched; otherwise both are
      resolved up to the second's first failure, and an invalid resource is reported last. */
  lemma ResolvedExact(s: AgentRuntimeSpec, c: Cluster)
    ensures var r := Resolved(s, c);
            var groups, subnets := Refs(s, SecurityGroups), Refs(s, Subnets);
            var n, m := StopsAt(groups, SecurityGroups, 0, c), StopsAt(subnets, Subnets, 0, c);
            && Ids(r.spec, SecurityGroups) == Ids(s, SecurityGroups) + StringSlice(IdsOf(groups, SecurityGroups, n, c))
            && Ids(r.spec, Subnets)
               == Ids(s, Subnets)
                  + (if n < |groups| then [] else StringSlice(IdsOf(subnets, Subnets, m, c)))
            && (forall k :: Refs(r.spec, k) == Refs(s, k))
            && (n < |groups| ==> r.err.Some? && ResolveOne(groups[n], SecurityGroups, n, c) == Some(Err(r.err.value)))
            && (n == |groups| && m < |subnets| ==>
                  r.err.Some? && ResolveOne(subnets[m], Subnets, m, c) == Some(Err(r.err.value)))
            && (n == |groups| && m == |subnets| ==> r.err == ValidateReferenceFields(s))
            && (r.hasReferences
                <==> || (exists ref | ref in groups :: Declares(ref))
                     || (n == |groups| && exists ref | ref in subnets :: Declares(ref)))
  {
    var first := ResolvedKind(s, SecurityGroups, c);
    ResolvedKindExact(s, SecurityGroups, c);
    ResolvedKindExact(first.spec, Subnets, c);
    StopsAtEnd(s, SecurityGroups, c);
    StopsAtEnd(first.spec, Subnets, c);
    HasReferencesIff(s, SecurityGroups, c);
    HasReferencesIff(first.spec, Subnets, c);
    hide ResolvedKind, ResolveOne, StopsAt, IdsOf, Refs, Ids, Declares;
  }

  /** hasReferences, even where a failure ends the loop early: some element declares a reference. */
  lemma HasReferencesIff(s: AgentRuntimeSpec, kind: Kind, c: Cluster)
    ensures ResolvedKind(s, kind, c).hasReferences <==> exists ref | ref in Refs(s, kind) :: Declares(ref)
  {
    var refs := Refs(s, kind);
    var n := StopsAt(refs, kind, 0, c);
    assert n < |refs| ==> Fails(refs, kind, n, c) && Declares(refs[n]);
    hide StopsAt, IdsOf, ResolveOne;
    if ref :| ref in refs && Declares(ref) {
      var i :| 0 <= i < |refs| && refs[i] == ref;
      assert Declares(refs[if i <= n then i else n]);
    }
  }

  /** Why an element fails, in order: its name is nil or "", its namespace is refused, or its
      object cannot be read. */
  lemma ElementErrors(ref: Option<ReferenceWrapper>, kind: Kind, i: nat, c: Cluster)
    requires Declares(ref)
    ensures var arr, r := ref.value.from.value, ResolveOne(ref, kind, i, c);
            && (arr.name in {None, Some("")} ==>
                  r == Some(Err(ReferenceEmpty(
                         if kind == SecurityGroups then "NetworkConfiguration.NetworkModeConfig.SecurityGroupRefs"
                         else "NetworkConfiguration.NetworkModeConfig.SubnetRefs"))))
            && (arr.name !in {None, Some("")} ==>
                  var ns := c.crossNamespace(arr.namespace, arr.name.value);
                  && (ns.Err? ==> r == Some(Err(ns.err)))
                  && (ns.Ok? && c.read(kind, i, ns.value, arr.name.value).Err? ==>
                        r == Some(Err(c.read(kind, i, ns.value, arr.name.value).err))))
  {
  }

  /** A resource is invalid exactly when references and ids stand in one list; the error names the
      first such list. */
  lemma InvalidExact(s: AgentRuntimeSpec)
    ensures var e := ValidateReferenceFields(s);
            && (e.None? <==> ValidReferences(s))
            && (e == Some(ReferenceAndIDNotSupported("NetworkConfiguration.NetworkModeConfig.SecurityGroups",
                                                     "NetworkConfiguration.NetworkModeConfig.SecurityGroupRefs"))
                <==> Refs(s, SecurityGroups) != [] && Ids(s, SecurityGroups) != [])
            && (e == Some(ReferenceAndIDNotSupported("NetworkConfiguration.NetworkModeConfig.Subnets",
                                                     "NetworkConfiguration.NetworkModeConfig.SubnetRefs"))
                <==> && (Refs(s, SecurityGroups) == [] || Ids(s, SecurityGroups) == [])
                     && Refs(s, Subnets) != [] && Ids(s, Subnets) != [])
  {
    assert |"NetworkConfiguration.NetworkModeConfig.SecurityGroups"|
        != |"NetworkConfiguration.NetworkModeConfig.Subnets"|;
  }

  lemma StopsAtEnd(s: AgentRuntimeSpec, kind: Kind, c: Cluster)
    ensures ResolvedKind(s, kind, c).err.None? <==> StopsAt(Refs(s, kind), kind, 0, c) == |Refs(s, kind)|
  {
    assert ResolvedKind(s, kind, c).err.None? <==> AllResolve(s, kind, c) by {
      ResolvedKindExact(s, kind, c);
    }
  }

  // ----- Clearing undoes resolving -----

  function Collapse<T>(l: Option<seq<T>>): Option<seq<T>> {
    if l == Some([]) then None else l
  }

  /** The spec with empty id lists read as nil. */
  function NilForEmpty(s: AgentRuntimeSpec): AgentRuntimeSpec {
    if VPC(s).None? then s
    else
      var v := VPC(s).value;
      WithVPC(s, v.(securityGroups := Collapse(v.securityGroups), subnets := Collapse(v.subnets)))
  }

  lemma ClearedKindUndoes(s: AgentRuntimeSpec, kind: Kind, c: Cluster)
    ensures var r := ResolvedKind(s, kind, c).spec;
            && (Refs(s, kind) == [] ==> r == s)
            && (Refs(s, kind) != [] ==> r == WithVPC(s, WithIds(VPC(s).value, kind, IdList(VPC(r).value, kind))))
  {
    if VPC(s).Some? && Refs(s, kind) == [] {
      assert IdsOf([], kind, 0, c) == [];
    }
  }

  /** Resolving changes at most the two id lists, and one without references not at all. */
  lemma ResolvedShape(s: AgentRuntimeSpec, c: Cluster) returns (groups: StringList, subnets: StringList)
    requires VPC(s).Some?
    ensures Resolved(s, c).spec == WithVPC(s, VPC(s).value.(securityGroups := groups, subnets := subnets))
    ensures Refs(s, SecurityGroups) == [] ==> groups == VPC(s).value.securityGroups
    ensures Refs(s, Subnets) == [] ==> subnets == VPC(s).value.subnets
  {
    var first := ResolvedKind(s, SecurityGroups, c);
    ClearedKindUndoes(s, SecurityGroups, c);
    ClearedKindUndoes(first.spec, Subnets, c);
    ResolvedKindExact(s, SecurityGroups, c);
    var v := VPC(Resolved(s, c).spec).value;
    groups, subnets := v.securityGroups, v.subnets;
  }

  /** Clearing after resolving, whether or not resolving failed, gives back the declared spec
      up to nil versus empty exactly when it was valid: an invalid one loses its ids. */
  lemma ClearUndoesIff(s: AgentRuntimeSpec, c: Cluster)
    ensures NilForEmpty(Cleared(Resolved(s, c).spec)) == NilForEmpty(s) <==> ValidReferences(s)
  {
    if VPC(s).Some? {
      var v := VPC(s).value;
      var groups, subnets := ResolvedShape(s, c);
      var r := Resolved(s, c).spec;
      hide Resolved;
      assert VPC(r) == Some(v.(securityGroups := groups, subnets := subnets));
      assert Cleared(r)
          == WithVPC(s, v.(securityGroups := if Refs(s, SecurityGroups) == [] then v.securityGroups else None,
                           subnets := if Refs(s, Subnets) == [] then v.subnets else None));
    }
  }

  // ----- EnsureReferences -----

  /** The comment on EnsureReferences: every concrete value on latest stands, a reference latest
      still has is kept, a missing one is taken from desired, and nothing is written when
      desired declares none. */
  lemma EnsuredExact(desired: AgentRuntimeSpec, latest: AgentRuntimeSpec)
    ensures var e := Ensured(desired, latest);
            && (forall k :: Ids(e, k) == Ids(latest, k))
            && (forall k :: Refs(e, k) == if Refs(latest, k) != [] then Refs(latest, k) else Refs(desired, k))
            && ((forall k :: Refs(desired, k) == []) ==> e == latest)
            && e.(networkConfiguration := latest.networkConfiguration) == latest
            && (latest.networkConfiguration.Some? ==>
                  && e.networkConfiguration.Some?
                  && e.networkConfiguration.value.networkMode == latest.networkConfiguration.value.networkMode)
            && Ensured(desired, e) == e
  {
    EnsuredKindExact(desired, latest, SecurityGroups);
    EnsuredKindExact(desired, EnsuredKind(desired, latest, SecurityGroups), Subnets);
    EnsuredKindExact(desired, Ensured(desired, latest), SecurityGroups);
    EnsuredKindExact(desired, Ensured(desired, latest), Subnets);
  }

  lemma EnsuredKindExact(desired: AgentRuntimeSpec, latest: AgentRuntimeSpec, kind: Kind)
    ensures var e := EnsuredKind(desired, latest, kind);
            && (forall k :: Ids(e, k) == Ids(latest, k))
            && (forall k | k != kind :: Refs(e, k) == Refs(latest, k))
            && Refs(e, kind) == (if Refs(latest, kind) != [] then Refs(latest, kind) else Refs(desired, kind))
            && (Refs(desired, kind) == [] ==> e == latest)
            && (Refs(desired, kind) != [] && VPC(latest).Some? && Refs(latest, kind) != [] ==> e == latest)
            && e.(networkConfiguration := latest.networkConfiguration) == latest
            && (latest.networkConfiguration.Some? ==>
                  && e.networkConfiguration.Some?
                  && e.networkConfiguration.value.networkMode == latest.networkConfiguration.value.networkMode)
  {
    var s := WithStructs(latest);
    assert forall k :: Ids(s, k) == Ids(latest, k) && Refs(s, k) == Refs(latest, k);
  }

  // ----- The whole life cycle -----

  /** Resolve, read, restore, clear: for every valid declared resource, cluster and read answer
      the resource ends with exactly the declared references, no id that they resolved to, and,
      where none were declared, exactly the ids the service reported. */
  lemma LifeCycle(declared: AgentRuntimeSpec, c: Cluster, answer: Wire.GetOutput, kind: Kind)
    requires ValidReferences(declared)
    ensures var resolved := Resolved(declared, c).spec;
            var latest := Codec.DecodeSpec(answer, resolved);
            var stored := Cleared(Ensured(resolved, latest));
            && Refs(stored, kind) == Refs(declared, kind)
            && Ids(stored, kind) == if Refs(declared, kind) != [] then [] else Ids(latest, kind)
  {
    var resolved := Resolved(declared, c).spec;
    ResolvedKindExact(declared, SecurityGroups, c);
    ResolvedKindExact(ResolvedKind(declared, SecurityGroups, c).spec, Subnets, c);
    assert forall k :: Refs(resolved, k) == Refs(declared, k);
    var latest := Codec.DecodeSpec(answer, resolved);
    assert forall k :: Refs(latest, k) == [];
    EnsuredExact(resolved, latest);
    ClearedExact(Ensured(resolved, latest));
  }

  lemma ClearedExact(s: AgentRuntimeSpec)
    ensures forall k :: Refs(Cleared(s), k) == Refs(s, k)
    ensures forall k :: Ids(Cleared(s), k) == if Refs(s, k) != [] then [] else Ids(s, k)
  {
    var first := ClearedKind(s, SecurityGroups);
    assert forall k :: Refs(first, k) == Refs(s, k);
    assert forall k :: Ids(first, k) == if k == SecurityGroups && Refs(s, k) != [] then [] else Ids(s, k);
  }

  /** Without EnsureReferences the read would lose every declared reference and clearing would
      keep every resolved id. */
  lemma WithoutEnsure(declared: AgentRuntimeSpec, answer: Wire.GetOutput, kind: Kind)
    ensures var latest := Codec.DecodeSpec(answer, declared);
            Refs(Cleared(latest), kind) == [] && Ids(Cleared(latest), kind) == Ids(latest, kind)
  {
    ClearedExact(Codec.DecodeSpec(answer, declared));
  }
}
