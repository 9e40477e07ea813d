/** The AgentRuntime object that the resource manager passes around ("ko"): a heap object
    whose conditions are themselves heap objects held by pointer. Pointers below the spec and
    the rest of the status are held as values; the DeepCopy module treats the pointers themselves. */
module Resource {
  import opened Basics
  import opened Api

  datatype ConditionType = TerminalCondition | RecoverableCondition | ResourceSynced | OtherCondition(name: string)
  datatype ConditionStatus = True | False | Unknown

  /** What a condition says. */
  datatype Cond = Cond(
    kind: ConditionType,
    status: ConditionStatus,
    message: Option<string>,
    reason: Option<string>,
    lastTransitionTime: Option<int>)

  /** What the conditions of a list say, in order. */
  ghost function Values(conditions: seq<Condition>): (r: seq<Cond>)
    reads conditions
    ensures |r| == |conditions|
    ensures forall i | 0 <= i < |conditions| :: r[i] == conditions[i].value
  {
    seq(|conditions|, i requires 0 <= i < |conditions| reads conditions => conditions[i].value)
  }

  class Condition {
    var value: Cond

    constructor (value: Cond)
      ensures this.value == value
    {
      this.value := value;
    }
  }

  datatype Metadata = Metadata(
    arn: Option<string>,
    region: Option<string>,
    partition: Option<string>,
    ownerAccountID: Option<string>)

  /** Status, conditions apart. */
  datatype RuntimeStatus = RuntimeStatus(
    metadata: Option<Metadata>,
    agentRuntimeID: Option<string>,
    agentRuntimeVersion: Option<string>,
    createdAt: Option<int>,
    status: Option<string>,
    workloadIdentity: Option<Option<string>>)

  class AgentRuntime {
    const namespace: string
    var spec: AgentRuntimeSpec
    var status: RuntimeStatus
    var conditions: seq<Condition>
    ghost var Repr: set<object>

    /** The object owns its conditions, each listed once. */
    ghost predicate Valid()
      reads this, Repr
      ensures Valid() ==> this in Repr
    {
      && this in Repr
      && (forall c | c in conditions :: c in Repr)
      && (forall i, j | 0 <= i < j < |conditions| :: conditions[i] != conditions[j])
    }

    constructor (namespace: string, spec: AgentRuntimeSpec, status: RuntimeStatus, conditions: seq<Condition>)
      ensures this.namespace == namespace && this.spec == spec && this.status == status && this.conditions == conditions
      ensures this in Repr && forall o :: o in Repr ==> o == this || exists c | c in conditions :: o == c
      ensures forall c | c in conditions :: c in Repr
    {
      this.namespace, this.spec, this.status, this.conditions := namespace, spec, status, conditions;
      Repr := {this} + set c: Condition | c in conditions :: c as object;
    }

    ghost function Conds(): seq<Cond>
      reads this, conditions
    {
      Values(conditions)
    }

    /** Every condition of the copy is a new object of its own, even where the original lists
        the same one twice. */
    method DeepCopy() returns (r: AgentRuntime)
      ensures r.Valid() && fresh(r.Repr)
      ensures r.namespace == namespace && r.spec == spec && r.status == status && r.Conds() == Conds()
    {
      var copies: seq<Condition> := [];
      for i := 0 to |conditions|
        invariant |copies| == i && fresh(copies)
        invariant forall j, k | 0 <= j < k < i :: copies[j] != copies[k]
        invariant forall j | 0 <= j < i :: copies[j].value == conditions[j].value
      {
        var c := new Condition(conditions[i].value);
        copies := copies + [c];
      }
      r := new AgentRuntime(namespace, spec, status, copies);
    }
  }

  /** What a resource manager was built for. */
  datatype Manager = Manager(awsAccountID: string, awsRegion: string, awsPartition: string)

  function WithDefaults(m: Option<Metadata>, rm: Manager): Metadata {
    var d := if m.Some? then m.value else Metadata(None, None, None, None);
    Metadata(
      d.arn,
      if d.region.Some? then d.region else Some(rm.awsRegion),
      if d.partition.Some? then d.partition else Some(rm.awsPartition),
      if d.ownerAccountID.Some? then d.ownerAccountID else Some(rm.awsAccountID))
  }

  /** The same metadata, but region, partition and account are the manager's where they were not set. */
  predicate Filled(was: Option<Metadata>, rm: Manager, now: Metadata) {
    && now.region == (if was.Some? && was.value.region.Some? then was.value.region else Some(rm.awsRegion))
    && now.partition == (if was.Some? && was.value.partition.Some? then was.value.partition else Some(rm.awsPartition))
    && now.ownerAccountID
       == (if was.Some? && was.value.ownerAccountID.Some? then was.value.ownerAccountID else Some(rm.awsAccountID))
    && now.arn == (if was.Some? then was.value.arn else None)
  }

  /** setStatusDefaults */
  method SetStatusDefaults(ko: AgentRuntime, rm: Manager)
    modifies ko`status
    ensures ko.status == old(ko.status).(metadata := Some(WithDefaults(old(ko.status.metadata), rm)))
    ensures Filled(old(ko.status.metadata), rm, ko.status.metadata.value)
  {
    if ko.status.metadata.None? {
      ko.status := ko.status.(metadata := Some(Metadata(None, None, None, None)));
    }
    var m := ko.status.metadata.value;
    if m.region.None? {
      m := m.(region := Some(rm.awsRegion));
    }
    if m.partition.None? {
      m := m.(partition := Some(rm.awsPartition));
    }
    if m.ownerAccountID.None? {
      m := m.(ownerAccountID := Some(rm.awsAccountID));
    }
    ko.status := ko.status.(metadata := Some(m));
  }
}
