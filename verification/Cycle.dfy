/** One reconcile cycle made of the operations themselves: ReadOne and LateInitialize of
    pkg/resource/agent_runtime/manager.go and newResourceDelta of delta.go, proved to compute what
    Quiescence reasons about. */
module Cycle {
  import opened Basics
  import opened Errors
  import opened Api
  import opened Resource
  import opened Conditions
  import opened AgentRuntimeManager
  import opened Delta
  import opened Quiescence
  import Codec
  import LateInit
  import ReadOverwrite
  import Tags
  import Wire

  /** The read and the comparison. The read mirrors the tags onto the resource it is given, and that
      is what is compared with what was read. */
  method Compare(service: Service, desired: AgentRuntime, rm: Manager, text: ErrorText, eq: ListEq)
    returns (latest: AgentRuntime, delta: Delta)
    requires desired.status.agentRuntimeID.Some? && service.get.Ok?
    modifies service, desired`spec
    ensures delta.Valid() && delta.differences == NextDelta(eq, old(desired.spec), service.get.value)
    ensures desired.spec == old(desired.spec).(tags := Tags.Mirrored(old(desired.spec.tags), old(desired.spec.tags)))
  {
    hide Tags.Mirrored, SpecDiff, PostCompare;
    var err;
    latest, err := ReadOne(service, desired, rm, text);
    delta := NewResourceDelta(Some(desired.spec), Some(latest.spec), eq);
  }

  /** The spec that LateInitialize leaves: it reads onto a copy, so the tags of that copy have been
      mirrored onto themselves. A failing read leaves the spec of the copy, and its own error. */
  method LateInitialize(service: Service, latest: AgentRuntime, rm: Manager, text: ErrorText)
    returns (spec: AgentRuntimeSpec, err: Option<GoError>)
    modifies service
    ensures match Find(old(ViewOf(latest)), service.get, rm)
            case Built(_) =>
              && err == None
              && spec == FirstStored(old(latest.spec), service.get.value)
                         .(tags := Tags.Mirrored(old(latest.spec.tags), old(latest.spec.tags)))
            case _ => err.Some? && spec == old(latest.spec)
  {
    hide Tags.Mirrored, Merged;
    var latestCopy := latest.DeepCopy();
    assert ViewOf(latestCopy) == ViewOf(latest);
    var observed;
    observed, err := ReadOne(service, latestCopy, rm, text);
    if err.Some? {
      return latestCopy.spec, err;
    }
    spec := LateInit.LateInitializeFromReadOneOutput(observed.spec, latestCopy.spec);
  }

  /** What the two operations do one after the other: once the spec that LateInitialize left has been
      stored, the next comparison finds nothing exactly if the created spec is settled and the service
      has kept to its choices. */
  lemma CycleQuietIff(eq: ListEq, s: AgentRuntimeSpec, p: Wire.CreateInput, r: Wire.GetOutput, q: Wire.GetOutput)
    requires Equivalence(eq) && Codec.EncodeCreate(s) == Built(p) && Serves(p, r) && Serves(p, q)
    ensures var stored := FirstStored(s, r).(tags := Tags.Mirrored(s.tags, s.tags));
            NextDelta(eq, stored, q) == [] <==> Settled(eq, s) && SameChoices(r, q)
  {
    QuiescentAcrossIff(eq, s, p, r, q);
    ReadOverwrite.TagChangesUnseen(eq, FirstStored(s, r), Tags.Mirrored(s.tags, s.tags), q);
    hide *;
  }
}
