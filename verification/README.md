# AgentRuntime reconcile pipeline: a Dafny model

This project models the part of the Bedrock AgentCore controller that reconciles an
`AgentRuntime` custom resource with the service, and proves what repeating read,
late initialisation, comparison and update can and cannot do. The tag synchroniser is
modelled with it, as are the two resources that show what a read must rebuild for a change
to be noticed: the runtime endpoint, whose read rebuilds little, and the API-key credential
provider, whose read observes the remote tags.

`dafny verify dfyconfig.toml` checks everything.

## How it is laid out

| file | what it holds |
|---|---|
| Basics, Api, Wire, Errors | nilable values, 32- and 64-bit integers, the spec's structs, the service's unions, the Go errors told apart |
| Codec, Payload, Carried | what a request carries and what a read turns back into, as functions; the builders and the read as methods proved equal to them; and as relations between spec and wire, proved to be what the functions compute |
| Trees, SpecView, Delta, FieldNames | a nil-aware comparison of field trees, the spec seen as one, the generated differ with its in-place hook, and what its paths name |
| LateInit, Quiescence, ReadOverwrite, Cycle | late initialisation, when the cycle settles, which fields a delta can name, and the cycle made of the operations |
| Resource, Conditions, References, ReferenceCycle | the heap object that operations pass around, its condition machine, the reference life cycle, and when a cycle with references settles |
| AgentRuntimeManager, Lifecycle | the operations with their status gates, and whole runs of them |
| Tags, TagSync, CredentialProvider, Endpoint | tag maps, the two-call tag protocol, the resource that reads tags and the one that does not |
| Cache | the manager cache, one caller and many |
| Pointers, DeepCopy, PointerFields, PointerReferences | the generated deep copies on explicit pointers, what the pointers hold under each name, and EnsureReferences on them |

Code that only computes is a function. Code that writes fields, loops or mutates an object is
a method, with an `ensures` that equates what it leaves with a function of what it found; the
lemmas are about those functions.

## What was found

- A spec settles exactly under `Quiescence.Settled`. The failing families are a set union
  without a member, an enum set to `""`, a nil environment value, and nil list elements that
  the list comparison can tell from `""`; each is updated again on every cycle
  (`Quiescence.UnsettledInputs`). The custom resource definition admits no nulls, so of what it
  admits only the first two families remain (`Quiescence.AdmittedQuiescentIff`), and it does
  admit both (`Quiescence.UnsettledExamples`).
- `agentRuntimeName` is compared but not sent with an update, so a changed name is updated on
  every cycle and never takes effect (`Quiescence.RenamedInput`, `ReadOverwrite.RenamedDelta`).
- Reads of an `AgentRuntime` and of an endpoint copy the tags they are then compared with, so
  tag changes on these resources never reach the synchroniser; the endpoint's runtime version
  is in the same position.
- `FilterSystemTags` is documented to drop `services.k8s.aws/*` keys too; the code drops only keys
  beginning with `aws:` and the listed ones (`Tags.FilteredExact`). The model follows the code.
- `ResolveReferences` is documented to return a copy; it resolves into the object it is given.
  The model follows the code.
- Resolving an invalid resource (references and ids in the same list) and clearing it loses the
  declared ids; `References.ClearUndoesIff` shows these are the only ones.
- A resource with references settles just as one without, as long as its references keep resolving
  to the same ids (`ReferenceCycle.ResolvedQuiescentIff`).
- Two calls for different accounts or regions can share a cached manager only if an id, a region
  or a role has a slash in it; a role usually has one, but the other call's id or region must
  have one too (`Cache.SharedIff`, `Cache.KeyInjective`).
- `IsSynced` accepts `CREATE_FAILED` and `UPDATE_FAILED`, while the end-to-end test
  (`test/e2e/tests/test_agent_runtime.py`) takes synced to mean `READY`.
- A create whose answer is lost, or arrives and is not saved, leaves nothing recorded and is
  repeated; `Lifecycle.AtMostOneIff` shows that nothing else makes a second runtime. The
  post-create error wrapper in `sdkCreate` does not change that: nothing after the call can fail.
- `onError` can answer Terminal for a retryable error if an earlier duplicate Terminal=True
  condition is present (`Conditions.StaleDuplicateInput`); no run that starts without duplicates
  gets there.

## Meanings given to what is outside the repository

- `HasNilDifference` is a difference in nilness, `Path.Contains` a dotted prefix, map equality
  is extensional, `SliceStringPEqual` is any equivalence relation (a parameter, `ListEq`), and
  the semantic deep equality of claims identifies a nil list with an empty one.
- A path is a sequence of field names; the values a difference carries are the compared
  subtrees, in which references do not appear.
- The service is explicit state. In `Quiescence` it stores requests as sent and chooses values
  only for an unset lifecycle, platform version or server protocol; in `Lifecycle` it never
  issues an id twice, answers about the runtime asked for and reports a runtime missing only
  when it is; a failing tag call may have taken effect on any of its keys.
- `err.Error()` is a parameter, and so are the answers of the API reader and of
  `ValidateCrossNamespaceReference`. Service errors are values of `ApiError`, as `errors.As`
  finds them.
- A nil claim or filesystem element makes the builders dereference nil; the model has an outcome
  `Panicked` for that and for a missing ARN where the source dereferences one.
- The create and the update builder are two separate copies in the source. Their specifications,
  `EncodeCreate` and `EncodeUpdate`, share the encoders of the fields, so
  `Codec.UpdateRefinesCreate` follows closely from their definitions; that each copy meets its
  specification is what `Payload.NewCreateRequestPayload` and `Payload.NewUpdateRequestPayload`
  prove, and that those two methods follow the two copies was established by reading.
- In the pointer modules a set `Cells` bounds what an argument can reach. `SpecIn(s, c)` asks only
  that it does, which some finite set always meets, so it excludes no argument, shared pointers
  included; `fresh(n)` for the result then says that every cell the result reaches is new.
- A field copied under a nil check is copied unconditionally where that is the same assignment.

## Model

| member | source | states |
|---|---|---|
| Quiescence.QuiescentIff | pkg/resource/agent_runtime/manager.go:211-290 | After create, read and late initialisation the next comparison is empty, so no update is sent, if and only if the declared spec is settled: set unions have a member, no enum is "", no environment value is nil, nil list elements are invisible to the list comparison |
| Quiescence.QuiescentAcrossIff | pkg/resource/agent_runtime/manager.go:211-290 | Against any later answer that serves the same request, whatever its status or version, the comparison is empty if and only if the spec is settled and the service has kept to its choices |
| Quiescence.QuietForeverIff | pkg/resource/agent_runtime/manager.go:211-290 | Over any sequence of such answers every comparison from the second on is empty if and only if the spec is settled and no answer changes a choice, or there is no second one |
| Quiescence.AdmittedQuiescentIff | config/crd/bases/bedrockagentcorecontrol.services.k8s.aws_agentruntimes.yaml:45-293 | Of the specs the custom resource definition admits, whatever the list comparison, exactly those settle whose set unions have a member and whose enums are not "" |
| Quiescence.UnsettledInputs | pkg/resource/agent_runtime/sdk.go:525-537 | Any spec that can be encoded with a set union without a member, an enum "" or a nil environment value, anywhere in it: it differs from every answer that serves it |
| Quiescence.UnsettledExamples | config/crd/bases/bedrockagentcorecontrol.services.k8s.aws_agentruntimes.yaml:93-154 | Two admitted inputs of that kind: a container, a name and a role, with an empty authorizer configuration or the network mode "" |
| Quiescence.RenamedInput | pkg/resource/agent_runtime/sdk.go:798-1035 | Any spec, settled or not, that names the runtime otherwise than the service still differs after every applied update |
| ReadOverwrite.RenamedDelta | pkg/resource/agent_runtime/sdk.go:798-1035 | If it is settled, the name is all that still differs |
| Cycle.Compare | pkg/resource/agent_runtime/manager.go:97-115 | ReadOne and the differ, one after the other, compute the delta that the theorems above are about |
| Cycle.LateInitialize | pkg/resource/agent_runtime/manager.go:211-250 | LateInitialize leaves the spec they are about, its tags mirrored onto themselves by the read; a failing read leaves the spec as it was |
| Cycle.CycleQuietIff | pkg/resource/agent_runtime/manager.go:211-290 | So the cycle made of the two operations is quiet exactly for a settled spec and unchanged choices |
| Quiescence.FirstDeltaIff | pkg/resource/agent_runtime/delta.go:178-242 | Before late initialisation a settled spec is updated exactly when the service chose a lifecycle or a server protocol for it; a chosen platform version alone never causes an update |
| Quiescence.UpdateSettlesIff | pkg/resource/agent_runtime/sdk.go:798-1035 | After an applied update the next comparison is empty if and only if the spec is settled and names the runtime as the service does: the update carries no name, so a changed name is updated for ever |
| Quiescence.StoredFieldsSettle | pkg/resource/agent_runtime/sdk.go:118-331 | Field by field, what the service stores as sent comes back equivalent exactly when the spec is settled |
| Quiescence.ReadOfServed | pkg/resource/agent_runtime/sdk.go:94-348 | A read of what was created is the normalised spec, apart from the three fields the service may choose |
| Quiescence.ChoicesServed | pkg/resource/agent_runtime/manager.go:259-290 | The assumption on the service leaves it every choice: any value for a timeout, version or protocol the request left unset, and any state |
| Quiescence.DefaultsAgree | pkg/resource/agent_runtime/manager.go:259-290 | After late initialisation from a read that serves the request the three defaulted structs agree with the read, unless the server protocol was set to "" |
| ReadOverwrite.LateInitDelta | pkg/resource/agent_runtime/manager.go:259-290 | For any observed resource: after late initialisation one of the four fields differs from it exactly where the user set a value, the observed struct is there and its value is another; what was unset and supplied never differs |
| ReferenceCycle.ResolvedQuiescentIff | pkg/resource/agent_runtime/references.go:45-154 | For every valid resource with references: create as resolved, read, late-initialise, restore, clear, store, resolve again at a later time; the next comparison is empty if and only if the created spec is settled, the service kept to its choices and the references resolve to the same ids |
| Carried.CreateSays | pkg/resource/agent_runtime/sdk.go:462-701 | A create request is built exactly if it is the one that says what the spec says, field by field and in the service's terms, tags included: every value under its own name, nil strings as "", nil lists left out, each union its one member, timeouts within 32 bits |
| Carried.UpdateSays | pkg/resource/agent_runtime/sdk.go:798-1035 | The same of an update request, with the id in place of the name and the tags |
| Carried.ReadSays | pkg/resource/agent_runtime/sdk.go:103-331 | The spec after a read is exactly the one that says what the answer says: "" as nil, an unknown union member as a set union without a member, no references, the tags left alone |
| Carried.FaultSays | pkg/resource/agent_runtime/sdk.go:470-648 | The error of a failing builder is that of the first fault, in the order the fields are built, and names the member or the field |
| Codec.RoundTrip | pkg/resource/agent_runtime/sdk.go:103-331 | Reading back what was created gives the original spec up to Normalize, and the normalised spec encodes to the same request |
| Codec.NormalizeIdempotent | pkg/resource/agent_runtime/sdk.go:103-331 | Normalising twice is normalising once |
| Codec.ReadBack | pkg/resource/agent_runtime/sdk.go:103-331 | A spec that was read can always be encoded again, and says exactly what was read if and only if no union of the answer holds an unknown member |
| Codec.CreateBuiltIff | pkg/resource/agent_runtime/sdk.go:462-701 | A payload is built if and only if no union has two members, no claim or filesystem is nil and both timeouts fit in 32 bits |
| Codec.CreateTerminalIff | pkg/resource/agent_runtime/sdk.go:470-578 | The builder ends in a terminal error if and only if the first fault, in the order fields are built, is a union with two members |
| Codec.CreateRetryableIff | pkg/resource/agent_runtime/sdk.go:630-648 | It ends in a plain error if and only if the first fault is a timeout outside int32 |
| Codec.CreatePanicsIff | pkg/resource/agent_runtime/sdk.go:540-604 | It dereferences nil if and only if the first fault is a nil claim or a nil filesystem |
| Codec.UpdateRefinesCreate | pkg/resource/agent_runtime/sdk.go:798-1035 | The update builder succeeds, fails or panics exactly as the create builder does, and its request differs only by the id added and the name and tags left out |
| Codec.EncodeAllOutcome | pkg/resource/agent_runtime/sdk.go:540-604 | A list encodes if and only if all its elements do; otherwise its first failing element decides the outcome |
| Payload.NewCreateRequestPayload | pkg/resource/agent_runtime/sdk.go:462-701 | The builder that fills fields, flips isInterfaceSet flags and appends in loops produces EncodeCreate of the spec, failures included |
| Payload.NewUpdateRequestPayload | pkg/resource/agent_runtime/sdk.go:798-1035 | The same for the update request |
| Payload.BuildArtifact | pkg/resource/agent_runtime/sdk.go:468-523 | The artifact union: first member wins the flag, a second set member fails |
| Payload.BuildClaims | pkg/resource/agent_runtime/sdk.go:540-592 | The claims loop appends one encoded claim after the other and stops at the first fault |
| Payload.BuildLifecycle | pkg/resource/agent_runtime/sdk.go:627-650 | int64 timeouts are range-checked and narrowed to int32 |
| Payload.ReadSpec | pkg/resource/agent_runtime/sdk.go:103-331 | The read rebuilds every field of the spec but the tags from the answer |
| Payload.ReadClaims | pkg/resource/agent_runtime/sdk.go:180-215 | The claims loop of the read |
| AgentRuntimeManager.FindExact | pkg/resource/agent_runtime/sdk.go:60-349 | A read asks for the recorded id and version; what the service answers is what spec and status say afterwards, an unreported status as nil; ResourceNotFoundException is NotFound, any other service error itself |
| AgentRuntimeManager.MergedExact | pkg/resource/agent_runtime/sdk.go:402-445 | The status after an answer, field by field: id, version, time, status and identity are the answer's, the ARN stands if none is reported, region, partition and account are filled in |
| AgentRuntimeManager.CreateExact | pkg/resource/agent_runtime/sdk.go:381-458 | One request, saying what the spec says, exactly if it can be said; success exactly if it is sent and accepted; the service's error handed on; only the status changes |
| AgentRuntimeManager.UpdateExact | pkg/resource/agent_runtime/sdk.go:705-794 | When an update succeeds, exactly, what it then leaves, and for each way it fails the error: the tag call's, one to be retried naming the status at a closed gate, the service's |
| AgentRuntimeManager.DeleteExact | pkg/resource/agent_runtime/sdk.go:1038-1066 | One request for the recorded id exactly if the status is unset, READY, CREATE_FAILED or UPDATE_FAILED; then the service's answer decides; else an error to be retried |
| AgentRuntimeManager.AnswerExact | pkg/resource/agent_runtime/manager.go:420-440 | The error handed back is Terminal for an error of the terminal class and every other error itself |
| AgentRuntimeManager.TagHalfAims | pkg/resource/agent_runtime/sdk.go:711-720 | The tag half of an update, from a fresh read: if it ends well the remote tags are the desired ones |
| AgentRuntimeManager.SdkFind | pkg/resource/agent_runtime/sdk.go:60-349 | Without a recorded id nothing is sent and the answer is NotFound; otherwise one Get is sent, ResourceNotFoundException becomes NotFound, and a success yields a fresh object with spec and status merged and conditions copied |
| AgentRuntimeManager.SdkCreate | pkg/resource/agent_runtime/sdk.go:381-458 | A create request is sent exactly when the payload is built, and only the status of the copy changes |
| AgentRuntimeManager.SdkUpdate | pkg/resource/agent_runtime/sdk.go:705-794 | Tags first and only if the delta names them; nothing more if it names nothing else; then the gate on the latest status; then the payload; then one update request |
| AgentRuntimeManager.SdkDelete | pkg/resource/agent_runtime/sdk.go:1038-1066 | A delete request is sent exactly when the status gate is open |
| AgentRuntimeManager.MergeState | pkg/resource/agent_runtime/sdk.go:402-445 | Merging an answer into the status: the ARN survives an answer without one, every other field is the answer's |
| AgentRuntimeManager.ReadOne | pkg/resource/agent_runtime/manager.go:97-115 | The service-managed tags read are mirrored onto the resource passed in; conditions and error follow onError or onSuccess |
| AgentRuntimeManager.Create | pkg/resource/agent_runtime/manager.go:120-137 | Requests sent, resource, conditions and error of a create, in every outcome; no error exactly if the spec can be sent and the service accepts |
| AgentRuntimeManager.Update | pkg/resource/agent_runtime/manager.go:147-167 | A failed update hands back the latest resource, a successful one the desired, each with its conditions updated |
| AgentRuntimeManager.Delete | pkg/resource/agent_runtime/manager.go:172-190 | A successful delete hands back no resource, a gated or failed one the resource with its conditions updated; no error exactly if the status is unset or one of the three and the service agrees |
| AgentRuntimeManager.GatesHold | pkg/resource/agent_runtime/sdk.go:729-746 | No update request passes a closed gate; a delete request is sent exactly through its gate; what may be updated may be deleted; a resource is synced exactly when it reports a status in which it may be deleted |
| AgentRuntimeManager.UpdateSentIff | pkg/resource/agent_runtime/sdk.go:716-752 | An update request is sent if and only if something other than the tags differs, differing tags were synchronised, the status is READY or unset, and the spec encodes |
| AgentRuntimeManager.FaultyCreate | pkg/resource/agent_runtime/manager.go:120-137 | A create that sends nothing ends Terminal=True exactly when the first fault is a union with two members, Recoverable=True and not Terminal exactly when it is an over-wide timeout, and panics exactly when it is a nil element |
| Lifecycle.RunSafe | pkg/resource/agent_runtime/sdk.go:72-89 | Over every run of reads, creates, updates, deletes, remote changes and lost answers: no create is sent while the recorded runtime exists, no update or delete unless its target is the runtime last observed and its last observed status lets it through |
| Lifecycle.ReadObserves | pkg/resource/agent_runtime/sdk.go:332-336 | The status a read observes, holds and records is the one the runtime has at the service |
| Lifecycle.ReadMisses | pkg/resource/agent_runtime/sdk.go:66-92 | A read without an id, or answered by ResourceNotFoundException, finds the runtime missing; after any other error nothing is known |
| Lifecycle.CreateObserves | pkg/resource/agent_runtime/sdk.go:399-443 | A create observes and records the id and status the service answers |
| Lifecycle.UpdateObserves | pkg/resource/agent_runtime/sdk.go:752-792 | An update request goes to the recorded runtime, whatever becomes of it; one that is applied observes the status the service answers |
| Lifecycle.DeleteRecorded | pkg/resource/agent_runtime/sdk.go:1047-1061 | A delete request goes to the recorded runtime, exactly if the status held lets it through |
| Lifecycle.StepKeeps | pkg/resource/agent_runtime/sdk.go:381-458 | Every step keeps the invariant behind it |
| Lifecycle.AtMostOneIff | pkg/resource/agent_runtime/sdk.go:447-457 | At every point of a run there is at most one runtime made by the controller, and stays so as long as nothing more is lost, if and only if every create that made one had its answer arrive and recorded |
| Lifecycle.StepSingleIff | pkg/resource/agent_runtime/sdk.go:447-457 | The same for one step from any state with every runtime recorded |
| Lifecycle.LostCreateDuplicates | pkg/resource/agent_runtime/sdk.go:447-457 | From any reachable state, whether the answer of a create was lost or arrived and was not saved, a read and a create that lose nothing can follow, and then two runtimes exist |
| Conditions.UpdateConditions | pkg/resource/agent_runtime/sdk.go:1105-1178 | updateConditions works on a copy and sets exactly the conditions Updated describes; its argument is not modified |
| Conditions.SetCondition | pkg/resource/agent_runtime/sdk.go:1129-1171 | A condition is written through the pointer found in the list, or appended |
| Conditions.OnError | pkg/resource/agent_runtime/manager.go:420-440 | The resource and the error handed back: Terminal if some condition is Terminal=True afterwards, else the error itself |
| Conditions.OnSuccess | pkg/resource/agent_runtime/manager.go:444-455 | The argument itself when there was no condition to update, else an updated copy |
| Conditions.RunKeeps | pkg/resource/agent_runtime/sdk.go:1105-1178 | Over any run of outcomes: at most one Terminal and one Recoverable condition if it began so, at most two entries more in total, every other condition unchanged |
| Conditions.StepKeeps | pkg/resource/agent_runtime/sdk.go:1105-1178 | One outcome keeps uniqueness, touches no other condition, and grows the list only by a kind it lacked |
| Conditions.TerminalAnswerIff | pkg/resource/agent_runtime/manager.go:420-440 | onError answers Terminal if and only if its error is in the terminal class or a stale Terminal=True condition stands before the last Terminal one |
| Conditions.TerminalAnswerUnique | pkg/resource/agent_runtime/manager.go:420-440 | Under uniqueness: if and only if its error is in the terminal class |
| Conditions.StaleDuplicateInput | pkg/resource/agent_runtime/manager.go:420-440 | Two Terminal conditions, the earlier one True: a throttling error is answered as terminal |
| Conditions.FlagsAfter | pkg/resource/agent_runtime/sdk.go:1128-1171 | Under uniqueness Terminal follows the last error alone; Recoverable too, except that a terminal error leaves it as it was |
| Conditions.TerminalErrors | pkg/resource/agent_runtime/sdk.go:1182-1199 | By kind of error: ValidationException and the builder's TerminalError end in Terminal=True, inside any wrapping, the two secret errors unwrapped, and nothing else |
| Conditions.Written | pkg/resource/agent_runtime/sdk.go:1128-1171 | What stands in the two conditions after any outcome, status and message: the service's own error if one is wrapped, otherwise the whole error, nothing after a success |
| Conditions.AnyPresentIff | pkg/resource/agent_runtime/sdk.go:1172-1177 | When a success is written down at all: exactly if one of the three kinds of condition is there |
| References.ResolveReferences | pkg/resource/agent_runtime/references.go:132-154 | Resolution appends to the lists of the very object passed in, keeps partial progress on a failure, and reports invalid fields last |
| References.ResolveKind | pkg/resource/agent_runtime/references.go:182-219 | The loop over one list, with skipped elements, the first failure and hasReferences |
| References.GetReferencedResourceState | pkg/resource/agent_runtime/references.go:225-273 | Terminal before synced before missing id |
| References.ClearResolvedReferences | pkg/resource/agent_runtime/references.go:45-65 | Works on a copy; a list is cleared exactly where references are declared |
| References.EnsureReferences | pkg/resource/agent_runtime/references.go:86-123 | Works on copies; missing references are restored, containing structs created where needed |
| References.ReferencedStateExact | pkg/resource/agent_runtime/references.go:225-273 | A reference yields an id if and only if its object is Synced=True, not Terminal=True and has that id; otherwise the read's error, or one that names the object: terminal before not synced before no id |
| References.ElementErrors | pkg/resource/agent_runtime/references.go:190-206 | Why an element fails before that: an empty name, which is reported with the field, then a refused namespace, then a failing read |
| References.InvalidExact | pkg/resource/agent_runtime/references.go:158-176 | A resource is invalid exactly if references and ids stand in one list; the error names the first such list |
| References.HasReferencesIff | pkg/resource/agent_runtime/references.go:182-219 | hasReferences, even where a failure ends the loop early, says whether some element declares a reference |
| References.ResolvedKindExact | pkg/resource/agent_runtime/references.go:182-219 | After one list the ids before the first failure stand in order behind the old ones, the error is that failure's, nothing else changed |
| References.ResolvedErrIff | pkg/resource/agent_runtime/references.go:132-154 | The error is nil if and only if the resource is valid and every reference of both lists resolves |
| References.IdsInOrder | pkg/resource/agent_runtime/references.go:182-219 | Of any list, skipped elements included, up to a point before which nothing fails: the ids are those of exactly the declaring positions, in increasing order |
| References.ResolvedExact | pkg/resource/agent_runtime/references.go:132-154 | Over both lists: ids appended up to each list's first failure, a failure in the first leaves the second untouched, the error is the first failure's, and an invalid resource is reported only if there was none |
| References.ClearUndoesIff | pkg/resource/agent_runtime/references.go:45-65 | Clearing after resolving, even after a failure, restores the declared spec up to nil versus empty if and only if it was valid |
| References.EnsuredExact | pkg/resource/agent_runtime/references.go:67-123 | Every concrete value of latest stands, references latest has are kept, missing ones come from desired, and nothing is written when desired declares none |
| References.LifeCycle | pkg/resource/agent_runtime/references.go:67-123 | Resolve, read, ensure, clear: a valid resource ends with exactly its declared references, no id they resolved to, and the service's ids where none were declared |
| References.WithoutEnsure | pkg/resource/agent_runtime/references.go:71-75 | Without EnsureReferences a read loses every declared reference and clearing keeps every resolved id |
| Delta.NewResourceDelta | pkg/resource/agent_runtime/delta.go:34-269 | The nested conditionals report exactly the tree difference of the two specs, then the hook |
| Delta.CompareArtifact | pkg/resource/agent_runtime/delta.go:46-106 | The artifact part of it |
| Delta.CompareJWT | pkg/resource/agent_runtime/delta.go:117-155 | The authorizer part of it |
| Delta.CustomPostCompare | pkg/resource/agent_runtime/hooks.go:17-28 | Compaction in the shared backing array leaves exactly the differences outside Spec.PlatformVersion, in order, when the desired version is unset |
| Delta.DeltaEmptyIff | pkg/resource/agent_runtime/delta.go:34-265 | The delta is empty if and only if the specs are equivalent field by field, references ignored |
| Delta.DeltaExact | pkg/resource/agent_runtime/delta.go:34-265 | A difference is reported if and only if its path leads through non-nil structs on both sides to two nodes that differ by themselves, and it carries those two nodes |
| FieldNames.ReportedIff | pkg/resource/agent_runtime/delta.go:45-265 | A difference is reported at a path exactly if looking that path up by the Go field names finds a nil on one side only, or two values that are not the same |
| FieldNames.LookAgrees | pkg/resource/agent_runtime/delta.go:45-265 | At every path the tree that is compared has what the spec has under that name |
| FieldNames.UpdateAsks | pkg/resource/agent_runtime/sdk.go:711-724 | The two questions an update asks of the delta: the tags differ exactly if the maps do, and anything else exactly if the specs are not equivalent once the tags are taken to agree |
| Delta.DeltaShape | pkg/resource/agent_runtime/delta.go:34-265 | No path twice, no path inside another, and swapping the arguments reports the same paths in the same order |
| Delta.DropAtExact | pkg/resource/agent_runtime/hooks.go:17-28 | What the hook keeps, difference by difference |
| Delta.PostCompareExact | pkg/resource/agent_runtime/hooks.go:17-28 | No version difference remains when the desired version is unset, nothing changes when it is set, nothing else is lost or added, and the hook is idempotent |
| Delta.PostCompareKeepsOrder | pkg/resource/agent_runtime/hooks.go:17-28 | Of any two differences the hook keeps, the earlier stays before the later, with what it keeps of the rest around them |
| Delta.ResourceDeltaEmptyIff | pkg/resource/agent_runtime/delta.go:267-268 | With the hook: empty if and only if the specs are equivalent once an unset desired version is taken to agree with anything |
| Delta.EmptyDeltaIsEquivalence | pkg/resource/agent_runtime/delta.go:34-265 | Having an empty delta is reflexive, symmetric and transitive on specs if the list comparison is so on lists |
| Trees.DiffExact | pkg/resource/agent_runtime/delta.go:45-265 | The same exactness for any two trees of one shape |
| Trees.NoPathInsideAnother | pkg/resource/agent_runtime/delta.go:45-265 | No reported path is a strict dotted prefix of another |
| SpecView.SpecTrees | pkg/resource/agent_runtime/delta.go:45-265 | The tree view of a spec and the field-by-field relation describe the same equivalence |
| SpecView.ClaimsEqualExact | pkg/resource/agent_runtime/delta.go:141-147 | Claims are the same exactly if they agree field by field, a nil list of match values and an empty one alike |
| ReadOverwrite.OnlyRebuiltFields | pkg/resource/agent_runtime/sdk.go:94-348 | Every difference between a resource and its own read lies at one of the twelve fields the read rebuilds, never at the tags |
| ReadOverwrite.TagChangesUnseen | pkg/resource/agent_runtime/sdk.go:711-721 | Whatever tags are declared, the delta is the same: no tag change on an AgentRuntime is ever synchronised |
| Endpoint.NewResourceDelta | pkg/resource/agent_runtime_endpoint/delta.go:33-79 | The endpoint differ reports the tree difference of its five fields, and nil against non-nil |
| Endpoint.SdkFind | pkg/resource/agent_runtime_endpoint/sdk.go:111-120 | The endpoint read rebuilds description and name and nothing else of the spec |
| Endpoint.OnlyDescriptionAndName | pkg/resource/agent_runtime_endpoint/sdk.go:92-133 | Between an endpoint and its own read only the description and the name can differ |
| Endpoint.VersionNeverUpdates | pkg/resource/agent_runtime_endpoint/sdk.go:275-303 | A changed runtime version or tag map never changes the delta |
| LateInit.LateInitializeFromReadOneOutput | pkg/resource/agent_runtime/manager.go:259-290 | The nested nil checks compute the merge of LateInitialized |
| LateInit.Conservative | pkg/resource/agent_runtime/manager.go:259-290 | A value the user set never changes, unset ones take the observed value, inside partly set structs too, and no other field changes |
| LateInit.Stable | pkg/resource/agent_runtime/manager.go:259-290 | Late initialisation is idempotent, and once all four values are set no later answer changes anything |
| Tags.ConvertToOrderedACKTags | pkg/resource/agent_runtime/tags.go:36-52 | Map copy with nil values read as "" |
| Tags.FromACKTags | pkg/resource/agent_runtime/tags.go:58-67 | Map copy back to pointers |
| Tags.IgnoreSystemTags | pkg/resource/agent_runtime/tags.go:74-81 | Deleting while ranging removes exactly the "aws:" keys and the listed ones |
| Tags.SyncAWSTags | pkg/resource/agent_runtime/tags.go:102-108 | Every "aws:" entry of the second map overrides the first, nothing else changes |
| Tags.MirrorAWSTags | pkg/resource/agent_runtime/manager.go:379-391 | The tags stored into the desired resource |
| Tags.FilterSystemTags | pkg/resource/agent_runtime/manager.go:356-366 | The tags left after filtering |
| Tags.MirroredExact | pkg/resource/agent_runtime/tags.go:102-108 | Entry by entry: a key beginning with "aws:" takes the latest value, every other keeps the desired one, nil as "" |
| Tags.FilteredExact | pkg/resource/agent_runtime/tags.go:74-81 | Entry by entry: no key beginning with "aws:" and none of the listed ones is left |
| Tags.FilterUndoesMirror | pkg/resource/agent_runtime/manager.go:356-391 | Filtering after mirroring gives what filtering alone gives |
| Tags.MirrorIdempotent | pkg/resource/agent_runtime/manager.go:379-391 | Mirroring the same observation twice changes nothing more |
| TagSync.SyncTags | pkg/tags/sync.go:57-115 | Add first, then remove, stopping at a failure: the calls made, the remote map and the result are those of Attempted |
| TagSync.TagsToAdd | pkg/tags/sync.go:69-76 | Exactly the desired entries that are missing or different |
| TagSync.TagsToDelete | pkg/tags/sync.go:78-83 | Exactly the existing keys that are not desired |
| TagSync.AttemptOrder | pkg/tags/sync.go:57-115 | At most one call that adds, then at most one that removes, none empty, none after a failing one; success exactly if every call made succeeds |
| TagSync.AttemptNames | pkg/tags/sync.go:57-115 | Key by key: added exactly if missing or different, with the desired value; removed exactly if not desired and the addition did not fail |
| TagSync.AttemptShrinks | pkg/tags/sync.go:57-115 | One attempt from a fresh read: disagreement never grows, shrinks by at least one key per successful call, is empty on success, and agreement makes no call |
| TagSync.AttemptTouches | pkg/tags/sync.go:57-115 | Keys on which both maps agree are named in no call and stand |
| TagSync.RunConverges | pkg/tags/sync.go:57-158 | Over any run of retries the successful calls are at most the keys that disagreed at its start |
| TagSync.QuietAfterSuccess | pkg/tags/sync.go:57-115 | Once in agreement no later attempt makes a call |
| CredentialProvider.SdkFind | pkg/resource/api_key_credential_provider/sdk.go:56-122 | The read takes its tags from the remote list, and fails or panics as the source does |
| CredentialProvider.TagsDiffer | pkg/resource/api_key_credential_provider/delta.go:33-65 | Between a provider and any read of it that succeeds only name and tags can differ; the tags do exactly when the declared ones, service-managed keys mirrored in, are not the remote ones |
| CredentialProvider.NewResourceDelta | pkg/resource/api_key_credential_provider/delta.go:33-65 | The provider differ reports the tree difference of its three fields, and nil against non-nil |
| CredentialProvider.FoundExact | pkg/resource/api_key_credential_provider/sdk.go:56-122 | How a read ends: with the service's name and tags, NotFound, the error of the call that failed, or a nil ARN |
| CredentialProvider.AfterTagsExact | pkg/resource/api_key_credential_provider/sdk.go:265-340 | A request goes out exactly if something besides the tags differs and the secret can be read; it carries the declared name and a non-empty secret; a failing answer is the error handed back |
| CredentialProvider.SdkUpdate | pkg/resource/api_key_credential_provider/sdk.go:244-309 | Tags first and nothing after a failing tag call; then one request exactly if something besides the tags differs and the secret can be read |
| CredentialProvider.Reconcile | pkg/resource/api_key_credential_provider/manager.go:97-107 | Read, mirror, compare, update as one cycle: a read that fails makes no call, otherwise the tag calls are those of one pass; the request follows exactly if they succeed, the service reports another name and the secret can be read, and carries the declared name |
| CredentialProvider.PassResult | pkg/resource/api_key_credential_provider/sdk.go:255-267 | A pass whose calls succeed leaves the declared map overlaid with the remote "aws:" entries |
| CredentialProvider.PassSparesAWS | pkg/resource/api_key_credential_provider/manager.go:345-357 | However its calls end, a pass names no "aws:" key the remote holds, and every such entry stands |
| CredentialProvider.SecondPassQuiet | pkg/resource/api_key_credential_provider/sdk.go:255-267 | A second pass makes no calls |
| CredentialProvider.FailuresLeaveNothing | pkg/resource/api_key_credential_provider/hooks.go:49-66 | Any run of failing passes followed by a successful one ends where a single successful pass would |
| Cache.KeyInjective | pkg/resource/agent_runtime/manager_factory.go:61-61 | The "id/region/role" keys of two calls with slash-free id and region are equal if and only if all three parts are |
| Cache.SlashCollides | pkg/resource/agent_runtime/manager_factory.go:61-61 | A slash may be moved from the id or the region into the next part without changing the key |
| Cache.SharedIff | pkg/resource/agent_runtime/manager_factory.go:61-61 | Some call for another account or region has the same key if and only if the id, the region or the role has a slash in it |
| Cache.ManagerFactory.ManagerFor | pkg/resource/agent_runtime/manager_factory.go:48-79 | One caller, any account id and region: the cached manager untouched, or a new one stored under the key, or the failure to build one and nothing stored; the manager is for the account and region asked for whenever neither this call nor the one that built it has a slash in them, and its account, region and partition are always those of the call that built it |
| Cache.InterleavingSafe | pkg/resource/agent_runtime/manager_factory.go:58-79 | Over every interleaving of any calls: what is cached or returned was built by a call with that key, so for the account and region asked for if neither call has a slash in them; keys never leave, lookups and stores exclude each other, a lookup hits exactly from the first store of its key on, and those that build are exactly those that looked before that store |
| Cache.Conservation | pkg/resource/agent_runtime/manager_factory.go:58-79 | For every key in every state the invariant admits: the callers that have built and those about to are disjoint and together exactly the early lookers, each builds at most once, and no caller that looks after the first store is among them |
| Cache.AgreeStep | pkg/resource/agent_runtime/manager_factory.go:71-78 | Every step keeps every cached and held manager one that a call with the same key built, and removes no key |
| Resource.AgentRuntime.DeepCopy | apis/v1alpha1/zz_generated.deepcopy.go:775-791 | The copy has the same spec, status and conditions, and every condition is a new object |
| Resource.SetStatusDefaults | pkg/resource/agent_runtime/sdk.go:1083-1101 | Region, partition and account are the manager's exactly where they were unset |
| Pointers.CopyMap | apis/v1alpha1/zz_generated.deepcopy.go:689-704 | Maps of string pointers: equal entries, nil values kept, every cell new |
| DeepCopy.CopySpec | apis/v1alpha1/zz_generated.deepcopy.go:667-762 | The copy of a spec stands for the same spec, and every cell it reaches, through all its structs, lists and maps, is new |
| DeepCopy.CopyStatus | apis/v1alpha1/zz_generated.deepcopy.go:775-817 | The same for a status with its metadata, conditions and times |
| PointerFields.SpecSays | apis/v1alpha1/zz_generated.deepcopy.go:667-762 | The value a heap spec stands for holds, under every name and down to the last cell, what its pointers hold; so a copy that stands for the same value has the same contents |
| PointerFields.StatusSays | apis/v1alpha1/zz_generated.deepcopy.go:775-817 | The same of a status and its conditions |
| DeepCopy.CopyArtifact | apis/v1alpha1/zz_generated.deepcopy.go:387-399 | A union of pointers to structs with lists of their own |
| DeepCopy.CopyAuthorizer | apis/v1alpha1/zz_generated.deepcopy.go:949-956 | The deepest field: down to the list of claims and the lists inside each |
| DeepCopy.CopyClaims | apis/v1alpha1/zz_generated.deepcopy.go:2541-2551 | A list of pointers to claims: nil positions kept, every claim new to its last cell |
| DeepCopy.CopyFilesystems | apis/v1alpha1/zz_generated.deepcopy.go:705-715 | A list of pointers to structs with pointers of their own |
| DeepCopy.CopyNetwork | apis/v1alpha1/zz_generated.deepcopy.go:7478-7490 | The network configuration, its own cells and those of its fields apart |
| DeepCopy.CopyVPC | apis/v1alpha1/zz_generated.deepcopy.go:10269-10314 | Four lists, order and nil positions kept, and no cell shared |
| PointerReferences.RestoreNetwork | pkg/resource/agent_runtime/references.go:96-121 | The two network configurations, whatever of either is nil: missing structs are allocated, missing lists handed over by pointer, only cells of the copy of latest written |
| PointerReferences.EnsureReferences | pkg/resource/agent_runtime/references.go:86-123 | On whole specs: the result stands for References.Ensured of the arguments, every cell it reaches is new, and neither argument is written to |
| PointerReferences.RestoredIsEnsured | pkg/resource/agent_runtime/references.go:96-121 | What happens to the network configuration is all that Ensured says, for every pair of specs |

## Left out

- Lifecycle.RunSafe: what an update or delete does to the runtime's status is left to arbitrary remote steps, because the service decides it.
- DeepCopy.CopyClaims, DeepCopy.CopyFilesystems: the elements are copied one by one and then placed in the new list, where the source places each as it goes.
- CredentialProvider.SdkUpdate: the secret's value and the status fields of the answer stay outside; whether reading the secret fails is a parameter.
- The endpoint's own create, update and delete: generated copies of the runtime's, with the same gates.
- LateInitialize's condition writing and requeue: `incompleteLateInitialization` is constantly false, so only the merge matters.
- EnsureTags, `acktags.Merge` and default tags: their meaning is the runtime library's.
- nil conditions entries, nil resources passed to the manager, and typed-nil union pointers: the source panics or cannot receive them.
- A nil conditions list and an empty one are the same list here; nothing in the modelled code tells them apart after `setStatusDefaults`.
- Error texts are kept where they tell errors apart; the retry delays of `ackrequeue` are not.
- Metrics, logging, contexts, requeue durations and the HTTP client.
- The remaining resources of the controller, the CRD validation patterns and immutability rules, registry, descriptors and identifiers.
- The partition is not part of the cache key; it comes from one configuration per process and the model passes it through.
