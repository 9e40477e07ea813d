/** The operations of the AgentRuntime resource manager: sdkFind, sdkCreate, sdkUpdate and
    sdkDelete of pkg/resource/agent_runtime/sdk.go under ReadOne, Create, Update and Delete of
    manager.go. The service's answers are given; what it is sent is recorded in order. */
module AgentRuntimeManager {
  import opened Basics
  import opened Errors
  import opened Api
  import opened Resource
  import opened Conditions
  import opened Trees
  import opened Delta
  import Carried
  import Codec
  import Payload
  import Tags
  import TagSync
  import Wire

  datatype Request =
    | GetAgentRuntime(id: Option<string>, version: Option<string>)
    | CreateAgentRuntime(create: Wire.CreateInput)
    | UpdateAgentRuntime(update: Wire.UpdateInput)
    | DeleteAgentRuntime(id: Option<string>)

  /** The service during one operation, which makes each call at most once. `tagging` is the
      error of a failing tag call. */
  class Service {
    const get: Result<Wire.GetOutput>
    const create: Result<Wire.StateOutput>
    const update: Result<Wire.StateOutput>
    const delete: Option<GoError>
    const tagging: GoError
    var sent: seq<Request>

    constructor (get: Result<Wire.GetOutput>, create: Result<Wire.StateOutput>, update: Result<Wire.StateOutput>,
                 delete: Option<GoError>, tagging: GoError)
      ensures this.get == get && this.create == create && this.update == update && this.delete == delete
      ensures this.tagging == tagging && sent == []
    {
      this.get, this.create, this.update, this.delete, this.tagging, sent := get, create, update, delete, tagging, [];
    }

    method Send(request: Request)
      modifies this
      ensures sent == old(sent) + [request]
    {
      sent := sent + [request];
    }
  }

  // ----- The gates -----

  /** A missing status lets every operation through. */
  predicate UpdateAllowed(status: Option<string>) {
    status.Some? ==> status.value == "READY"
  }

  predicate DeleteAllowed(status: Option<string>) {
    status.Some? ==> status.value in ["READY", "CREATE_FAILED", "UPDATE_FAILED"]
  }

  function NotInState(status: string, operation: string): GoError {
    Requeue(Plain("resource is in " + status + " state, cannot be " + operation))
  }

  // ----- What the operations do, on values -----

  /** Spec and status of a resource. */
  datatype View = View(spec: AgentRuntimeSpec, status: RuntimeStatus)

  /** The status after an answer has been merged in: the ARN is kept if the answer has none,
      every other field is the answer's. */
  function Merged(status: RuntimeStatus, answer: Wire.StateOutput, rm: Manager): RuntimeStatus {
    var m := if status.metadata.Some? then status.metadata.value else Metadata(None, None, None, None);
    RuntimeStatus(
      Some(WithDefaults(Some(if answer.arn.Some? then m.(arn := answer.arn) else m), rm)),
      answer.id, answer.version, answer.createdAt, NonEmpty(answer.status), answer.workloadIdentity)
  }

  function FindRequests(status: RuntimeStatus): seq<Request> {
    if status.agentRuntimeID.None? then []
    else [GetAgentRuntime(status.agentRuntimeID, status.agentRuntimeVersion)]
  }

  function Find(v: View, get: Result<Wire.GetOutput>, rm: Manager): Build<View> {
    if v.status.agentRuntimeID.None? then Failed(NotFound)
    else if get.Err? then Failed(if IsMissing(get.err) then NotFound else get.err)
    else Built(View(Codec.DecodeSpec(get.value, v.spec), Merged(v.status, get.value.state, rm)))
  }

  function CreateRequests(s: AgentRuntimeSpec): seq<Request> {
    if Codec.EncodeCreate(s).Built? then [CreateAgentRuntime(Codec.EncodeCreate(s).value)] else []
  }

  /** A failing builder decides; otherwise the answer does, and only the status changes. */
  function Created(v: View, answer: Result<Wire.StateOutput>, rm: Manager): Build<View> {
    var input :- Codec.EncodeCreate(v.spec);
    if answer.Err? then Failed(answer.err) else Built(v.(status := Merged(v.status, answer.value, rm)))
  }

  predicate HasARN(status: RuntimeStatus) {
    status.metadata.Some? && status.metadata.value.arn.Some?
  }

  /** Tags first, if the delta names them; then nothing more unless the delta names something
      else; then the gate on the latest status; then the request. `tags` is how the tag
      synchronisation would end. A latest resource without an ARN makes the source
      dereference nil. */
  function BeforeUpdate(desired: View, latest: RuntimeStatus, ds: seq<Difference>,
                        tags: Option<GoError>): Build<Option<Wire.UpdateInput>> {
    if DifferentAt(ds, TAGS) && !HasARN(latest) then Panicked
    else if DifferentAt(ds, TAGS) && tags.Some? then Failed(tags.value)
    else if !DifferentExcept(ds, TAGS) then Built(None)
    else if !UpdateAllowed(latest.status) then Failed(NotInState(latest.status.value, "updated"))
    else
      var input :- Codec.EncodeUpdate(desired.spec, desired.status.agentRuntimeID);
      Built(Some(input))
  }

  function UpdateRequests(desired: View, latest: RuntimeStatus, ds: seq<Difference>,
                          tags: Option<GoError>): seq<Request> {
    var b := BeforeUpdate(desired, latest, ds, tags);
    if b.Built? && b.value.Some? then [UpdateAgentRuntime(b.value.value)] else []
  }

  function Updates(desired: View, latest: RuntimeStatus, ds: seq<Difference>, tags: Option<GoError>,
                   answer: Result<Wire.StateOutput>, rm: Manager): Build<View>
  {
    var input :- BeforeUpdate(desired, latest, ds, tags);
    if input.None? then Built(desired)
    else if answer.Err? then Failed(answer.err)
    else Built(desired.(status := Merged(desired.status, answer.value, rm)))
  }

  function DeleteRequests(status: RuntimeStatus): seq<Request> {
    if DeleteAllowed(status.status) then [DeleteAgentRuntime(status.agentRuntimeID)] else []
  }

  function DeleteError(status: RuntimeStatus, answer: Option<GoError>): Option<GoError> {
    if !DeleteAllowed(status.status) then Some(NotInState(status.status.value, "deleted")) else answer
  }

  // ----- The sdk methods -----

  ghost function ViewOf(ko: AgentRuntime): View
    reads ko
  {
    View(ko.spec, ko.status)
  }

  /** The status half of what every successful call ends with. */
  method MergeState(ko: AgentRuntime, resp: Wire.StateOutput, rm: Manager)
    modifies ko`status
    ensures ko.status == Merged(old(ko.status), resp, rm)
  {
    if ko.status.metadata.None? {
      ko.status := ko.status.(metadata := Some(Metadata(None, None, None, None)));
    }
    if resp.arn.Some? {
      ko.status := ko.status.(metadata := Some(ko.status.metadata.value.(arn := resp.arn)));
    }
    if resp.id.Some? {
      ko.status := ko.status.(agentRuntimeID := resp.id);
    } else {
      ko.status := ko.status.(agentRuntimeID := None);
    }
    if resp.version.Some? {
      ko.status := ko.status.(agentRuntimeVersion := resp.version);
    } else {
      ko.status := ko.status.(agentRuntimeVersion := None);
    }
    if resp.createdAt.Some? {
      ko.status := ko.status.(createdAt := resp.createdAt);
    } else {
      ko.status := ko.status.(createdAt := None);
    }
    if resp.status != "" {
      ko.status := ko.status.(status := Some(resp.status));
    } else {
      ko.status := ko.status.(status := None);
    }
    if resp.workloadIdentity.Some? {
      ko.status := ko.status.(workloadIdentity := resp.workloadIdentity);
    } else {
      ko.status := ko.status.(workloadIdentity := None);
    }
    SetStatusDefaults(ko, rm);
  }

  /** A copy of the resource with an answer merged into its status. */
  method CopyWithState(r: AgentRuntime, resp: Wire.StateOutput, rm: Manager) returns (ko: AgentRuntime)
    ensures ko.Valid() && fresh(ko.Repr)
    ensures ko.spec == old(r.spec) && ko.status == Merged(old(r.status), resp, rm) && ko.Conds() == old(r.Conds())
  {
    ko := r.DeepCopy();
    ghost var conds := ko.Conds();
    MergeState(ko, resp, rm);
    assert ko.Conds() == conds;
  }

  method SdkFind(service: Service, r: AgentRuntime, rm: Manager) returns (latest: Build<AgentRuntime>)
    modifies service
    ensures service.sent == old(service.sent) + FindRequests(old(r.status))
    ensures match Find(old(ViewOf(r)), service.get, rm)
            case Built(v) =>
              && latest.Built? && latest.value.Valid() && fresh(latest.value.Repr)
              && ViewOf(latest.value) == v && latest.value.Conds() == old(r.Conds())
            case Failed(e) => latest == Failed(e)
            case Panicked => false
  {
    if r.status.agentRuntimeID.None? {
      return Failed(NotFound);
    }
    service.Send(GetAgentRuntime(r.status.agentRuntimeID, r.status.agentRuntimeVersion));
    if service.get.Err? {
      if IsMissing(service.get.err) {
        return Failed(NotFound);
      }
      return Failed(service.get.err);
    }
    var resp := service.get.value;
    var ko := CopyWithState(r, resp.state, rm);
    ghost var conds := ko.Conds();
    ko.spec := Payload.ReadSpec(resp, ko.spec);
    assert ko.Conds() == conds;
    return Built(ko);
  }

  method SdkCreate(service: Service, desired: AgentRuntime, rm: Manager) returns (created: Build<AgentRuntime>)
    modifies service
    ensures service.sent == old(service.sent) + CreateRequests(old(desired.spec))
    ensures match Created(old(ViewOf(desired)), service.create, rm)
            case Built(v) =>
              && created.Built? && created.value.Valid() && fresh(created.value.Repr)
              && ViewOf(created.value) == v && created.value.Conds() == old(desired.Conds())
            case Failed(e) => created == Failed(e)
            case Panicked => created.Panicked?
  {
    var input := Payload.NewCreateRequestPayload(desired.spec);
    hide Codec.EncodeCreate;
    if !input.Built? {
      return input.PropagateFailure();
    }
    service.Send(CreateAgentRuntime(input.value));
    if service.create.Err? {
      return Failed(service.create.err);
    }
    var ko := CopyWithState(desired, service.create.value, rm);
    return Built(ko);
  }

  /** The tag half of an update: no call at all unless the delta names the tags. */
  ghost function TagHalf(client: TagSync.Client, desired: AgentRuntimeSpec, latest: View,
                         ds: seq<Difference>): TagSync.Attempt
    reads client
  {
    if DifferentAt(ds, TAGS) && HasARN(latest.status)
    then TagSync.Coming(client, Tags.Plain(desired.tags), Tags.Plain(latest.spec.tags))
    else TagSync.Attempt(client.remote, [], true)
  }

  method SdkUpdate(service: Service, client: TagSync.Client, desired: AgentRuntime, latest: AgentRuntime, delta: Delta,
                   rm: Manager)
    returns (updated: Build<AgentRuntime>)
    requires delta.Valid()
    modifies service, client
    ensures var ds := old(delta.differences);
            var half := old(TagHalf(client, desired.spec, ViewOf(latest), ds));
            var tags := if half.ok then None else Some(service.tagging);
            && client.remote == half.remote && client.calls == old(client.calls) + half.calls
            && service.sent == old(service.sent) + UpdateRequests(old(ViewOf(desired)), old(latest.status), ds, tags)
            && match Updates(old(ViewOf(desired)), old(latest.status), ds, tags, service.update, rm)
               case Built(v) =>
                 && updated.Built? && (updated.value == desired || (updated.value.Valid() && fresh(updated.value.Repr)))
                 && ViewOf(updated.value) == v && updated.value.Conds() == old(desired.Conds())
               case Failed(e) => updated == Failed(e)
               case Panicked => updated.Panicked?
  {
    hide DifferentAt, DifferentExcept, Tags.Plain, TagSync.Coming, TagSync.Attempted, Codec.EncodeUpdate, Merged,
      NotInState, AgentRuntime.Valid;
    var ds := delta.backing[..delta.len];
    if DifferentAt(ds, TAGS) {
      if !HasARN(latest.status) {
        return Panicked;
      }
      var synced := TagSync.SyncTags(client, Tags.Plain(desired.spec.tags), Tags.Plain(latest.spec.tags));
      if !synced {
        return Failed(service.tagging);
      }
    }
    if !DifferentExcept(ds, TAGS) {
      return Built(desired);
    }
    if latest.status.status.Some? {
      if latest.status.status.value != "READY" {
        return Failed(NotInState(latest.status.status.value, "updated"));
      }
    }
    var input := Payload.NewUpdateRequestPayload(desired.spec, desired.status.agentRuntimeID);
    if !input.Built? {
      return input.PropagateFailure();
    }
    service.Send(UpdateAgentRuntime(input.value));
    if service.update.Err? {
      return Failed(service.update.err);
    }
    var ko := CopyWithState(desired, service.update.value, rm);
    return Built(ko);
  }

  /** sdkDelete never returns a resource. */
  method SdkDelete(service: Service, r: AgentRuntime) returns (err: Option<GoError>)
    modifies service
    ensures service.sent == old(service.sent) + DeleteRequests(old(r.status))
    ensures err == DeleteError(old(r.status), service.delete)
  {
    if r.status.status.Some? {
      if r.status.status.value !in ["READY", "CREATE_FAILED", "UPDATE_FAILED"] {
        return Some(NotInState(r.status.status.value, "deleted"));
      }
    }
    service.Send(DeleteAgentRuntime(r.status.agentRuntimeID));
    return service.delete;
  }

  // ----- The manager's operations -----

  /** The conditions and the error an operation hands back. */
  function ErrorAnswer(conds: seq<Cond>, e: GoError, text: ErrorText): GoError {
    if IsTerminal(Updated(conds, Some(e), text)) then Terminal else e
  }

  /** A success changes the status only by filling in its metadata defaults, and only when
      there was a condition to update. */
  function AfterSuccess(status: RuntimeStatus, conds: seq<Cond>, rm: Manager): RuntimeStatus {
    if AnyPresent(conds) then status.(metadata := Some(WithDefaults(status.metadata, rm))) else status
  }

  /** The conditions after a Create. */
  function CreateConds(s: AgentRuntimeSpec, conds: seq<Cond>, answer: Result<Wire.StateOutput>,
                       text: ErrorText): seq<Cond> {
    var input := Codec.EncodeCreate(s);
    Updated(conds, if input.Failed? then Some(input.err) else if answer.Err? then Some(answer.err) else None, text)
  }

  /** mirrorAWSTags on two resources. */
  method MirrorAWSTags(a: AgentRuntime, b: AgentRuntime)
    requires a != b
    modifies a`spec
    ensures a.spec == old(a.spec).(tags := Tags.Mirrored(old(a.spec.tags), b.spec.tags))
    ensures b.Conds() == old(b.Conds())
  {
    var tags := Tags.MirrorAWSTags(a.spec.tags, b.spec.tags);
    ghost var conds := b.Conds();
    a.spec := a.spec.(tags := tags);
    assert b.Conds() == conds;
  }

  /** ReadOne mirrors the service-managed tags it read onto the resource it was given. */
  method ReadOne(service: Service, r: AgentRuntime, rm: Manager, text: ErrorText)
    returns (res: AgentRuntime, err: Option<GoError>)
    modifies service, r`spec
    ensures service.sent == old(service.sent) + FindRequests(old(r.status))
    ensures match Find(old(ViewOf(r)), service.get, rm)
            case Built(v) =>
              && r.spec == old(r.spec).(tags := Tags.Mirrored(old(r.spec.tags), v.spec.tags))
              && res.spec == v.spec && res.status == v.status
              && res.Conds() == Updated(old(r.Conds()), None, text)
              && err == None
            case Failed(e) =>
              && r.spec == old(r.spec) && res.spec == r.spec
              && res.Conds() == Updated(old(r.Conds()), Some(e), text)
              && err == Some(ErrorAnswer(old(r.Conds()), e, text))
            case Panicked => false
  {
    var observed := SdkFind(service, r, rm);
    hide Codec.DecodeSpec, Updated, IsTerminal, AnyPresent, Tags.Mirrored, AgentRuntime.Valid, AgentRuntime.Conds;
    if observed.Failed? {
      var ko, out := OnError(r, observed.err, text, rm);
      return ko, Some(out);
    }
    MirrorAWSTags(r, observed.value);
    var ko := OnSuccess(observed.value, text, rm);
    return ko, None;
  }

  method Create(service: Service, r: AgentRuntime, rm: Manager, text: ErrorText)
    returns (res: AgentRuntime?, err: Option<GoError>, panicked: bool)
    modifies service
    ensures service.sent == old(service.sent) + CreateRequests(old(r.spec))
    ensures match Created(old(ViewOf(r)), service.create, rm)
            case Built(v) =>
              && !panicked && err == None && res != null
              && ViewOf(res) == v && res.Conds() == Updated(old(r.Conds()), None, text)
            case Failed(e) =>
              && !panicked && err == Some(ErrorAnswer(old(r.Conds()), e, text)) && res != null
              && res.spec == old(r.spec) && res.Conds() == Updated(old(r.Conds()), Some(e), text)
            case Panicked => panicked
    ensures !panicked ==> res != null && res.Conds() == CreateConds(old(r.spec), old(r.Conds()), service.create, text)
    ensures err == None && !panicked <==> Codec.Encodable(old(r.spec)) && service.create.Ok?
  {
    CreateExact(ViewOf(r), service.create, rm);
    var created := SdkCreate(service, r, rm);
    hide Codec.EncodeCreate, Updated, IsTerminal, AnyPresent;
    if created.Panicked? {
      return null, None, true;
    }
    if created.Failed? {
      var ko, out := OnError(r, created.err, text, rm);
      return ko, Some(out), false;
    }
    var ko := OnSuccess(created.value, text, rm);
    return ko, None, false;
  }

  /** A failed update hands back the latest resource, a successful one the desired. */
  method Update(service: Service, client: TagSync.Client, desired: AgentRuntime, latest: AgentRuntime, delta: Delta,
                rm: Manager,
                text: ErrorText)
    returns (res: AgentRuntime?, err: Option<GoError>, panicked: bool)
    requires delta.Valid()
    modifies service, client
    ensures var ds := old(delta.differences);
            var half := old(TagHalf(client, desired.spec, ViewOf(latest), ds));
            var tags := if half.ok then None else Some(service.tagging);
            && client.remote == half.remote && client.calls == old(client.calls) + half.calls
            && service.sent == old(service.sent) + UpdateRequests(old(ViewOf(desired)), old(latest.status), ds, tags)
            && match Updates(old(ViewOf(desired)), old(latest.status), ds, tags, service.update, rm)
               case Built(v) =>
                 && !panicked && err == None && res != null && res.spec == v.spec
                 && res.status == AfterSuccess(v.status, old(desired.Conds()), rm)
                 && res.Conds() == Updated(old(desired.Conds()), None, text)
               case Failed(e) =>
                 && !panicked && err == Some(ErrorAnswer(old(latest.Conds()), e, text)) && res != null
                 && res.spec == old(latest.spec) && res.Conds() == Updated(old(latest.Conds()), Some(e), text)
               case Panicked => panicked
  {
    var updated := SdkUpdate(service, client, desired, latest, delta, rm);
    hide Updates, UpdateRequests, TagHalf, Updated, IsTerminal, AnyPresent;
    if updated.Panicked? {
      return null, None, true;
    }
    if updated.Failed? {
      var ko, out := OnError(latest, updated.err, text, rm);
      return ko, Some(out), false;
    }
    var ko := OnSuccess(updated.value, text, rm);
    return ko, None, false;
  }

  /** A successful delete hands back no resource. */
  method Delete(service: Service, r: AgentRuntime, rm: Manager, text: ErrorText)
    returns (res: AgentRuntime?, err: Option<GoError>)
    modifies service
    ensures service.sent == old(service.sent) + DeleteRequests(old(r.status))
    ensures match DeleteError(old(r.status), service.delete)
            case Some(e) =>
              && err == Some(ErrorAnswer(old(r.Conds()), e, text)) && res != null
              && res.spec == old(r.spec) && res.Conds() == Updated(old(r.Conds()), Some(e), text)
            case None => err == None && res == null
    ensures err == None
            <==> var st := old(r.status).status;
                 && (st.Some? ==> st.value == "READY" || st.value == "CREATE_FAILED" || st.value == "UPDATE_FAILED")
                 && service.delete == None
  {
    DeleteExact(r.status, service.delete);
    var e := SdkDelete(service, r);
    if e.Some? {
      var ko, out := OnError(r, e.value, text, rm);
      return ko, Some(out);
    }
    return null, None;
  }

  /** IsSynced */
  predicate IsSynced(status: Option<string>) {
    status.Some? && status.value in ["READY", "CREATE_FAILED", "UPDATE_FAILED"]
  }

  // ----- What the gates and the builders decide -----

  /** A request is sent only through its gate; what may be updated may be deleted; and a
      resource that reports a status is synced exactly when it may be deleted, so it can be
      synced without being ready. */
  lemma GatesHold(desired: View, latest: RuntimeStatus, ds: seq<Difference>, tags: Option<GoError>)
    ensures UpdateRequests(desired, latest, ds, tags) != [] ==> (latest.status.Some? ==> latest.status.value == "READY")
    ensures DeleteRequests(latest) != []
            <==> var st := latest.status;
                 st.Some? ==> st.value == "READY" || st.value == "CREATE_FAILED" || st.value == "UPDATE_FAILED"
    ensures IsSynced(latest.status)
            <==> var st := latest.status;
                 && st.Some?
                 && (st.value == "READY" || st.value == "CREATE_FAILED" || st.value == "UPDATE_FAILED")
  {
    hide Codec.EncodeUpdate;
  }

  /** When an update request is sent, exactly: something other than the tags differs, the tags
      were brought in line if they differ, the gate is open and the desired spec encodes. */
  lemma UpdateSentIff(desired: View, latest: RuntimeStatus, ds: seq<Difference>, tags: Option<GoError>)
    ensures UpdateRequests(desired, latest, ds, tags) != []
            <==> && DifferentExcept(ds, TAGS)
                 && (DifferentAt(ds, TAGS) ==>
                       tags.None? && latest.metadata.Some? && latest.metadata.value.arn.Some?)
                 && (latest.status.Some? ==> latest.status.value == "READY")
                 && Codec.Encodable(desired.spec)
  {
    Codec.CreateBuiltIff(desired.spec);
    Codec.UpdateRefinesCreate(desired.spec, desired.status.agentRuntimeID);
    hide Codec.EncodeUpdate, Codec.EncodeCreate, Codec.Encodable;
  }

  // ----- What the operations come to, in the service's terms -----

  /** The status after an answer: what the service reports, an unreported status as nil; the ARN
      stands if none is reported, and region, partition and account are filled in. */
  predicate StatusTaken(was: RuntimeStatus, answer: Wire.StateOutput, rm: Manager, now: RuntimeStatus) {
    && now.agentRuntimeID == answer.id
    && now.agentRuntimeVersion == answer.version
    && now.createdAt == answer.createdAt
    && now.workloadIdentity == answer.workloadIdentity
    && (answer.status == "" ==> now.status == None)
    && (answer.status != "" ==> now.status == Some(answer.status))
    && now.metadata.Some?
    && var arn := if was.metadata.Some? then was.metadata.value.arn else None;
       && now.metadata.value.arn == (if answer.arn.Some? then answer.arn else arn)
       && Filled(was.metadata, rm, now.metadata.value.(arn := arn))
  }

  lemma MergedExact(was: RuntimeStatus, answer: Wire.StateOutput, rm: Manager, now: RuntimeStatus)
    ensures Merged(was, answer, rm) == now <==> StatusTaken(was, answer, rm, now)
  {
  }

  /** A read: nothing is asked without an id, otherwise the recorded runtime and version are; what
      the service answers is what the resource says afterwards; a runtime that the service does not
      know is not found, and any other error of the service is handed on. */
  lemma FindExact(v: View, get: Result<Wire.GetOutput>, rm: Manager)
    ensures var f, id := Find(v, get, rm), v.status.agentRuntimeID;
            && (id.None? ==> FindRequests(v.status) == [] && f == Failed(NotFound))
            && (id.Some? ==> |FindRequests(v.status)| == 1 && var q := FindRequests(v.status)[0];
                             q.GetAgentRuntime? && q.id == id && q.version == v.status.agentRuntimeVersion)
            && (id.Some? && get.Ok? ==>
                  && f.Built?
                  && Carried.SpecRead(get.value, v.spec.tags, f.value.spec)
                  && StatusTaken(v.status, get.value.state, rm, f.value.status))
            && (id.Some? && get.Err? ==> f.Failed?)
            && (id.Some? && get.Err? && get.err.ApiError? ==>
                  f.err == if get.err.code == "ResourceNotFoundException" then NotFound else get.err)
            && (id.Some? && get.Err? && get.err.Plain? ==> f.err == get.err)
  {
    if v.status.agentRuntimeID.Some? && get.Ok? {
      Carried.ReadSays(get.value, v.spec, Codec.DecodeSpec(get.value, v.spec));
      MergedExact(v.status, get.value.state, rm, Merged(v.status, get.value.state, rm));
    }
    hide Carried.SpecRead, StatusTaken, Merged, Codec.DecodeSpec;
  }

  /** A create: one request that says what the spec says if it can be said; the service's error is
      handed on; a success changes the status alone. */
  lemma CreateExact(v: View, answer: Result<Wire.StateOutput>, rm: Manager)
    ensures var r := Created(v, answer, rm);
            && |CreateRequests(v.spec)| == (if Codec.Encodable(v.spec) then 1 else 0)
            && (forall q | q in CreateRequests(v.spec) ::
                  q.CreateAgentRuntime? && Carried.CreateSent(v.spec, q.create))
            && (r.Built? <==> Codec.Encodable(v.spec) && answer.Ok?)
            && (r.Built? ==> r.value.spec == v.spec && StatusTaken(v.status, answer.value, rm, r.value.status))
            && (Codec.Encodable(v.spec) && answer.Err? ==> r == Failed(answer.err))
  {
    Codec.CreateBuiltIff(v.spec);
    if Codec.EncodeCreate(v.spec).Built? {
      Carried.CreateSays(v.spec, Codec.EncodeCreate(v.spec).value);
      if answer.Ok? {
        MergedExact(v.status, answer.value, rm, Merged(v.status, answer.value, rm));
      }
    }
    hide Codec.EncodeCreate, Codec.Encodable, Carried.CreateSent, StatusTaken, Merged;
  }

  /** An update: it succeeds exactly if the tags are in line or brought in line and, where anything
      else differs, the latest status lets it through, the spec can be said and the service agrees;
      each failure is handed back as what it was, a closed gate as one to be retried. */
  lemma UpdateExact(desired: View, latest: RuntimeStatus, ds: seq<Difference>, tags: Option<GoError>,
                    answer: Result<Wire.StateOutput>, rm: Manager)
    ensures var r := Updates(desired, latest, ds, tags, answer, rm);
            var arn := latest.metadata.Some? && latest.metadata.value.arn.Some?;
            var inLine := DifferentAt(ds, TAGS) ==> arn && tags.None?;
            var open := latest.status.Some? ==> latest.status.value == "READY";
            && (r.Built? <==> inLine && (DifferentExcept(ds, TAGS) ==>
                                           open && Codec.Encodable(desired.spec) && answer.Ok?))
            && (r.Built? ==> r.value.spec == desired.spec)
            && (r.Built? && !DifferentExcept(ds, TAGS) ==> r.value.status == desired.status)
            && (r.Built? && DifferentExcept(ds, TAGS) ==>
                  StatusTaken(desired.status, answer.value, rm, r.value.status))
            && (DifferentAt(ds, TAGS) && arn && tags.Some? ==> r == Failed(tags.value))
            && (DifferentAt(ds, TAGS) && !arn ==> r.Panicked?)
            && (inLine && DifferentExcept(ds, TAGS) && !open ==>
                  r == Failed(Requeue(Plain("resource is in " + latest.status.value + " state, cannot be "
                                            + "updated"))))
            && (inLine && DifferentExcept(ds, TAGS) && open && Codec.Encodable(desired.spec) && answer.Err? ==>
                  r == Failed(answer.err))
            && (forall q | q in UpdateRequests(desired, latest, ds, tags) ::
                  && q.UpdateAgentRuntime?
                  && Codec.EncodeUpdate(desired.spec, desired.status.agentRuntimeID) == Built(q.update))
  {
    Codec.CreateBuiltIff(desired.spec);
    Codec.UpdateRefinesCreate(desired.spec, desired.status.agentRuntimeID);
    if answer.Ok? {
      MergedExact(desired.status, answer.value, rm, Merged(desired.status, answer.value, rm));
    }
    hide Codec.EncodeUpdate, Codec.EncodeCreate, Codec.Encodable, StatusTaken, Merged, DifferentAt, DifferentExcept;
  }

  /** A delete: it succeeds exactly if the status lets it through and the service agrees. */
  lemma DeleteExact(status: RuntimeStatus, answer: Option<GoError>)
    ensures var st := status.status;
            var open := st.Some? ==> st.value == "READY" || st.value == "CREATE_FAILED" || st.value == "UPDATE_FAILED";
            && |DeleteRequests(status)| == (if open then 1 else 0)
            && (forall q | q in DeleteRequests(status) :: q.DeleteAgentRuntime? && q.id == status.agentRuntimeID)
            && (open ==> DeleteError(status, answer) == answer)
            && (!open ==> DeleteError(status, answer)
                          == Some(Requeue(Plain("resource is in " + status.status.value + " state, cannot be "
                                                + "deleted"))))
  {
  }

  /** The error handed back, for conditions that are there once at most: Terminal in the place of an
      error of the terminal class, and every other error itself. */
  lemma AnswerExact(conds: seq<Cond>, e: GoError, text: ErrorText)
    requires Unique(conds)
    ensures ErrorAnswer(conds, e, text) == if TerminalClass(e) then Terminal else e
  {
    TerminalAnswerUnique(conds, e, text);
    hide Updated, IsTerminal, Unique, TerminalClass;
  }

  /** The tag half aims at the desired tags: if it ends well from what was read, they are the
      remote ones. */
  lemma TagHalfAims(client: TagSync.Client, desired: AgentRuntimeSpec, latest: View, ds: seq<Difference>)
    requires Tags.Plain(latest.spec.tags) == client.remote
    ensures var half := TagHalf(client, desired, latest, ds);
            && (&& DifferentAt(ds, TAGS)
                && latest.status.metadata.Some? && latest.status.metadata.value.arn.Some?
                && half.ok
                ==> half.remote == Tags.Plain(desired.tags))
            && (!DifferentAt(ds, TAGS) ==> half.calls == [] && half.remote == client.remote)
  {
    var n := |client.calls|;
    var to := Tags.Plain(desired.tags);
    var removeAt := if TagSync.ToAdd(to, client.remote) == map[] then n else n + 1;
    TagSync.AttemptShrinks(to, client.remote, client.outcomes(n), client.outcomes(removeAt));
    hide DifferentAt, Tags.Plain, TagSync.ToAdd, TagSync.ToDelete, TagSync.Sent;
  }

  /** Create without a request, in the three ways there are: it ends Terminal=True exactly when
      the first fault of the spec is a union with two members, Recoverable=True and not Terminal
      exactly when it is a timeout that does not fit in 32 bits, and it panics, leaving no
      conditions, exactly when it is a nil claim or filesystem. */
  lemma FaultyCreate(s: AgentRuntimeSpec, conds: seq<Cond>, answer: Result<Wire.StateOutput>, text: ErrorText)
    requires Unique(conds)
    ensures var after := CreateConds(s, conds, answer, text);
            var ended := CreateRequests(s) == [] && !Codec.EncodeCreate(s).Panicked?;
            && (CreateRequests(s) == [] <==> !Codec.Encodable(s))
            && (ended && IsTerminal(after)
                <==> Codec.ArtifactClash(s) || Codec.FirstClaimFaultIsClash(Codec.ClaimsOf(s)))
            && (ended && !IsTerminal(after)
                <==> && !Codec.TimeoutsFit(s)
                     && !Codec.ArtifactClash(s)
                     && (forall c | c in Codec.ClaimsOf(s) :: !Codec.ClaimFault(c))
                     && None !in Items(s.filesystemConfigurations))
            && (ended && !IsTerminal(after) ==> IsRecoverable(after))
            && (Codec.EncodeCreate(s).Panicked?
                <==> && !Codec.ArtifactClash(s)
                     && (|| Codec.FirstClaimFaultIsNil(Codec.ClaimsOf(s))
                         || ((forall c | c in Codec.ClaimsOf(s) :: !Codec.ClaimFault(c))
                             && None in Items(s.filesystemConfigurations))))
  {
    var input := Codec.EncodeCreate(s);
    Codec.CreateBuiltIff(s);
    Codec.CreateTerminalIff(s);
    Codec.CreateRetryableIff(s);
    Codec.CreatePanicsIff(s);
    if input.Failed? {
      FlagsAfter(conds, Some(input.err), text);
    }
    hide Codec.EncodeCreate, Updated, Unique, TerminalClass, IsTerminal, IsRecoverable, Codec.TimeoutsFit,
      Codec.ArtifactClash, Codec.FirstClaimFaultIsClash, Codec.FirstClaimFaultIsNil, Codec.ClaimsOf, Codec.ClaimFault,
      Codec.Encodable;
  }
}
