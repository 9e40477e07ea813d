/** Whole runs of one AgentRuntime: reads, creates, updates and deletes of the resource manager
    in any order the reconciler may choose, between arbitrary changes on the service's side,
    lost answers and lost status writes. */
module Lifecycle {
  import opened Basics
  import opened Errors
  import opened Api
  import opened Resource
  import opened AgentRuntimeManager
  import Codec
  import Delta
  import Trees
  import Wire

  /** What the reconciler holds from its last operation: nothing, the knowledge that the
      resource does not exist, or the status it was last shown. */
  datatype Held = Nothing | Missing | Found(latest: RuntimeStatus)

  datatype Event =
    | Observed(id: Option<string>, status: Option<string>)
    | SentCreate(recorded: Option<string>, existing: set<string>, issued: Option<string>)
    | SentUpdate(id: Option<string>)
    | SentDelete(id: Option<string>)

  /** `remote` maps the id of every existing runtime to its status, `used` holds every id ever
      issued, `stored` is the status in the custom resource. */
  datatype State =
    State(remote: map<string, string>, used: set<string>, stored: RuntimeStatus, held: Held, log: seq<Event>)

  /** `saved` says whether the reconciler's write of the new status succeeds; `issued` is the
      runtime a create makes, which it may do although its answer is lost. */
  datatype Step =
    | RemoteStatus(id: string, status: string)
    | RemoteGone(id: string)
    | RemoteNew(id: string, status: string)
    | Forget
    | Read(declared: AgentRuntimeSpec, get: Result<Wire.GetOutput>, saved: bool)
    | Create(declared: AgentRuntimeSpec, issued: Option<string>, answer: Result<Wire.StateOutput>, saved: bool)
    | Update(declared: AgentRuntimeSpec, delta: seq<Trees.Difference>, tags: Option<GoError>,
             answer: Result<Wire.StateOutput>, saved: bool)
    | Delete

  // ----- What the service may do, and when the reconciler calls what -----

  predicate ServiceError(e: GoError) {
    e.ApiError? || e.Plain?
  }

  /** Ids are never issued twice; an answer is about the runtime asked for; and a runtime is
      reported missing only when it is. */
  predicate Possible(s: State, step: Step) {
    match step
    case RemoteStatus(id, _) => id in s.remote
    case RemoteGone(id) => id in s.remote
    case RemoteNew(id, _) => id !in s.used
    case Forget => true
    case Read(_, get, _) =>
      var id := s.stored.agentRuntimeID;
      id.Some? ==>
        (match get
         case Ok(r) => id.value in s.remote && r.state.id == id && r.state.status == s.remote[id.value]
         case Err(e) => ServiceError(e) && (IsMissing(e) ==> id.value !in s.remote))
    case Create(_, issued, answer, _) =>
      && s.held.Missing?
      && (issued.Some? ==> issued.value !in s.used)
      && (answer.Ok? ==> issued.Some? && answer.value.id == issued)
    case Update(_, _, _, answer, _) =>
      && s.held.Found?
      && (answer.Ok? ==> answer.value.id == s.stored.agentRuntimeID)
    case Delete => s.held.Found?
  }

  // ----- One step -----

  /** An operation handed back this status: it is held, recorded if it could be saved, and what
      it says was observed. */
  function Shown(s: State, status: RuntimeStatus, saved: bool): State {
    s.(held := Found(status), stored := if saved then status else s.stored,
       log := s.log + [Observed(status.agentRuntimeID, status.status)])
  }

  function AfterRead(s: State, declared: AgentRuntimeSpec, get: Result<Wire.GetOutput>, saved: bool, rm: Manager)
    : State
  {
    match Find(View(declared, s.stored), get, rm)
    case Built(v) => Shown(s, v.status, saved)
    case Failed(e) => s.(held := if e == NotFound then Missing else Nothing)
    case Panicked => s
  }

  /** A create request has reached the service. */
  function Requested(s: State, issued: Option<string>, answer: Result<Wire.StateOutput>): State {
    s.(remote := if issued.None? then s.remote
                 else s.remote[issued.value := if answer.Ok? then answer.value.status else ""],
       used := if issued.Some? then s.used + {issued.value} else s.used,
       held := Nothing,
       log := s.log + [SentCreate(s.stored.agentRuntimeID, s.remote.Keys, issued)])
  }

  /** A created resource whose status could not be saved is forgotten. */
  function AfterCreate(s: State, declared: AgentRuntimeSpec, issued: Option<string>, answer: Result<Wire.StateOutput>,
                       saved: bool, rm: Manager): State
  {
    if CreateRequests(declared) == [] then s.(held := Nothing)
    else
      match Created(View(declared, s.stored), answer, rm)
      case Built(v) =>
        if saved then Shown(Requested(s, issued, answer), v.status, true) else Requested(s, issued, answer)
      case _ => Requested(s, issued, answer)
  }

  function AfterUpdate(s: State, declared: AgentRuntimeSpec, delta: seq<Trees.Difference>, tags: Option<GoError>,
                       answer: Result<Wire.StateOutput>, saved: bool, rm: Manager): State
    requires s.held.Found?
  {
    var requests := UpdateRequests(View(declared, s.stored), s.held.latest, delta, tags);
    if requests == [] then s
    else
      var sent := s.(log := s.log + [SentUpdate(requests[0].update.id)]);
      match Updates(View(declared, s.stored), s.held.latest, delta, tags, answer, rm)
      case Built(v) => Shown(sent, v.status, saved)
      case _ => sent
  }

  function AfterDelete(s: State): State
    requires s.held.Found?
  {
    var requests := DeleteRequests(s.held.latest);
    if requests == [] then s else s.(log := s.log + [SentDelete(requests[0].id)])
  }

  /** What an update or delete does to the runtime itself is left to the remote steps. */
  function Next(s: State, step: Step, rm: Manager): State
    requires Possible(s, step)
  {
    match step
    case RemoteStatus(id, status) => s.(remote := s.remote[id := status])
    case RemoteGone(id) => s.(remote := s.remote - {id})
    case RemoteNew(id, status) => s.(remote := s.remote[id := status], used := s.used + {id})
    case Forget => s.(held := Nothing)
    case Read(declared, get, saved) => AfterRead(s, declared, get, saved, rm)
    case Create(declared, issued, answer, saved) => AfterCreate(s, declared, issued, answer, saved, rm)
    case Update(declared, delta, tags, answer, saved) => AfterUpdate(s, declared, delta, tags, answer, saved, rm)
    case Delete => AfterDelete(s)
  }

  // ----- What every run keeps -----

  /** The last thing the reconciler was shown. */
  function LastSeen(log: seq<Event>): (r: Option<Event>)
    ensures r.Some? ==> r.value.Observed?
  {
    if log == [] then None
    else if log[|log| - 1].Observed? then Some(log[|log| - 1])
    else LastSeen(log[..|log| - 1])
  }

  /** No create while the recorded runtime exists; no update or delete of a runtime unless it is
      the last one observed and its last observed status lets it through. */
  predicate SafeEvent(before: seq<Event>, e: Event) {
    var seen := LastSeen(before);
    match e
    case Observed(_, _) => true
    case SentCreate(recorded, existing, _) => recorded.Some? ==> recorded.value !in existing
    case SentUpdate(id) =>
      && seen.Some? && seen.value.id == id
      && (seen.value.status.Some? ==> seen.value.status.value == "READY")
    case SentDelete(id) =>
      && seen.Some? && seen.value.id == id
      && (seen.value.status.Some? ==> seen.value.status.value in {"READY", "CREATE_FAILED", "UPDATE_FAILED"})
  }

  predicate Safe(log: seq<Event>) {
    forall i | 0 <= i < |log| :: SafeEvent(log[..i], log[i])
  }

  predicate Inv(s: State) {
    && Safe(s.log)
    && s.remote.Keys <= s.used
    && (s.stored.agentRuntimeID.Some? ==> s.stored.agentRuntimeID.value in s.used)
    && (s.held.Missing? && s.stored.agentRuntimeID.Some? ==> s.stored.agentRuntimeID.value !in s.remote)
    && (s.held.Found? ==>
          && s.held.latest.agentRuntimeID == s.stored.agentRuntimeID
          && LastSeen(s.log) == Some(Observed(s.held.latest.agentRuntimeID, s.held.latest.status)))
  }

  /** A run begins with nothing held and, at most, the id of a runtime that once existed. */
  predicate Begins(s: State) {
    && s.held == Nothing && s.log == []
    && s.remote.Keys <= s.used
    && (s.stored.agentRuntimeID.Some? ==> s.stored.agentRuntimeID.value in s.used)
  }

  lemma Append(log: seq<Event>, e: Event)
    requires Safe(log) && SafeEvent(log, e)
    ensures Safe(log + [e])
    ensures LastSeen(log + [e]) == if e.Observed? then Some(e) else LastSeen(log)
  {
    var longer := log + [e];
    assert longer[..|log|] == log;
    forall i | 0 <= i < |longer|
      ensures SafeEvent(longer[..i], longer[i])
    {
      if i < |log| {
        assert longer[..i] == log[..i];
      }
    }
  }

  lemma ShownKeeps(s: State, status: RuntimeStatus, saved: bool)
    requires Safe(s.log) && s.remote.Keys <= s.used
    requires status.agentRuntimeID.Some? ==> status.agentRuntimeID.value in s.used
    requires saved || status.agentRuntimeID == s.stored.agentRuntimeID
    ensures Inv(Shown(s, status, saved))
  {
    Append(s.log, Observed(status.agentRuntimeID, status.status));
  }

  lemma ReadKeeps(s: State, declared: AgentRuntimeSpec, get: Result<Wire.GetOutput>, saved: bool, rm: Manager)
    requires Inv(s) && Possible(s, Read(declared, get, saved))
    ensures Inv(AfterRead(s, declared, get, saved, rm))
  {
    var v := Find(View(declared, s.stored), get, rm);
    if v.Built? {
      ShownKeeps(s, v.value.status, saved);
    }
  }

  lemma RequestedKeeps(s: State, issued: Option<string>, answer: Result<Wire.StateOutput>)
    requires Inv(s) && s.held.Missing?
    requires issued.Some? ==> issued.value !in s.used
    ensures Inv(Requested(s, issued, answer))
  {
    Append(s.log, SentCreate(s.stored.agentRuntimeID, s.remote.Keys, issued));
  }

  lemma CreateKeeps(s: State, declared: AgentRuntimeSpec, issued: Option<string>, answer: Result<Wire.StateOutput>,
                    saved: bool,
                    rm: Manager)
    requires Inv(s) && Possible(s, Create(declared, issued, answer, saved))
    ensures Inv(AfterCreate(s, declared, issued, answer, saved, rm))
  {
    RequestedKeeps(s, issued, answer);
    var v := Created(View(declared, s.stored), answer, rm);
    hide Codec.EncodeCreate, Safe;
    if v.Built? {
      ShownKeeps(Requested(s, issued, answer), v.value.status, true);
    }
  }

  lemma UpdateKeeps(s: State, declared: AgentRuntimeSpec, delta: seq<Trees.Difference>, tags: Option<GoError>,
                    answer: Result<Wire.StateOutput>, saved: bool, rm: Manager)
    requires Inv(s) && Possible(s, Update(declared, delta, tags, answer, saved))
    ensures Inv(AfterUpdate(s, declared, delta, tags, answer, saved, rm))
  {
    var desired := View(declared, s.stored);
    var requests := UpdateRequests(desired, s.held.latest, delta, tags);
    hide Codec.EncodeUpdate, Delta.DifferentAt, Delta.DifferentExcept;
    if requests != [] {
      GatesHold(desired, s.held.latest, delta, tags);
      Codec.UpdateRefinesCreate(declared, s.stored.agentRuntimeID);
      Append(s.log, SentUpdate(s.stored.agentRuntimeID));
      var sent := s.(log := s.log + [SentUpdate(s.stored.agentRuntimeID)]);
      assert requests[0].update.id == s.stored.agentRuntimeID;
      var v := Updates(desired, s.held.latest, delta, tags, answer, rm);
      if v.Built? {
        ShownKeeps(sent, v.value.status, saved);
      }
    }
  }

  /** Every step keeps the invariant. */
  lemma StepKeeps(s: State, step: Step, rm: Manager)
    requires Inv(s) && Possible(s, step)
    ensures Inv(Next(s, step, rm))
  {
    hide Safe, AfterRead, AfterCreate, AfterUpdate;
    match step
    case Read(declared, get, saved) => ReadKeeps(s, declared, get, saved, rm);
    case Create(declared, issued, answer, saved) => CreateKeeps(s, declared, issued, answer, saved, rm);
    case Update(declared, delta, tags, answer, saved) => UpdateKeeps(s, declared, delta, tags, answer, saved, rm);
    case Delete =>
      if DeleteRequests(s.held.latest) != [] {
        Append(s.log, SentDelete(s.held.latest.agentRuntimeID));
      }
    case _ =>
  }

  predicate PossibleRun(s: State, steps: seq<Step>, rm: Manager)
    decreases |steps|
  {
    steps != [] ==> Possible(s, steps[0]) && PossibleRun(Next(s, steps[0], rm), steps[1..], rm)
  }

  function After(s: State, steps: seq<Step>, rm: Manager): State
    requires PossibleRun(s, steps, rm)
    decreases |steps|
  {
    if steps == [] then s else After(Next(s, steps[0], rm), steps[1..], rm)
  }

  lemma {:induction false} RunKeeps(s: State, steps: seq<Step>, rm: Manager)
    requires Inv(s) && PossibleRun(s, steps, rm)
    ensures Inv(After(s, steps, rm))
    decreases |steps|
  {
    if steps != [] {
      StepKeeps(s, steps[0], rm);
      hide Inv, Next, Possible;
      RunKeeps(Next(s, steps[0], rm), steps[1..], rm);
    }
  }

  /** Whole-run safety, over every run: each request ever sent was sent safely. */
  lemma RunSafe(s: State, steps: seq<Step>, rm: Manager)
    requires Begins(s) && PossibleRun(s, steps, rm)
    ensures Safe(After(s, steps, rm).log)
  {
    hide PossibleRun, After;
    RunKeeps(s, steps, rm);
  }

  // ----- What is observed is what the service says -----

  /** A status as the resource shows it. */
  predicate Shows(shown: Option<string>, status: string) {
    (shown.None? <==> status == "") && (shown.Some? ==> shown.value == status)
  }

  /** A read that the service answers observes the runtime recorded, in the status it has there; it
      sends nothing that could change it, and is recorded if it can be saved. */
  lemma ReadObserves(s: State, declared: AgentRuntimeSpec, r: Wire.GetOutput, saved: bool, rm: Manager)
    requires s.stored.agentRuntimeID.Some? && Possible(s, Read(declared, Ok(r), saved))
    ensures var id := s.stored.agentRuntimeID;
            var t := Next(s, Read(declared, Ok(r), saved), rm);
            && t.remote == s.remote
            && |t.log| == |s.log| + 1 && t.log[..|s.log|] == s.log
            && t.log[|s.log|].Observed? && t.log[|s.log|].id == id && Shows(t.log[|s.log|].status, s.remote[id.value])
            && t.held.Found? && t.held.latest.agentRuntimeID == id && Shows(t.held.latest.status, s.remote[id.value])
            && t.stored == if saved then t.held.latest else s.stored
  {
    hide Codec.DecodeSpec;
  }

  /** A read that finds nothing leads to Missing, and to no observation. */
  lemma ReadMisses(s: State, declared: AgentRuntimeSpec, get: Result<Wire.GetOutput>, saved: bool, rm: Manager)
    requires Possible(s, Read(declared, get, saved))
    ensures var t := Next(s, Read(declared, get, saved), rm);
            && (s.stored.agentRuntimeID.None? ==> t == s.(held := Missing))
            && (s.stored.agentRuntimeID.Some? && get.Err? ==>
                  t == s.(held := if get.err.ApiError? && get.err.code == "ResourceNotFoundException" then Missing
                                  else Nothing))
  {
  }

  /** A create whose answer arrives and is saved observes the runtime it made, in the status the
      service answers, and records its id. */
  lemma CreateObserves(s: State, declared: AgentRuntimeSpec, issued: Option<string>, a: Wire.StateOutput, rm: Manager)
    requires Possible(s, Create(declared, issued, Ok(a), true)) && CreateRequests(declared) != []
    ensures var t := Next(s, Create(declared, issued, Ok(a), true), rm);
            && t.remote == s.remote[issued.value := a.status]
            && |t.log| == |s.log| + 2 && t.log[..|s.log|] == s.log
            && t.log[|s.log|] == SentCreate(s.stored.agentRuntimeID, s.remote.Keys, issued)
            && t.log[|s.log| + 1].Observed? && t.log[|s.log| + 1].id == issued
            && Shows(t.log[|s.log| + 1].status, a.status)
            && t.stored.agentRuntimeID == issued && Shows(t.stored.status, a.status)
  {
    hide Codec.EncodeCreate;
  }

  /** Whatever becomes of it, an update whose request goes out is recorded as sent to the recorded
      runtime; one that the service applies also observes the status it answers. */
  lemma UpdateObserves(s: State, declared: AgentRuntimeSpec, delta: seq<Trees.Difference>, tags: Option<GoError>,
                       answer: Result<Wire.StateOutput>, saved: bool, rm: Manager)
    requires Inv(s) && Possible(s, Update(declared, delta, tags, answer, saved))
    ensures var t := Next(s, Update(declared, delta, tags, answer, saved), rm);
            var id := s.stored.agentRuntimeID;
            if UpdateRequests(View(declared, s.stored), s.held.latest, delta, tags) == [] then t == s
            else
              && |t.log| == |s.log| + (if answer.Ok? then 2 else 1)
              && t.log[..|s.log|] == s.log && t.log[|s.log|] == SentUpdate(id)
              && (answer.Ok? ==>
                    && t.log[|s.log| + 1].Observed? && t.log[|s.log| + 1].id == id
                    && Shows(t.log[|s.log| + 1].status, answer.value.status)
                    && (saved ==> Shows(t.stored.status, answer.value.status)))
  {
    Codec.UpdateRefinesCreate(declared, s.stored.agentRuntimeID);
    hide Codec.EncodeUpdate, Delta.DifferentAt, Delta.DifferentExcept, Safe, LastSeen;
  }

  /** A delete whose request goes out is recorded as sent to the recorded runtime, and goes out
      exactly if the status held lets it through. */
  lemma DeleteRecorded(s: State, rm: Manager)
    requires Inv(s) && Possible(s, Delete)
    ensures var st := s.held.latest.status;
            var open := st.Some? ==> st.value == "READY" || st.value == "CREATE_FAILED" || st.value == "UPDATE_FAILED";
            Next(s, Delete, rm) == if open then s.(log := s.log + [SentDelete(s.stored.agentRuntimeID)]) else s
  {
    hide Safe, LastSeen;
  }

  // ----- At most one runtime -----

  /** The answer of a create that made a runtime arrives and its id is recorded. */
  predicate NothingLost(step: Step) {
    step.Create? && step.issued.Some? && CreateRequests(step.declared) != [] ==> step.answer.Ok? && step.saved
  }

  predicate Lossless(steps: seq<Step>) {
    forall i | 0 <= i < |steps| :: NothingLost(steps[i])
  }

  /** At most one runtime that the reconciler made exists. */
  predicate Single(s: State) {
    forall d, e | d in s.log && e in s.log && Exists(s, d) && Exists(s, e) :: d.issued == e.issued
  }

  predicate Exists(s: State, e: Event) {
    e.SentCreate? && e.issued.Some? && e.issued.value in s.remote
  }

  /** Whatever the reconciler created and still exists is the runtime recorded. */
  predicate OnlyRecorded(s: State) {
    forall e | e in s.log && e.SentCreate? && e.issued.Some? ::
      && e.issued.value in s.used
      && (e.issued.value in s.remote ==> s.stored.agentRuntimeID == e.issued)
  }

  lemma OnlyRecordedStep(s: State, step: Step, rm: Manager)
    requires Inv(s) && Possible(s, step) && NothingLost(step) && OnlyRecorded(s)
    ensures OnlyRecorded(Next(s, step, rm))
  {
    hide Codec.EncodeCreate, Codec.EncodeUpdate, Delta.DifferentAt, Delta.DifferentExcept, Safe, LastSeen;
  }

  lemma {:induction false} OnlyRecordedRun(s: State, steps: seq<Step>, rm: Manager)
    requires Inv(s) && OnlyRecorded(s) && PossibleRun(s, steps, rm) && Lossless(steps)
    ensures OnlyRecorded(After(s, steps, rm))
    decreases |steps|
  {
    if steps != [] {
      StepKeeps(s, steps[0], rm);
      OnlyRecordedStep(s, steps[0], rm);
      hide Inv, Next, Possible, OnlyRecorded, NothingLost;
      OnlyRecordedRun(Next(s, steps[0], rm), steps[1..], rm);
    }
  }

  /** From here on, however a run goes that loses nothing more, there is never more than one. */
  ghost predicate StaysSingle(s: State, rm: Manager) {
    forall more: seq<Step> | PossibleRun(s, more, rm) && Lossless(more) :: Single(After(s, more, rm))
  }

  lemma RecordedStaysSingle(s: State, rm: Manager)
    requires Inv(s) && OnlyRecorded(s)
    ensures StaysSingle(s, rm)
  {
    forall more: seq<Step> | PossibleRun(s, more, rm) && Lossless(more)
      ensures Single(After(s, more, rm))
    {
      hide Inv, PossibleRun, After, Lossless;
      OnlyRecordedRun(s, more, rm);
    }
  }

  ghost function Longest(ids: set<string>): (n: nat)
    ensures forall id | id in ids :: |id| <= n
  {
    if ids == {} then 0
    else
      var id :| id in ids;
      var n := Longest(ids - {id});
      if |id| > n then |id| else n
  }

  lemma UnusedId(used: set<string>) returns (id: string)
    ensures id !in used
  {
    id := seq(Longest(used) + 1, _ => 'a');
  }

  /** The read and the create that follow a lost create: nothing is recorded, so the read finds
      nothing, and so a second runtime is made. */
  function Again(lost: Step, second: string): seq<Step>
    requires lost.Create?
  {
    [Read(lost.declared, Err(ApiError("ResourceNotFoundException", "")), false),
     Create(lost.declared, Some(second), Ok(Wire.StateOutput(None, Some(second), None, None, "", None)), true)]
  }

  /** Whatever came before, and whether the answer was lost or arrived and was not saved: after a
      lost create two runtimes can exist though nothing more is lost. */
  lemma LostCreateDuplicates(s: State, lost: Step, second: string, rm: Manager)
    requires Inv(s) && Possible(s, lost) && !NothingLost(lost)
    requires second !in Next(s, lost, rm).used
    ensures var more := Again(lost, second);
            && PossibleRun(Next(s, lost, rm), more, rm) && Lossless(more)
            && {lost.issued.value, second} <= After(Next(s, lost, rm), more, rm).remote.Keys
            && !Single(After(Next(s, lost, rm), more, rm))
  {
    var read, create := Again(lost, second)[0], Again(lost, second)[1];
    hide Codec.EncodeCreate;
    var s1 := Next(s, lost, rm);
    var s2 := Next(s1, read, rm);
    var s3 := Next(s2, create, rm);
    assert Again(lost, second) == [read] + [create] && [create] == [create] + [];
    One(s1, read, [create], rm);
    One(s2, create, [], rm);
    var d := SentCreate(s.stored.agentRuntimeID, s.remote.Keys, lost.issued);
    var e := SentCreate(s2.stored.agentRuntimeID, s2.remote.Keys, Some(second));
    assert s1.log == s.log + [d];
    assert d in s3.log && e in s3.log && Exists(s3, d) && Exists(s3, e);
  }

  /** One step, exactly: afterwards there can never be two unless something more is lost, if and
      only if the step loses nothing. */
  lemma StepSingleIff(s: State, step: Step, rm: Manager)
    requires Inv(s) && OnlyRecorded(s) && Possible(s, step)
    ensures StaysSingle(Next(s, step, rm), rm) <==> NothingLost(step)
  {
    var t := Next(s, step, rm);
    hide Inv, OnlyRecorded, Possible, Next, Single;
    if NothingLost(step) {
      StepKeeps(s, step, rm);
      OnlyRecordedStep(s, step, rm);
      RecordedStaysSingle(t, rm);
    } else {
      var second := UnusedId(t.used);
      LostCreateDuplicates(s, step, second, rm);
      assert !Single(After(t, Again(step, second), rm));
    }
  }

  /** The same at every point of a run. */
  ghost predicate AlwaysSingle(s: State, steps: seq<Step>, rm: Manager)
    requires PossibleRun(s, steps, rm)
    decreases |steps|
  {
    StaysSingle(s, rm) && (steps != [] ==> AlwaysSingle(Next(s, steps[0], rm), steps[1..], rm))
  }

  lemma {:induction false} RunSingleIff(s: State, steps: seq<Step>, rm: Manager)
    requires Inv(s) && OnlyRecorded(s) && PossibleRun(s, steps, rm)
    ensures AlwaysSingle(s, steps, rm) <==> Lossless(steps)
    decreases |steps|
  {
    hide Inv, OnlyRecorded, Possible, Next, StaysSingle, NothingLost;
    RecordedStaysSingle(s, rm);
    if steps != [] {
      var t := Next(s, steps[0], rm);
      assert Lossless(steps) <==> NothingLost(steps[0]) && Lossless(steps[1..]) by {
        assert steps == [steps[0]] + steps[1..];
      }
      StepSingleIff(s, steps[0], rm);
      if NothingLost(steps[0]) {
        StepKeeps(s, steps[0], rm);
        OnlyRecordedStep(s, steps[0], rm);
        RunSingleIff(t, steps[1..], rm);
      } else {
        assert AlwaysSingle(t, steps[1..], rm) ==> StaysSingle(t, rm);
      }
    }
  }

  /** Over every run: at every point, at most one runtime made by the reconciler exists and will
      exist as long as nothing more is lost, if and only if the run loses no create. */
  lemma AtMostOneIff(s: State, steps: seq<Step>, rm: Manager)
    requires Begins(s) && PossibleRun(s, steps, rm)
    ensures AlwaysSingle(s, steps, rm) <==> Lossless(steps)
    ensures Lossless(steps) ==> Single(After(s, steps, rm))
  {
    hide PossibleRun, After, Lossless, AlwaysSingle, Single;
    RunSingleIff(s, steps, rm);
    if Lossless(steps) {
      RunKeeps(s, steps, rm);
      OnlyRecordedRun(s, steps, rm);
      RecordedIsSingle(After(s, steps, rm));
    }
  }

  lemma RecordedIsSingle(s: State)
    requires OnlyRecorded(s)
    ensures Single(s)
  {
  }

  lemma One(s: State, step: Step, rest: seq<Step>, rm: Manager)
    requires Possible(s, step)
    ensures PossibleRun(s, [step] + rest, rm) <==> PossibleRun(Next(s, step, rm), rest, rm)
    ensures PossibleRun(Next(s, step, rm), rest, rm) ==>
              After(s, [step] + rest, rm) == After(Next(s, step, rm), rest, rm)
  {
    assert ([step] + rest)[1..] == rest;
  }
}
