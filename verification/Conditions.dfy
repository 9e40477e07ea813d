/** The Terminal/Recoverable condition machine: updateConditions of
    pkg/resource/agent_runtime/sdk.go, and onError and onSuccess of manager.go. */
module Conditions {
  import opened Basics
  import opened Errors
  import opened Resource

  /** err.Error() of any error, a library's text. */
  type ErrorText = GoError -> string

  /** The condition the loop ends up pointing at: the last one of a kind. */
  function Last(conds: seq<Cond>, kind: ConditionType): (r: int)
    ensures -1 <= r < |conds|
    ensures r >= 0 ==> conds[r].kind == kind
    ensures forall i | r < i < |conds| :: conds[i].kind != kind
  {
    if conds == [] then -1
    else if conds[|conds| - 1].kind == kind then |conds| - 1
    else Last(conds[..|conds| - 1], kind)
  }

  /** Sets status and message of the last condition of a kind, appending one if there is none. */
  function Put(conds: seq<Cond>, kind: ConditionType, status: ConditionStatus, message: Option<string>): (r: seq<Cond>)
    ensures |conds| <= |r| <= |conds| + 1
  {
    var i := Last(conds, kind);
    if i >= 0 then conds[i := conds[i].(status := status, message := message)]
    else conds + [Cond(kind, status, message, None, None)]
  }

  /** The same, but only if there is one. */
  function PutIfPresent(conds: seq<Cond>, kind: ConditionType, status: ConditionStatus,
                        message: Option<string>): (r: seq<Cond>)
    ensures |r| == |conds|
  {
    if Last(conds, kind) >= 0 then Put(conds, kind, status, message) else conds
  }

  function TerminalMessage(e: GoError, text: ErrorText): string {
    if e == SecretTypeNotSupported || e == SecretNotFound || AsTerminal(e) || AsApi(e).None? then text(e)
    else text(AsApi(e).value)
  }

  function RecoverableMessage(e: GoError, text: ErrorText): string {
    if AsApi(e).Some? then text(AsApi(e).value) else text(e)
  }

  /** The conditions after an operation that ended in err (None is success). */
  function Updated(conds: seq<Cond>, err: Option<GoError>, text: ErrorText): seq<Cond> {
    if err.Some? && TerminalClass(err.value) then
      Put(conds, TerminalCondition, True, Some(TerminalMessage(err.value, text)))
    else
      var cleared := PutIfPresent(conds, TerminalCondition, False, None);
      if err.Some? then Put(cleared, RecoverableCondition, True, Some(RecoverableMessage(err.value, text)))
      else PutIfPresent(cleared, RecoverableCondition, False, None)
  }

  predicate Present(conds: seq<Cond>, kind: ConditionType) {
    exists i | 0 <= i < |conds| :: conds[i].kind == kind
  }

  predicate AnyPresent(conds: seq<Cond>) {
    Present(conds, TerminalCondition) || Present(conds, RecoverableCondition) || Present(conds, ResourceSynced)
  }

  predicate IsTerminal(conds: seq<Cond>) {
    exists i | 0 <= i < |conds| :: conds[i].kind == TerminalCondition && conds[i].status == True
  }

  // ----- The methods -----

  method FindConditions(ko: AgentRuntime) returns (terminal: int, recoverable: int, sync: int)
    ensures terminal == Last(ko.Conds(), TerminalCondition)
    ensures recoverable == Last(ko.Conds(), RecoverableCondition)
    ensures sync == Last(ko.Conds(), ResourceSynced)
  {
    terminal, recoverable, sync := -1, -1, -1;
    ghost var conds := ko.Conds();
    for i := 0 to |ko.conditions|
      invariant terminal == Last(conds[..i], TerminalCondition)
      invariant recoverable == Last(conds[..i], RecoverableCondition)
      invariant sync == Last(conds[..i], ResourceSynced)
    {
      assert conds[..i + 1][..i] == conds[..i];
      var kind := ko.conditions[i].value.kind;
      if kind == TerminalCondition {
        terminal := i;
      }
      if kind == RecoverableCondition {
        recoverable := i;
      }
      if kind == ResourceSynced {
        sync := i;
      }
    }
    assert conds[..|conds|] == conds;
  }

  /** Writes through the pointer found, or through a new condition appended to the list. */
  method SetCondition(ko: AgentRuntime, at: int, kind: ConditionType, status: ConditionStatus, message: Option<string>)
    requires ko.Valid() && at == Last(ko.Conds(), kind)
    modifies ko.Repr
    ensures ko.Valid() && fresh(ko.Repr - old(ko.Repr))
    ensures ko.spec == old(ko.spec) && ko.status == old(ko.status)
    ensures ko.Conds() == Put(old(ko.Conds()), kind, status, message)
  {
    if at < 0 {
      var c := new Condition(Cond(kind, status, message, None, None));
      ko.conditions := ko.conditions + [c];
      ko.Repr := ko.Repr + {c};
    } else {
      var c := ko.conditions[at];
      c.value := c.value.(status := status, message := message);
    }
    assert ko.Conds() == Put(old(ko.Conds()), kind, status, message);
  }

  /** The branch of updateConditions for errors outside the terminal class, and for success. */
  method ClearTerminal(ko: AgentRuntime, terminal: int, recoverable: int, err: Option<GoError>, text: ErrorText)
    requires err.Some? ==> !TerminalClass(err.value)
    requires ko.Valid() && terminal == Last(ko.Conds(), TerminalCondition)
    requires recoverable == Last(ko.Conds(), RecoverableCondition)
    modifies ko.Repr
    ensures ko.Valid() && fresh(ko.Repr - old(ko.Repr))
    ensures ko.spec == old(ko.spec) && ko.status == old(ko.status)
    ensures ko.Conds() == Updated(old(ko.Conds()), err, text)
  {
    LastAfterPut(ko.Conds(), TerminalCondition, RecoverableCondition, False, None);
    hide Last, Put, TerminalClass, TerminalMessage, RecoverableMessage, Resource.Values, AgentRuntime.Valid,
      AgentRuntime.Conds;
    if terminal >= 0 {
      SetCondition(ko, terminal, TerminalCondition, False, None);
    }
    if err.Some? {
      SetCondition(ko, recoverable, RecoverableCondition, True, Some(RecoverableMessage(err.value, text)));
    } else if recoverable >= 0 {
      SetCondition(ko, recoverable, RecoverableCondition, False, None);
    }
  }

  /** The two branches of updateConditions. */
  method WriteConditions(ko: AgentRuntime, terminal: int, recoverable: int, err: Option<GoError>, text: ErrorText)
    requires ko.Valid() && terminal == Last(ko.Conds(), TerminalCondition)
    requires recoverable == Last(ko.Conds(), RecoverableCondition)
    modifies ko.Repr
    ensures ko.Valid() && fresh(ko.Repr - old(ko.Repr))
    ensures ko.spec == old(ko.spec) && ko.status == old(ko.status)
    ensures ko.Conds() == Updated(old(ko.Conds()), err, text)
  {
    hide Last, Put, PutIfPresent, TerminalClass, TerminalMessage, RecoverableMessage, AgentRuntime.Valid,
      AgentRuntime.Conds;
    if err.Some? && TerminalClass(err.value) {
      SetCondition(ko, terminal, TerminalCondition, True, Some(TerminalMessage(err.value, text)));
    } else {
      ClearTerminal(ko, terminal, recoverable, err, text);
    }
  }

  /** updateConditions works on a deep copy: the resource passed in is not modified. */
  method UpdateConditions(r: AgentRuntime, err: Option<GoError>, text: ErrorText, rm: Manager)
    returns (ko: AgentRuntime?, updated: bool)
    ensures updated <==> err.Some? || AnyPresent(old(r.Conds()))
    ensures updated <==> ko != null
    ensures updated ==>
              && ko.Valid() && fresh(ko.Repr)
              && ko.spec == old(r.spec) && ko.namespace == r.namespace
              && ko.status == old(r.status).(metadata := Some(WithDefaults(old(r.status).metadata, rm)))
              && ko.Conds() == Updated(old(r.Conds()), err, text)
  {
    ghost var was := r.Conds();
    var copy := r.DeepCopy();
    SetStatusDefaults(copy, rm);
    assert copy.Conds() == was;
    var terminal, recoverable, sync := FindConditions(copy);
    LastIffPresent(was, TerminalCondition);
    LastIffPresent(was, RecoverableCondition);
    LastIffPresent(was, ResourceSynced);
    hide Last, Present, WithDefaults, Updated, Resource.Values, AgentRuntime.Valid, AgentRuntime.Conds;
    WriteConditions(copy, terminal, recoverable, err, text);
    if err.Some? || terminal >= 0 || recoverable >= 0 || sync >= 0 {
      return copy, true;
    }
    return null, false;
  }

  /** What is enough for a success to be written down: one condition of the three kinds. */
  lemma AnyPresentIff(conds: seq<Cond>)
    ensures AnyPresent(conds)
            <==> exists c | c in conds ::
                   c.kind == TerminalCondition || c.kind == RecoverableCondition || c.kind == ResourceSynced
  {
    assert forall i | 0 <= i < |conds| :: conds[i] in conds;
  }

  lemma LastIffPresent(conds: seq<Cond>, kind: ConditionType)
    ensures Last(conds, kind) >= 0 <==> Present(conds, kind)
  {
    if Last(conds, kind) >= 0 {
      assert conds[Last(conds, kind)].kind == kind;
    }
  }

  lemma LastAfterPut(conds: seq<Cond>, kind: ConditionType, other: ConditionType, status: ConditionStatus,
                     message: Option<string>)
    requires kind != other
    ensures Last(PutIfPresent(conds, kind, status, message), other) == Last(conds, other)
  {
    var r := PutIfPresent(conds, kind, status, message);
    assert forall i | 0 <= i < |conds| :: r[i].kind == conds[i].kind;
  }

  /** onError: the resource and the error handed back to the reconciler. */
  method OnError(r: AgentRuntime, err: GoError, text: ErrorText, rm: Manager) returns (ko: AgentRuntime, out: GoError)
    ensures ko.Valid() && fresh(ko.Repr) && ko.spec == old(r.spec) && ko.namespace == r.namespace
    ensures ko.Conds() == Updated(old(r.Conds()), Some(err), text)
    ensures ko.status == old(r.status).(metadata := Some(WithDefaults(old(r.status).metadata, rm)))
    ensures out == if IsTerminal(Updated(old(r.Conds()), Some(err), text)) then Terminal else err
  {
    var r1, updated := UpdateConditions(r, Some(err), text, rm);
    ghost var conds := r1.Conds();
    for i := 0 to |r1.conditions|
      invariant forall j | 0 <= j < i :: !(conds[j].kind == TerminalCondition && conds[j].status == True)
    {
      assert conds[i] == r1.conditions[i].value;
      if r1.conditions[i].value.kind == TerminalCondition && r1.conditions[i].value.status == True {
        return r1, Terminal;
      }
    }
    return r1, err;
  }

  /** onSuccess hands back its argument when no condition was there to update. */
  method OnSuccess(r: AgentRuntime, text: ErrorText, rm: Manager) returns (ko: AgentRuntime)
    ensures ko.spec == old(r.spec) && ko.namespace == r.namespace
    ensures ko.Conds() == Updated(old(r.Conds()), None, text)
    ensures if exists c | c in old(r.Conds()) ::
                 c.kind == TerminalCondition || c.kind == RecoverableCondition || c.kind == ResourceSynced
            then
              && ko.Valid() && fresh(ko.Repr)
              && ko.status == old(r.status).(metadata := Some(WithDefaults(old(r.status).metadata, rm)))
            else ko == r
  {
    AnyPresentIff(r.Conds());
    LastIffPresent(r.Conds(), TerminalCondition);
    LastIffPresent(r.Conds(), RecoverableCondition);
    var r1, updated := UpdateConditions(r, None, text, rm);
    if !updated {
      return r;
    }
    return r1;
  }

  // ----- Over whole runs -----

  predicate AtMostOne(conds: seq<Cond>, kind: ConditionType) {
    forall i, j | 0 <= i < |conds| && 0 <= j < |conds| :: conds[i].kind == kind && conds[j].kind == kind ==> i == j
  }

  /** What every caller relies on. */
  predicate Unique(conds: seq<Cond>) {
    AtMostOne(conds, TerminalCondition) && AtMostOne(conds, RecoverableCondition)
  }

  function Missing(conds: seq<Cond>): nat {
    (if Present(conds, TerminalCondition) then 0 else 1) + (if Present(conds, RecoverableCondition) then 0 else 1)
  }

  /** Every entry of other kinds stands where it was; an entry's kind, reason and time never
      change. */
  predicate OthersStand(before: seq<Cond>, after: seq<Cond>) {
    && |before| <= |after|
    && (forall i | 0 <= i < |before| ::
          after[i] == before[i].(status := after[i].status, message := after[i].message))
    && (forall i | 0 <= i < |before| ::
          before[i].kind != TerminalCondition && before[i].kind != RecoverableCondition ==> after[i] == before[i])
    && (forall i | |before| <= i < |after| ::
         after[i].kind == TerminalCondition || after[i].kind == RecoverableCondition)
  }

  /** One step: uniqueness is kept, nothing else is touched, and the list can only grow by a
      kind it lacked. */
  lemma StepKeeps(conds: seq<Cond>, err: Option<GoError>, text: ErrorText)
    ensures var after := Updated(conds, err, text);
            && (Unique(conds) ==> Unique(after))
            && OthersStand(conds, after)
            && |after| + Missing(after) == |conds| + Missing(conds)
  {
    var after := Updated(conds, err, text);
    if err.Some? && TerminalClass(err.value) {
      PutKeeps(conds, TerminalCondition, True, Some(TerminalMessage(err.value, text)));
    } else {
      var cleared := PutIfPresent(conds, TerminalCondition, False, None);
      PutKeeps(conds, TerminalCondition, False, None);
      assert Last(conds, TerminalCondition) < 0 ==> cleared == conds;
      if err.Some? {
        PutKeeps(cleared, RecoverableCondition, True, Some(RecoverableMessage(err.value, text)));
      } else {
        PutKeeps(cleared, RecoverableCondition, False, None);
      }
    }
  }

  lemma PutKeeps(conds: seq<Cond>, kind: ConditionType, status: ConditionStatus, message: Option<string>)
    requires kind == TerminalCondition || kind == RecoverableCondition
    ensures var after := Put(conds, kind, status, message);
            && (Unique(conds) ==> Unique(after))
            && OthersStand(conds, after)
            && |after| + Missing(after) == |conds| + Missing(conds)
            && Present(after, kind)
            && (Present(conds, kind) <==> Last(conds, kind) >= 0)
            && (|after| == |conds| <==> Last(conds, kind) >= 0)
  {
    var after := Put(conds, kind, status, message);
    var i := Last(conds, kind);
    if i >= 0 {
      assert conds[i].kind == kind;
      assert after[i].kind == kind;
    } else {
      assert after[|conds|].kind == kind;
    }
    forall k: ConditionType | k != kind
      ensures Present(after, k) <==> Present(conds, k)
    {
      if j :| 0 <= j < |conds| && conds[j].kind == k {
        assert after[j].kind == k;
      }
      if j :| 0 <= j < |after| && after[j].kind == k {
        assert conds[j].kind == k;
      }
    }
  }

  /** The conditions after a run of operations, each ending in the given outcome. */
  function Run(conds: seq<Cond>, outcomes: seq<Option<GoError>>, text: ErrorText): seq<Cond> {
    if outcomes == [] then conds
    else Updated(Run(conds, outcomes[..|outcomes| - 1], text), outcomes[|outcomes| - 1], text)
  }

  /** Over any run of outcomes: at most one Terminal and one Recoverable condition if it began
      so, at most two entries more in total, and every other condition unchanged. */
  lemma {:induction false} RunKeeps(conds: seq<Cond>, outcomes: seq<Option<GoError>>, text: ErrorText)
    ensures var after := Run(conds, outcomes, text);
            && (Unique(conds) ==> Unique(after))
            && OthersStand(conds, after)
            && |after| + Missing(after) == |conds| + Missing(conds)
            && |after| <= |conds| + 2
  {
    if outcomes != [] {
      var init := outcomes[..|outcomes| - 1];
      RunKeeps(conds, init, text);
      StepKeeps(Run(conds, init, text), outcomes[|outcomes| - 1], text);
    }
  }

  /** onError answers the Terminal error exactly when its error is in the terminal class or a
      stale Terminal=True condition stands before the last Terminal one. */
  lemma TerminalAnswerIff(conds: seq<Cond>, err: GoError, text: ErrorText)
    ensures IsTerminal(Updated(conds, Some(err), text))
            <==> || TerminalClass(err)
                 || exists i | 0 <= i < Last(conds, TerminalCondition) ::
                      conds[i].kind == TerminalCondition && conds[i].status == True
  {
    var after := Updated(conds, Some(err), text);
    var t := Last(conds, TerminalCondition);
    StepKeeps(conds, Some(err), text);
    if TerminalClass(err) {
      var at := if t >= 0 then t else |conds|;
      assert after[at].kind == TerminalCondition && after[at].status == True;
    } else {
      if i :| 0 <= i < t && conds[i].kind == TerminalCondition && conds[i].status == True {
        assert after[i] == conds[i];
      }
      if i :| 0 <= i < |after| && after[i].kind == TerminalCondition && after[i].status == True {
        assert i < t;
        assert conds[i] == after[i];
      }
    }
  }

  /** Two Terminal conditions, the earlier one stale: a retryable error is answered as terminal. */
  lemma StaleDuplicateInput(text: ErrorText)
    ensures var stale := Cond(TerminalCondition, True, None, None, None);
            var cleared := Cond(TerminalCondition, False, None, None, None);
            var err := Plain("throttled");
            !TerminalClass(err) && IsTerminal(Updated([stale, cleared], Some(err), text))
  {
    var conds := [Cond(TerminalCondition, True, None, None, None), Cond(TerminalCondition, False, None, None, None)];
    assert Last(conds, TerminalCondition) == 1;
    assert conds[0].kind == TerminalCondition && conds[0].status == True;
    TerminalAnswerIff(conds, Plain("throttled"), text);
  }

  /** Under uniqueness that is: exactly when its error is in the terminal class. */
  lemma TerminalAnswerUnique(conds: seq<Cond>, err: GoError, text: ErrorText)
    requires Unique(conds)
    ensures IsTerminal(Updated(conds, Some(err), text)) <==> TerminalClass(err)
  {
    TerminalAnswerIff(conds, err, text);
  }

  predicate IsRecoverable(conds: seq<Cond>) {
    exists i | 0 <= i < |conds| :: conds[i].kind == RecoverableCondition && conds[i].status == True
  }

  /** Under uniqueness the two flags after a step: Terminal follows this step's error alone;
      Recoverable follows it too, except that a terminal error leaves it as it was. */
  lemma FlagsAfter(conds: seq<Cond>, err: Option<GoError>, text: ErrorText)
    requires Unique(conds)
    ensures var after := Updated(conds, err, text);
            && (IsTerminal(after) <==> err.Some? && TerminalClass(err.value))
            && (IsRecoverable(after)
                <==> err.Some? && (TerminalClass(err.value) ==> IsRecoverable(conds)))
  {
    var after := Updated(conds, err, text);
    StepKeeps(conds, err, text);
    if err.Some? {
      TerminalAnswerIff(conds, err.value, text);
    }
    var r := Last(conds, RecoverableCondition);
    if err.Some? && TerminalClass(err.value) {
      assert forall i | 0 <= i < |conds| && conds[i].kind == RecoverableCondition :: after[i] == conds[i];
    } else {
      var cleared := PutIfPresent(conds, TerminalCondition, False, None);
      LastAfterPut(conds, TerminalCondition, RecoverableCondition, False, None);
      if err.Some? {
        var at := if r >= 0 then r else |conds|;
        assert after[at].kind == RecoverableCondition && after[at].status == True;
      }
    }
  }

  // ----- By the kind of error -----

  /** Which errors end in a Terminal condition: the service's ValidationException and the builder's
      TerminalError, both inside any wrapping, and the two secret errors, unwrapped. */
  lemma TerminalErrors(conds: seq<Cond>, err: GoError, text: ErrorText)
    requires Unique(conds)
    ensures IsTerminal(Updated(conds, Some(err), text))
            <==> match err
                 case ApiError(code, _) => code == "ValidationException"
                 case TerminalError(_) => true
                 case SecretTypeNotSupported => true
                 case SecretNotFound => true
                 case Requeue(e) =>
                   IsTerminal(Updated(conds, Some(e), text)) && e != SecretTypeNotSupported && e != SecretNotFound
                 case PostCreate(e) =>
                   IsTerminal(Updated(conds, Some(e), text)) && e != SecretTypeNotSupported && e != SecretNotFound
                 case _ => false
  {
    TerminalAnswerUnique(conds, err, text);
    if err.Requeue? || err.PostCreate? {
      TerminalAnswerUnique(conds, err.inner, text);
    }
    hide Updated, IsTerminal, Unique;
  }

  predicate Wraps(err: GoError, inner: GoError) {
    err == inner || ((err.Requeue? || err.PostCreate?) && Wraps(err.inner, inner))
  }

  /** What an error is shown as: the service's error, if it wraps one, alone; otherwise all of it. A
      terminal error that is not the service's is shown whole. */
  ghost predicate Shows(err: GoError, terminal: bool, message: string, text: ErrorText) {
    if || (forall api | Wraps(err, api) :: !api.ApiError?)
       || (terminal && exists e | Wraps(err, e) :: e.TerminalError?)
    then message == text(err)
    else forall api | Wraps(err, api) && api.ApiError? :: message == text(api)
  }

  lemma {:induction false} WrapsOne(err: GoError)
    ensures match AsApi(err)
            case Some(api) => api.ApiError? && Wraps(err, api) && forall e | Wraps(err, e) && e.ApiError? :: e == api
            case None => forall e | Wraps(err, e) :: !e.ApiError?
    ensures AsTerminal(err) <==> exists e | Wraps(err, e) :: e.TerminalError?
  {
    assert Wraps(err, err);
    if err.Requeue? || err.PostCreate? {
      WrapsOne(err.inner);
    }
  }

  lemma MessagesShow(err: GoError, text: ErrorText)
    ensures TerminalClass(err) ==> Shows(err, true, TerminalMessage(err, text), text)
    ensures Shows(err, false, RecoverableMessage(err, text), text)
  {
    WrapsOne(err);
    if AsApi(err).Some? {
      assert Wraps(err, AsApi(err).value);
    }
    hide Wraps, AsApi, AsTerminal;
  }

  /** What stands in the two conditions afterwards, word for word. */
  lemma Written(conds: seq<Cond>, err: Option<GoError>, text: ErrorText, i: nat)
    requires Unique(conds) && i < |Updated(conds, err, text)|
    ensures var c := Updated(conds, err, text)[i];
            var terminal := err.Some? && TerminalClass(err.value);
            && (c.kind == TerminalCondition ==>
                  if terminal then c.status == True && c.message.Some? && Shows(err.value, true, c.message.value, text)
                  else c.status == False && c.message == None)
            && (c.kind == RecoverableCondition ==>
                  if terminal then i < |conds| && c == conds[i]
                  else if err.Some? then
                    c.status == True && c.message.Some? && Shows(err.value, false, c.message.value, text)
                  else c.status == False && c.message == None)
            && (i >= |conds| ==> c.reason == None && c.lastTransitionTime == None)
  {
    if err.Some? {
      MessagesShow(err.value, text);
    }
    hide Shows, TerminalClass, TerminalMessage, RecoverableMessage;
  }
}
