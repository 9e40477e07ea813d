/** The API-key credential provider: the resource whose read really observes the remote tags
    (pkg/resource/api_key_credential_provider/sdk.go, delta.go, hooks.go and manager.go). */
module CredentialProvider {
  import opened Basics
  import opened Errors
  import opened Trees
  import opened SpecView
  import opened Delta
  import opened TagSync
  import Endpoint
  import Tags

  datatype ProviderSpec = ProviderSpec(apiKey: Option<string>, name: Option<string>, tags: StringMap)

  /** What GetApiKeyCredentialProvider answers. */
  datatype Answer = Answer(name: Option<string>, arn: Option<string>)

  // ----- The read -----

  /** sdkFind: the spec read, given the stored ARN and how the two calls end. A provider whose
      ARN is known from neither side makes the source dereference nil. */
  function Found(r: ProviderSpec, storedARN: Option<string>, get: Result<Answer>,
                 list: Result<map<string, string>>): Build<ProviderSpec> {
    if r.name.None? then Failed(NotFound)
    else
      match get
      case Err(e) => Failed(if IsMissing(e) then NotFound else e)
      case Ok(answer) =>
        if answer.arn.None? && storedARN.None? then Panicked
        else
          match list
          case Err(e) => Failed(e)
          case Ok(remote) => Built(r.(name := answer.name, tags := Some(StringMapOf(remote))))
  }

  method SdkFind(r: ProviderSpec, storedARN: Option<string>, get: Result<Answer>, list: Result<map<string, string>>)
    returns (latest: Build<ProviderSpec>)
    ensures latest == Found(r, storedARN, get, list)
  {
    if r.name.None? {
      return Failed(NotFound);
    }
    if get.Err? {
      if IsMissing(get.err) {
        return Failed(NotFound);
      }
      return Failed(get.err);
    }
    var ko, arn := r, storedARN;
    if get.value.arn.Some? {
      arn := get.value.arn;
    }
    ko := ko.(name := get.value.name);
    if arn.None? {
      return Panicked;
    }
    if list.Err? {
      return Failed(list.err);
    }
    ko := ko.(tags := Some(StringMapOf(list.value)));
    return Built(ko);
  }

  /** How a read ends: with the name and the tags the service reports if it answers both calls and
      an ARN is known; as not found without a name or if the service says so; else with the error of
      the call that failed. */
  lemma FoundExact(r: ProviderSpec, storedARN: Option<string>, get: Result<Answer>, list: Result<map<string, string>>)
    ensures var f := Found(r, storedARN, get, list);
            var known := get.Ok? && (get.value.arn.Some? || storedARN.Some?);
            && (f.Built? <==> r.name.Some? && known && list.Ok?)
            && (f.Panicked? <==> r.name.Some? && get.Ok? && !known)
            && (f.Built? ==>
                  && f.value.name == get.value.name && f.value.apiKey == r.apiKey
                  && f.value.tags == Some(StringMapOf(list.value)))
            && (r.name.None? ==> f == Failed(NotFound))
            && (r.name.Some? && get.Err? && get.err.ApiError? ==>
                  f == Failed(if get.err.code == "ResourceNotFoundException" then NotFound else get.err))
            && (r.name.Some? && known && list.Err? ==> f == Failed(list.err))
  {
  }

  function ProviderTree(s: ProviderSpec): Tree {
    Struct(Field(Name.APIKey, StrNode(s.apiKey),
           Field(Name.FieldName, StrNode(s.name),
           Field(Name.Tags, Leaf(TagMap(Tags.Plain(s.tags))), End))))
  }

  function ProviderDelta(eq: ListEq, a: ProviderSpec, b: ProviderSpec): seq<Difference> {
    Diff(eq, SPEC, ProviderTree(a), ProviderTree(b))
  }

  lemma DeltaByField(eq: ListEq, a: ProviderSpec, b: ProviderSpec)
    ensures ProviderDelta(eq, a, b)
         == Endpoint.StrDiff(Name.APIKey, a.apiKey, b.apiKey)
            + (Endpoint.StrDiff(Name.FieldName, a.name, b.name)
            + Endpoint.TagDiff(a.tags, b.tags))
  {
    var fa, fb := ProviderTree(a).fields, ProviderTree(b).fields;
    DiffOfStructs(eq, SPEC, ProviderTree(a), ProviderTree(b));
    Endpoint.StrDiffIs(eq, Name.APIKey, a.apiKey, b.apiKey);
    Endpoint.StrDiffIs(eq, Name.FieldName, a.name, b.name);
    Endpoint.TagDiffIs(eq, a.tags, b.tags);
    hide Diff, DiffFields, LocallyDiffer, StrNode, Endpoint.StrDiff, Endpoint.TagDiff;
    fa, fb := Endpoint.Unfold(eq, fa, fb);
    fa, fb := Endpoint.Unfold(eq, fa, fb);
    fa, fb := Endpoint.Unfold(eq, fa, fb);
  }

  /** Compares two providers (None is a nil one); two nil ones are not compared. */
  method NewResourceDelta(a: Option<ProviderSpec>, b: Option<ProviderSpec>, eq: ListEq) returns (delta: Delta)
    requires a.Some? || b.Some?
    ensures delta.Valid() && fresh(delta.Repr)
    ensures a.Some? && b.Some? ==> delta.differences == ProviderDelta(eq, a.value, b.value)
    ensures a.None? ==> delta.differences == [Difference([Name.NoField], Absent, ProviderTree(b.value))]
    ensures b.None? ==> delta.differences == [Difference([Name.NoField], ProviderTree(a.value), Absent)]
  {
    delta := new Delta();
    if a.None? {
      delta.Add([Name.NoField], Absent, ProviderTree(b.value));
    } else if b.None? {
      delta.Add([Name.NoField], ProviderTree(a.value), Absent);
    } else {
      assert Then([], ProviderDelta(eq, a.value, b.value)) == ProviderDelta(eq, a.value, b.value);
      ghost var fa, fb := ProviderTree(a.value).fields, ProviderTree(b.value).fields;
      DiffOfStructs(eq, SPEC, ProviderTree(a.value), ProviderTree(b.value));
      hide Diff, DiffFields, LocallyDiffer, Then, StrNode, Tags.Plain;
      fa, fb := Step(eq, SPEC, delta.differences, fa, fb);
      CompareString(delta, SPEC + [Name.APIKey], a.value.apiKey, b.value.apiKey, eq);
      fa, fb := Step(eq, SPEC, delta.differences, fa, fb);
      CompareString(delta, SPEC + [Name.FieldName], a.value.name, b.value.name, eq);
      fa, fb := Step(eq, SPEC, delta.differences, fa, fb);
      CompareTags(delta, SPEC + [Name.Tags], a.value.tags, b.value.tags, eq);
    }
  }

  /** Between a declared provider, its tags mirrored, and its own read only the name and the
      tags can differ; the tags do exactly when the declared ones, service-managed keys
      mirrored in, are not the remote ones. */
  lemma TagsDiffer(eq: ListEq, declared: ProviderSpec, storedARN: Option<string>, get: Result<Answer>,
                   list: Result<map<string, string>>)
    requires Found(declared, storedARN, get, list).Built?
    ensures var latest := Found(declared, storedARN, get, list).value;
            var desired := declared.(tags := Tags.Mirrored(declared.tags, latest.tags));
            var delta := ProviderDelta(eq, desired, latest);
            && delta == Endpoint.StrDiff(Name.FieldName, declared.name, latest.name)
                        + Endpoint.TagDiff(desired.tags, latest.tags)
            && (DifferentExcept(delta, TAGS) <==> declared.name != latest.name)
            && (DifferentAt(delta, TAGS) <==> Tags.Plain(desired.tags) != list.value)
            && Tags.Plain(desired.tags) == Tags.SyncedAWS(Tags.Plain(declared.tags), list.value)
  {
    var latest := Found(declared, storedARN, get, list).value;
    var desired := declared.(tags := Tags.Mirrored(declared.tags, latest.tags));
    DeltaByField(eq, desired, latest);
    MirroredTags(declared.tags, list.value);
    assert latest == declared.(name := latest.name, tags := Some(StringMapOf(list.value)));
    hide Found, ProviderDelta, Tags.Mirrored, Tags.Plain, Tags.SyncedAWS;
    NamesThenTags(declared.name, latest.name, desired.tags, latest.tags);
  }

  lemma MirroredTags(declared: StringMap, remote: map<string, string>)
    ensures var latest := Some(StringMapOf(remote));
            && Tags.Plain(latest) == remote
            && Tags.Plain(Tags.Mirrored(declared, latest)) == Tags.SyncedAWS(Tags.Plain(declared), remote)
  {
    Tags.PlainOfStringMap(remote);
    Tags.PlainOfStringMap(Tags.SyncedAWS(Tags.Plain(declared), remote));
  }

  lemma NamesThenTags(n: Option<string>, m: Option<string>, a: StringMap, b: StringMap)
    ensures var names, tags := Endpoint.StrDiff(Name.FieldName, n, m), Endpoint.TagDiff(a, b);
            && [] + (names + tags) == names + tags
            && (DifferentAt(names + tags, TAGS) <==> Tags.Plain(a) != Tags.Plain(b))
            && (DifferentExcept(names + tags, TAGS) <==> n != m)
  {
    var names, tags := Endpoint.StrDiff(Name.FieldName, n, m), Endpoint.TagDiff(a, b);
    var x, y := Tags.Plain(a), Tags.Plain(b);
    var name := Difference(SPEC + [Name.FieldName], StrNode(n), StrNode(m));
    var tag := Difference(TAGS, Leaf(TagMap(x)), Leaf(TagMap(y)));
    assert names + tags == (if n == m then [] else [name]) + (if x == y then [] else [tag]);
    assert name.path[1] == Name.FieldName && !Contains(name.path, TAGS) && Contains(tag.path, TAGS);
    hide Contains, StrNode, Tags.Plain, Endpoint.StrDiff, Endpoint.TagDiff;
    ThereOrNot(name, n != m, tag, x != y);
  }

  lemma ThereOrNot(d: Difference, p: bool, e: Difference, q: bool)
    requires !Contains(d.path, TAGS) && Contains(e.path, TAGS)
    ensures var ds := (if p then [d] else []) + (if q then [e] else []);
            (DifferentAt(ds, TAGS) <==> q) && (DifferentExcept(ds, TAGS) <==> p)
  {
    hide Contains;
    var ds := (if p then [d] else []) + (if q then [e] else []);
    assert p ==> ds[0] == d;
    assert q ==> ds[|ds| - 1] == e;
  }

  // ----- Mirror, compare, synchronise -----

  /** What UpdateApiKeyCredentialProvider is sent. */
  datatype Request = Request(apiKey: Option<string>, name: Option<string>)

  /** newUpdateRequestPayload; reading the secret is not part of this model and may fail. */
  function UpdatePayload(s: ProviderSpec, secret: Result<string>): Result<Request> {
    if s.apiKey.None? then Ok(Request(None, s.name))
    else if secret.Err? then Err(Requeue(secret.err))
    else Ok(Request(NonEmpty(secret.value), s.name))
  }

  /** What an update sends once the tags are in line, and what it ends with. */
  function AfterTags(desired: ProviderSpec, differs: bool, secret: Result<string>, answer: Result<Answer>)
    : (seq<Request>, Build<ProviderSpec>)
  {
    if !differs then ([], Built(desired))
    else
      match UpdatePayload(desired, secret)
      case Err(e) => ([], Failed(e))
      case Ok(input) =>
        ([input], if answer.Err? then Failed(answer.err) else Built(desired.(name := answer.value.name)))
  }

  /** That is: a request goes out exactly if something besides the tags differs and the secret can be
      read; it carries the declared name and the secret's text, an empty one left out; a failure to
      read the secret is retried, and the service's error is handed back. */
  lemma AfterTagsExact(desired: ProviderSpec, differs: bool, secret: Result<string>, answer: Result<Answer>)
    ensures var (sent, outcome) := AfterTags(desired, differs, secret, answer);
            && |sent| <= 1
            && (|sent| == 1 <==> differs && (desired.apiKey.Some? ==> secret.Ok?))
            && (forall q | q in sent ::
                  && q.name == desired.name
                  && (q.apiKey.Some? <==> desired.apiKey.Some? && secret.value != "")
                  && (q.apiKey.Some? ==> q.apiKey.value == secret.value))
            && (!differs ==> outcome == Built(desired))
            && (differs && sent == [] ==> outcome == Failed(Requeue(secret.err)))
            && (|sent| == 1 && answer.Err? ==> outcome == Failed(answer.err))
            && (|sent| == 1 && answer.Ok? ==>
                  && outcome.Built? && outcome.value.name == answer.value.name
                  && outcome.value.apiKey == desired.apiKey && outcome.value.tags == desired.tags)
  {
  }

  /** The calls of the tag half: none unless the delta names the tags and the ARN is known. */
  ghost function TagHalf(client: Client, desired: ProviderSpec, latest: ProviderSpec, arn: Option<string>,
                         ds: seq<Difference>): Attempt
    reads client
  {
    if DifferentAt(ds, TAGS) && arn.Some? then Coming(client, Tags.Plain(desired.tags), Tags.Plain(latest.tags))
    else Attempt(client.remote, [], true)
  }

  /** sdkUpdate: tags first, and nothing after a failing tag call; then the request, if anything
      but the tags differs. */
  method SdkUpdate(client: Client, desired: ProviderSpec, latest: ProviderSpec, arn: Option<string>, delta: Delta,
                   tagError: GoError, secret: Result<string>, answer: Result<Answer>)
    returns (sent: seq<Request>, updated: Build<ProviderSpec>)
    requires delta.Valid()
    modifies client
    ensures var ds := old(delta.differences);
            var half := old(TagHalf(client, desired, latest, arn, ds));
            && client.remote == half.remote && client.calls == old(client.calls) + half.calls
            && (sent, updated)
               == (if DifferentAt(ds, TAGS) && arn.None? then ([], Panicked)
                   else if !half.ok then ([], Failed(tagError))
                   else AfterTags(desired, DifferentExcept(ds, TAGS), secret, answer))
            && (|sent| == 1
                <==> && (DifferentAt(ds, TAGS) ==> arn.Some? && half.ok)
                     && DifferentExcept(ds, TAGS) && (desired.apiKey.Some? ==> secret.Ok?))
  {
    hide DifferentAt, DifferentExcept, Tags.Plain, Coming, Attempted;
    var ds := delta.backing[..delta.len];
    sent := [];
    if DifferentAt(ds, TAGS) {
      if arn.None? {
        return [], Panicked;
      }
      var synced := SyncTags(client, Tags.Plain(desired.tags), Tags.Plain(latest.tags));
      if !synced {
        return [], Failed(tagError);
      }
    }
    if !DifferentExcept(ds, TAGS) {
      return [], Built(desired);
    }
    var input := UpdatePayload(desired, secret);
    if input.Err? {
      return [], Failed(input.err);
    }
    sent := [input.value];
    if answer.Err? {
      return sent, Failed(answer.err);
    }
    return sent, Built(desired.(name := answer.value.name));
  }

  /** The pass that a client is about to make, given how its coming calls end. */
  ghost function ComingPass(client: Client, declared: StringMap): Attempt
    reads client
  {
    var n := |client.calls|;
    var desired := Tags.Plain(Tags.Mirrored(declared, Some(StringMapOf(client.remote))));
    var removeAt := if ToAdd(desired, client.remote) == map[] then n else n + 1;
    Pass(declared, client.remote, client.outcomes(n), client.outcomes(removeAt))
  }

  lemma HalfIsPass(client: Client, declared: StringMap, desired: ProviderSpec, latest: ProviderSpec,
                   arn: Option<string>, ds: seq<Difference>)
    requires latest.tags == Some(StringMapOf(client.remote)) && desired.tags == Tags.Mirrored(declared, latest.tags)
    requires arn.Some? && (DifferentAt(ds, TAGS) <==> Tags.Plain(desired.tags) != client.remote)
    ensures TagHalf(client, desired, latest, arn, ds) == ComingPass(client, declared)
  {
    Tags.PlainOfStringMap(client.remote);
    hide DifferentAt, Tags.Mirrored, Tags.Plain, ToAdd, ToDelete, Sent;
  }

  /** One whole cycle: read, mirror the service-managed tags, compare, update. A read that fails
      makes no call; otherwise the tag calls are those of Pass, and a changed name is sent once
      they are done. */
  method Reconcile(client: Client, declared: ProviderSpec, storedARN: Option<string>, get: Result<Answer>,
                   listError: Option<GoError>, tagError: GoError, secret: Result<string>, answer: Result<Answer>,
                   eq: ListEq)
    returns (sent: seq<Request>, outcome: Build<ProviderSpec>)
    modifies client
    ensures var list := if listError.Some? then Err(listError.value) else Ok(old(client.remote));
            match Found(declared, storedARN, get, list)
            case Built(latest) =>
              var pass := old(ComingPass(client, declared.tags));
              var desired := declared.(tags := Tags.Mirrored(declared.tags, latest.tags));
              && client.remote == pass.remote && client.calls == old(client.calls) + pass.calls
              && (sent, outcome) == (if !pass.ok then ([], Failed(tagError))
                                     else AfterTags(desired, declared.name != latest.name, secret, answer))
              && (|sent| == 1
                  <==> pass.ok && declared.name != get.value.name && (declared.apiKey.Some? ==> secret.Ok?))
              && (|sent| == 1 ==> sent[0].name == declared.name)
              && (outcome.Built?
                  <==> pass.ok && (declared.name == get.value.name
                                   || ((declared.apiKey.Some? ==> secret.Ok?) && answer.Ok?)))
            case Failed(e) => unchanged(client) && (sent, outcome) == ([], Failed(e))
            case Panicked => unchanged(client) && outcome.Panicked?
  {
    var list := if listError.Some? then Err(listError.value) else Ok(client.remote);
    var latest := SdkFind(declared, storedARN, get, list);
    hide Found, AfterTags, ComingPass, TagHalf, ProviderDelta, DifferentAt, DifferentExcept, Tags.Mirrored, Tags.Plain,
      Tags.SyncedAWS;
    if !latest.Built? {
      return [], latest;
    }
    FoundExact(declared, storedARN, get, list);
    var tags := Tags.MirrorAWSTags(declared.tags, latest.value.tags);
    var desired := declared.(tags := tags);
    TagsDiffer(eq, declared, storedARN, get, list);
    var delta := NewResourceDelta(Some(desired), Some(latest.value), eq);
    var arn := if get.value.arn.Some? then get.value.arn else storedARN;
    HalfIsPass(client, declared.tags, desired, latest.value, arn, delta.differences);
    AfterTagsExact(desired, declared.name != latest.value.name, secret, answer);
    sent, outcome := SdkUpdate(client, desired, latest.value, arn, delta, tagError, secret, answer);
  }

  function Pass(declared: StringMap, remote: map<string, string>, add: Outcome, remove: Outcome): Attempt {
    var desired := Tags.Plain(Tags.Mirrored(declared, Some(StringMapOf(remote))));
    if desired != remote then Attempted(desired, remote, remote, add, remove) else Attempt(remote, [], true)
  }

  /** The declared map overlaid with the remote service-managed entries. */
  function Target(declared: StringMap, remote: map<string, string>): map<string, string> {
    Tags.Plain(declared) + Tags.AWSPart(remote)
  }

  /** Mirroring makes the pass aim at exactly that target. */
  lemma PassAims(declared: StringMap, remote: map<string, string>, add: Outcome, remove: Outcome)
    ensures Tags.Plain(Tags.Mirrored(declared, Some(StringMapOf(remote)))) == Target(declared, remote)
    ensures Pass(declared, remote, add, remove)
         == if Target(declared, remote) != remote then Attempted(Target(declared, remote), remote, remote, add, remove)
            else Attempt(remote, [], true)
  {
    Tags.PlainOfStringMap(remote);
    Tags.PlainOfStringMap(Tags.SyncedAWS(Tags.Plain(declared), remote));
  }

  /** A pass whose calls succeed leaves the remote map equal to the target. */
  lemma PassResult(declared: StringMap, remote: map<string, string>)
    ensures Pass(declared, remote, Done, Done).ok
    ensures Pass(declared, remote, Done, Done).remote == Target(declared, remote)
  {
    PassAims(declared, remote, Done, Done);
    hide Target, Attempted, Pass;
    AttemptShrinks(Target(declared, remote), remote, Done, Done);
    AttemptSucceeds(Target(declared, remote), remote);
  }

  lemma AttemptSucceeds(desired: map<string, string>, remote: map<string, string>)
    ensures Attempted(desired, remote, remote, Done, Done).ok
  {
  }

  lemma TargetKeepsAWS(declared: StringMap, remote: map<string, string>, k: string)
    requires Tags.IsAWSKey(k) && k in remote
    ensures k in Target(declared, remote) && Target(declared, remote)[k] == remote[k]
  {
  }

  /** However the calls end, none of them names a service-managed key that the remote holds,
      and every such entry stands. */
  lemma PassSparesAWS(declared: StringMap, remote: map<string, string>, add: Outcome, remove: Outcome, k: string)
    requires Tags.IsAWSKey(k) && k in remote
    ensures var a := Pass(declared, remote, add, remove);
            && (forall call | call in a.calls :: !NamesKey(call, k))
            && k in a.remote && a.remote[k] == remote[k]
  {
    PassAims(declared, remote, add, remove);
    TargetKeepsAWS(declared, remote, k);
    hide Target, Attempted, Pass, Tags.IsAWSKey;
    AttemptTouches(Target(declared, remote), remote, add, remove);
  }

  /** A second pass, from the declared map or from the mirrored one, makes no calls. */
  lemma SecondPassQuiet(declared: StringMap, remote: map<string, string>, add: Outcome, remove: Outcome)
    ensures var settled := Pass(declared, remote, Done, Done).remote;
            var mirrored := Tags.Mirrored(declared, Some(StringMapOf(remote)));
            && Pass(declared, settled, add, remove) == Attempt(settled, [], true)
            && Pass(mirrored, settled, add, remove) == Attempt(settled, [], true)
  {
    var settled := Target(declared, remote);
    var mirrored := Tags.Mirrored(declared, Some(StringMapOf(remote)));
    PassResult(declared, remote);
    PassAims(declared, remote, add, remove);
    TargetFixed(declared, remote);
    hide Target, Pass, Attempted, Tags.Mirrored, Tags.Plain;
    PassAims(declared, settled, add, remove);
    PassAims(mirrored, settled, add, remove);
  }

  lemma TargetFixed(declared: StringMap, remote: map<string, string>)
    ensures Target(declared, Target(declared, remote)) == Target(declared, remote)
    ensures Target(Tags.Mirrored(declared, Some(StringMapOf(remote))), Target(declared, remote))
         == Target(declared, remote)
  {
    PassAims(declared, remote, Done, Done);
    hide Pass, Tags.Mirrored, Tags.Plain;
    assert Target(declared, Target(declared, remote)) == Target(declared, remote);
  }

  // ----- Failing passes -----

  function RunPasses(declared: StringMap, remote: map<string, string>, script: Script): map<string, string> {
    if script == [] then remote
    else
      var last := script[|script| - 1];
      Pass(declared, RunPasses(declared, remote, script[..|script| - 1]), last.0, last.1).remote
  }

  /** From any remote state, a run of failing passes followed by a successful one reaches the
      same map as a single successful pass: failures leave nothing behind. */
  lemma FailuresLeaveNothing(declared: StringMap, remote: map<string, string>, script: Script)
    ensures Pass(declared, RunPasses(declared, remote, script), Done, Done).remote
         == Pass(declared, remote, Done, Done).remote
  {
    PassResult(declared, RunPasses(declared, remote, script));
    PassResult(declared, remote);
    RunKeepsTarget(declared, remote, script);
  }

  lemma {:induction false} RunKeepsTarget(declared: StringMap, remote: map<string, string>, script: Script)
    ensures Target(declared, RunPasses(declared, remote, script)) == Target(declared, remote)
  {
    if script != [] {
      var init := script[..|script| - 1];
      RunKeepsTarget(declared, remote, init);
      PassKeepsTarget(declared, RunPasses(declared, remote, init), script[|script| - 1].0, script[|script| - 1].1);
    }
  }

  lemma PassKeepsTarget(declared: StringMap, remote: map<string, string>, add: Outcome, remove: Outcome)
    ensures Target(declared, Pass(declared, remote, add, remove).remote) == Target(declared, remote)
  {
    var after := Pass(declared, remote, add, remove).remote;
    PassAims(declared, remote, add, remove);
    AttemptTouches(Target(declared, remote), remote, add, remove);
    assert forall k | k in after :: (k in remote && after[k] == remote[k])
                                 || (k in Target(declared, remote) && after[k] == Target(declared, remote)[k]);
    forall k | Tags.IsAWSKey(k) && k in remote
      ensures k in after && after[k] == remote[k]
    {
      PassSparesAWS(declared, remote, add, remove, k);
    }
    SameTarget(declared, remote, after);
  }

  lemma SameTarget(declared: StringMap, remote: map<string, string>, after: map<string, string>)
    requires forall k | k in after :: (k in remote && after[k] == remote[k])
                                   || (k in Target(declared, remote) && after[k] == Target(declared, remote)[k])
    requires forall k | Tags.IsAWSKey(k) && k in remote :: k in after && after[k] == remote[k]
    ensures Target(declared, after) == Target(declared, remote)
  {
    var s, t := Target(declared, after), Target(declared, remote);
    hide Tags.Plain, Tags.IsAWSKey;
    assert forall k :: k in s <==> k in t;
    assert forall k | k in s :: s[k] == t[k];
  }
}
