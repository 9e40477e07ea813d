/** The tag synchroniser shared by the tagged resources: SyncTags, addTags and removeTags of
    pkg/tags/sync.go, against a remote tag map whose calls may fail part-way. */
module TagSync {
  import opened Basics

  type TagMap = map<string, string>

  /** How a tag call ends. A failing call may still have taken effect on some of its keys. */
  datatype Outcome = Done | Fault(applied: set<string>)

  datatype Call = TagResource(tags: TagMap) | UntagResource(keys: set<string>)

  function ToAdd(desired: TagMap, existing: TagMap): TagMap {
    map k | k in desired && (k !in existing || existing[k] != desired[k]) :: desired[k]
  }

  function ToDelete(desired: TagMap, existing: TagMap): set<string> {
    existing.Keys - desired.Keys
  }

  /** The remote map after one call. */
  function Effect(remote: TagMap, call: Call, o: Outcome): TagMap {
    match call
    case TagResource(tags) => remote + (map k | k in tags && (o.Done? || k in o.applied) :: tags[k])
    case UntagResource(keys) => map k | k in remote && !(k in keys && (o.Done? || k in o.applied)) :: remote[k]
  }

  datatype Attempt = Attempt(remote: TagMap, calls: seq<Call>, ok: bool)

  /** The two calls: add first, then remove, stopping at a failure. `add` and `remove` say how
      they end if they are made. */
  function Sent(toAdd: TagMap, toDelete: set<string>, remote: TagMap, add: Outcome, remove: Outcome): Attempt {
    var added := if toAdd == map[] then remote else Effect(remote, TagResource(toAdd), add);
    var first := if toAdd == map[] then [] else [TagResource(toAdd)];
    if toAdd != map[] && add.Fault? then Attempt(added, first, false)
    else if toDelete == {} then Attempt(added, first, true)
    else Attempt(Effect(added, UntagResource(toDelete), remove), first + [UntagResource(toDelete)], remove.Done?)
  }

  /** One SyncTags attempt. */
  function Attempted(desired: TagMap, existing: TagMap, remote: TagMap, add: Outcome, remove: Outcome): Attempt {
    Sent(ToAdd(desired, existing), ToDelete(desired, existing), remote, add, remove)
  }

  /** The tagging API of the service. */
  class Client {
    var remote: TagMap
    var calls: seq<Call>
    /** How the n-th call ends. */
    const outcomes: nat -> Outcome

    constructor (remote: TagMap, outcomes: nat -> Outcome)
      ensures this.remote == remote && this.outcomes == outcomes && calls == []
    {
      this.remote, this.outcomes, calls := remote, outcomes, [];
    }

    method Send(call: Call) returns (ok: bool)
      modifies this
      ensures calls == old(calls) + [call]
      ensures remote == Effect(old(remote), call, outcomes(|old(calls)|))
      ensures ok == outcomes(|old(calls)|).Done?
    {
      var o := outcomes(|calls|);
      remote := Effect(remote, call, o);
      calls := calls + [call];
      ok := o.Done?;
    }
  }

  function Distinct(keys: seq<string>): set<string> {
    set k | k in keys
  }

  method TagsToAdd(desiredTags: TagMap, existingTags: TagMap) returns (toAdd: TagMap)
    ensures toAdd == ToAdd(desiredTags, existingTags)
  {
    toAdd := map[];
    var todo := desiredTags.Keys;
    while todo != {}
      invariant todo <= desiredTags.Keys
      invariant toAdd
             == map k | k in desiredTags && k !in todo && (k !in existingTags || existingTags[k] != desiredTags[k])
                     :: desiredTags[k]
    {
      var k :| k in todo;
      if k !in existingTags || existingTags[k] != desiredTags[k] {
        toAdd := toAdd[k := desiredTags[k]];
      }
      todo := todo - {k};
    }
  }

  method TagsToDelete(desiredTags: TagMap, existingTags: TagMap) returns (toDelete: seq<string>)
    ensures Distinct(toDelete) == ToDelete(desiredTags, existingTags)
  {
    toDelete := [];
    var todo := existingTags.Keys;
    while todo != {}
      invariant todo <= existingTags.Keys
      invariant forall k :: k in toDelete <==> k in existingTags.Keys - todo && k !in desiredTags
    {
      var k :| k in todo;
      if k !in desiredTags {
        toDelete := toDelete + [k];
      }
      todo := todo - {k};
    }
  }

  /** The calls that a client is about to make, given how its coming calls end. */
  ghost function ComingCalls(client: Client, toAdd: TagMap, toDelete: set<string>): Attempt
    reads client
  {
    var n := |client.calls|;
    Sent(toAdd, toDelete, client.remote, client.outcomes(n), client.outcomes(if toAdd == map[] then n else n + 1))
  }

  ghost function Coming(client: Client, desired: TagMap, existing: TagMap): Attempt
    reads client
  {
    ComingCalls(client, ToAdd(desired, existing), ToDelete(desired, existing))
  }

  /** The second half of SyncTags. A request to untag names its keys in some order, once each. */
  method SendTags(client: Client, toAdd: TagMap, toDelete: set<string>) returns (ok: bool)
    modifies client
    ensures var a := old(ComingCalls(client, toAdd, toDelete));
            client.remote == a.remote && client.calls == old(client.calls) + a.calls && ok == a.ok
  {
    hide Effect;
    ok := true;
    if toAdd != map[] {
      ok := client.Send(TagResource(toAdd));
      if !ok {
        return;
      }
    }
    if toDelete != {} {
      ok := client.Send(UntagResource(toDelete));
    }
  }

  method SyncTags(client: Client, desiredTags: TagMap, existingTags: TagMap) returns (ok: bool)
    modifies client
    ensures var a := old(Coming(client, desiredTags, existingTags));
            client.remote == a.remote && client.calls == old(client.calls) + a.calls && ok == a.ok
  {
    var toAdd := TagsToAdd(desiredTags, existingTags);
    var toDelete := TagsToDelete(desiredTags, existingTags);
    hide ToAdd, ToDelete, Distinct;
    ok := SendTags(client, toAdd, Distinct(toDelete));
  }

  // ----- One attempt -----

  /** The keys on which the remote and the desired map disagree. */
  function Disagreement(remote: TagMap, desired: TagMap): (r: set<string>)
    ensures forall k :: k in r <==> || (k in remote) != (k in desired)
                                    || (k in remote && k in desired && remote[k] != desired[k])
  {
    (set k | k in desired && (k !in remote || remote[k] != desired[k])) + (remote.Keys - desired.Keys)
  }

  lemma NoDisagreement(remote: TagMap, desired: TagMap)
    ensures Disagreement(remote, desired) == {} <==> remote == desired
  {
    if Disagreement(remote, desired) == {} {
      assert forall k :: k !in Disagreement(remote, desired);
      assert remote.Keys == desired.Keys;
    }
  }

  function Successes(a: Attempt): nat {
    if a.ok || a.calls == [] then |a.calls| else |a.calls| - 1
  }

  /** From a fresh read: a call removes from the disagreement the keys it took effect on. */
  lemma CallShrinks(remote: TagMap, desired: TagMap, existing: TagMap, call: Call, o: Outcome)
    requires call == TagResource(ToAdd(desired, existing)) || call == UntagResource(ToDelete(desired, existing))
    ensures var keys := if call.TagResource? then call.tags.Keys else call.keys;
            Disagreement(Effect(remote, call, o), desired)
            == Disagreement(remote, desired) - (set k | k in keys && (o.Done? || k in o.applied))
  {
    var keys := if call.TagResource? then call.tags.Keys else call.keys;
    var after := Effect(remote, call, o);
    forall k
      ensures k in Disagreement(after, desired)
              <==> k in Disagreement(remote, desired) && !(k in keys && (o.Done? || k in o.applied))
    {
    }
  }

  lemma DisagreementSplits(desired: TagMap, remote: TagMap)
    ensures var toAdd, toDelete := ToAdd(desired, remote), ToDelete(desired, remote);
            && Disagreement(remote, desired) == toAdd.Keys + toDelete && toAdd.Keys !! toDelete
            && (toAdd == map[] <==> toAdd.Keys == {})
  {
  }

  /** What an attempt leaves: nothing new, only keys to remove once the addition is done, and
      nothing at all if it ends without error. */
  lemma AttemptLeaves(desired: TagMap, remote: TagMap, add: Outcome, remove: Outcome)
    ensures var toAdd, a := ToAdd(desired, remote), Attempted(desired, remote, remote, add, remove);
            var after := Disagreement(a.remote, desired);
            && after <= Disagreement(remote, desired)
            && (toAdd != map[] && add.Done? ==> after <= ToDelete(desired, remote))
            && (a.ok ==> after == {})
  {
    var toAdd, toDelete := ToAdd(desired, remote), ToDelete(desired, remote);
    DisagreementSplits(desired, remote);
    CallShrinks(remote, desired, remote, TagResource(toAdd), add);
    var added := if toAdd == map[] then remote else Effect(remote, TagResource(toAdd), add);
    CallShrinks(added, desired, remote, UntagResource(toDelete), remove);
    hide ToAdd, ToDelete, Effect, Disagreement;
  }

  /** One attempt that starts from a fresh read. The disagreement never grows; it shrinks by at
      least one key for every call that succeeds; an attempt without error ends in agreement;
      and an attempt that starts in agreement makes no call. */
  lemma AttemptShrinks(desired: TagMap, remote: TagMap, add: Outcome, remove: Outcome)
    ensures var a := Attempted(desired, remote, remote, add, remove);
            && Disagreement(a.remote, desired) <= Disagreement(remote, desired)
            && (a.calls == [] ==> a.ok)
            && |Disagreement(a.remote, desired)| + Successes(a) <= |Disagreement(remote, desired)|
            && (a.ok ==> a.remote == desired)
            && (remote == desired ==> a.calls == [] && a.remote == remote)
  {
    var toAdd, toDelete := ToAdd(desired, remote), ToDelete(desired, remote);
    var a := Attempted(desired, remote, remote, add, remove);
    var before, after := Disagreement(remote, desired), Disagreement(a.remote, desired);
    DisagreementSplits(desired, remote);
    AttemptLeaves(desired, remote, add, remove);
    NoDisagreement(a.remote, desired);
    NoDisagreement(remote, desired);
    hide ToAdd, ToDelete, Effect, Disagreement;
    assert |before| == |toAdd.Keys| + |toDelete|;
    Smaller(after, before);
    if toAdd != map[] && add.Done? {
      Smaller(after, toDelete);
      SomeKey(toAdd.Keys);
    }
    if toDelete != {} {
      SomeKey(toDelete);
    }
  }

  lemma SomeKey(s: set<string>)
    requires s != {}
    ensures |s| >= 1
  {
    var k :| k in s;
    assert {k} <= s;
    Smaller({k}, s);
  }

  lemma {:induction false} Smaller(a: set<string>, b: set<string>)
    requires a <= b
    ensures |a| <= |b|
  {
    assert b == a + (b - a);
  }

  predicate NamesKey(call: Call, k: string) {
    match call
    case TagResource(tags) => k in tags
    case UntagResource(keys) => k in keys
  }

  /** However an attempt ends: a key on which both maps agreed is in no call and stands, and
      every entry afterwards is an old one or a desired one. */
  lemma AttemptTouches(desired: TagMap, remote: TagMap, add: Outcome, remove: Outcome)
    ensures var a := Attempted(desired, remote, remote, add, remove);
            && (forall k | k in desired && k in remote && desired[k] == remote[k] ::
                  (forall call | call in a.calls :: !NamesKey(call, k)) && k in a.remote && a.remote[k] == remote[k])
            && (forall k | k in a.remote ::
                  (k in remote && a.remote[k] == remote[k]) || (k in desired && a.remote[k] == desired[k]))
  {
  }

  /** The calls of one attempt, in order: at most one that adds, then at most one that removes, none
      of them empty and none after a failing one. */
  lemma AttemptOrder(desired: TagMap, existing: TagMap, remote: TagMap, add: Outcome, remove: Outcome)
    ensures var a := Attempted(desired, existing, remote, add, remove);
            && |a.calls| <= 2
            && (|a.calls| == 2 ==> a.calls[0].TagResource? && a.calls[1].UntagResource? && add.Done?)
            && (forall call | call in a.calls :: exists k :: NamesKey(call, k))
            && (a.ok <==> forall call | call in a.calls :: if call.TagResource? then add.Done? else remove.Done?)
  {
    var toAdd, toDelete := ToAdd(desired, existing), ToDelete(desired, existing);
    if toAdd != map[] {
      var k :| k in toAdd;
      assert NamesKey(TagResource(toAdd), k);
    }
    if toDelete != {} {
      var k :| k in toDelete;
      assert NamesKey(UntagResource(toDelete), k);
    }
    hide ToAdd, ToDelete, Effect, NamesKey;
  }

  /** Key by key: added exactly if missing or different, with the desired value; removed exactly if
      not desired, unless the addition failed. */
  lemma AttemptNames(desired: TagMap, existing: TagMap, remote: TagMap, add: Outcome, remove: Outcome, k: string)
    ensures var calls := Attempted(desired, existing, remote, add, remove).calls;
            && ((exists call | call in calls :: call.TagResource? && k in call.tags)
                <==> k in desired && (k !in existing || existing[k] != desired[k]))
            && (forall call | call in calls && call.TagResource? && k in call.tags :: call.tags[k] == desired[k])
            && ((exists call | call in calls :: call.UntagResource? && k in call.keys)
                <==> k in existing && k !in desired && !(calls != [] && calls[0].TagResource? && add.Fault?))
  {
    var toAdd, toDelete := ToAdd(desired, existing), ToDelete(desired, existing);
    var a := Attempted(desired, existing, remote, add, remove);
    assert k in toAdd <==> k in desired && (k !in existing || existing[k] != desired[k]);
    assert k in toAdd ==> toAdd[k] == desired[k];
    assert k in toDelete <==> k in existing && k !in desired;
    hide ToAdd, ToDelete, Effect;
    assert toAdd != map[] ==> a.calls[0] == TagResource(toAdd) && a.calls[0] in a.calls;
    assert toDelete != {} && (toAdd != map[] ==> add.Done?) ==> UntagResource(toDelete) in a.calls;
  }

  // ----- Any run of retries -----

  /** How the two calls of each attempt end. */
  type Script = seq<(Outcome, Outcome)>

  /** The remote map after a run of attempts, each starting from a fresh read. */
  function RunRemote(desired: TagMap, remote: TagMap, script: Script): TagMap {
    if script == [] then remote
    else
      var before := RunRemote(desired, remote, script[..|script| - 1]);
      var (add, remove) := script[|script| - 1];
      Attempted(desired, before, before, add, remove).remote
  }

  function RunSuccesses(desired: TagMap, remote: TagMap, script: Script): nat {
    if script == [] then 0
    else
      var before := RunRemote(desired, remote, script[..|script| - 1]);
      var (add, remove) := script[|script| - 1];
      RunSuccesses(desired, remote, script[..|script| - 1]) + Successes(Attempted(desired, before, before, add, remove))
  }

  /** However the calls of a run end, the number of successful tag calls in the whole run is at
      most the number of keys that disagreed at its start, and the disagreement never grows. */
  lemma {:induction false} RunConverges(desired: TagMap, remote: TagMap, script: Script)
    ensures |Disagreement(RunRemote(desired, remote, script), desired)| + RunSuccesses(desired, remote, script)
         <= |Disagreement(remote, desired)|
  {
    if script != [] {
      var init := script[..|script| - 1];
      RunConverges(desired, remote, init);
      AttemptShrinks(desired, RunRemote(desired, remote, init), script[|script| - 1].0, script[|script| - 1].1);
    }
  }

  /** Once an attempt has ended without error, no later attempt of the run makes a call. */
  lemma {:induction false} QuietAfterSuccess(desired: TagMap, script: Script)
    ensures RunRemote(desired, desired, script) == desired && RunSuccesses(desired, desired, script) == 0
  {
    if script != [] {
      var init := script[..|script| - 1];
      QuietAfterSuccess(desired, init);
      AttemptShrinks(desired, desired, script[|script| - 1].0, script[|script| - 1].1);
    }
  }
}
