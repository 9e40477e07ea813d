/** Tag maps: pkg/resource/agent_runtime/tags.go and the tag half of manager.go. The
    api_key_credential_provider package holds the same generated code. */
module Tags {
  import opened Basics

  /** acktags.Tags is a Go map, shared by reference: the two functions below change it. */
  class ACKTags {
    var entries: map<string, string>

    constructor ()
      ensures entries == map[]
    {
      entries := map[];
    }
  }

  predicate IsAWSKey(k: string) {
    "aws:" <= k
  }

  /** A spec's tags as plain strings; nil values read as "" and a nil map as empty. */
  function Plain(tags: StringMap): map<string, string> {
    ToStringMap(Entries(tags))
  }

  function WithoutSystem(tags: map<string, string>, systemTags: seq<string>): map<string, string> {
    map k | k in tags && !IsAWSKey(k) && k !in systemTags :: tags[k]
  }

  function AWSPart(tags: map<string, string>): map<string, string> {
    map k | k in tags && IsAWSKey(k) :: tags[k]
  }

  function SyncedAWS(a: map<string, string>, b: map<string, string>): map<string, string> {
    a + AWSPart(b)
  }

  /** What mirrorAWSTags leaves in the desired spec. */
  function Mirrored(desired: StringMap, latest: StringMap): StringMap {
    Some(StringMapOf(SyncedAWS(Plain(desired), Plain(latest))))
  }

  /** What FilterSystemTags leaves in a spec. */
  function Filtered(tags: StringMap, systemTags: seq<string>): StringMap {
    Some(StringMapOf(WithoutSystem(Plain(tags), systemTags)))
  }

  lemma PlainOfStringMap(m: map<string, string>)
    ensures Plain(Some(StringMapOf(m))) == m
  {
    assert ToStringMap(StringMapOf(m)) == m;
  }

  method ConvertToOrderedACKTags(tags: StringMap) returns (result: ACKTags, keyOrder: seq<string>)
    ensures fresh(result)
    ensures result.entries == Plain(tags) && keyOrder == []
  {
    result := new ACKTags();
    keyOrder := [];
    if |Entries(tags)| == 0 {
      assert Plain(tags) == map[];
      return;
    }
    var m := tags.value;
    var todo := m.Keys;
    while todo != {}
      invariant todo <= m.Keys
      invariant fresh(result)
      invariant result.entries == map k | k in m && k !in todo :: Deref(m[k])
    {
      var k :| k in todo;
      if m[k].None? {
        result.entries := result.entries[k := ""];
      } else {
        result.entries := result.entries[k := m[k].value];
      }
      todo := todo - {k};
    }
    assert result.entries == Plain(tags);
  }

  method FromACKTags(tags: ACKTags, keyOrder: seq<string>) returns (result: map<string, Option<string>>)
    ensures result == StringMapOf(tags.entries)
  {
    result := map[];
    var todo := tags.entries.Keys;
    while todo != {}
      invariant todo <= tags.entries.Keys
      invariant result == map k | k in tags.entries && k !in todo :: Some(tags.entries[k])
    {
      var k :| k in todo;
      result := result[k := Some(tags.entries[k])];
      todo := todo - {k};
    }
    assert result == StringMapOf(tags.entries);
  }

  /** Deletes in place while ranging over the same map. */
  method IgnoreSystemTags(tags: ACKTags, systemTags: seq<string>)
    modifies tags
    ensures tags.entries == WithoutSystem(old(tags.entries), systemTags)
  {
    ghost var was := tags.entries;
    var todo := tags.entries.Keys;
    while todo != {}
      invariant todo <= was.Keys
      invariant tags.entries == map k | k in was && (k in todo || (!IsAWSKey(k) && k !in systemTags)) :: was[k]
    {
      var k :| k in todo;
      if IsAWSKey(k) || k in systemTags {
        tags.entries := tags.entries - {k};
      }
      todo := todo - {k};
    }
    assert tags.entries == WithoutSystem(was, systemTags);
  }

  method SyncAWSTags(a: ACKTags, b: ACKTags)
    requires a != b
    modifies a
    ensures a.entries == SyncedAWS(old(a.entries), b.entries)
  {
    ghost var was := a.entries;
    var todo := b.entries.Keys;
    while todo != {}
      invariant todo <= b.entries.Keys
      invariant b.entries == old(b.entries)
      invariant a.entries == was + (map k | k in b.entries && k !in todo && IsAWSKey(k) :: b.entries[k])
    {
      var k :| k in todo;
      if IsAWSKey(k) {
        a.entries := a.entries[k := b.entries[k]];
      }
      todo := todo - {k};
    }
    assert a.entries == SyncedAWS(was, b.entries);
  }

  /** The spec half of mirrorAWSTags: the tags it stores into the desired resource. */
  method MirrorAWSTags(desired: StringMap, latest: StringMap) returns (r: StringMap)
    ensures r == Mirrored(desired, latest)
  {
    var desiredTags, keyOrder := ConvertToOrderedACKTags(desired);
    var latestTags, _ := ConvertToOrderedACKTags(latest);
    SyncAWSTags(desiredTags, latestTags);
    var m := FromACKTags(desiredTags, keyOrder);
    r := Some(m);
  }

  method FilterSystemTags(tags: StringMap, systemTags: seq<string>) returns (r: StringMap)
    ensures r == Filtered(tags, systemTags)
  {
    var resourceTags, keyOrder := ConvertToOrderedACKTags(tags);
    IgnoreSystemTags(resourceTags, systemTags);
    var m := FromACKTags(resourceTags, keyOrder);
    r := Some(m);
  }

  /** Mirroring adds only service-managed keys: filtering them out again gives back the
      user's own tags, whatever the remote tags were. */
  lemma FilterUndoesMirror(desired: StringMap, latest: StringMap, systemTags: seq<string>)
    ensures Filtered(Mirrored(desired, latest), systemTags) == Filtered(desired, systemTags)
  {
    PlainOfStringMap(SyncedAWS(Plain(desired), Plain(latest)));
    assert WithoutSystem(SyncedAWS(Plain(desired), Plain(latest)), systemTags)
        == WithoutSystem(Plain(desired), systemTags);
  }

  /** Mirroring the same observation twice changes nothing more. */
  lemma MirrorIdempotent(desired: StringMap, latest: StringMap)
    ensures Mirrored(Mirrored(desired, latest), latest) == Mirrored(desired, latest)
  {
    PlainOfStringMap(SyncedAWS(Plain(desired), Plain(latest)));
    assert SyncedAWS(SyncedAWS(Plain(desired), Plain(latest)), Plain(latest))
        == SyncedAWS(Plain(desired), Plain(latest));
  }

  /** A read that copies its resource's tags mirrors nothing new onto them. */
  lemma MirrorOwn(tags: StringMap)
    ensures Plain(Mirrored(tags, tags)) == Plain(tags)
  {
    PlainOfStringMap(SyncedAWS(Plain(tags), Plain(tags)));
    assert SyncedAWS(Plain(tags), Plain(tags)) == Plain(tags);
  }

  /** Entry by entry: the desired tags with nil read as "", except that a key beginning with "aws:"
      takes the latest value. */
  lemma MirroredExact(desired: StringMap, latest: StringMap, k: string)
    ensures var d, l := Entries(desired), Entries(latest);
            var r := Entries(Mirrored(desired, latest));
            && (k in r <==> k in d || ("aws:" <= k && k in l))
            && (k in r && "aws:" <= k && k in l ==> r[k] == (if l[k].Some? then l[k] else Some("")))
            && (k in r && !("aws:" <= k && k in l) ==> r[k] == (if d[k].Some? then d[k] else Some("")))
  {
  }

  /** What filtering leaves, entry by entry: no key beginning with "aws:" and none of those listed. */
  lemma FilteredExact(tags: StringMap, systemTags: seq<string>, k: string)
    ensures var t, r := Entries(tags), Entries(Filtered(tags, systemTags));
            && (k in r <==> k in t && !("aws:" <= k) && k !in systemTags)
            && (k in r ==> r[k] == (if t[k].Some? then t[k] else Some("")))
  {
  }
}
