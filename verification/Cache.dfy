/** The manager cache: ManagerFor of pkg/resource/agent_runtime/manager_factory.go, first as the
    method one caller runs, then as a protocol of concurrent callers around its RWMutex. */
module Cache {
  import opened Basics
  import opened Errors
  import Resource

  // ----- The key -----

  /** fmt.Sprintf("%s/%s/%s", id, region, roleARN) */
  function Key(id: string, region: string, roleARN: string): string {
    id + "/" + (region + "/" + roleARN)
  }

  predicate NoSlash(s: string) {
    '/' !in s
  }

  /** What a caller asks for. The partition comes from the controller's configuration and is not
      part of the key. */
  datatype Call = Call(id: string, region: string, roleARN: string, partition: string) {
    predicate Sane() {
      NoSlash(id) && NoSlash(region)
    }
    function RmId(): string {
      Key(id, region, roleARN)
    }
  }

  lemma FirstSlash(a: string, x: string, b: string, y: string)
    requires NoSlash(a) && NoSlash(b) && a + "/" + x == b + "/" + y
    ensures a == b && x == y
  {
    var s := a + "/" + x;
    assert s[|a|] == '/' && s[|b|] == '/';
    assert forall i | 0 <= i < |a| :: s[i] == a[i];
    assert forall i | 0 <= i < |b| :: s[i] == b[i];
    assert a == s[..|a|] == s[..|b|] == b;
    assert x == s[|a| + 1..] == y;
  }

  /** Ids and regions without a slash: the key determines all three parts, although the role may
      be any string. */
  lemma KeyInjective(c: Call, d: Call)
    requires c.Sane() && d.Sane()
    ensures c.RmId() == d.RmId() <==> c.id == d.id && c.region == d.region && c.roleARN == d.roleARN
  {
    if c.RmId() == d.RmId() {
      FirstSlash(c.id, c.region + "/" + c.roleARN, d.id, d.region + "/" + d.roleARN);
      FirstSlash(c.region, c.roleARN, d.region, d.roleARN);
    }
  }

  /** With a slash in the id the key no longer determines the account, with one in the region or
      in the role no longer the account or the region. */
  lemma SlashCollides(a: string, b: string, c: string, d: string)
    ensures Key(a + "/" + b, c, d) == Key(a, b, c + "/" + d)
    ensures Key(a, b + "/" + c, d) == Key(a, b, c + "/" + d)
  {
    assert (a + "/" + b) + "/" + (c + "/" + d) == a + "/" + (b + "/" + (c + "/" + d));
    assert (b + "/" + c) + "/" + d == b + "/" + (c + "/" + d);
  }

  function Slashes(s: string): (n: nat)
    ensures n == 0 <==> NoSlash(s)
  {
    if s == "" then 0 else Slashes(s[..|s| - 1]) + if s[|s| - 1] == '/' then 1 else 0
  }

  lemma {:induction false} SlashesOf(s: string, t: string)
    ensures Slashes(s + t) == Slashes(s) + Slashes(t)
  {
    if t == "" {
      assert s + t == s;
    } else {
      assert (s + t)[..|s + t| - 1] == s + t[..|t| - 1];
      SlashesOf(s, t[..|t| - 1]);
    }
  }

  lemma SlashesOfKey(id: string, region: string, roleARN: string)
    ensures Slashes(Key(id, region, roleARN)) == Slashes(id) + Slashes(region) + Slashes(roleARN) + 2
  {
    assert Slashes("/") == 1;
    hide Slashes;
    var tail := region + "/" + roleARN;
    SlashesOf(id + "/", tail);
    SlashesOf(id, "/");
    SlashesOf(region + "/", roleARN);
    SlashesOf(region, "/");
    assert Key(id, region, roleARN) == id + "/" + tail;
  }

  lemma FirstPart(s: string) returns (a: string, b: string)
    requires !NoSlash(s)
    ensures s == a + "/" + b && |a| < |s|
  {
    var n :| 0 <= n < |s| && s[n] == '/';
    a, b := s[..n], s[n + 1..];
  }

  /** Another call has the same key, for another account or region. */
  ghost predicate Shared(c: Call) {
    exists d: Call :: d.RmId() == c.RmId() && (d.id != c.id || d.region != c.region)
  }

  lemma SharedBySlash(c: Call)
    requires !NoSlash(c.id) || !NoSlash(c.region) || !NoSlash(c.roleARN)
    ensures Shared(c)
  {
    hide NoSlash;
    var d: Call;
    if !NoSlash(c.id) {
      var a, b := FirstPart(c.id);
      SlashCollides(a, b, c.region, c.roleARN);
      d := Call(a, b, c.region + "/" + c.roleARN, c.partition);
    } else if !NoSlash(c.region) {
      var a, b := FirstPart(c.region);
      SlashCollides(c.id, a, b, c.roleARN);
      d := Call(c.id, a, b + "/" + c.roleARN, c.partition);
    } else {
      var a, b := FirstPart(c.roleARN);
      SlashCollides(c.id, c.region, a, b);
      d := Call(c.id + "/" + c.region, a, b, c.partition);
    }
    hide Key;
    assert d.RmId() == c.RmId() && (|d.id| != |c.id| || |d.region| != |c.region|);
  }

  /** A key is shared with another account or region exactly when the id, the region or the role
      has a slash in it. */
  lemma SharedIff(c: Call)
    ensures Shared(c) <==> !NoSlash(c.id) || !NoSlash(c.region) || !NoSlash(c.roleARN)
  {
    if !NoSlash(c.id) || !NoSlash(c.region) || !NoSlash(c.roleARN) {
      SharedBySlash(c);
    } else {
      forall d: Call | d.RmId() == c.RmId()
        ensures d.id == c.id && d.region == c.region
      {
        SlashesOfKey(c.id, c.region, c.roleARN);
        SlashesOfKey(d.id, d.region, d.roleARN);
        hide Slashes;
        KeyInjective(c, d);
      }
    }
  }

  // ----- One caller -----

  predicate BuiltFor(m: Resource.Manager, c: Call) {
    m.awsAccountID == c.id && m.awsRegion == c.region
  }

  function NewResourceManager(c: Call): Resource.Manager {
    Resource.Manager(c.id, c.region, c.partition)
  }

  class ManagerFactory {
    var rmCache: map<string, Resource.Manager>
    ghost var builders: map<string, Call>

    /** Every cached manager was built by a call with its key. */
    ghost predicate Valid()
      reads this
    {
      && builders.Keys == rmCache.Keys
      && (forall k | k in rmCache :: builders[k].RmId() == k && rmCache[k] == NewResourceManager(builders[k]))
    }

    constructor ()
      ensures Valid() && rmCache == map[]
    {
      rmCache, builders := map[], map[];
    }

    /** `failure` is how building a manager would fail. A call answered from what another call
        built gets its own account and region if neither has a slash in them. */
    method ManagerFor(c: Call, failure: Option<GoError>) returns (rm: Result<Resource.Manager>)
      requires Valid()
      modifies this
      ensures Valid()
      ensures var k := c.RmId();
              if k !in old(rmCache) && failure.Some? then unchanged(this) && rm == Err(failure.value)
              else
                && k in rmCache && rm == Ok(rmCache[k])
                && (if k in old(rmCache) then unchanged(this)
                    else rmCache == old(rmCache)[k := NewResourceManager(c)] && builders == old(builders)[k := c])
                && (c.Sane() && builders[k].Sane() ==> BuiltFor(rm.value, c))
                && rm.value == Resource.Manager(builders[k].id, builders[k].region, builders[k].partition)
    {
      var rmId := c.RmId();
      if rmId in rmCache {
        if c.Sane() && builders[rmId].Sane() {
          KeyInjective(c, builders[rmId]);
        }
        return Ok(rmCache[rmId]);
      }
      if failure.Some? {
        return Err(failure.value);
      }
      rmCache, builders := rmCache[rmId := NewResourceManager(c)], builders[rmId := c];
      return Ok(rmCache[rmId]);
    }
  }

  // ----- Many callers -----

  /** A manager object: managers built by different calls are different objects. */
  datatype Object = Object(manager: Resource.Manager, builder: nat)

  /** Where a call is. Reading and Looked hold the read lock, Writing, Made and Failing the write
      lock; no call looks again once it has the write lock. */
  datatype Pc =
    | Start
    | Reading
    | Looked(found: Option<Object>)
    | Waiting
    | Writing
    | Made(made: Object)
    | Failing
    | Stored(stored: Object)
    | Returned(answer: Option<Object>)

  datatype Event =
    | Checked(key: string, caller: nat, hit: bool)
    | Attempted(key: string, caller: nat)
    | Put(key: string, caller: nat)

  /** Callers are numbered; every call has its own number. */
  datatype State = State(
    cache: map<string, Object>,
    readers: set<nat>,
    writer: Option<nat>,
    calls: map<nat, Call>,
    pcs: map<nat, Pc>,
    log: seq<Event>)

  datatype Action = Enter(c: Call) | RLock | Lookup | RUnlock | Lock | Build(ok: bool) | Store | Unlock

  predicate Enabled(s: State, p: nat, a: Action) {
    if a.Enter? then p !in s.pcs && p !in s.calls
    else
      && p in s.pcs && p in s.calls
      && var pc := s.pcs[p];
         match a
         case RLock => pc.Start? && s.writer.None?
         case Lookup => pc.Reading?
         case RUnlock => pc.Looked?
         case Lock => pc.Waiting? && s.writer.None? && s.readers == {}
         case Build(_) => pc.Writing?
         case Store => pc.Made?
         case Unlock => pc.Stored? || pc.Failing?
         case _ => false
  }

  function Act(s: State, p: nat, a: Action): State
    requires Enabled(s, p, a)
  {
    match a
    case Enter(c) => s.(calls := s.calls[p := c], pcs := s.pcs[p := Start])
    case RLock => s.(readers := s.readers + {p}, pcs := s.pcs[p := Reading])
    case Lookup =>
      var k := s.calls[p].RmId();
      s.(pcs := s.pcs[p := Looked(if k in s.cache then Some(s.cache[k]) else None)],
         log := s.log + [Checked(k, p, k in s.cache)])
    case RUnlock =>
      s.(readers := s.readers - {p},
         pcs := s.pcs[p := if s.pcs[p].found.Some? then Returned(s.pcs[p].found) else Waiting])
    case Lock => s.(writer := Some(p), pcs := s.pcs[p := Writing])
    case Build(ok) =>
      s.(pcs := s.pcs[p := if ok then Made(Object(NewResourceManager(s.calls[p]), p)) else Failing],
         log := s.log + [Attempted(s.calls[p].RmId(), p)])
    case Store =>
      s.(cache := s.cache[s.calls[p].RmId() := s.pcs[p].made],
         pcs := s.pcs[p := Stored(s.pcs[p].made)],
         log := s.log + [Put(s.calls[p].RmId(), p)])
    case Unlock =>
      s.(writer := None,
         pcs := s.pcs[p := Returned(if s.pcs[p].Stored? then Some(s.pcs[p].stored) else None)])
  }

  // ----- What every interleaving keeps -----

  predicate HoldsRead(pc: Pc) {
    pc.Reading? || pc.Looked?
  }

  predicate HoldsWrite(pc: Pc) {
    pc.Writing? || pc.Made? || pc.Failing? || pc.Stored?
  }

  /** Every call has a place. */
  predicate Placed(s: State) {
    s.pcs.Keys == s.calls.Keys
  }

  predicate ReadersHeld(s: State) {
    && s.readers <= s.pcs.Keys
    && (forall p | p in s.pcs :: HoldsRead(s.pcs[p]) <==> p in s.readers)
  }

  predicate WriterHeld(s: State) {
    && (s.writer.Some? ==> s.readers == {} && s.writer.value in s.pcs)
    && (forall p | p in s.pcs :: HoldsWrite(s.pcs[p]) <==> s.writer == Some(p))
  }

  /** The locks: readers and the writer exclude each other, so no lookup happens during a store. */
  predicate LocksHeld(s: State) {
    Placed(s) && ReadersHeld(s) && WriterHeld(s)
  }

  function Objects(pc: Pc): Option<Object> {
    match pc
    case Looked(o) => o
    case Made(o) => Some(o)
    case Stored(o) => Some(o)
    case Returned(o) => o
    case _ => None
  }

  /** The object was built by a call with the given key. */
  predicate MadeFor(calls: map<nat, Call>, o: Object, key: string) {
    && o.builder in calls
    && o.manager == NewResourceManager(calls[o.builder])
    && calls[o.builder].RmId() == key
  }

  predicate CacheAgrees(s: State) {
    forall k | k in s.cache :: MadeFor(s.calls, s.cache[k], k)
  }

  predicate HandsAgree(s: State) {
    forall p | p in s.pcs && p in s.calls && Objects(s.pcs[p]).Some? ::
      MadeFor(s.calls, Objects(s.pcs[p]).value, s.calls[p].RmId())
  }

  lemma LocksStep(s: State, p: nat, a: Action)
    requires LocksHeld(s) && Enabled(s, p, a)
    ensures LocksHeld(Act(s, p, a))
  {
    ReadersStep(s, p, a);
    WriterStep(s, p, a);
    hide ReadersHeld, WriterHeld;
  }

  lemma ReadersStep(s: State, p: nat, a: Action)
    requires ReadersHeld(s) && Enabled(s, p, a)
    ensures ReadersHeld(Act(s, p, a))
  {
  }

  lemma WriterStep(s: State, p: nat, a: Action)
    requires LocksHeld(s) && Enabled(s, p, a)
    ensures WriterHeld(Act(s, p, a))
  {
    hide Call.RmId;
  }

  /** Every object in the cache or in a caller's hands was built by a call with the key it is
      cached or was asked for under, and no key leaves the cache. */
  lemma AgreeStep(s: State, p: nat, a: Action)
    requires LocksHeld(s) && CacheAgrees(s) && HandsAgree(s) && Enabled(s, p, a)
    ensures CacheAgrees(Act(s, p, a)) && HandsAgree(Act(s, p, a))
    ensures s.cache.Keys <= Act(s, p, a).cache.Keys
  {
    HandsStep(s, p, a);
    hide ReadersHeld, WriterHeld, Call.RmId;
    if a.Store? {
      assert MadeFor(s.calls, Objects(s.pcs[p]).value, s.calls[p].RmId());
    }
  }

  lemma HandsStep(s: State, p: nat, a: Action)
    requires Placed(s) && CacheAgrees(s) && HandsAgree(s) && Enabled(s, p, a)
    ensures HandsAgree(Act(s, p, a))
  {
    if a.Lookup? {
      var k := s.calls[p].RmId();
      assert k in s.cache ==> MadeFor(s.calls, s.cache[k], k);
    }
    hide Call.RmId, CacheAgrees;
  }

  /** A slash-free call is answered rightly by whatever a slash-free call with its key built. */
  lemma RightAnswer(calls: map<nat, Call>, o: Object, c: Call)
    requires MadeFor(calls, o, c.RmId()) && c.Sane() && calls[o.builder].Sane()
    ensures BuiltFor(o.manager, c)
  {
    KeyInjective(calls[o.builder], c);
  }

  // ----- The ledger: who looked, who missed, who built -----

  function Missers(log: seq<Event>): set<nat> {
    set e | e in log && e.Checked? && !e.hit :: e.caller
  }

  function Checkers(log: seq<Event>): set<nat> {
    set e | e in log && e.Checked? :: e.caller
  }

  function Builders(log: seq<Event>): set<nat> {
    set e | e in log && e.Attempted? :: e.caller
  }

  predicate StoredBefore(log: seq<Event>, key: string) {
    exists i | 0 <= i < |log| :: log[i].Put? && log[i].key == key
  }

  predicate AboutToBuild(pc: Pc) {
    pc == Looked(None) || pc.Waiting? || pc.Writing?
  }

  predicate BeforeCheck(pc: Pc) {
    pc.Start? || pc.Reading?
  }

  /** Each caller's place agrees with what the log says of it. */
  predicate Ledger(s: State) {
    && (forall e | e in s.log :: e.caller in s.calls && e.key == s.calls[e.caller].RmId())
    && Builders(s.log) <= Missers(s.log)
    && (forall p | p in s.pcs :: AboutToBuild(s.pcs[p]) <==> p in Missers(s.log) && p !in Builders(s.log))
    && (forall p | p in s.pcs :: BeforeCheck(s.pcs[p]) ==> p !in Checkers(s.log) && p !in Missers(s.log))
  }

  /** A key is cached exactly from its first store on, and a check hits exactly from then on. */
  ghost predicate ChecksExact(s: State) {
    && (forall k :: k in s.cache <==> StoredBefore(s.log, k))
    && (forall i | 0 <= i < |s.log| :: CheckExact(s.log[..i], s.log[i]))
  }

  predicate CheckExact(before: seq<Event>, e: Event) {
    e.Checked? ==> (e.hit <==> StoredBefore(before, e.key))
  }

  /** No call builds twice, and none looks twice. */
  predicate BuildsOnce(log: seq<Event>) {
    forall i, j | 0 <= i < j < |log| && log[i].Attempted? && log[j].Attempted? :: log[i].caller != log[j].caller
  }

  predicate ChecksOnce(log: seq<Event>) {
    forall i, j | 0 <= i < j < |log| && log[i].Checked? && log[j].Checked? :: log[i].caller != log[j].caller
  }

  lemma LogGrows(log: seq<Event>, e: Event)
    ensures Missers(log + [e]) == Missers(log) + if e.Checked? && !e.hit then {e.caller} else {}
    ensures Checkers(log + [e]) == Checkers(log) + if e.Checked? then {e.caller} else {}
    ensures Builders(log + [e]) == Builders(log) + if e.Attempted? then {e.caller} else {}
    ensures forall k :: StoredBefore(log + [e], k) <==> StoredBefore(log, k) || (e.Put? && e.key == k)
  {
    forall k
      ensures StoredBefore(log + [e], k) <==> StoredBefore(log, k) || (e.Put? && e.key == k)
    {
      if StoredBefore(log, k) {
        var i :| 0 <= i < |log| && log[i].Put? && log[i].key == k;
        assert (log + [e])[i] == log[i];
      }
      if e.Put? && e.key == k {
        assert (log + [e])[|log|] == e;
      }
    }
  }

  /** The event an action adds to the log, if it adds one. */
  function Logged(s: State, p: nat, a: Action): Option<Event>
    requires Enabled(s, p, a)
  {
    match a
    case Lookup => Some(Checked(s.calls[p].RmId(), p, s.calls[p].RmId() in s.cache))
    case Build(_) => Some(Attempted(s.calls[p].RmId(), p))
    case Store => Some(Put(s.calls[p].RmId(), p))
    case _ => None
  }

  lemma LedgerStep(s: State, p: nat, a: Action)
    requires Placed(s) && Ledger(s) && Enabled(s, p, a)
    ensures Ledger(Act(s, p, a))
  {
    var t, e := Act(s, p, a), Logged(s, p, a);
    if e.Some? {
      LogGrows(s.log, e.value);
    }
    hide Missers, Checkers, Builders, StoredBefore, Call.RmId;
    if a.Enter? {
      LedgerEnter(s, p, a.c);
    } else {
      hide Ledger;
      LedgerMove(s, p, t, e);
    }
  }

  lemma LedgerEnter(s: State, p: nat, c: Call)
    requires Placed(s) && Ledger(s) && Enabled(s, p, Enter(c))
    ensures Ledger(Act(s, p, Enter(c)))
  {
    hide StoredBefore, Call.RmId;
  }

  /** One call moves, and at most one event about it is logged. */
  lemma LedgerMove(s: State, p: nat, t: State, e: Option<Event>)
    requires Placed(s) && Ledger(s) && p in s.pcs && t.calls == s.calls && p in t.pcs && t.pcs == s.pcs[p := t.pcs[p]]
    requires t.log == s.log + if e.Some? then [e.value] else []
    requires e.Some? ==> e.value.caller == p && e.value.key == s.calls[p].RmId()
    requires e.Some? && e.value.Attempted? ==> AboutToBuild(s.pcs[p])
    requires e.Some? && e.value.Checked? ==> BeforeCheck(s.pcs[p])
    requires AboutToBuild(t.pcs[p])
             <==> if e.Some? && e.value.Checked? then !e.value.hit
                  else AboutToBuild(s.pcs[p]) && !(e.Some? && e.value.Attempted?)
    requires BeforeCheck(t.pcs[p]) ==> BeforeCheck(s.pcs[p]) && e.None?
    ensures Ledger(t)
  {
    if e.Some? {
      LogGrows(s.log, e.value);
    } else {
      assert t.log == s.log;
    }
    hide Missers, Checkers, Builders, StoredBefore, Call.RmId, AboutToBuild, BeforeCheck;
  }

  lemma ChecksStep(s: State, p: nat, a: Action)
    requires Placed(s) && ChecksExact(s) && Enabled(s, p, a)
    ensures ChecksExact(Act(s, p, a))
  {
    var t, e := Act(s, p, a), Logged(s, p, a);
    hide Call.RmId, Call.Sane, ChecksExact;
    if e.Some? {
      ChecksMove(s, t, e.value);
    } else {
      ChecksQuiet(s, t);
    }
  }

  lemma ChecksQuiet(s: State, t: State)
    requires ChecksExact(s) && t.log == s.log && t.cache == s.cache
    ensures ChecksExact(t)
  {
  }

  lemma ChecksMove(s: State, t: State, e: Event)
    requires ChecksExact(s) && t.log == s.log + [e]
    requires e.Checked? ==> (e.hit <==> e.key in s.cache)
    requires t.cache.Keys == s.cache.Keys + if e.Put? then {e.key} else {}
    ensures ChecksExact(t)
  {
    LogGrows(s.log, e);
    assert CheckExact(s.log, e);
    hide StoredBefore, CheckExact;
    forall i | 0 <= i < |t.log|
      ensures CheckExact(t.log[..i], t.log[i])
    {
      assert t.log[..i] == if i < |s.log| then s.log[..i] else s.log;
    }
  }

  lemma OnceStep(s: State, p: nat, a: Action)
    requires Placed(s) && Ledger(s) && BuildsOnce(s.log) && ChecksOnce(s.log) && Enabled(s, p, a)
    ensures BuildsOnce(Act(s, p, a).log) && ChecksOnce(Act(s, p, a).log)
  {
    assert forall i | 0 <= i < |s.log| :: s.log[i] in s.log;
  }

  // ----- Every interleaving -----

  ghost predicate Inv(s: State) {
    && LocksHeld(s) && CacheAgrees(s) && HandsAgree(s)
    && Ledger(s) && ChecksExact(s) && BuildsOnce(s.log) && ChecksOnce(s.log)
  }

  lemma StepKeeps(s: State, p: nat, a: Action)
    requires Inv(s) && Enabled(s, p, a)
    ensures Inv(Act(s, p, a)) && s.cache.Keys <= Act(s, p, a).cache.Keys
  {
    LocksStep(s, p, a);
    AgreeStep(s, p, a);
    LedgerStep(s, p, a);
    ChecksStep(s, p, a);
    OnceStep(s, p, a);
    hide Enabled, Act, ReadersHeld, WriterHeld, Placed, CacheAgrees, HandsAgree, Ledger, ChecksExact, BuildsOnce,
      ChecksOnce;
  }

  const EMPTY: State := State(map[], {}, None, map[], map[], [])

  type Schedule = seq<(nat, Action)>

  predicate PossibleRun(s: State, run: Schedule)
    decreases |run|
  {
    run != [] ==> Enabled(s, run[0].0, run[0].1) && PossibleRun(Act(s, run[0].0, run[0].1), run[1..])
  }

  function After(s: State, run: Schedule): State
    requires PossibleRun(s, run)
    decreases |run|
  {
    if run == [] then s else After(Act(s, run[0].0, run[0].1), run[1..])
  }

  lemma {:induction false} RunKeeps(s: State, run: Schedule)
    requires Inv(s) && PossibleRun(s, run)
    ensures Inv(After(s, run)) && s.cache.Keys <= After(s, run).cache.Keys
    decreases |run|
  {
    if run != [] {
      StepKeeps(s, run[0].0, run[0].1);
      hide Inv, Act, Enabled;
      RunKeeps(Act(s, run[0].0, run[0].1), run[1..]);
    }
  }

  /** The attempts to build a manager for a key. */
  function Attempts(log: seq<Event>, key: string): nat {
    if log == [] then 0
    else Attempts(log[..|log| - 1], key) + if log[|log| - 1].Attempted? && log[|log| - 1].key == key then 1 else 0
  }

  /** The callers that looked a key up before its first store. */
  function EarlyCheckers(log: seq<Event>, key: string): set<nat> {
    set i | 0 <= i < |log| && log[i].Checked? && log[i].key == key && !StoredBefore(log[..i], key) :: log[i].caller
  }

  /** The callers that missed and have yet to build. */
  function Pending(s: State, key: string): set<nat> {
    set p | p in s.pcs && p in s.calls && s.calls[p].RmId() == key && AboutToBuild(s.pcs[p])
  }

  function BuildersOf(log: seq<Event>, key: string): set<nat> {
    set e | e in log && e.Attempted? && e.key == key :: e.caller
  }

  lemma {:induction false} AttemptsCounted(log: seq<Event>, key: string)
    requires BuildsOnce(log)
    ensures Attempts(log, key) == |BuildersOf(log, key)|
  {
    if log != [] {
      var init, last := log[..|log| - 1], log[|log| - 1];
      AttemptsCounted(init, key);
      BuildersOfAppend(init, last, key);
      assert log == init + [last];
    }
  }

  lemma BuildersOfAppend(init: seq<Event>, last: Event, key: string)
    requires BuildsOnce(init + [last])
    ensures var now := if last.Attempted? && last.key == key then {last.caller} else {};
            BuildersOf(init + [last], key) == BuildersOf(init, key) + now && BuildersOf(init, key) !! now
  {
    var log := init + [last];
    assert log[|init|] == last;
    assert forall i | 0 <= i < |init| :: log[i] == init[i];
    assert last.Attempted? ==> forall e | e in init && e.Attempted? :: e.caller != last.caller;
    hide BuildsOnce;
    assert forall e :: e in log <==> e in init || e == last;
  }

  /** An early lookup is a miss, and the caller's key is the key looked up. */
  lemma EarlyAreMissers(s: State, key: string)
    requires Ledger(s) && ChecksExact(s)
    ensures EarlyCheckers(s.log, key) == set p | p in Missers(s.log) && p in s.calls && s.calls[p].RmId() == key
  {
    hide StoredBefore, Call.RmId;
    forall p
      ensures p in EarlyCheckers(s.log, key) <==> p in Missers(s.log) && p in s.calls && s.calls[p].RmId() == key
    {
      if p in EarlyCheckers(s.log, key) {
        var i :| 0 <= i < |s.log| && s.log[i].Checked? && s.log[i].key == key
                 && !StoredBefore(s.log[..i], key) && s.log[i].caller == p;
        assert CheckExact(s.log[..i], s.log[i]);
        assert s.log[i] in s.log;
      }
      if p in Missers(s.log) && p in s.calls && s.calls[p].RmId() == key {
        var i :| 0 <= i < |s.log| && s.log[i].Checked? && !s.log[i].hit && s.log[i].caller == p;
        assert CheckExact(s.log[..i], s.log[i]);
        assert s.log[i] in s.log;
      }
    }
  }

  lemma BuildersAre(s: State, key: string)
    requires Ledger(s)
    ensures BuildersOf(s.log, key) == set p | p in Builders(s.log) && p in s.calls && s.calls[p].RmId() == key
  {
    hide StoredBefore, Call.RmId, Missers;
  }

  /** A caller looks the key up after its first store. */
  predicate LooksLate(log: seq<Event>, i: int, key: string) {
    0 <= i < |log| && log[i].Checked? && log[i].key == key && StoredBefore(log[..i], key)
  }

  lemma LateIsNotEarly(log: seq<Event>, i: int, key: string)
    requires ChecksOnce(log) && LooksLate(log, i, key)
    ensures log[i].caller !in EarlyCheckers(log, key)
  {
    hide StoredBefore;
    assert forall j | 0 <= j < |log| && log[j].Checked? && log[j].caller == log[i].caller :: j == i;
  }

  /** Of one key: the callers that looked early are exactly those that have built and those about
      to, each building at most once; no caller that looks after the first store is among them. */
  ghost predicate BuildersExact(s: State, key: string) {
    var built, pending := BuildersOf(s.log, key), Pending(s, key);
    && EarlyCheckers(s.log, key) == built + pending && built !! pending
    && Attempts(s.log, key) == |built|
    && (forall i | LooksLate(s.log, i, key) :: s.log[i].caller !in built + pending)
  }

  lemma Conservation(s: State, key: string)
    requires Inv(s)
    ensures BuildersExact(s, key)
  {
    EarlyAreBuilders(s, key);
    AttemptsCounted(s.log, key);
    hide LooksLate, EarlyCheckers, BuildersOf, Pending, Attempts, Ledger, ChecksExact, Placed, ReadersHeld, WriterHeld,
      CacheAgrees, HandsAgree, BuildsOnce, ChecksOnce;
    forall i | LooksLate(s.log, i, key)
      ensures s.log[i].caller !in EarlyCheckers(s.log, key)
    {
      LateIsNotEarly(s.log, i, key);
    }
  }

  lemma EarlyAreBuilders(s: State, key: string)
    requires Placed(s) && Ledger(s) && ChecksExact(s)
    ensures EarlyCheckers(s.log, key) == BuildersOf(s.log, key) + Pending(s, key)
    ensures BuildersOf(s.log, key) !! Pending(s, key)
  {
    EarlyAreMissers(s, key);
    BuildersAre(s, key);
    hide ChecksExact, EarlyCheckers, BuildersOf, Missers, Checkers, Builders, AboutToBuild, BeforeCheck, Call.RmId;
  }

  /** Over every interleaving of calls: whatever is cached or returned was built by a call with
      the key it is cached or was asked for under, so for the account and region asked for if
      neither call has a slash in them; keys only ever join the cache; lookups and stores exclude
      each other; a lookup hits exactly from the first store of its key on; and for every key the
      callers that have built or are about to are exactly those that looked before that store,
      each building at most once, so a caller that looks later builds nothing. */
  lemma InterleavingSafe(run: Schedule, more: Schedule)
    requires PossibleRun(EMPTY, run) && PossibleRun(After(EMPTY, run), more)
    ensures var s := After(EMPTY, run);
            && (forall k | k in s.cache :: MadeFor(s.calls, s.cache[k], k))
            && (forall p | p in s.pcs && s.pcs[p].Returned? && s.pcs[p].answer.Some? :: AnsweredRightly(s, p))
            && s.cache.Keys <= After(s, more).cache.Keys
            && (forall p, q | p in s.pcs && q in s.pcs && HoldsRead(s.pcs[p]) :: !HoldsWrite(s.pcs[q]))
            && (forall i | 0 <= i < |s.log| && s.log[i].Checked? ::
                  s.log[i].hit <==> StoredBefore(s.log[..i], s.log[i].key))
            && (forall key :: BuildersExact(s, key))
  {
    var s := After(EMPTY, run);
    assert Inv(EMPTY);
    RunKeeps(EMPTY, run);
    RunKeeps(s, more);
    hide PossibleRun, After, Attempts, Pending, EarlyCheckers, StoredBefore, Ledger, BuildsOnce, ChecksOnce, MadeFor,
      Call.RmId, Call.Sane;
    forall p | p in s.pcs && s.pcs[p].Returned? && s.pcs[p].answer.Some?
      ensures AnsweredRightly(s, p)
    {
      AnswerOf(s, p);
    }
    forall key
      ensures BuildersExact(s, key)
    {
      Conservation(s, key);
    }
  }

  predicate AnsweredRightly(s: State, p: nat)
    requires p in s.pcs && s.pcs[p].Returned? && s.pcs[p].answer.Some?
  {
    var o := s.pcs[p].answer.value;
    && p in s.calls
    && MadeFor(s.calls, o, s.calls[p].RmId())
    && (s.calls[p].Sane() && s.calls[o.builder].Sane() ==> BuiltFor(o.manager, s.calls[p]))
    && o.manager.awsPartition == s.calls[o.builder].partition
    && o.manager.awsAccountID == s.calls[o.builder].id
    && o.manager.awsRegion == s.calls[o.builder].region
  }

  lemma AnswerOf(s: State, p: nat)
    requires Placed(s) && HandsAgree(s)
    requires p in s.pcs && s.pcs[p].Returned? && s.pcs[p].answer.Some?
    ensures AnsweredRightly(s, p)
  {
    var o := s.pcs[p].answer.value;
    assert Objects(s.pcs[p]) == Some(o);
    if s.calls[p].Sane() && s.calls[o.builder].Sane() {
      RightAnswer(s.calls, o, s.calls[p]);
    }
  }
}
