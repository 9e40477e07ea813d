/** Late initialisation: lateInitializeFromReadOneOutput of
    pkg/resource/agent_runtime/manager.go, on the specs of the two deep copies it makes. */
module LateInit {
  import opened Basics
  import opened Api

  function FirstSet<T>(preferred: Option<T>, fallback: Option<T>): Option<T> {
    if preferred.Some? then preferred else fallback
  }

  function MergeLifecycle(observed: Option<LifecycleConfiguration>,
                          latest: Option<LifecycleConfiguration>): Option<LifecycleConfiguration> {
    if observed.None? then latest
    else if latest.None? then observed
    else
      Some(LifecycleConfiguration(
             FirstSet(latest.value.idleRuntimeSessionTimeout, observed.value.idleRuntimeSessionTimeout),
             FirstSet(latest.value.maxLifetime, observed.value.maxLifetime)))
  }

  function MergeProtocol(observed: Option<ProtocolConfiguration>,
                         latest: Option<ProtocolConfiguration>): Option<ProtocolConfiguration> {
    if observed.None? then latest
    else if latest.None? then observed
    else Some(ProtocolConfiguration(FirstSet(latest.value.serverProtocol, observed.value.serverProtocol)))
  }

  function LateInitialized(observed: AgentRuntimeSpec, latest: AgentRuntimeSpec): AgentRuntimeSpec {
    latest.(lifecycleConfiguration := MergeLifecycle(observed.lifecycleConfiguration, latest.lifecycleConfiguration),
            platformVersion := FirstSet(latest.platformVersion, observed.platformVersion),
            protocolConfiguration := MergeProtocol(observed.protocolConfiguration, latest.protocolConfiguration))
  }

  method LateInitializeFromReadOneOutput(observed: AgentRuntimeSpec, latest: AgentRuntimeSpec)
    returns (ko: AgentRuntimeSpec)
    ensures ko == LateInitialized(observed, latest)
  {
    ko := latest;
    if observed.lifecycleConfiguration.Some? && ko.lifecycleConfiguration.None? {
      ko := ko.(lifecycleConfiguration := observed.lifecycleConfiguration);
    }
    if observed.lifecycleConfiguration.Some? && ko.lifecycleConfiguration.Some? {
      var o, l := observed.lifecycleConfiguration.value, ko.lifecycleConfiguration.value;
      if o.idleRuntimeSessionTimeout.Some? && l.idleRuntimeSessionTimeout.None? {
        ko := ko.(lifecycleConfiguration := Some(l.(idleRuntimeSessionTimeout := o.idleRuntimeSessionTimeout)));
      }
    }
    if observed.lifecycleConfiguration.Some? && ko.lifecycleConfiguration.Some? {
      var o, l := observed.lifecycleConfiguration.value, ko.lifecycleConfiguration.value;
      if o.maxLifetime.Some? && l.maxLifetime.None? {
        ko := ko.(lifecycleConfiguration := Some(l.(maxLifetime := o.maxLifetime)));
      }
    }
    if observed.platformVersion.Some? && ko.platformVersion.None? {
      ko := ko.(platformVersion := observed.platformVersion);
    }
    if observed.protocolConfiguration.Some? && ko.protocolConfiguration.None? {
      ko := ko.(protocolConfiguration := observed.protocolConfiguration);
    }
    if observed.protocolConfiguration.Some? && ko.protocolConfiguration.Some? {
      var o, l := observed.protocolConfiguration.value, ko.protocolConfiguration.value;
      if o.serverProtocol.Some? && l.serverProtocol.None? {
        ko := ko.(protocolConfiguration := Some(l.(serverProtocol := o.serverProtocol)));
      }
    }
  }

  // ----- The late-initialised fields, seen through possibly nil structs -----

  function IdleOf(s: AgentRuntimeSpec): Option<int64> {
    if s.lifecycleConfiguration.None? then None else s.lifecycleConfiguration.value.idleRuntimeSessionTimeout
  }

  function MaxLifetimeOf(s: AgentRuntimeSpec): Option<int64> {
    if s.lifecycleConfiguration.None? then None else s.lifecycleConfiguration.value.maxLifetime
  }

  function ServerProtocolOf(s: AgentRuntimeSpec): Option<string> {
    if s.protocolConfiguration.None? then None else s.protocolConfiguration.value.serverProtocol
  }

  /** r fills the unset value of l from o and never changes a set one. */
  predicate FilledFrom<T(==)>(r: Option<T>, o: Option<T>, l: Option<T>) {
    if l.Some? then r == l else r == o
  }

  /** Every listed field keeps the user's value or takes the observed one, inside partly set
      structs too; a struct is nil afterwards only if it was nil on both sides; everything
      else, tags included, stands. */
  lemma Conservative(observed: AgentRuntimeSpec, latest: AgentRuntimeSpec)
    ensures var r := LateInitialized(observed, latest);
            && FilledFrom(IdleOf(r), IdleOf(observed), IdleOf(latest))
            && FilledFrom(MaxLifetimeOf(r), MaxLifetimeOf(observed), MaxLifetimeOf(latest))
            && FilledFrom(r.platformVersion, observed.platformVersion, latest.platformVersion)
            && FilledFrom(ServerProtocolOf(r), ServerProtocolOf(observed), ServerProtocolOf(latest))
            && (r.lifecycleConfiguration.None?
                <==> observed.lifecycleConfiguration.None? && latest.lifecycleConfiguration.None?)
            && (r.protocolConfiguration.None?
                <==> observed.protocolConfiguration.None? && latest.protocolConfiguration.None?)
            && latest == r.(lifecycleConfiguration := latest.lifecycleConfiguration,
                            platformVersion := latest.platformVersion,
                            protocolConfiguration := latest.protocolConfiguration)
  {
  }

  /** Reading the same answer again changes nothing more; and a later answer changes only
      what the earlier one left unset. */
  lemma Stable(observed: AgentRuntimeSpec, later: AgentRuntimeSpec, latest: AgentRuntimeSpec)
    ensures var r := LateInitialized(observed, latest);
            && LateInitialized(observed, r) == r
            && (IdleOf(r).Some? && MaxLifetimeOf(r).Some? && ServerProtocolOf(r).Some? && r.platformVersion.Some?
                ==> LateInitialized(later, r) == r)
  {
  }
}
