/** EnsureReferences of pkg/resource/agent_runtime/references.go on the pointers themselves: two
    deep copies, between which reference lists are handed over. */
module PointerReferences {
  import opened Basics
  import opened Pointers
  import opened DeepCopy
  import Api
  import References

  predicate IsEmpty<T>(a: Slice<T>) {
    a == null || a.Length == 0
  }

  lemma EmptyAt(a: Slice<ReferenceWrapper>, c: Cells)
    requires WrappersIn(a, c)
    ensures IsEmpty(a) <==> Items(WrappersAt(a, c)) == []
  {
  }

  function RestoredList(declared: Api.ReferenceList, latest: Api.ReferenceList): Api.ReferenceList {
    if Items(latest) == [] && Items(declared) != [] then declared else latest
  }

  function RestoredVPC(declared: Api.VPCConfig, v: Api.VPCConfig): Api.VPCConfig {
    v.(securityGroupRefs := RestoredList(declared.securityGroupRefs, v.securityGroupRefs),
       subnetRefs := RestoredList(declared.subnetRefs, v.subnetRefs))
  }

  /** What EnsureReferences leaves in latest's network configuration. */
  function RestoredNetwork(declared: Option<Api.NetworkConfiguration>, latest: Option<Api.NetworkConfiguration>)
    : Option<Api.NetworkConfiguration>
  {
    if declared.None? || declared.value.networkModeConfig.None? then latest
    else
      var d := declared.value.networkModeConfig.value;
      if Items(d.securityGroupRefs) == [] && Items(d.subnetRefs) == [] then latest
      else
        var n := OrEmpty(latest);
        Some(n.(networkModeConfig := Some(RestoredVPC(d, OrEmptyVPC(n.networkModeConfig)))))
  }

  /** That is what References says of the two specs. */
  lemma RestoredIsEnsured(desired: Api.AgentRuntimeSpec, latest: Api.AgentRuntimeSpec)
    ensures References.Ensured(desired, latest)
         == latest.(networkConfiguration := RestoredNetwork(desired.networkConfiguration, latest.networkConfiguration))
  {
  }

  /** A missing list is taken over by pointer, without a second copy. */
  method TakeOver(declared: VPCConfig, v: VPCConfig, ghost d: Cells, ghost m: Cells) returns (out: VPCConfig)
    requires VPCIn(declared, d) && VPCIn(v, m)
    ensures VPCIn(out, d + m) && VPCAt(out, d + m) == RestoredVPC(VPCAt(declared, d), VPCAt(v, m))
  {
    EmptyAt(declared.securityGroupRefs, d);
    EmptyAt(declared.subnetRefs, d);
    EmptyAt(v.securityGroupRefs, m);
    EmptyAt(v.subnetRefs, m);
    WidenVPC(declared, d, d + m);
    WidenVPC(v, m, d + m);
    hide ListIn, ListAt, WrappersIn, WrappersAt, IsEmpty;
    out := v;
    if !IsEmpty(declared.securityGroupRefs) {
      if IsEmpty(out.securityGroupRefs) {
        out := out.(securityGroupRefs := declared.securityGroupRefs);
      }
    }
    if !IsEmpty(declared.subnetRefs) {
      if IsEmpty(out.subnetRefs) {
        out := out.(subnetRefs := declared.subnetRefs);
      }
    }
  }

  function OrEmpty(n: Option<Api.NetworkConfiguration>): Api.NetworkConfiguration {
    if n.Some? then n.value else Api.NetworkConfiguration(None, None)
  }

  function OrEmptyVPC(v: Option<Api.VPCConfig>): Api.VPCConfig {
    if v.Some? then v.value else Api.VPCConfig(None, None, None, None)
  }

  /** latest's own structs, created where they are missing. */
  method StructsOf(latest: Ref?<NetworkConfiguration>, ghost l: Cells, ghost fields: Cells)
    returns (out: Ref<NetworkConfiguration>, config: Ref<VPCConfig>)
    requires NetworkIn(latest, l) && Apart(latest, l, fields)
    modifies l - fields
    ensures fresh({out} - l) && fresh({config} - l) && out !in fields && config !in fields && fields <= l
    ensures out.value.networkModeConfig == config && In(out.value.networkMode, fields) && VPCIn(config.value, fields)
    ensures At(out.value.networkMode, fields) == OrEmpty(old(NetworkAt(latest, l))).networkMode
    ensures VPCAt(config.value, fields) == OrEmptyVPC(OrEmpty(old(NetworkAt(latest, l))).networkModeConfig)
  {
    if latest != null && latest.value.networkModeConfig != null {
      WidenVPC(latest.value.networkModeConfig.value, fields, l);
      return latest, latest.value.networkModeConfig;
    }
    config := new Ref(VPCConfig(null, null, null, null));
    if latest == null {
      out := new Ref(NetworkConfiguration(null, config));
    } else {
      out := latest;
      out.value := out.value.(networkModeConfig := config);
    }
  }

  /** Restores into latest's structs. */
  method RestoreInto(declared: VPCConfig, ghost d: Cells, latest: Ref?<NetworkConfiguration>, ghost l: Cells,
                     ghost fields: Cells)
    returns (out: Ref<NetworkConfiguration>, ghost n: Cells)
    requires VPCIn(declared, d) && NetworkIn(latest, l) && Apart(latest, l, fields) && d !! l
    modifies l - fields
    ensures fresh(n - d - l) && NetworkIn(out, n)
    ensures var before := OrEmpty(old(NetworkAt(latest, l)));
            var v := RestoredVPC(old(VPCAt(declared, d)), OrEmptyVPC(before.networkModeConfig));
            NetworkAt(out, n) == Some(before.(networkModeConfig := Some(v)))
  {
    hide VPCIn, VPCAt, OrEmpty, OrEmptyVPC, RestoredVPC, Apart, NetworkIn, NetworkAt;
    var config;
    out, config := StructsOf(latest, l, fields);
    n := d + l + {out} + {config};
    SetConfig(declared, d, out, config, n, fields);
  }

  method SetConfig(declared: VPCConfig, ghost d: Cells, net: Ref<NetworkConfiguration>, config: Ref<VPCConfig>,
                   ghost n: Cells, ghost fields: Cells)
    requires VPCIn(declared, d) && VPCIn(config.value, fields) && In(net.value.networkMode, fields)
    requires net.value.networkModeConfig == config && config !in d + fields && d + fields + {net} + {config} <= n
    modifies config
    ensures NetworkIn(net, n)
    ensures NetworkAt(net, n)
         == Some(Api.NetworkConfiguration(
                   old(At(net.value.networkMode, fields)),
                   Some(RestoredVPC(old(VPCAt(declared, d)), old(VPCAt(config.value, fields))))))
  {
    hide VPCIn, VPCAt, RestoredVPC;
    var v := TakeOver(declared, config.value, d, fields);
    config.value := v;
    WidenVPC(v, d + fields, n);
  }

  lemma DeclaresNone(declared: VPCConfig, c: Cells)
    requires VPCIn(declared, c)
    ensures IsEmpty(declared.securityGroupRefs) && IsEmpty(declared.subnetRefs)
            <==> Items(VPCAt(declared, c).securityGroupRefs) == [] && Items(VPCAt(declared, c).subnetRefs) == []
  {
    EmptyAt(declared.securityGroupRefs, c);
    EmptyAt(declared.subnetRefs, c);
  }

  /** The network configurations of two copies, whatever of either is nil. */
  method RestoreNetwork(desired: Ref?<NetworkConfiguration>, ghost d: Cells,
                        latest: Ref?<NetworkConfiguration>, ghost l: Cells, ghost fields: Cells)
    returns (out: Ref?<NetworkConfiguration>, ghost n: Cells)
    requires NetworkIn(desired, d) && NetworkIn(latest, l) && Apart(latest, l, fields) && d !! l
    modifies l - fields
    ensures fresh(n - d - l) && NetworkIn(out, n)
    ensures NetworkAt(out, n) == RestoredNetwork(old(NetworkAt(desired, d)), old(NetworkAt(latest, l)))
  {
    out, n := latest, l;
    if desired != null && desired.value.networkModeConfig != null {
      var declared := desired.value.networkModeConfig.value;
      DeclaresNone(declared, d);
      hide VPCIn, VPCAt, IsEmpty, Apart, OrEmpty, OrEmptyVPC, RestoredVPC;
      if !IsEmpty(declared.securityGroupRefs) || !IsEmpty(declared.subnetRefs) {
        out, n := RestoreInto(declared, d, latest, l, fields);
      }
    }
  }

  /** The two deep copies EnsureReferences begins with. */
  method CopyBoth(desired: AgentRuntimeSpec, latest: AgentRuntimeSpec, ghost c: Cells)
    returns (desiredKO: AgentRuntimeSpec, latestKO: AgentRuntimeSpec,
             ghost declared: Cells, ghost rest: Cells, ghost network: Cells, ghost fields: Cells)
    requires SpecIn(desired, c) && SpecIn(latest, c)
    ensures fresh(declared) && fresh(rest) && fresh(network) && declared !! network && rest !! network
    ensures NetworkIn(desiredKO.networkConfiguration, declared)
    ensures NetworkAt(desiredKO.networkConfiguration, declared) == old(NetworkAt(desired.networkConfiguration, c))
    ensures RestIn(latestKO, rest) && RestAt(latestKO, rest) == old(RestAt(latest, c))
    ensures NetworkIn(latestKO.networkConfiguration, network) && Apart(latestKO.networkConfiguration, network, fields)
    ensures NetworkAt(latestKO.networkConfiguration, network) == old(NetworkAt(latest.networkConfiguration, c))
  {
    hide RestIn, RestAt, NetworkIn, NetworkAt, Apart, SpecAt;
    ghost var others, inner;
    desiredKO, others, declared, inner := CopySpec(desired, c);
    latestKO, rest, network, fields := CopySpec(latest, c);
  }

  /** EnsureReferences: for every desired and latest spec, whatever of either is nil, the result
      stands for what References says and shares no cell with either; neither is written to. */
  method EnsureReferences(desired: AgentRuntimeSpec, latest: AgentRuntimeSpec, ghost c: Cells)
    returns (out: AgentRuntimeSpec, ghost n: Cells)
    requires SpecIn(desired, c) && SpecIn(latest, c)
    ensures SpecIn(out, n) && fresh(n)
    ensures SpecAt(out, n) == References.Ensured(old(SpecAt(desired, c)), old(SpecAt(latest, c)))
    ensures SpecAt(desired, c) == old(SpecAt(desired, c)) && SpecAt(latest, c) == old(SpecAt(latest, c))
  {
    RestoredIsEnsured(SpecAt(desired, c), SpecAt(latest, c));
    hide RestIn, RestAt, NetworkIn, NetworkAt, References.Ensured, RestoredNetwork, Apart;
    var desiredKO, latestKO, declaredCells, rest, network, fields := CopyBoth(desired, latest, c);
    ghost var m;
    var restored;
    restored, m := RestoreNetwork(desiredKO.networkConfiguration, declaredCells,
                                  latestKO.networkConfiguration, network, fields);
    Assemble(latestKO, rest, restored, m);
    out, n := latestKO.(networkConfiguration := restored), rest + m;
  }
}
