/** ReferenceResolver: the lookup tables the translation works from and the
    resolution of a service's network references against them
    (lib/index.ts createNetworkMap, createVolumeMap, getNetworkIds,
    parseNetworks, createStackNetworkMap). */
module Resolver {
  import opened Wrappers
  import opened DockerModels
  import opened Names
  import opened Tables
  import C = ComposeModels

  // ---------------------------------------------------------------- tables

  /** The ids of a list of networks, in order. */
  function NetworkIds(networks: seq<Network>): (ids: seq<string>)
    ensures |ids| == |networks| && forall i :: 0 <= i < |networks| ==> ids[i] == networks[i].Id
  {
    seq(|networks|, i requires 0 <= i < |networks| => networks[i].Id)
  }

  /** createNetworkMap: every network under its id; of several networks with
      one id, the last one in the list wins. */
  method CreateNetworkMap(networks: seq<Network>) returns (result: NetworkMap)
    ensures result.Keys == set i | 0 <= i < |networks| :: networks[i].Id
    ensures forall i :: 0 <= i < |networks| && (forall j :: i < j < |networks| ==> networks[j].Id != networks[i].Id) ==>
              result[networks[i].Id] == networks[i]
  {
    ghost var ids := NetworkIds(networks);
    result := map[];
    for k := 0 to |networks|
      invariant result == Table(ids[..k], networks[..k])
    {
      TableStep(ids, networks, k);
      result := result[networks[k].Id := networks[k]];
    }
    assert ids[..|networks|] == ids && networks[..|networks|] == networks;
    TableKeys(ids, networks);
    assert (set i | 0 <= i < |ids| :: ids[i]) == set i | 0 <= i < |networks| :: networks[i].Id;
    forall i | 0 <= i < |networks| && (forall j :: i < j < |networks| ==> networks[j].Id != networks[i].Id)
      ensures result[networks[i].Id] == networks[i]
    {
      TableLastWins(ids, networks, i);
    }
  }

  /** createVolumeMap: strips the stack prefix from each volume's name IN PLACE
      (when the namespace label has a truthy value) and files the volume under
      the new name; of several volumes with one name, the last one wins. */
  method CreateVolumeMap(volumes: seq<Volume>) returns (result: VolumeMap)
    requires forall i, j :: 0 <= i < j < |volumes| ==> volumes[i] != volumes[j]
    modifies volumes
    ensures forall i :: 0 <= i < |volumes| ==>
              volumes[i].Name == StripTruthyNamespace(old(volumes[i].Name), volumes[i].Labels)
    ensures result.Keys == set i | 0 <= i < |volumes| :: volumes[i].Name
    ensures forall name :: name in result ==> result[name].Name == name
    ensures forall i :: 0 <= i < |volumes| && (forall j :: i < j < |volumes| ==> volumes[j].Name != volumes[i].Name) ==>
              result[volumes[i].Name] == volumes[i]
  {
    result := map[];
    ghost var original := seq(|volumes|, i reads volumes requires 0 <= i < |volumes| => volumes[i].Name);
    ghost var expected := seq(|volumes|, i requires 0 <= i < |volumes| => StripTruthyNamespace(original[i], volumes[i].Labels));
    for k := 0 to |volumes|
      invariant forall i :: 0 <= i < k ==> volumes[i].Name == expected[i]
      invariant forall i :: k <= i < |volumes| ==> volumes[i].Name == original[i]
      invariant result == Table(expected[..k], volumes[..k])
    {
      TableStep(expected, volumes, k);
      result := FileVolume(volumes[k], result);
    }
    assert volumes[..|volumes|] == volumes && expected[..|volumes|] == expected;
    assert forall i :: 0 <= i < |volumes| ==> original[i] == old(volumes[i].Name);
    VolumeTableMeaning(expected, volumes);
  }

  /** The table of volumes filed under their current names. */
  lemma VolumeTableMeaning(names: seq<string>, volumes: seq<Volume>)
    requires |names| == |volumes| && forall i :: 0 <= i < |volumes| ==> volumes[i].Name == names[i]
    ensures Table(names, volumes).Keys == set i | 0 <= i < |volumes| :: volumes[i].Name
    ensures forall name :: name in Table(names, volumes) ==> Table(names, volumes)[name].Name == name
    ensures forall i :: 0 <= i < |volumes| && (forall j :: i < j < |volumes| ==> volumes[j].Name != volumes[i].Name) ==>
              Table(names, volumes)[volumes[i].Name] == volumes[i]
  {
    TableKeys(names, volumes);
    assert (set i | 0 <= i < |volumes| :: volumes[i].Name) == set i | 0 <= i < |names| :: names[i];
    TableValues(names, volumes);
    forall i | 0 <= i < |volumes| && (forall j :: i < j < |volumes| ==> volumes[j].Name != volumes[i].Name)
      ensures Table(names, volumes)[volumes[i].Name] == volumes[i]
    {
      TableLastWins(names, volumes, i);
    }
  }

  /** One iteration of createVolumeMap (lib/index.ts:338-342): the volume is
      renamed in place and filed under its new name. */
  method FileVolume(vol: Volume, table: VolumeMap) returns (result: VolumeMap)
    modifies vol
    ensures vol.Name == StripTruthyNamespace(old(vol.Name), vol.Labels)
    ensures result == table[vol.Name := vol]
  {
    if vol.Labels.Some? && NamespaceKey in vol.Labels.value && vol.Labels.value[NamespaceKey] != "" {
      vol.Name := ReplaceFirst(vol.Name, vol.Labels.value[NamespaceKey] + "_");
    }
    result := table[vol.Name := vol];
  }

  /** The network ids one service attaches to, in order. */
  function TargetsOf(service: Service): seq<string> {
    match service.Spec.TaskTemplate.Networks
    case None => []
    case Some(attachments) => seq(|attachments|, i requires 0 <= i < |attachments| => attachments[i].Target)
  }

  /** The attachment targets of all services, service by service, in order,
      duplicates kept. */
  function AllTargets(services: seq<Service>): seq<string> {
    if |services| == 0 then [] else AllTargets(services[..|services| - 1]) + TargetsOf(services[|services| - 1])
  }

  /** A network id is collected exactly when some service attaches to it. */
  lemma {:induction false} AllTargetsMembership(services: seq<Service>, id: string)
    ensures id in AllTargets(services) <==> exists i :: 0 <= i < |services| && id in TargetsOf(services[i])
  {
    if |services| > 0 {
      var n := |services| - 1;
      var init := services[..n];
      AllTargetsMembership(init, id);
      assert AllTargets(services) == AllTargets(init) + TargetsOf(services[n]);
      if id in AllTargets(init) {
        var i :| 0 <= i < n && id in TargetsOf(init[i]);
        assert init[i] == services[i];
      } else if id !in TargetsOf(services[n]) {
        forall i | 0 <= i < |services|
          ensures id !in TargetsOf(services[i])
        {
          if i < n {
            assert init[i] == services[i];
          }
        }
      }
    }
  }

  /** getNetworkIds: collects every attachment target of every service. */
  method GetNetworkIds(services: seq<Service>) returns (ids: seq<string>)
    ensures ids == AllTargets(services)
    ensures forall id :: id in ids <==> exists i :: 0 <= i < |services| && id in TargetsOf(services[i])
  {
    ids := [];
    for k := 0 to |services|
      invariant ids == AllTargets(services[..k])
    {
      assert services[..k + 1][..k] == services[..k];
      var service := services[k];
      if service.Spec.TaskTemplate.Networks.Some? {
        var networks := service.Spec.TaskTemplate.Networks.value;
        ghost var before := ids;
        for j := 0 to |networks|
          invariant ids == before + seq(j, i requires 0 <= i < j => networks[i].Target)
        {
          ids := ids + [networks[j].Target];
        }
      }
    }
    assert services[..|services|] == services;
    forall id ensures id in ids <==> exists i :: 0 <= i < |services| && id in TargetsOf(services[i]) {
      AllTargetsMembership(services, id);
    }
  }

  // ---------------------------------------------------- network resolution

  function AttachmentsOf(service: Service): seq<NetworkAttachment> {
    match service.Spec.TaskTemplate.Networks
    case None => []
    case Some(attachments) => attachments
  }

  /** The attachment targets parseNetworks looks up: the truthy (non-empty) ones, in order. */
  function TruthyTargets(attachments: seq<NetworkAttachment>): (r: seq<string>)
    ensures forall i :: 0 <= i < |r| ==> r[i] != ""
    ensures forall i :: 0 <= i < |attachments| && attachments[i].Target != "" ==> attachments[i].Target in r
    ensures forall t :: t in r ==> exists i :: 0 <= i < |attachments| && attachments[i].Target == t
  {
    if |attachments| == 0 then []
    else if attachments[0].Target == "" then TruthyTargets(attachments[1..])
    else [attachments[0].Target] + TruthyTargets(attachments[1..])
  }

  /** Looks up each truthy target in turn; the first one missing from the table is reported. */
  function ResolveNetworks(attachments: seq<NetworkAttachment>, networkMap: NetworkMap): Result<seq<Network>, C.ComposeError> {
    if |attachments| == 0 then Success([])
    else
      var target := attachments[0].Target;
      if target == "" then ResolveNetworks(attachments[1..], networkMap)
      else if target !in networkMap then Failure(C.DanglingNetworkReference(target))
      else
        var rest :- ResolveNetworks(attachments[1..], networkMap);
        Success([networkMap[target]] + rest)
  }

  /** Resolution succeeds exactly when every truthy target is in the table. */
  lemma {:induction false} ResolveNetworksSucceeds(attachments: seq<NetworkAttachment>, networkMap: NetworkMap)
    ensures ResolveNetworks(attachments, networkMap).Success? <==>
              forall t :: t in TruthyTargets(attachments) ==> t in networkMap
  {
    if |attachments| > 0 {
      var tail := attachments[1..];
      ResolveNetworksSucceeds(tail, networkMap);
      var target := attachments[0].Target;
      if target != "" {
        assert TruthyTargets(attachments) == [target] + TruthyTargets(tail);
      }
    }
  }

  /** A successful resolution holds the table entry of each truthy target, in order. */
  lemma {:induction false} ResolveNetworksValues(attachments: seq<NetworkAttachment>, networkMap: NetworkMap)
    requires ResolveNetworks(attachments, networkMap).Success?
    ensures var targets, nets := TruthyTargets(attachments), ResolveNetworks(attachments, networkMap).value;
            |nets| == |targets| && forall i :: 0 <= i < |nets| ==> targets[i] in networkMap && nets[i] == networkMap[targets[i]]
  {
    if |attachments| > 0 {
      var tail := attachments[1..];
      ResolveNetworksValues(tail, networkMap);
      var target := attachments[0].Target;
      if target != "" {
        var targets, rest := TruthyTargets(attachments), TruthyTargets(tail);
        var nets := ResolveNetworks(tail, networkMap).value;
        assert targets == [target] + rest;
        assert ResolveNetworks(attachments, networkMap).value == [networkMap[target]] + nets;
      }
    }
  }

  /** `e` reports the first of `targets` that is missing from the table. */
  predicate FirstMissing(targets: seq<string>, e: C.ComposeError, networkMap: NetworkMap) {
    exists i :: 0 <= i < |targets| && e == C.DanglingNetworkReference(targets[i]) && targets[i] !in networkMap &&
      forall j :: 0 <= j < i ==> targets[j] in networkMap
  }

  /** A failed resolution names the first truthy target missing from the table. */
  lemma {:induction false} ResolveNetworksFirstMissing(attachments: seq<NetworkAttachment>, networkMap: NetworkMap)
    requires ResolveNetworks(attachments, networkMap).Failure?
    ensures FirstMissing(TruthyTargets(attachments), ResolveNetworks(attachments, networkMap).error, networkMap)
  {
    var tail := attachments[1..];
    var target := attachments[0].Target;
    var targets, rest := TruthyTargets(attachments), TruthyTargets(tail);
    var e := ResolveNetworks(attachments, networkMap).error;
    if target == "" {
      assert targets == rest;
      ResolveNetworksFirstMissing(tail, networkMap);
    } else {
      assert targets == [target] + rest;
      if target !in networkMap {
        assert e == C.DanglingNetworkReference(targets[0]) && targets[0] !in networkMap;
      } else {
        ResolveNetworksFirstMissing(tail, networkMap);
        var i :| 0 <= i < |rest| && e == C.DanglingNetworkReference(rest[i]) && rest[i] !in networkMap &&
                 forall j :: 0 <= j < i ==> rest[j] in networkMap;
        assert targets[i + 1] == rest[i];
        assert forall j :: 1 <= j <= i ==> targets[j] == rest[j - 1];
      }
    }
  }

  /** parseNetworks: the table entries of the truthy targets, in attachment
      order; it fails, naming the first truthy target missing from the table,
      exactly when one is missing. */
  lemma ResolveNetworksMeaning(attachments: seq<NetworkAttachment>, networkMap: NetworkMap)
    ensures ResolveNetworks(attachments, networkMap).Success? <==>
              forall t :: t in TruthyTargets(attachments) ==> t in networkMap
    ensures ResolveNetworks(attachments, networkMap).Success? ==>
              var targets, nets := TruthyTargets(attachments), ResolveNetworks(attachments, networkMap).value;
              |nets| == |targets| && forall i :: 0 <= i < |nets| ==> targets[i] in networkMap && nets[i] == networkMap[targets[i]]
    ensures ResolveNetworks(attachments, networkMap).Failure? ==>
              FirstMissing(TruthyTargets(attachments), ResolveNetworks(attachments, networkMap).error, networkMap)
  {
    ResolveNetworksSucceeds(attachments, networkMap);
    if ResolveNetworks(attachments, networkMap).Success? {
      ResolveNetworksValues(attachments, networkMap);
    } else {
      ResolveNetworksFirstMissing(attachments, networkMap);
    }
  }

  /** `prefix` followed by the outcome `rest`, failures passing through. */
  function Prepend(prefix: seq<Network>, rest: Result<seq<Network>, C.ComposeError>): Result<seq<Network>, C.ComposeError> {
    match rest
    case Success(nets) => Success(prefix + nets)
    case Failure(e) => Failure(e)
  }

  /** parseNetworks, as the loop the source runs. */
  method ParseNetworks(service: Service, networkMap: NetworkMap) returns (r: Result<seq<Network>, C.ComposeError>)
    ensures r == ResolveNetworks(AttachmentsOf(service), networkMap)
  {
    var result: seq<Network> := [];
    if service.Spec.TaskTemplate.Networks.Some? {
      var networks := service.Spec.TaskTemplate.Networks.value;
      assert networks[0..] == networks;
      match ResolveNetworks(networks, networkMap) {
        case Success(nets) => assert [] + nets == nets;
        case Failure(_) =>
      }
      for k := 0 to |networks|
        invariant ResolveNetworks(networks, networkMap) == Prepend(result, ResolveNetworks(networks[k..], networkMap))
      {
        var rest := networks[k..];
        assert rest[1..] == networks[k + 1..];
        var target := networks[k].Target;
        if target != "" {
          if target in networkMap {
            match ResolveNetworks(networks[k + 1..], networkMap) {
              case Success(nets) =>
                assert result + ([networkMap[target]] + nets) == (result + [networkMap[target]]) + nets;
              case Failure(_) =>
            }
            result := result + [networkMap[target]];
          } else {
            return Failure(C.DanglingNetworkReference(target));
          }
        }
      }
      assert networks[|networks|..] == [];
      assert result + [] == result;
    }
    return Success(result);
  }

  // ------------------------------------------------- stack network view

  /** The stack-file entry for one network: its driver, plus `external: true`
      when it has labels but no truthy namespace label (it was not created by a stack). */
  function StackNetworkOf(network: Network): C.StackNetwork {
    C.StackNetwork(Some(network.Driver),
                   if network.Labels.Some? && !HasTruthyNamespace(network.Labels) then Some(true) else None)
  }

  ghost predicate DriverMissing(networkMap: NetworkMap) {
    exists id :: id in networkMap && networkMap[id].Driver == ""
  }

  /** The stack-file names of the networks in the table. */
  function NetworkNames(networkMap: NetworkMap): set<string> {
    set id | id in networkMap :: GetNetworkName(networkMap[id])
  }

  /** Every entry of `view` is the stack-file entry of some network of the table bearing that name. */
  ghost predicate DescribesNetworks(view: map<string, C.StackNetwork>, networkMap: NetworkMap) {
    forall name :: name in view ==>
      exists id :: id in networkMap && GetNetworkName(networkMap[id]) == name && view[name] == StackNetworkOf(networkMap[id])
  }

  /** createStackNetworkMap: fails exactly when some network has no driver,
      naming one such network; otherwise maps the stack-file name of every
      network to its stack-file entry (which network wins when two share a
      name depends on key order, so only "one of them" is promised). */
  method CreateStackNetworkMap(networkMap: NetworkMap) returns (r: Result<map<string, C.StackNetwork>, C.ComposeError>)
    ensures r.Failure? <==> DriverMissing(networkMap)
    ensures r.Failure? ==>
              r.error.NetworkWithoutDriver? && r.error.networkId in networkMap && networkMap[r.error.networkId].Driver == ""
    ensures r.Success? ==> r.value.Keys == NetworkNames(networkMap) && DescribesNetworks(r.value, networkMap)
  {
    var result: map<string, C.StackNetwork> := map[];
    var remaining := networkMap.Keys;
    while remaining != {}
      invariant remaining <= networkMap.Keys
      invariant forall id :: id in networkMap && id !in remaining ==> networkMap[id].Driver != ""
      invariant result.Keys == set id | id in networkMap && id !in remaining :: GetNetworkName(networkMap[id])
      invariant DescribesNetworks(result, networkMap)
      decreases remaining
    {
      var id :| id in remaining;
      var network := networkMap[id];
      if network.Driver == "" {
        return Failure(C.NetworkWithoutDriver(id));
      }
      var name := GetNetworkName(network);
      result := result[name := C.StackNetwork(Some(network.Driver), None)];
      if network.Labels.Some? && !(NamespaceKey in network.Labels.value && network.Labels.value[NamespaceKey] != "") {
        result := result[name := result[name].(external := Some(true))];
      }
      assert result[name] == StackNetworkOf(network);
      remaining := remaining - {id};
    }
    return Success(result);
  }
}
