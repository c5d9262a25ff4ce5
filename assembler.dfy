/** StackAssembler: translating every service and collecting the networks and
    volumes they reference into one stack file (lib/index.ts compose, up to
    the point where the value is handed to the YAML serialiser). */
module Assembler {
  import opened Wrappers
  import opened DockerModels
  import opened Names
  import opened Resolver
  import opened Translator
  import C = ComposeModels

  const StackFileVersion: string := "3.3"

  /** Folds (name, translation) entries into one map, in order: a later entry
      with the same name replaces an earlier one, and the first failed
      translation fails the whole map. */
  function Collect<T, E>(entries: seq<(string, Result<T, E>)>): Result<map<string, T>, E> {
    if |entries| == 0 then Success(map[])
    else
      var blob :- Collect(entries[..|entries| - 1]);
      var translated :- entries[|entries| - 1].1;
      Success(blob[entries[|entries| - 1].0 := translated])
  }

  lemma {:induction false} CollectFailurePersists<T, E>(entries: seq<(string, Result<T, E>)>, k: nat)
    requires k <= |entries| && Collect(entries[..k]).Failure?
    ensures Collect(entries) == Collect(entries[..k])
    decreases |entries|
  {
    if k < |entries| {
      var init := entries[..|entries| - 1];
      assert init[..k] == entries[..k];
      CollectFailurePersists(init, k);
    } else {
      assert entries[..k] == entries;
    }
  }

  lemma {:induction false} CollectSucceeds<T, E>(entries: seq<(string, Result<T, E>)>)
    ensures Collect(entries).Success? <==> forall i :: 0 <= i < |entries| ==> entries[i].1.Success?
  {
    if |entries| > 0 {
      var n := |entries| - 1;
      CollectSucceeds(entries[..n]);
      assert forall i :: 0 <= i < n ==> entries[..n][i] == entries[i];
    }
  }

  lemma {:induction false} CollectFirstError<T, E>(entries: seq<(string, Result<T, E>)>)
    requires Collect(entries).Failure?
    ensures exists i :: 0 <= i < |entries| && entries[i].1 == Failure(Collect(entries).error) &&
              forall j :: 0 <= j < i ==> entries[j].1.Success?
  {
    var n := |entries| - 1;
    var init := entries[..n];
    assert forall i :: 0 <= i < n ==> init[i] == entries[i];
    if Collect(init).Failure? {
      CollectFirstError(init);
      var i :| 0 <= i < n && init[i].1 == Failure(Collect(init).error) &&
               forall j :: 0 <= j < i ==> init[j].1.Success?;
      assert entries[i].1 == Failure(Collect(entries).error);
    } else {
      CollectSucceeds(init);
    }
  }

  lemma {:induction false} CollectKeys<T, E>(entries: seq<(string, Result<T, E>)>)
    requires Collect(entries).Success?
    ensures Collect(entries).value.Keys == set i | 0 <= i < |entries| :: entries[i].0
  {
    if |entries| > 0 {
      var n := |entries| - 1;
      var init := entries[..n];
      CollectKeys(init);
      assert forall i :: 0 <= i < n ==> init[i] == entries[i];
      assert (set i | 0 <= i < |entries| :: entries[i].0) ==
             (set i | 0 <= i < n :: init[i].0) + {entries[n].0};
    }
  }

  lemma {:induction false} CollectLastWins<T, E>(entries: seq<(string, Result<T, E>)>, i: nat)
    requires Collect(entries).Success?
    requires i < |entries|
    requires forall j :: i < j < |entries| ==> entries[j].0 != entries[i].0
    ensures entries[i].1.Success? && entries[i].0 in Collect(entries).value
    ensures Collect(entries).value[entries[i].0] == entries[i].1.value
  {
    var n := |entries| - 1;
    if i < n {
      var init := entries[..n];
      assert init[i] == entries[i];
      assert forall j :: i < j < n ==> init[j] == entries[j];
      CollectLastWins(init, i);
    }
  }

  lemma {:induction false} CollectValuesFromEntries<T, E>(entries: seq<(string, Result<T, E>)>)
    requires Collect(entries).Success?
    ensures forall name :: name in Collect(entries).value ==>
              exists i :: 0 <= i < |entries| && entries[i] == (name, Success(Collect(entries).value[name]))
  {
    if |entries| > 0 {
      var n := |entries| - 1;
      var init := entries[..n];
      CollectValuesFromEntries(init);
      assert forall i :: 0 <= i < n ==> init[i] == entries[i];
    }
  }

  /** The entry of compose's services map for one service: its stack-file name
      and its translation. */
  function ServiceEntry(service: Service, networkMap: NetworkMap): (string, Result<C.Service, C.ComposeError>) {
    (GetServiceName(service), TranslateService(service, networkMap))
  }

  function ServiceEntries(services: seq<Service>, networkMap: NetworkMap): (r: seq<(string, Result<C.Service, C.ComposeError>)>)
    ensures |r| == |services|
  {
    seq(|services|, i requires 0 <= i < |services| => ServiceEntry(services[i], networkMap))
  }

  lemma EntriesTranslate(services: seq<Service>, networkMap: NetworkMap)
    ensures forall i :: 0 <= i < |services| ==>
              ServiceEntries(services, networkMap)[i] == (GetServiceName(services[i]), TranslateService(services[i], networkMap))
  {
  }

  /** The services map of compose: each service's translation under its
      stack-file name. */
  function ServicesBlob(services: seq<Service>, networkMap: NetworkMap): Result<map<string, C.Service>, C.ComposeError> {
    Collect(ServiceEntries(services, networkMap))
  }

  /** The services map fails exactly when some service fails to translate. */
  lemma ServicesBlobSucceeds(services: seq<Service>, networkMap: NetworkMap)
    ensures ServicesBlob(services, networkMap).Success? <==>
              forall i :: 0 <= i < |services| ==> TranslateService(services[i], networkMap).Success?
  {
    var entries := ServiceEntries(services, networkMap);
    CollectSucceeds(entries);
    EntriesTranslate(services, networkMap);
  }

  /** A failing services map carries the error of the first service that
      fails to translate. */
  lemma ServicesBlobFirstError(services: seq<Service>, networkMap: NetworkMap)
    requires ServicesBlob(services, networkMap).Failure?
    ensures exists i :: 0 <= i < |services| &&
              TranslateService(services[i], networkMap) == Failure(ServicesBlob(services, networkMap).error) &&
              forall j :: 0 <= j < i ==> TranslateService(services[j], networkMap).Success?
  {
    var entries := ServiceEntries(services, networkMap);
    CollectFirstError(entries);
    var i :| 0 <= i < |entries| && entries[i].1 == Failure(Collect(entries).error) &&
             forall j :: 0 <= j < i ==> entries[j].1.Success?;
    assert forall j :: 0 <= j < i ==> entries[j].1 == TranslateService(services[j], networkMap);
  }

  /** A successful services map is keyed by the stack-file names of the services. */
  lemma ServicesBlobKeys(services: seq<Service>, networkMap: NetworkMap)
    requires ServicesBlob(services, networkMap).Success?
    ensures ServicesBlob(services, networkMap).value.Keys == set i | 0 <= i < |services| :: GetServiceName(services[i])
  {
    var entries := ServiceEntries(services, networkMap);
    CollectKeys(entries);
    EntriesTranslate(services, networkMap);
  }

  /** Under each name the services map holds the translation of the last
      service bearing that name. */
  lemma ServicesBlobLastWins(services: seq<Service>, networkMap: NetworkMap, i: nat)
    requires ServicesBlob(services, networkMap).Success?
    requires i < |services|
    requires forall j :: i < j < |services| ==> GetServiceName(services[j]) != GetServiceName(services[i])
    ensures GetServiceName(services[i]) in ServicesBlob(services, networkMap).value
    ensures TranslateService(services[i], networkMap).Success?
    ensures ServicesBlob(services, networkMap).value[GetServiceName(services[i])] == TranslateService(services[i], networkMap).value
  {
    CollectLastWins(ServiceEntries(services, networkMap), i);
  }

  /** The network names a translated service lists. */
  function NetworkList(service: C.Service): seq<string> {
    if service.networks.Some? then service.networks.value else []
  }

  /** The sources of the volume-type mounts among `mounts`. */
  function MountedVolumes(mounts: seq<C.Mount>): set<string> {
    set i | 0 <= i < |mounts| && mounts[i].kind == "volume" :: mounts[i].source
  }

  /** The sources of a translated service's volume-type mounts. */
  function VolumeSources(service: C.Service): set<string> {
    if service.volumes.None? then {} else MountedVolumes(service.volumes.value)
  }

  /** The network names listed by the services under `names`. */
  function ReferencedNetworks(blob: map<string, C.Service>, names: set<string>): set<string> {
    set name, n | name in names && name in blob && n in NetworkList(blob[name]) :: n
  }

  /** The volume names mounted by the services under `names`. */
  function ReferencedVolumes(blob: map<string, C.Service>, names: set<string>): set<string> {
    set name, v | name in names && name in blob && v in VolumeSources(blob[name]) :: v
  }

  /** The stack-file entry for a volume: `external: true` when it has labels
      but no truthy namespace label (it was not created by a stack), otherwise
      its driver. */
  function StackVolumeOf(volume: Volume): C.StackVolume {
    if volume.Labels.Some? && !HasTruthyNamespace(volume.Labels) then C.StackVolume(None, Some(true))
    else C.StackVolume(Some(volume.Driver), None)
  }

  /** A translated service lists only names of networks of the table, so the
      stack network view always has an entry for them. */
  lemma TranslatedNetworksAreNamed(service: Service, networkMap: NetworkMap)
    requires TranslateService(service, networkMap).Success?
    ensures forall n :: n in NetworkList(TranslateService(service, networkMap).value) ==> n in NetworkNames(networkMap)
  {
    NetworksFieldKeepsOnlyLast(service, networkMap);
    var targets := TruthyTargets(AttachmentsOf(service));
    if |targets| != 0 {
      var id := targets[|targets| - 1];
      assert GetNetworkName(networkMap[id]) in NetworkNames(networkMap);
    }
  }

  /** Every network name any translated service lists is the name of a network
      of the table: the "undefined network in StackNetworkMap" error of
      compose can never be raised. */
  lemma ReferencedNetworksAreNamed(services: seq<Service>, networkMap: NetworkMap)
    requires ServicesBlob(services, networkMap).Success?
    ensures forall name, n ::
              (name in ServicesBlob(services, networkMap).value &&
               n in NetworkList(ServicesBlob(services, networkMap).value[name])) ==>
              n in NetworkNames(networkMap)
  {
    var entries := ServiceEntries(services, networkMap);
    var blob := Collect(entries).value;
    CollectValuesFromEntries(entries);
    forall name | name in blob
      ensures forall n :: n in NetworkList(blob[name]) ==> n in NetworkNames(networkMap)
    {
      var i :| 0 <= i < |entries| && entries[i] == (name, Success(blob[name]));
      TranslatedNetworksAreNamed(services[i], networkMap);
    }
  }

  /** `file` is the stack file assembled from the services map `blob`: version
      3.3, the services map itself, and networks and volumes sections that
      hold exactly the referenced networks and volumes and are omitted when empty. */
  ghost predicate AssembledFrom(file: C.StackFile, blob: map<string, C.Service>, networkMap: NetworkMap, volumeMap: VolumeMap) {
    && file.version == StackFileVersion
    && file.services == blob
    && (file.networks.None? <==> ReferencedNetworks(blob, blob.Keys) == {})
    && (file.networks.Some? ==>
          file.networks.value.Keys == ReferencedNetworks(blob, blob.Keys) &&
          DescribesNetworks(file.networks.value, networkMap))
    && (file.volumes.None? <==> ReferencedVolumes(blob, blob.Keys) == {})
    && (file.volumes.Some? ==>
          file.volumes.value.Keys == ReferencedVolumes(blob, blob.Keys) &&
          forall v :: v in file.volumes.value ==> v in volumeMap && file.volumes.value[v] == StackVolumeOf(volumeMap[v]))
  }

  lemma ReferencedNetworksStep(blob: map<string, C.Service>, done: set<string>, name: string)
    requires name in blob
    ensures ReferencedNetworks(blob, done + {name}) == ReferencedNetworks(blob, done) + set n | n in NetworkList(blob[name])
  {
  }

  lemma ReferencedVolumesStep(blob: map<string, C.Service>, done: set<string>, name: string)
    requires name in blob
    ensures ReferencedVolumes(blob, done + {name}) == ReferencedVolumes(blob, done) + VolumeSources(blob[name])
  {
  }

  /** The loop of compose that translates every service in turn. */
  method ParseServices(services: seq<Service>, networkMap: NetworkMap) returns (r: Result<map<string, C.Service>, C.ComposeError>)
    ensures r == ServicesBlob(services, networkMap)
  {
    ghost var entries := ServiceEntries(services, networkMap);
    var servicesBlob: map<string, C.Service> := map[];
    for k := 0 to |services|
      invariant Collect(entries[..k]) == Success(servicesBlob)
    {
      assert entries[..k + 1][..k] == entries[..k];
      var composeService := ParseService(services[k], networkMap);
      if composeService.Failure? {
        CollectFailurePersists(entries, k + 1);
        return Failure(composeService.error);
      }
      servicesBlob := servicesBlob[GetServiceName(services[k]) := composeService.value];
    }
    assert entries[..|services|] == entries;
    return Success(servicesBlob);
  }

  /** Adds the stack-network entry of each name of `networkNames` to `networksBlob`. */
  method AddNetworks(networkNames: seq<string>, stackNetworkMap: map<string, C.StackNetwork>, networksBlob: map<string, C.StackNetwork>)
    returns (result: map<string, C.StackNetwork>)
    requires forall n :: n in networkNames ==> n in stackNetworkMap
    ensures result.Keys == networksBlob.Keys + set n | n in networkNames
    ensures forall n :: n in result ==>
              result[n] == if n in networkNames then stackNetworkMap[n] else networksBlob[n]
  {
    result := networksBlob;
    for j := 0 to |networkNames|
      invariant result.Keys == networksBlob.Keys + set n | n in networkNames[..j]
      invariant forall n :: n in result ==>
                  result[n] == if n in networkNames[..j] then stackNetworkMap[n] else networksBlob[n]
    {
      var networkName := networkNames[j];
      assert networkNames[..j + 1] == networkNames[..j] + [networkName];
      result := result[networkName := stackNetworkMap[networkName]];
    }
    assert networkNames[..|networkNames|] == networkNames;
  }

  /** Adds the stack-volume entry of each volume-type mount of `mounts` to
      `volumesBlob`, failing on the first one whose volume is not in the table. */
  method AddVolumes(mounts: seq<C.Mount>, volumeMap: VolumeMap, volumesBlob: map<string, C.StackVolume>)
    returns (r: Result<map<string, C.StackVolume>, C.ComposeError>)
    ensures r.Failure? <==> !(MountedVolumes(mounts) <= volumeMap.Keys)
    ensures r.Failure? ==>
              r.error.DanglingVolumeReference? && r.error.volumeName in MountedVolumes(mounts) &&
              r.error.volumeName !in volumeMap
    ensures r.Success? ==> r.value.Keys == volumesBlob.Keys + MountedVolumes(mounts)
    ensures r.Success? ==>
              forall v :: v in r.value ==>
                r.value[v] == if v in MountedVolumes(mounts) then StackVolumeOf(volumeMap[v]) else volumesBlob[v]
  {
    var result := volumesBlob;
    for j := 0 to |mounts|
      invariant MountedVolumes(mounts[..j]) <= volumeMap.Keys
      invariant result.Keys == volumesBlob.Keys + MountedVolumes(mounts[..j])
      invariant forall v :: v in result ==>
                  result[v] == if v in MountedVolumes(mounts[..j]) then StackVolumeOf(volumeMap[v]) else volumesBlob[v]
    {
      var mount := mounts[j];
      assert MountedVolumes(mounts[..j + 1]) ==
             MountedVolumes(mounts[..j]) + (if mount.kind == "volume" then {mount.source} else {});
      if mount.kind == "volume" {
        if mount.source !in volumeMap {
          assert mount.source in MountedVolumes(mounts);
          return Failure(C.DanglingVolumeReference(mount.source));
        }
        var volume := volumeMap[mount.source];
        if volume.Labels.Some? && !(NamespaceKey in volume.Labels.value && volume.Labels.value[NamespaceKey] != "") {
          result := result[mount.source := C.StackVolume(None, Some(true))];
        } else {
          result := result[mount.source := C.StackVolume(Some(volume.Driver), None)];
        }
      }
    }
    assert mounts[..|mounts|] == mounts;
    return Success(result);
  }

  /** The loop of compose that gathers, service by service, the networks and
      volumes the services reference. */
  method CollectReferences(servicesBlob: map<string, C.Service>, stackNetworkMap: map<string, C.StackNetwork>, volumeMap: VolumeMap)
    returns (r: Result<(map<string, C.StackNetwork>, map<string, C.StackVolume>), C.ComposeError>)
    requires forall name, n :: (name in servicesBlob && n in NetworkList(servicesBlob[name])) ==> n in stackNetworkMap
    ensures r.Failure? <==> !(ReferencedVolumes(servicesBlob, servicesBlob.Keys) <= volumeMap.Keys)
    ensures r.Failure? ==>
              r.error.DanglingVolumeReference? && r.error.volumeName in ReferencedVolumes(servicesBlob, servicesBlob.Keys) &&
              r.error.volumeName !in volumeMap
    ensures r.Success? ==>
              && r.value.0.Keys == ReferencedNetworks(servicesBlob, servicesBlob.Keys)
              && (forall n :: n in r.value.0 ==> r.value.0[n] == stackNetworkMap[n])
              && r.value.1.Keys == ReferencedVolumes(servicesBlob, servicesBlob.Keys)
              && (forall v :: v in r.value.1 ==> v in volumeMap && r.value.1[v] == StackVolumeOf(volumeMap[v]))
  {
    var networksBlob: map<string, C.StackNetwork> := map[];
    var volumesBlob: map<string, C.StackVolume> := map[];
    var remaining := servicesBlob.Keys;
    while remaining != {}
      invariant remaining <= servicesBlob.Keys
      invariant networksBlob.Keys == ReferencedNetworks(servicesBlob, servicesBlob.Keys - remaining)
      invariant forall n :: n in networksBlob ==> networksBlob[n] == stackNetworkMap[n]
      invariant volumesBlob.Keys == ReferencedVolumes(servicesBlob, servicesBlob.Keys - remaining)
      invariant forall v :: v in volumesBlob ==> v in volumeMap && volumesBlob[v] == StackVolumeOf(volumeMap[v])
      invariant ReferencedVolumes(servicesBlob, servicesBlob.Keys - remaining) <= volumeMap.Keys
      decreases remaining
    {
      var serviceName :| serviceName in remaining;
      var composeService := servicesBlob[serviceName];
      ghost var done := servicesBlob.Keys - remaining;
      assert servicesBlob.Keys - (remaining - {serviceName}) == done + {serviceName};
      ReferencedNetworksStep(servicesBlob, done, serviceName);
      ReferencedVolumesStep(servicesBlob, done, serviceName);
      ReferencedVolumesMonotone(servicesBlob, servicesBlob.Keys, serviceName);

      if composeService.networks.Some? {
        networksBlob := AddNetworks(composeService.networks.value, stackNetworkMap, networksBlob);
      }
      if composeService.volumes.Some? {
        var added := AddVolumes(composeService.volumes.value, volumeMap, volumesBlob);
        if added.Failure? {
          return Failure(added.error);
        }
        volumesBlob := added.value;
      }
      remaining := remaining - {serviceName};
    }
    assert servicesBlob.Keys - remaining == servicesBlob.Keys;
    return Success((networksBlob, volumesBlob));
  }

  lemma ReferencedVolumesMonotone(blob: map<string, C.Service>, names: set<string>, name: string)
    requires name in names && name in blob
    ensures VolumeSources(blob[name]) <= ReferencedVolumes(blob, names)
  {
  }

  /** compose: fails when a network has no driver, when a service references
      a missing network, or when a volume-type mount names a volume missing
      from the volume table; otherwise returns the assembled stack file. */
  method Compose(services: seq<Service>, networkMap: NetworkMap, volumeMap: VolumeMap) returns (r: Result<C.StackFile, C.ComposeError>)
    ensures DriverMissing(networkMap) ==>
              r.Failure? && r.error.NetworkWithoutDriver? && r.error.networkId in networkMap &&
              networkMap[r.error.networkId].Driver == ""
    ensures !DriverMissing(networkMap) && ServicesBlob(services, networkMap).Failure? ==>
              r == Failure(ServicesBlob(services, networkMap).error)
    ensures !DriverMissing(networkMap) && ServicesBlob(services, networkMap).Success? ==>
              var blob := ServicesBlob(services, networkMap).value;
              var volumes := ReferencedVolumes(blob, blob.Keys);
              && (!(volumes <= volumeMap.Keys) ==>
                    r.Failure? && r.error.DanglingVolumeReference? &&
                    r.error.volumeName in volumes && r.error.volumeName !in volumeMap)
              && (volumes <= volumeMap.Keys ==> r.Success? && AssembledFrom(r.value, blob, networkMap, volumeMap))
  {
    var stackNetworkMap :- CreateStackNetworkMap(networkMap);
    var servicesBlob :- ParseServices(services, networkMap);
    ReferencedNetworksAreNamed(services, networkMap);
    var referenced :- CollectReferences(servicesBlob, stackNetworkMap, volumeMap);
    var (networksBlob, volumesBlob) := referenced;

    var stackFile := C.StackFile(StackFileVersion, servicesBlob, None, None);
    if |networksBlob| != 0 {
      stackFile := stackFile.(networks := Some(networksBlob));
    }
    if |volumesBlob| != 0 {
      stackFile := stackFile.(volumes := Some(volumesBlob));
    }
    AssembledFromReferences(stackFile, servicesBlob, networksBlob, volumesBlob, stackNetworkMap, networkMap, volumeMap);
    return Success(stackFile);
  }

  /** The stack file compose builds from the collected sections is the one
      AssembledFrom describes: an empty section is omitted, and every network
      entry was copied from a view that describes the stack's networks. */
  lemma AssembledFromReferences(file: C.StackFile, blob: map<string, C.Service>,
                                networksBlob: map<string, C.StackNetwork>, volumesBlob: map<string, C.StackVolume>,
                                stackNetworkMap: map<string, C.StackNetwork>, networkMap: NetworkMap, volumeMap: VolumeMap)
    requires file.version == StackFileVersion && file.services == blob
    requires file.networks == (if |networksBlob| == 0 then None else Some(networksBlob))
    requires file.volumes == (if |volumesBlob| == 0 then None else Some(volumesBlob))
    requires networksBlob.Keys == ReferencedNetworks(blob, blob.Keys)
    requires forall n :: n in networksBlob ==> n in stackNetworkMap && networksBlob[n] == stackNetworkMap[n]
    requires DescribesNetworks(stackNetworkMap, networkMap)
    requires volumesBlob.Keys == ReferencedVolumes(blob, blob.Keys)
    requires forall v :: v in volumesBlob ==> v in volumeMap && volumesBlob[v] == StackVolumeOf(volumeMap[v])
    ensures AssembledFrom(file, blob, networkMap, volumeMap)
  {
    assert DescribesNetworks(networksBlob, networkMap) by {
      forall name | name in networksBlob
        ensures exists id :: id in networkMap && GetNetworkName(networkMap[id]) == name && networksBlob[name] == StackNetworkOf(networkMap[id])
      {
        assert name in stackNetworkMap;
      }
    }
    assert |networksBlob| == 0 <==> ReferencedNetworks(blob, blob.Keys) == {};
    assert |volumesBlob| == 0 <==> ReferencedVolumes(blob, blob.Keys) == {};
  }
}
