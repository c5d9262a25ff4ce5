/** ServiceTranslator: one orchestrator service descriptor to one stack-file
    service record (lib/index.ts parsePorts, parseMounts, parseService). */
module Translator {
  import opened Wrappers
  import opened DockerModels
  import opened Names
  import opened Labels
  import opened Resolver
  import C = ComposeModels

  // ------------------------------------------------------------------ image

  /** `image.split('@')[0]`: the image reference up to its first '@', i.e.
      without the digest pin. */
  function ImageName(image: string): (r: string)
    ensures '@' !in r
    ensures |r| <= |image| && r == image[..|r|]
    ensures '@' !in image ==> r == image
    ensures '@' in image ==> |r| < |image| && image[|r|] == '@'
  {
    if |image| == 0 || image[0] == '@' then "" else [image[0]] + ImageName(image[1..])
  }

  /** A digest-pinned reference `<tag>@<digest>` keeps exactly its tag. */
  lemma ImageNameDropsDigest(tag: string, digest: string)
    requires '@' !in tag
    ensures ImageName(tag + "@" + digest) == tag
  {
    var image := tag + "@" + digest;
    var r := ImageName(image);
    assert image[|tag|] == '@';
    assert forall i :: 0 <= i < |tag| ==> image[i] == tag[i];
    assert tag == image[..|tag|];
  }

  // ------------------------------------------------------------------ ports

  function DeclaredPorts(spec: ServiceSpec): seq<EndpointPort> {
    if spec.EndpointSpec.Some? && spec.EndpointSpec.value.Ports.Some? then spec.EndpointSpec.value.Ports.value else []
  }

  function PortOf(port: EndpointPort): C.Port {
    C.Port(port.PublishedPort, port.TargetPort, port.Protocol, port.PublishMode)
  }

  /** The endpoint's ports, each copied field by field, in order. */
  function PortsOf(spec: ServiceSpec): seq<C.Port> {
    var ports := DeclaredPorts(spec);
    seq(|ports|, i requires 0 <= i < |ports| => PortOf(ports[i]))
  }

  /** parsePorts. */
  method ParsePorts(service: Service) returns (result: seq<C.Port>)
    ensures result == PortsOf(service.Spec)
  {
    result := [];
    if service.Spec.EndpointSpec.Some? && service.Spec.EndpointSpec.value.Ports.Some? {
      var ports := service.Spec.EndpointSpec.value.Ports.value;
      for k := 0 to |ports|
        invariant result == seq(k, i requires 0 <= i < k => PortOf(ports[i]))
      {
        result := result + [PortOf(ports[k])];
      }
    }
  }

  // ----------------------------------------------------------------- mounts

  function DeclaredMounts(spec: ServiceSpec): seq<Mount> {
    if spec.TaskTemplate.ContainerSpec.Mounts.Some? then spec.TaskTemplate.ContainerSpec.Mounts.value else []
  }

  function VolumeLabels(mount: Mount): Option<LabelMap> {
    if mount.VolumeOptions.Some? then mount.VolumeOptions.value.Labels else None
  }

  /** The prefix parseMounts removes: `<stack>_` when the mount's volume
      options carry a truthy namespace label, else the empty pattern. */
  function MountPrefix(mount: Mount): string {
    if HasTruthyNamespace(VolumeLabels(mount)) then StackPrefix(VolumeLabels(mount)) else ""
  }

  function MountOf(mount: Mount): C.Mount {
    C.Mount(mount.Type, ReplaceFirst(mount.Source, MountPrefix(mount)), mount.Target)
  }

  /** A mount's source is renamed by the same rule createVolumeMap applies to
      volume names, so a volume mount finds its volume under the normalized
      name; the rule is applied whatever the mount's type. */
  lemma MountSourceNormalization(mount: Mount)
    ensures MountOf(mount).kind == mount.Type && MountOf(mount).target == mount.Target
    ensures MountOf(mount).source == StripTruthyNamespace(mount.Source, VolumeLabels(mount))
  {
    if !HasTruthyNamespace(VolumeLabels(mount)) {
      ReplaceFirstEmptyPattern(mount.Source);
    }
  }

  function MountsOf(spec: ServiceSpec): seq<C.Mount> {
    var mounts := DeclaredMounts(spec);
    seq(|mounts|, i requires 0 <= i < |mounts| => MountOf(mounts[i]))
  }

  /** One compose mount per declared mount, in order, each keeping its type
      and target and with its source renamed as createVolumeMap renames volumes. */
  lemma MountsOfMeaning(spec: ServiceSpec)
    ensures |MountsOf(spec)| == |DeclaredMounts(spec)|
    ensures forall i :: 0 <= i < |MountsOf(spec)| ==>
              var m, d := MountsOf(spec)[i], DeclaredMounts(spec)[i];
              m.kind == d.Type && m.target == d.Target && m.source == StripTruthyNamespace(d.Source, VolumeLabels(d))
  {
    forall i | 0 <= i < |DeclaredMounts(spec)| {
      MountSourceNormalization(DeclaredMounts(spec)[i]);
    }
  }

  /** parseMounts. */
  method ParseMounts(service: Service) returns (mounts: seq<C.Mount>)
    ensures mounts == MountsOf(service.Spec)
  {
    mounts := [];
    if service.Spec.TaskTemplate.ContainerSpec.Mounts.Some? {
      var dockerMounts := service.Spec.TaskTemplate.ContainerSpec.Mounts.value;
      for k := 0 to |dockerMounts|
        invariant mounts == seq(k, i requires 0 <= i < k => MountOf(dockerMounts[i]))
      {
        var dockerMount := dockerMounts[k];
        var stackPrefix := "";
        if dockerMount.VolumeOptions.Some? && dockerMount.VolumeOptions.value.Labels.Some? {
          var labels := dockerMount.VolumeOptions.value.Labels.value;
          if NamespaceKey in labels && labels[NamespaceKey] != "" {
            stackPrefix := labels[NamespaceKey] + "_";
          }
        }
        mounts := mounts + [C.Mount(dockerMount.Type, ReplaceFirst(dockerMount.Source, stackPrefix), dockerMount.Target)];
      }
    }
  }

  // ----------------------------------------------------------------- deploy

  predicate IsReplicated(spec: ServiceSpec) {
    spec.Mode.Some? && spec.Mode.value.Replicated.Some?
  }

  predicate IsGlobal(spec: ServiceSpec) {
    spec.Mode.Some? && spec.Mode.value.Global
  }

  function DeclaredConstraints(spec: ServiceSpec): seq<string> {
    var placement := spec.TaskTemplate.Placement;
    if placement.Some? && placement.value.Constraints.Some? then placement.value.Constraints.value else []
  }

  function NonEmptySeq<T>(s: seq<T>): Option<seq<T>> {
    if |s| == 0 then None else Some(s)
  }

  function NonEmptyMap(m: LabelMap): Option<LabelMap> {
    if |m| == 0 then None else Some(m)
  }

  /** The number of keys the untyped deploy object has (`Object.keys(deployBlob).length`). */
  function DeployKeyCount(deploy: C.Deploy): nat {
    (if deploy.mode.Some? then 1 else 0) + (if deploy.replicas.Some? then 1 else 0) +
    (if deploy.labels.Some? then 1 else 0) + (if deploy.placement.Some? then 1 else 0)
  }

  function DeployOf(spec: ServiceSpec): Option<C.Deploy> {
    var labels := FilteredLabels(spec.Labels);
    var constraints := DeclaredConstraints(spec);
    var deploy := C.Deploy(
      if IsGlobal(spec) then Some(C.Global) else if IsReplicated(spec) then Some(C.Replicated) else None,
      if IsReplicated(spec) then Some(spec.Mode.value.Replicated.value.Replicas) else None,
      NonEmptyMap(labels),
      if |constraints| == 0 then None else Some(C.Placement(constraints)));
    if DeployKeyCount(deploy) == 0 then None else Some(deploy)
  }

  /** The deploy block: present exactly when the service has a mode, non-empty
      filtered service labels or placement constraints; replicated mode gives
      mode "replicated" with the replica count, global mode gives mode
      "global" (overriding replicated; a replica count set by replicated mode
      stays); the filtered service labels and the constraints appear only when
      non-empty. */
  lemma DeployOfMeaning(spec: ServiceSpec)
    ensures DeployOf(spec).Some? <==>
              IsReplicated(spec) || IsGlobal(spec) || |FilteredLabels(spec.Labels)| != 0 || |DeclaredConstraints(spec)| != 0
    ensures IsReplicated(spec) && !IsGlobal(spec) ==>
              DeployOf(spec).Some? && DeployOf(spec).value.mode == Some(C.Replicated) &&
              DeployOf(spec).value.replicas == Some(spec.Mode.value.Replicated.value.Replicas)
    ensures IsGlobal(spec) ==> DeployOf(spec).Some? && DeployOf(spec).value.mode == Some(C.Global)
    ensures IsReplicated(spec) ==>
              DeployOf(spec).Some? && DeployOf(spec).value.replicas == Some(spec.Mode.value.Replicated.value.Replicas)
    ensures DeployOf(spec).Some? && !IsReplicated(spec) ==> DeployOf(spec).value.replicas.None?
    ensures DeployOf(spec).Some? && !IsReplicated(spec) && !IsGlobal(spec) ==> DeployOf(spec).value.mode.None?
    ensures DeployOf(spec).Some? ==> DeployOf(spec).value.labels == NonEmptyMap(FilteredLabels(spec.Labels))
    ensures DeployOf(spec).Some? ==>
              DeployOf(spec).value.placement ==
                if |DeclaredConstraints(spec)| == 0 then None else Some(C.Placement(DeclaredConstraints(spec)))
  {
  }

  // ------------------------------------------------------------- the record

  /** The networks field as the source builds it: the list is reset on every
      iteration, so only the last resolved network's name survives. */
  function LastNetworkOnly(networks: seq<Network>): Option<seq<string>> {
    if |networks| == 0 then None else Some([GetNetworkName(networks[|networks| - 1])])
  }

  /** The networks field as intended: every resolved network's name, in order. */
  function AllNetworkNames(networks: seq<Network>): Option<seq<string>> {
    if |networks| == 0 then None
    else Some(seq(|networks|, i requires 0 <= i < |networks| => GetNetworkName(networks[i])))
  }

  /** The service record given its networks field. */
  function ServiceRecord(spec: ServiceSpec, networks: Option<seq<string>>): C.Service {
    var container := spec.TaskTemplate.ContainerSpec;
    C.Service(
      image := ImageName(container.Image),
      environment := container.Env,
      labels := NonEmptyMap(FilteredLabels(container.Labels)),
      ports := NonEmptySeq(PortsOf(spec)),
      networks := networks,
      volumes := NonEmptySeq(MountsOf(spec)),
      deploy := DeployOf(spec),
      configs := None)
  }

  /** parseService, as written. */
  function TranslateService(service: Service, networkMap: NetworkMap): Result<C.Service, C.ComposeError> {
    var networks :- ResolveNetworks(AttachmentsOf(service), networkMap);
    Success(ServiceRecord(service.Spec, LastNetworkOnly(networks)))
  }

  /** parseService with the networks loop appending instead of resetting. */
  function TranslateServiceCorrected(service: Service, networkMap: NetworkMap): Result<C.Service, C.ComposeError> {
    var networks :- ResolveNetworks(AttachmentsOf(service), networkMap);
    Success(ServiceRecord(service.Spec, AllNetworkNames(networks)))
  }

  /** parseService: fails exactly when a truthy network target is missing from
      the table; otherwise the image loses its digest, ports, mounts and
      container labels appear only when non-empty, the environment whenever
      `Env` is present (even empty), and the deploy block is DeployOf. */
  lemma TranslateServiceMeaning(service: Service, networkMap: NetworkMap)
    ensures TranslateService(service, networkMap).Failure? <==>
              exists t :: t in TruthyTargets(AttachmentsOf(service)) && t !in networkMap
    ensures TranslateService(service, networkMap).Failure? ==>
              var e := TranslateService(service, networkMap).error;
              e.DanglingNetworkReference? && e.networkId in TruthyTargets(AttachmentsOf(service)) && e.networkId !in networkMap
    ensures TranslateService(service, networkMap).Success? ==>
              var s, spec := TranslateService(service, networkMap).value, service.Spec;
              && s.image == ImageName(spec.TaskTemplate.ContainerSpec.Image)
              && '@' !in s.image
              && (s.ports.Some? <==> |DeclaredPorts(spec)| != 0)
              && (s.ports.Some? ==> s.ports.value == PortsOf(spec))
              && (s.volumes.Some? <==> |DeclaredMounts(spec)| != 0)
              && (s.volumes.Some? ==> s.volumes.value == MountsOf(spec))
              && (s.labels.Some? <==> |FilteredLabels(spec.TaskTemplate.ContainerSpec.Labels)| != 0)
              && (s.labels.Some? ==> s.labels.value == FilteredLabels(spec.TaskTemplate.ContainerSpec.Labels))
              && s.environment == spec.TaskTemplate.ContainerSpec.Env
              && s.deploy == DeployOf(spec)
              && s.configs.None?
  {
    var attachments := AttachmentsOf(service);
    ResolveNetworksMeaning(attachments, networkMap);
    if ResolveNetworks(attachments, networkMap).Failure? {
      var targets := TruthyTargets(attachments);
      var i :| 0 <= i < |targets| && ResolveNetworks(attachments, networkMap).error == C.DanglingNetworkReference(targets[i]) &&
               targets[i] !in networkMap && forall j :: 0 <= j < i ==> targets[j] in networkMap;
      assert targets[i] in targets;
    }
  }

  /** The networks field as written: absent when no truthy target is attached,
      otherwise the ONE name of the network of the last truthy target. */
  lemma {:induction false} NetworksFieldKeepsOnlyLast(service: Service, networkMap: NetworkMap)
    requires TranslateService(service, networkMap).Success?
    ensures var targets, networks := TruthyTargets(AttachmentsOf(service)), TranslateService(service, networkMap).value.networks;
            && (networks.None? <==> |targets| == 0)
            && (networks.Some? ==>
                  targets[|targets| - 1] in networkMap &&
                  networks.value == [GetNetworkName(networkMap[targets[|targets| - 1]])])
  {
    ResolveNetworksMeaning(AttachmentsOf(service), networkMap);
  }

  /** The corrected networks field: one name per truthy target, in attachment order. */
  lemma {:induction false} CorrectedNetworksFieldKeepsAll(service: Service, networkMap: NetworkMap)
    requires TranslateServiceCorrected(service, networkMap).Success?
    ensures var targets, networks := TruthyTargets(AttachmentsOf(service)), TranslateServiceCorrected(service, networkMap).value.networks;
            && (networks.None? <==> |targets| == 0)
            && (networks.Some? ==>
                  |networks.value| == |targets| &&
                  forall i :: 0 <= i < |targets| ==>
                    targets[i] in networkMap && networks.value[i] == GetNetworkName(networkMap[targets[i]]))
  {
    ResolveNetworksMeaning(AttachmentsOf(service), networkMap);
  }

  /** A service attached to two known networks with different names keeps
      only the second one as written; the corrected translation keeps both. */
  lemma TwoAttachmentsLoseTheFirst(service: Service, networkMap: NetworkMap, first: string, second: string)
    requires AttachmentsOf(service) == [NetworkAttachment(first), NetworkAttachment(second)]
    requires first != "" && second != "" && first in networkMap && second in networkMap
    requires GetNetworkName(networkMap[first]) != GetNetworkName(networkMap[second])
    ensures TranslateService(service, networkMap).Success?
    ensures TranslateService(service, networkMap).value.networks == Some([GetNetworkName(networkMap[second])])
    ensures TranslateServiceCorrected(service, networkMap).Success?
    ensures TranslateServiceCorrected(service, networkMap).value.networks ==
              Some([GetNetworkName(networkMap[first]), GetNetworkName(networkMap[second])])
  {
    var attachments := AttachmentsOf(service);
    var tail := attachments[1..];
    assert tail == [NetworkAttachment(second)];
    assert tail[1..] == [];
    assert TruthyTargets(tail) == [second] + TruthyTargets(tail[1..]);
    assert TruthyTargets(attachments) == [first, second];
    ResolveNetworksMeaning(attachments, networkMap);
    var networks := ResolveNetworks(attachments, networkMap).value;
    assert networks == [networkMap[first], networkMap[second]];
    assert AllNetworkNames(networks).value == [GetNetworkName(networkMap[first]), GetNetworkName(networkMap[second])];
  }

  /** parseService, as the source builds the record field by field. */
  method ParseService(service: Service, networkMap: NetworkMap) returns (r: Result<C.Service, C.ComposeError>)
    ensures r == TranslateService(service, networkMap)
  {
    var spec := service.Spec;
    var container := spec.TaskTemplate.ContainerSpec;
    var result := C.Service(ImageName(container.Image), None, None, None, None, None, None, None);

    var ports := ParsePorts(service);
    if |ports| != 0 {
      result := result.(ports := Some(ports));
    }
    assert result == C.Service(ImageName(container.Image), None, None, NonEmptySeq(PortsOf(spec)), None, None, None, None);

    var networks :- ParseNetworks(service, networkMap);
    if |networks| != 0 {
      ghost var before := result;
      for k := 0 to |networks|
        invariant result.(networks := before.networks) == before
        invariant 0 < k ==> result.networks == Some([GetNetworkName(networks[k - 1])])
      {
        result := result.(networks := Some([]));
        assert result.networks.value + [GetNetworkName(networks[k])] == [GetNetworkName(networks[k])];
        result := result.(networks := Some(result.networks.value + [GetNetworkName(networks[k])]));
      }
    }
    assert result == C.Service(ImageName(container.Image), None, None, NonEmptySeq(PortsOf(spec)),
                               LastNetworkOnly(networks), None, None, None);

    var mounts := ParseMounts(service);
    if |mounts| != 0 {
      result := result.(volumes := Some(mounts));
    }

    var labelsContainer := StripDockerLabels(container.Labels);
    if |labelsContainer| != 0 {
      result := result.(labels := Some(labelsContainer));
    }
    assert result == ServiceRecord(spec, LastNetworkOnly(networks)).(deploy := None, environment := None);

    var deploy := BuildDeploy(spec);
    if deploy.Some? {
      result := result.(deploy := deploy);
    }
    assert result == ServiceRecord(spec, LastNetworkOnly(networks)).(environment := None);

    if container.Env.Some? {
      result := result.(environment := container.Env);
    }
    return Success(result);
  }

  /** The deploy section of parseService: the untyped deploy object is filled
      key by key (mode, replicas, service labels, placement) and attached when
      it has a key or when there are service labels or constraints. */
  method BuildDeploy(spec: ServiceSpec) returns (deploy: Option<C.Deploy>)
    ensures deploy == DeployOf(spec)
  {
    var deployBlob := C.Deploy(None, None, None, None);
    if spec.Mode.Some? && spec.Mode.value.Replicated.Some? {
      deployBlob := deployBlob.(mode := Some(C.Replicated), replicas := Some(spec.Mode.value.Replicated.value.Replicas));
    }
    if spec.Mode.Some? && spec.Mode.value.Global {
      deployBlob := deployBlob.(mode := Some(C.Global));
    }

    var labelsService := StripDockerLabels(spec.Labels);

    var constraints: seq<string> := [];
    if spec.TaskTemplate.Placement.Some? && spec.TaskTemplate.Placement.value.Constraints.Some? {
      constraints := spec.TaskTemplate.Placement.value.Constraints.value;
    }

    if |labelsService| != 0 {
      deployBlob := deployBlob.(labels := Some(labelsService));
    }
    if |constraints| != 0 {
      deployBlob := deployBlob.(placement := Some(C.Placement(constraints)));
    }

    deploy := None;
    if |labelsService| + |constraints| > 0 || DeployKeyCount(deployBlob) > 0 {
      deploy := Some(deployBlob);
    }
  }
}
