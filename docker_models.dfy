/** The orchestrator's descriptors as the translation reads them: only the
    fields that lib/index.ts accesses.  Field names follow the Docker Engine
    API's JSON.  A JSON field that may be missing is an `Option`; a string
    field whose absence parseNetworks and createStackNetworkMap only test for
    truthiness (a network's `Driver`, an attachment's `Target`) is a string
    whose absence is "" (getNetworkIds, which copies the target, then yields
    "" where the source yields undefined). */
module DockerModels {
  import opened Wrappers

  type LabelMap = map<string, string>

  datatype EndpointPort = EndpointPort(
    PublishedPort: int,
    TargetPort: int,
    Protocol: string,
    PublishMode: string)

  datatype EndpointSpec = EndpointSpec(Ports: Option<seq<EndpointPort>>)

  datatype VolumeOptions = VolumeOptions(Labels: Option<LabelMap>)

  datatype Mount = Mount(
    Type: string,
    Source: string,
    Target: string,
    VolumeOptions: Option<VolumeOptions>)

  datatype ContainerSpec = ContainerSpec(
    Image: string,
    Env: Option<seq<string>>,
    Labels: Option<LabelMap>,
    Mounts: Option<seq<Mount>>)

  datatype NetworkAttachment = NetworkAttachment(Target: string)

  datatype Placement = Placement(Constraints: Option<seq<string>>)

  datatype TaskTemplate = TaskTemplate(
    ContainerSpec: ContainerSpec,
    Networks: Option<seq<NetworkAttachment>>,
    Placement: Option<Placement>)

  datatype ReplicatedMode = ReplicatedMode(Replicas: nat)

  /** `Mode.Replicated` is an object when present; `Mode.Global` is the empty
      object `{}` when present, so only its presence is recorded. */
  datatype ServiceMode = ServiceMode(Replicated: Option<ReplicatedMode>, Global: bool)

  datatype ServiceSpec = ServiceSpec(
    Name: string,
    Labels: Option<LabelMap>,
    TaskTemplate: TaskTemplate,
    Mode: Option<ServiceMode>,
    EndpointSpec: Option<EndpointSpec>)

  datatype Service = Service(Spec: ServiceSpec)

  datatype Network = Network(Id: string, Name: string, Driver: string, Labels: Option<LabelMap>)

  /** A volume descriptor.  Its `Name` is the one field the translation
      rewrites in place (createVolumeMap); the others are never written. */
  class Volume {
    var Name: string
    const Driver: string
    const Labels: Option<LabelMap>

    constructor (name: string, driver: string, labels: Option<LabelMap>)
      ensures Name == name && Driver == driver && Labels == labels
    {
      Name := name;
      Driver := driver;
      Labels := labels;
    }
  }

  /** Network id -> network descriptor (NetworkMap). */
  type NetworkMap = map<string, Network>

  /** Volume name -> volume descriptor (VolumeMap). */
  type VolumeMap = map<string, Volume>
}
