/** The records of the generated stack file (lib/composeModels.ts), and the
    errors the translation reports instead of throwing. */
module ComposeModels {
  import opened Wrappers
  import DockerModels

  type LabelMap = DockerModels.LabelMap

  datatype Port = Port(published: int, target: int, protocol: string, mode: string)

  /** `kind` is the stack file's `type` key (a reserved word in Dafny). */
  datatype Mount = Mount(kind: string, source: string, target: string)

  datatype DeployMode = Replicated | Global

  datatype Placement = Placement(constraints: seq<string>)

  /** The `deploy` block.  Every field is optional: the source builds it key by
      key in an untyped object. */
  datatype Deploy = Deploy(
    mode: Option<DeployMode>,
    replicas: Option<nat>,
    labels: Option<LabelMap>,
    placement: Option<Placement>)

  datatype Service = Service(
    image: string,
    environment: Option<seq<string>>,
    labels: Option<LabelMap>,
    ports: Option<seq<Port>>,
    networks: Option<seq<string>>,
    volumes: Option<seq<Mount>>,
    deploy: Option<Deploy>,
    configs: Option<seq<string>>)

  datatype StackNetwork = StackNetwork(driver: Option<string>, external: Option<bool>)

  datatype StackVolume = StackVolume(driver: Option<string>, external: Option<bool>)

  datatype StackFile = StackFile(
    version: string,
    services: map<string, Service>,
    networks: Option<map<string, StackNetwork>>,
    volumes: Option<map<string, StackVolume>>)

  /** What the translation throws, with the identifier it reports. */
  datatype ComposeError =
    | DanglingNetworkReference(networkId: string)
    | NetworkWithoutDriver(networkId: string)
    | DanglingVolumeReference(volumeName: string)
}
