# docker-api-to-compose: a verified model of the translation engine

docker-api-to-compose rebuilds a Docker Compose stack file (format version
3.3) from what the Docker Engine API reports about a running swarm stack.
It takes the services, a table of networks by id and a table of volumes by
name. It undoes the renaming the stack deployer applied: the `<stack>_` name
prefix and the bookkeeping labels `com.docker.stack.namespace` and
`com.docker.stack.image`. It then assembles the services, networks and
volumes sections. This project models that engine, `lib/index.ts`, in Dafny
and proves what each step promises.

Modules, one per file:

- `Wrappers` (wrappers.dfy): `Option` and `Result` (a failure stands for
  each `throw`).
- `DockerModels` (docker_models.dfy): the API records the engine reads. A
  volume is a `class Volume`, because `createVolumeMap` renames it in place.
- `ComposeModels` (compose_models.dfy): the records of the stack file
  (`lib/composeModels.ts`), and `ComposeError`, one constructor per `throw`
  that can happen.
- `Names` (names.dfy): JavaScript's `String.replace` with a string pattern
  (`ReplaceFirst`), and the two name-normalisation rules. `getServiceName`
  and `getNetworkName` test only that the namespace key is present;
  `parseMounts` and `createVolumeMap` test that its value is non-empty.
- `Labels` (labels.dfy): `stripDockerLabels`.
- `Resolver` (resolver.dfy): `createNetworkMap`, `createVolumeMap`,
  `getNetworkIds`, `parseNetworks` and `createStackNetworkMap`.
- `Translator` (translator.dfy): `parsePorts`, `parseMounts` and
  `parseService`.
- `Assembler` (assembler.dfy): `compose`, which returns the stack-file value
  instead of its YAML text.

Style of the model:

- Loops the source runs are `method`s with loop invariants, proved equal to
  a specification function (`ParseService` to `TranslateService`,
  `ParseNetworks` to `ResolveNetworks`, `ParseServices` to `ServicesBlob`).
- Lemmas state what the specification functions mean.
- A JavaScript value that is absent or `undefined` is `None`. The absent
  `Driver` of a network and `Target` of an attachment are the empty string.
  Both are falsy, which is all that `parseNetworks` and
  `createStackNetworkMap` test; `getNetworkIds` copies the target as it is
  (see "## Left out").
- Loops over object keys pick keys in an arbitrary order (`:|`). Their
  contracts therefore do not depend on key order.

Behaviour of the code worth noting:

- `createStackNetworkMap` records a network's driver AND, for a network with
  labels but no truthy namespace label, `external: true` (lib/index.ts:133-139).
- `parseMounts` strips the stack prefix from the source of every mount,
  whatever its type (lib/index.ts:58-66).
- `createVolumeMap` never fails (lib/index.ts:334-346).
- A service in global mode whose `Mode` also carries `Replicated` keeps the
  replica count next to `mode: global` (lib/index.ts:203-210).

## Model

| member | source | states |
|---|---|---|
| Names.ReplaceFirstMeaning | lib/index.ts:23 | `String.replace` with a string pattern leaves the name unchanged when the pattern does not occur, and otherwise removes exactly the occurrence that starts at the smallest index |
| Names.ReplaceFirstLeading | lib/index.ts:23 | removing a pattern from the front of `pattern + rest` gives back `rest` |
| Names.ReplaceFirstLength | lib/index.ts:23 | when the pattern occurs, exactly as many characters as the pattern has are removed |
| Names.ReplaceFirstEmptyPattern | lib/index.ts:56-66 | the empty prefix that parseMounts uses when there is no truthy namespace label leaves the source unchanged |
| Names.IndexOfMeaning | lib/index.ts:23 | the search `replace` performs finds the first occurrence at or after the start position, or reports that there is none |
| Names.StripNamespaceMeaning | lib/index.ts:19-29 | the shared rule of the two name functions: unchanged without the namespace key or without an occurrence of `<stack>_`; otherwise exactly the prefix's length shorter; `<stack>_<rest>` becomes `<rest>` |
| Names.ServiceNameNormalization | lib/index.ts:19-29 | getServiceName: the service name without the namespace key is kept; with it, the first `<stack>_` is removed, so a deployed `<stack>_<name>` gives back `<name>` |
| Names.NetworkNameNormalization | lib/index.ts:75-86 | getNetworkName: the same rule on the network's name and labels |
| Names.StripsFirstOccurrenceAnywhere | lib/index.ts:23 | the prefix is removed where it first occurs, not only at the front: `web_app_db` in stack `app` becomes `web_db` |
| Names.EmptyNamespaceStripsUnderscore | lib/index.ts:19-29 | a present but empty namespace label still removes the first `_` from a service or network name (`my_web` becomes `myweb`), while the truthiness test of createVolumeMap leaves the name unchanged |
| Labels.FilteredLabelsMeaning | lib/index.ts:35-47 | the filtered labels hold no bookkeeping key, keep every other entry with its value, add nothing, and are empty when there are no labels |
| Labels.FilteredLabelsIdempotent | lib/index.ts:35-47 | filtering filtered labels changes nothing |
| Labels.StripDockerLabels | lib/index.ts:35-47 | the key-by-key copy loop yields exactly the filtered labels, whatever order the keys are visited in |
| Tables.TableKeys | lib/index.ts:352-360 | a table filled by assigning each key in turn holds exactly the keys assigned |
| Tables.TableLastWins | lib/index.ts:352-360 | a key assigned several times holds the value of its last assignment |
| Tables.TableValues | lib/index.ts:334-346 | every entry of such a table is a value assigned under that key |
| Resolver.CreateNetworkMap | lib/index.ts:352-360 | the table's keys are exactly the networks' ids, and each id maps to the last network in the list bearing it |
| Resolver.CreateVolumeMap | lib/index.ts:334-346 | every volume object is renamed in place by the truthy-namespace rule; the table's keys are exactly the new names; each entry is filed under its own name; the last volume bearing a name wins |
| Resolver.VolumeTableMeaning | lib/index.ts:334-346 | the table filed from the renamed volumes holds exactly their names, files each volume under its own name, and keeps the last volume bearing a name |
| Resolver.FileVolume | lib/index.ts:338-342 | one iteration: the volume is renamed in place by the truthy-namespace rule and filed under its new name, the rest of the table unchanged |
| Resolver.AllTargetsMembership | lib/index.ts:368-380 | an id is collected exactly when some service attaches to it |
| Resolver.GetNetworkIds | lib/index.ts:368-380 | the loop collects every attachment target of every service, in order with duplicates, and an id is in the result exactly when some service attaches to it |
| Resolver.TruthyTargets | lib/index.ts:99-101 | the targets parseNetworks looks up are non-empty, include every non-empty attachment target, and come only from the attachments |
| Resolver.ResolveNetworksSucceeds | lib/index.ts:99-107 | resolution succeeds exactly when every non-empty target is in the table |
| Resolver.ResolveNetworksValues | lib/index.ts:99-107 | on success, one table entry per non-empty target, in attachment order |
| Resolver.ResolveNetworksFirstMissing | lib/index.ts:99-107 | on failure, the error names the first non-empty target, in attachment order, that is missing from the table |
| Resolver.ResolveNetworksMeaning | lib/index.ts:94-112 | network resolution succeeds exactly when every non-empty target is in the table; it then returns one table entry per target, in attachment order; otherwise it fails naming the first missing target |
| Resolver.ParseNetworks | lib/index.ts:94-112 | the loop, with its early exit on a missing target, computes exactly that resolution |
| Resolver.CreateStackNetworkMap | lib/index.ts:120-143 | fails exactly when some network has no driver, naming such a network; otherwise its keys are exactly the stack-file names of the networks, and each entry is the driver plus `external: true` (when labelled but not stack-created) of some network bearing that name |
| Translator.ImageName | lib/index.ts:180 | the image reference up to its first `@`: a prefix of the image with no `@` in it, the whole image when it has no `@`, and followed by `@` otherwise |
| Translator.ImageNameDropsDigest | lib/index.ts:180 | `tag@digest` gives back `tag` |
| Translator.ParsePorts | lib/index.ts:145-161 | one compose port per declared endpoint port, in order, with the published port, target port, protocol and mode copied; none when the endpoint or its ports are absent |
| Translator.MountSourceNormalization | lib/index.ts:49-73 | a mount keeps its type and target, and its source is renamed by the same rule createVolumeMap applies to volume names |
| Translator.MountsOfMeaning | lib/index.ts:49-73 | one compose mount per declared mount, in order, each normalised as above |
| Translator.ParseMounts | lib/index.ts:49-73 | the loop computes exactly those mounts |
| Translator.DeployOfMeaning | lib/index.ts:200-246 | the deploy block is present exactly when the service has a mode, non-empty filtered service labels or placement constraints; replicated mode gives `replicated` with the replica count; global mode gives `global`, and a replica count set by replicated mode stays beside it; labels and placement appear only when non-empty |
| Translator.BuildDeploy | lib/index.ts:200-246 | the statements that build the untyped deploy object compute exactly that block |
| Translator.TranslateServiceMeaning | lib/index.ts:176-253 | parseService fails exactly when a non-empty network target is missing from the table, naming one such target; otherwise the image has lost its digest, ports (each endpoint port copied, in order), mounts and container labels appear only when non-empty, the environment whenever `Env` is present, and the deploy block as above |
| Translator.NetworksFieldKeepsOnlyLast | lib/index.ts:189-196 | as written, the networks field is absent without non-empty targets, and otherwise holds only the name of the network of the LAST target |
| Translator.TwoAttachmentsLoseTheFirst | lib/index.ts:189-196 | a service attached to two known networks with different names keeps only the second as written, while the corrected translation keeps both in order |
| Translator.CorrectedNetworksFieldKeepsAll | lib/index.ts:189-196 | with the list built once and appended to, the networks field holds one name per non-empty target, in attachment order |
| Translator.ParseService | lib/index.ts:176-253 | the source's field-by-field construction, including the loop that resets the networks list, computes exactly the as-written translation |
| Assembler.ServicesBlobSucceeds | lib/index.ts:265-270 | the services section can be built exactly when every service translates |
| Assembler.ServicesBlobFirstError | lib/index.ts:265-270 | a failure carries the error of the first service, in list order, that fails to translate |
| Assembler.ServicesBlobKeys | lib/index.ts:265-270 | the services section is keyed by exactly the services' stack-file names |
| Assembler.ServicesBlobLastWins | lib/index.ts:265-270 | under each name sits the translation of the last service bearing that name |
| Assembler.ParseServices | lib/index.ts:265-270 | the loop computes exactly that services section, stopping at the first failure |
| Assembler.TranslatedNetworksAreNamed | lib/index.ts:279-286 | every network name a translated service lists is the name of a network of the table |
| Assembler.ReferencedNetworksAreNamed | lib/index.ts:282-284 | the "undefined network in StackNetworkMap" error can never be raised: every listed network name has an entry in the stack network view |
| Assembler.AddNetworks | lib/index.ts:279-288 | one service's listed networks are added with their stack-network entries, and other entries are kept |
| Assembler.AddVolumes | lib/index.ts:290-310 | one service's volume-type mounts are added with `external: true` for a labelled volume without a truthy namespace label and the volume's driver otherwise; it fails exactly when one of them names a volume missing from the table |
| Assembler.CollectReferences | lib/index.ts:276-312 | the networks section holds exactly the referenced network names with their view entries, and the volumes section exactly the referenced volume names with their entries; it fails exactly when a referenced volume is missing, naming one |
| Assembler.AssembledFromReferences | lib/index.ts:314-326 | the file built from the services section and the collected sections has version 3.3, omits exactly the empty sections, and its network entries describe networks of the table |
| Assembler.Compose | lib/index.ts:261-327 | compose fails on a driverless network, then on the first service whose networks cannot be resolved, then on a dangling volume; otherwise it returns version 3.3, the services section, and networks and volumes sections that hold exactly what the services reference and are omitted when empty |

## Left out

- `yaml.safeDump` is not modelled: `Compose` returns the stack-file value, not its YAML text.
- Error message strings are not modelled: each `throw` is a `ComposeError` constructor naming the offending id or volume.
- Key order of JavaScript objects and of the YAML output is not modelled. Two consequences follow.
- CreateStackNetworkMap: when two networks normalise to the same name, it promises only that the entry describes one of them, because which one wins depends on key order.
- Compose: when several volumes are dangling, it promises only that the reported one is among them, because the services section is walked in key order.
- The `configs` field is always absent: `getConfigNames` (lib/index.ts:163-174) is never called by `parseService`, and `Configs` is not part of the modelled container spec.
- Inherited object-prototype keys (`for … in` over an object with an enumerable prototype) are not modelled; label maps are plain maps.
- CreateVolumeMap requires the volume objects to be pairwise distinct. A list built from parsed JSON never repeats an object; the in-place rename of a repeated object is not modelled.
- The `if (!dockerNetwork)` check (lib/index.ts:125-127) cannot fail on a table built by `createNetworkMap`; network tables hold values, so it has no counterpart.
- Numbers are unbounded integers: published and target ports, and the replica count (a `nat`), carry no 53-bit float limit.
- `lib/dockerModels.ts` is not part of this model; the API records are written from the fields `lib/index.ts` reads.
- GetNetworkIds: an attachment without a Target contributes "" where the source pushes `undefined`, because an absent target is modelled as the empty string.
- `src/index.ts`, an early stub that returns `JSON.stringify(services)`, is not modelled.

## Findings

| source | as written | input that shows it | evidently intended | confidence | as-written member | corrected member |
|---|---|---|---|---|---|---|
| lib/index.ts:192-195 | `result.networks = []` runs inside the loop over the resolved networks, so the list is reset on every iteration and keeps only the last network's name | a service attached to networks `n1` (named `front`) and `n2` (named `back`), both in the table, translates with `networks: [back]` | every resolved network's name, in attachment order: `networks: [front, back]` | not executed | Translator.TwoAttachmentsLoseTheFirst | Translator.CorrectedNetworksFieldKeepsAll |

`Translator.TranslateService` and `Translator.ParseService` model the loop as
written. `Translator.TranslateServiceCorrected` builds the list once and
appends to it. `Compose` assembles the stack file from the as-written
translation, so that the file it describes is the one the tool emits. The
corrected translation is proved beside it rather than substituted for it.
