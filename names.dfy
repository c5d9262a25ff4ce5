/** NameNormalizer: recovering the names a stack file used from the names the
    orchestrator gave the resources it created for the stack
    (lib/index.ts getServiceName, getNetworkName, and the name rewriting in
    parseMounts and createVolumeMap). */
module Names {
  import opened Wrappers
  import opened DockerModels

  /** Label the stack deployer puts on every resource of a stack; its value is the stack's name. */
  const NamespaceKey: string := "com.docker.stack.namespace"

  /** Label the stack deployer puts on a service to record the image it asked for. */
  const ImageKey: string := "com.docker.stack.image"

  /** `pat` occurs in `s` starting at index `i`. */
  predicate OccursAt(s: string, pat: string, i: int) {
    0 <= i && i + |pat| <= |s| && s[i..i + |pat|] == pat
  }

  predicate Contains(s: string, pat: string) {
    exists i :: 0 <= i <= |s| && OccursAt(s, pat, i)
  }

  /** The first index at or after `from` where `pat` occurs in `s` (JavaScript's indexOf). */
  function IndexOf(s: string, pat: string, from: nat): (r: Option<nat>)
    ensures r.Some? ==> from <= r.value && r.value + |pat| <= |s|
    decreases |s| - from
  {
    if from + |pat| > |s| then None
    else if s[from..from + |pat|] == pat then Some(from)
    else IndexOf(s, pat, from + 1)
  }

  /** IndexOf finds an occurrence, and no occurrence between `from` and it;
      when it finds none, there is none at or after `from`. */
  lemma {:induction false} IndexOfMeaning(s: string, pat: string, from: nat)
    ensures IndexOf(s, pat, from).Some? ==> OccursAt(s, pat, IndexOf(s, pat, from).value)
    ensures forall j :: from <= j && (IndexOf(s, pat, from).None? || j < IndexOf(s, pat, from).value) ==> !OccursAt(s, pat, j)
    decreases |s| - from
  {
    if from + |pat| <= |s| && s[from..from + |pat|] != pat {
      IndexOfMeaning(s, pat, from + 1);
    }
  }

  /** JavaScript's `s.replace(pat, '')` with a string pattern: the FIRST
      occurrence of `pat` is removed, wherever it stands in `s`; an empty
      pattern occurs at index 0 and removes nothing. */
  function ReplaceFirst(s: string, pat: string): string {
    match IndexOf(s, pat, 0)
    case None => s
    case Some(i) => s[..i] + s[i + |pat|..]
  }

  /** What ReplaceFirst removes: nothing when `pat` does not occur, otherwise
      the occurrence that starts at the smallest index. */
  lemma ReplaceFirstMeaning(s: string, pat: string)
    ensures !Contains(s, pat) ==> ReplaceFirst(s, pat) == s
    ensures forall i :: OccursAt(s, pat, i) && (forall j :: 0 <= j < i ==> !OccursAt(s, pat, j)) ==>
              ReplaceFirst(s, pat) == s[..i] + s[i + |pat|..]
  {
    var r := IndexOf(s, pat, 0);
    IndexOfMeaning(s, pat, 0);
    if r.Some? {
      forall i | OccursAt(s, pat, i) && (forall j :: 0 <= j < i ==> !OccursAt(s, pat, j))
        ensures i == r.value
      {
        assert !(i < r.value) && !(r.value < i);
      }
    }
  }

  lemma ReplaceFirstEmptyPattern(s: string)
    ensures ReplaceFirst(s, "") == s
  {
    assert OccursAt(s, "", 0);
  }

  /** Removing a leading occurrence of `pat` gives back what followed it. */
  lemma ReplaceFirstLeading(pat: string, rest: string)
    ensures ReplaceFirst(pat + rest, pat) == rest
  {
    var s := pat + rest;
    assert OccursAt(s, pat, 0);
    assert s[0 + |pat|..] == rest;
  }

  /** When `pat` occurs, exactly |pat| characters are removed. */
  lemma ReplaceFirstLength(s: string, pat: string)
    requires Contains(s, pat)
    ensures |ReplaceFirst(s, pat)| == |s| - |pat|
  {
    var k :| 0 <= k <= |s| && OccursAt(s, pat, k);
    IndexOfMeaning(s, pat, 0);
    assert IndexOf(s, pat, 0).Some?;
  }

  predicate HasNamespaceKey(labels: Option<LabelMap>) {
    labels.Some? && NamespaceKey in labels.value
  }

  /** The namespace label is present with a non-empty (JavaScript-truthy) value. */
  predicate HasTruthyNamespace(labels: Option<LabelMap>) {
    HasNamespaceKey(labels) && labels.value[NamespaceKey] != ""
  }

  /** `<stack>_`, the prefix the stack deployer gives the resources of stack `<stack>`. */
  function StackPrefix(labels: Option<LabelMap>): string
    requires HasNamespaceKey(labels)
  {
    labels.value[NamespaceKey] + "_"
  }

  /** Name rewriting of getServiceName and getNetworkName: only the PRESENCE of
      the namespace key is tested, so an empty stack name still removes the
      first "_". */
  function StripNamespace(name: string, labels: Option<LabelMap>): string {
    if HasNamespaceKey(labels) then ReplaceFirst(name, StackPrefix(labels)) else name
  }

  /** Name rewriting of createVolumeMap: the namespace VALUE must be truthy. */
  function StripTruthyNamespace(name: string, labels: Option<LabelMap>): string {
    if HasTruthyNamespace(labels) then ReplaceFirst(name, StackPrefix(labels)) else name
  }

  /** The service name as it was written in the stack file. */
  function GetServiceName(service: Service): string {
    StripNamespace(service.Spec.Name, service.Spec.Labels)
  }

  /** The network name as it was written in the stack file. */
  function GetNetworkName(network: Network): string {
    StripNamespace(network.Name, network.Labels)
  }

  lemma {:induction false} StripNamespaceMeaning(name: string, labels: Option<LabelMap>)
    ensures !HasNamespaceKey(labels) ==> StripNamespace(name, labels) == name
    ensures HasNamespaceKey(labels) && !Contains(name, StackPrefix(labels)) ==>
              StripNamespace(name, labels) == name
    ensures HasNamespaceKey(labels) && Contains(name, StackPrefix(labels)) ==>
              |StripNamespace(name, labels)| == |name| - |StackPrefix(labels)|
    ensures forall rest :: HasNamespaceKey(labels) && name == StackPrefix(labels) + rest ==>
              StripNamespace(name, labels) == rest
  {
    if HasNamespaceKey(labels) {
      var p := StackPrefix(labels);
      ReplaceFirstMeaning(name, p);
      if Contains(name, p) {
        ReplaceFirstLength(name, p);
      }
      if |p| <= |name| && name[..|p|] == p {
        ReplaceFirstLeading(p, name[|p|..]);
        assert name == p + name[|p|..];
      }
    }
  }

  /** getServiceName: without the namespace key the name is unchanged; with it,
      the first occurrence of `<stack>_` is removed, so a name the deployer
      built as `<stack>_<name>` gives back `<name>`. */
  lemma ServiceNameNormalization(service: Service)
    ensures !HasNamespaceKey(service.Spec.Labels) ==> GetServiceName(service) == service.Spec.Name
    ensures HasNamespaceKey(service.Spec.Labels) && !Contains(service.Spec.Name, StackPrefix(service.Spec.Labels)) ==>
              GetServiceName(service) == service.Spec.Name
    ensures HasNamespaceKey(service.Spec.Labels) && Contains(service.Spec.Name, StackPrefix(service.Spec.Labels)) ==>
              |GetServiceName(service)| == |service.Spec.Name| - |StackPrefix(service.Spec.Labels)|
    ensures forall rest :: HasNamespaceKey(service.Spec.Labels) && service.Spec.Name == StackPrefix(service.Spec.Labels) + rest ==>
              GetServiceName(service) == rest
  {
    StripNamespaceMeaning(service.Spec.Name, service.Spec.Labels);
  }

  /** getNetworkName: the same rule as getServiceName, on the network's own labels. */
  lemma NetworkNameNormalization(network: Network)
    ensures !HasNamespaceKey(network.Labels) ==> GetNetworkName(network) == network.Name
    ensures HasNamespaceKey(network.Labels) && !Contains(network.Name, StackPrefix(network.Labels)) ==>
              GetNetworkName(network) == network.Name
    ensures HasNamespaceKey(network.Labels) && Contains(network.Name, StackPrefix(network.Labels)) ==>
              |GetNetworkName(network)| == |network.Name| - |StackPrefix(network.Labels)|
    ensures forall rest :: HasNamespaceKey(network.Labels) && network.Name == StackPrefix(network.Labels) + rest ==>
              GetNetworkName(network) == rest
  {
    StripNamespaceMeaning(network.Name, network.Labels);
  }

  /** The pattern is removed where it first occurs, not only at the front. */
  lemma StripsFirstOccurrenceAnywhere()
    ensures StripNamespace("web_app_db", Some(map[NamespaceKey := "app"])) == "web_db"
  {
    var s, labels := "web_app_db", Some(map[NamespaceKey := "app"]);
    var p := StackPrefix(labels);
    assert p == "app_";
    assert OccursAt(s, p, 4);
    assert s[0] != p[0] && s[1] != p[0] && s[2] != p[0] && s[3] != p[0];
    assert forall j :: 0 <= j < 4 ==> !OccursAt(s, p, j);
    assert s[..4] + s[8..] == "web_db";
  }

  /** An empty stack name still removes the first underscore in getServiceName
      and getNetworkName, but removes nothing in createVolumeMap. */
  lemma EmptyNamespaceStripsUnderscore()
    ensures StripNamespace("my_web", Some(map[NamespaceKey := ""])) == "myweb"
    ensures StripTruthyNamespace("my_web", Some(map[NamespaceKey := ""])) == "my_web"
  {
    var s, labels := "my_web", Some(map[NamespaceKey := ""]);
    var p := StackPrefix(labels);
    assert p == "_";
    assert OccursAt(s, p, 2);
    assert s[0] != p[0] && s[1] != p[0];
    assert forall j :: 0 <= j < 2 ==> !OccursAt(s, p, j);
    assert s[..2] + s[3..] == "myweb";
  }
}
