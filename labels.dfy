/** LabelFilter: dropping the bookkeeping labels the stack deployer adds
    (lib/index.ts stripDockerLabels). */
module Labels {
  import opened Wrappers
  import opened DockerModels
  import opened Names

  predicate IsBookkeepingKey(key: string) {
    key == ImageKey || key == NamespaceKey
  }

  /** The labels a stack file author wrote: every entry except the two
      bookkeeping keys; no labels at all give the empty map. */
  function FilteredLabels(labels: Option<LabelMap>): LabelMap {
    if labels.None? then map[] else labels.value - {ImageKey, NamespaceKey}
  }

  /** No bookkeeping key survives, every other entry is kept unchanged, and
      nothing is added. */
  lemma FilteredLabelsMeaning(labels: Option<LabelMap>)
    ensures forall k :: k in FilteredLabels(labels) ==> !IsBookkeepingKey(k)
    ensures labels.None? ==> FilteredLabels(labels) == map[]
    ensures labels.Some? ==> forall k :: k in labels.value && !IsBookkeepingKey(k) ==>
              k in FilteredLabels(labels) && FilteredLabels(labels)[k] == labels.value[k]
    ensures labels.Some? ==> FilteredLabels(labels).Keys <= labels.value.Keys
  {
  }

  /** Filtering is idempotent. */
  lemma FilteredLabelsIdempotent(labels: Option<LabelMap>)
    ensures FilteredLabels(Some(FilteredLabels(labels))) == FilteredLabels(labels)
  {
    var once := FilteredLabels(labels);
    assert FilteredLabels(Some(once)).Keys == once.Keys;
  }

  /** stripDockerLabels: copies the labels key by key into a fresh map,
      skipping the bookkeeping keys. */
  method StripDockerLabels(labels: Option<LabelMap>) returns (result: LabelMap)
    ensures result == FilteredLabels(labels)
  {
    result := map[];
    if labels.Some? {
      var source := labels.value;
      var remaining := source.Keys;
      while remaining != {}
        invariant remaining <= source.Keys
        invariant result.Keys == set k | k in source.Keys - remaining && !IsBookkeepingKey(k)
        invariant forall k :: k in result ==> result[k] == source[k]
        decreases remaining
      {
        var key :| key in remaining;
        if !(key == ImageKey) && !(key == NamespaceKey) {
          result := result[key := source[key]];
        }
        remaining := remaining - {key};
      }
      assert result.Keys == FilteredLabels(labels).Keys;
    }
  }
}
