/** A sample's label set and its partition into tags and fields. */
module Labels {
  /** `model.MetricNameLabel`: the reserved label that carries the metric name. */
  const MetricNameLabel: string := "__name__"

  type LabelSet = map<string, string>

  /** The value of the metric-name label; "" when absent, as a Go map lookup gives. */
  function MetricName(labels: LabelSet): string {
    if MetricNameLabel in labels then labels[MetricNameLabel] else ""
  }

  /**
   * Every label but the metric name goes to the tags when its name is in `tags`, else is
   * discarded when it is in `drop`, else becomes a field carrying the label's text.
   */
  function Partition(labels: LabelSet, tags: set<string>, drop: set<string>): (r: (LabelSet, LabelSet))
    ensures MetricNameLabel !in r.0 && MetricNameLabel !in r.1
    ensures forall l :: l in r.0 ==> l !in r.1
    // a label in `tags` is a tag even when it is also in `drop`
    ensures forall l :: l in labels && l != MetricNameLabel ==> (l in r.0 <==> l in tags)
    // any other label is a field unless it is dropped
    ensures forall l :: l in labels && l != MetricNameLabel && l !in tags ==> (l in r.1 <==> l !in drop)
    ensures forall l :: l in r.0 ==> l in labels && r.0[l] == labels[l]
    ensures forall l :: l in r.1 ==> l in labels && r.1[l] == labels[l]
  {
    (map l | l in labels && l != MetricNameLabel && l in tags :: labels[l],
     map l | l in labels && l != MetricNameLabel && l !in tags && l !in drop :: labels[l])
  }
}
