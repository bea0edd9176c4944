# remote-storage-adapter: a verified model of the InfluxDB translation core

The adapter receives Prometheus remote-write samples and stores them in InfluxDB. It also
turns Prometheus remote-read queries into InfluxQL and converts the answers back into
Prometheus time series. This project models that translation logic in Dafny and proves what
it promises:

- **Measurement index** (`adapter.dfy`, `client.dfy`). The configured measurement whitelist
  and the measurement entries become a map from measurement name to its spec: tags, fields,
  dropped labels and database. That map then becomes one bucket per database, which maps
  each metric name to its measurement.
- **Write path** (`points.dfy`, `client.dfy`, `labels.dfy`). Each sample is either ignored,
  for one of three reasons checked in order, or becomes one point. Points are grouped per
  database. One batch per database goes to the InfluxDB client. Three counters are kept.
- **Query builder** (`query.dfy`, `client.dfy`). A remote-read query becomes
  `SELECT value FROM … WHERE … GROUP BY *`, with quotes and slashes escaped.
- **Result reassembly** (`merge.dfy`). InfluxDB result rows are decoded, keyed by tag set and
  labelled. The rows are merged into sorted series without duplicate timestamps.
- **Legacy helpers** (`castrate.dfy`, `measurements.dfy`, `tags.dfy`). These are the
  prefix-based split of a metric name, the longest-prefix lookup in the process-wide
  measurement whitelist, and the process-wide tag whitelist.

The Go `Client` becomes the class `Client.Client`:

- its three Prometheus counters are `nat` fields;
- the measurement map is a `const` field, since it is set once at construction;
- the per-database index is a `map` field;
- every batch handed to the InfluxDB client is recorded in the field `written`.

Loops over Go maps pick an arbitrary remaining key (`:|`), so the proofs hold for every
iteration order. Go's `map[string]bool` sets are Dafny `set<string>`. The process-wide
whitelists of `influxdb/measurements.go` and `influxdb/tags.go` are the classes
`Measurements.MeasurementsWhitelist` and `Tags.TagsWhitelist`.

`influxdb/client.go:215,227` reads the two global whitelists as lists of strings. The
`GlobalConfig` of `config/global.go:6-7` declares them as single strings, and the `Config`
of `config/config.go:10-12` has no such field. The model follows the code in `client.go`:
`Config.GlobalConfig` holds both whitelists as `seq<string>`.

## Model

| member | source | states |
|---|---|---|
| Castrate.FindCutPoint | castrate/castrate.go:27-37 | The result is 0 when no index in 1..len-1 holds `_`. Otherwise it is such an index. No `_` occurs after it. |
| Castrate.CastrateMetricName | castrate/castrate.go:7-25 | With prefix `mea`, the result is `mea` and the rest of the name. Without it, a name with no `_` past index 0 is returned whole with an empty field (this covers the empty name and a lone leading `_`). Otherwise the name splits at its last `_`, so `measurement + "_" + field == name` and no `_` is left in the field. |
| Measurements.MeasurementsWhitelist.UpdateMeasurementsWhitelist | influxdb/measurements.go:9-13 | The new whitelist is the old set plus the list's elements. Nothing is removed, and repeating a list changes nothing. |
| Measurements.MeasurementsWhitelist.HasMeasurement | influxdb/measurements.go:15-25 | The result is a whitelisted prefix of `name` at least as long as every other one. It is `""` exactly when no non-empty whitelisted key is a prefix. The whitelist is not modified. |
| Measurements.LongestPrefixUnique | influxdb/measurements.go:18-24 | Two longest-prefix answers are equal, so the result does not depend on map order. |
| Tags.TagsWhitelist.UpdateTagsWhitelist | influxdb/tags.go:7-11 | The new tag whitelist is the old set plus the list's elements. Nothing is removed, and repeating a list changes nothing. |
| Tags.TagsWhitelist.TagsOrFieldFromMetric | influxdb/client.go:136-150 | The labels split exactly as `Labels.Partition` does, with the tag whitelist and no dropped labels. |
| Labels.Partition | influxdb/client.go:117-130 | The metric name is in neither output, and the outputs are disjoint. A label is a tag exactly when its name is a tag (even if it is also dropped). Any other label is a field exactly when it is not dropped. Values are copied. |
| Adapter.LastConfig | influxdb/client.go:233-263 | The result is an entry with this name, and no later entry has that name, so it is the last one. Entries with an empty name never match. `None` means there is no such entry. |
| Adapter.ExpectedMeasurement | influxdb/client.go:215-264 | The spec held for a name always has that name and contains every global tag. An empty database only arises when the default database is empty. A name with no configuration entry has no fields and no dropped labels. |
| Adapter.WhitelistOnly | influxdb/client.go:215-231 | Before any configuration entry is applied, exactly the whitelisted names are held, each with the whitelist spec. |
| Adapter.ConfigEntryStep | influxdb/client.go:233-264 | An entry with a non-empty name adds or replaces the spec of that name; an entry with an empty name changes nothing. |
| Adapter.Register | influxdb/client.go:159-195 | One registration step creates the measurement's database bucket, which then holds `name` and has a route for `key`. Every route already present survives. |
| Adapter.RegisterExtends | influxdb/client.go:160-195 | A registration keeps every bucket, measurement and route with its old value, so a chain of registrations extends its starting index. |
| Adapter.RegisterNeverOverwrites | influxdb/client.go:160-195 | Registration touches only the measurement's bucket. In that bucket it overwrites no metric name and no measurement, and only `key` and `name` can be new. |
| Adapter.RegisterKeepsSound | influxdb/client.go:158-197 | Registering one of a measurement's own metric names keeps every bucket sound. Each metric leads to a measurement whose database is that bucket, and `k == m` (no fields) or `k == m + "_" + f` for a field `f` of `m`. |
| Adapter.RegisteredBucketSound | influxdb/client.go:160-195 | The bucket a registration writes to stays sound: it keeps its name and a measurement, and each of its routes leads to a measurement of that database that generates the key. |
| Adapter.RegisterFieldStep | influxdb/client.go:178-196 | Registering `name_field` keeps the index sound, registers that field, and keeps the fields registered before. |
| Client.Client.constructor | influxdb/client.go:50-99 | The new client has zero counters and no batches. It holds exactly the registered measurement names with their expected specs, and its database index is sound and covers every spec. |
| Client.Client.CreateAdapterManager | influxdb/client.go:211-267 | The map holds exactly the registered names. Each maps to `ExpectedMeasurement`: whitelist first-wins, then the last non-empty configuration entry replaces. |
| Client.Client.AddAll | influxdb/client.go:249-262 | The set afterwards is the old set plus every element of the list. |
| Client.Client.NewWhitelisted | influxdb/client.go:220-230 | The spec of a whitelisted name has the global tags, no fields and the default database. |
| Client.Client.NewConfigured | influxdb/client.go:238-263 | The spec of a configuration entry has the global tags plus its own. An empty database is replaced by the default database. |
| Client.Client.CreateDatabasesManager | influxdb/client.go:152-199 | Afterwards every metric name of every spec has a route in that spec's database, which holds the spec. The index is sound: each route leads to a measurement of that database that generates the name. |
| Client.Client.RegisterMeasurement | influxdb/client.go:159-196 | Every metric name of one measurement has a route in its database and the index stays sound. Every earlier bucket, measurement and route keeps its value. |
| Client.Client.RegisterFields | influxdb/client.go:178-196 | `name_f` has a route for every field `f` and the index stays sound. Every earlier bucket, measurement and route keeps its value. |
| Client.Client.TagsOrFieldFromMetric | influxdb/client.go:112-133 | An unknown measurement gives two empty maps. A known one gives `Labels.Partition` by its spec's tags and dropped labels. |
| Points.Decide | influxdb/client.go:274-311 | A sample is ignored as non-finite, unclassified or tagless exactly when that check is the first to fail, in that order. Otherwise it is emitted. |
| Points.EmittedPoint | influxdb/client.go:297-335 | An emitted point goes to its measurement's database, keeps the sample time and has non-empty tags copied from the labels. Its tags are exactly the labels that are tags of the spec. It holds the value under `"value"` or the classified field, overriding a same-named label field. Every other field is a label that is neither a tag nor dropped, and every such label is a field. |
| Points.FirstBadPoint | influxdb/client.go:312-327 | The result is the first sample whose point the client library refuses, or `None` when there is none. |
| Points.EachSampleCountedOnce | influxdb/client.go:274-337 | Every sample is counted exactly once: ignored, or emitted as one point. |
| Points.BucketKeys | influxdb/client.go:331-335 | There is one bucket for each database that some emitted point goes to. |
| Points.BucketsGroupEmitted | influxdb/client.go:331-335 | Each bucket holds exactly the points emitted for its database, in sample order. |
| Client.Client.CollectPoints | influxdb/client.go:274-337 | When no point fails, the result is the buckets and the ignored count grows by the ignored samples. When a point fails, the method stops there, with only the samples before it counted. |
| Client.Client.DecideSample | influxdb/client.go:275-311 | The checks on one sample agree with `Points.Decide`. |
| Client.Client.SendBatches | influxdb/client.go:349-363 | Each batch sent is for a distinct bucket, carries the ms precision, the retention policy and that bucket's points, and was accepted. Without an error every bucket was sent. An error means some batch configuration was refused. Earlier batches are kept. |
| Client.Client.Write | influxdb/client.go:270-366 | `receiveSamples` grows by the number of samples. A failing point returns the point error, after counting the ignored samples before it and sending nothing. Otherwise `sendSamples` grows by the number of buckets (not points), the accepted batches are recorded, and only a refused batch configuration gives an error. |
| QueryBuilder.EscapeChar | influxdb/client.go:439-445 | The output is longer by the number of escaped characters, and every escaped character is preceded by a backslash. |
| QueryBuilder.UnescapeEscape | influxdb/client.go:439-445 | Removing the inserted backslashes gives the input back, so no other character changes. |
| QueryBuilder.FirstError | influxdb/client.go:407-431 | There is no error exactly when every matcher is supported. Otherwise the error is that of the first unsupported matcher. |
| QueryBuilder.FirstErrorAt | influxdb/client.go:406-432 | An unsupported matcher after supported ones gives the error of the query. |
| QueryBuilder.NoNameMatcherSelectsAll | influxdb/client.go:403-405 | Without a metric-name matcher the query reads `FROM /.+/`. |
| QueryBuilder.ConditionPerMatcher | influxdb/client.go:420-428 | There is exactly one condition per ordinary matcher. |
| QueryBuilder.EndsWithTimeBounds | influxdb/client.go:433-436 | Every successful translation ends with the two time bounds joined by ` AND `, then ` GROUP BY *`. |
| QueryBuilder.EqualityOnMetricName | influxdb/client.go:409-436 | An equality matcher on the metric name alone selects `"rp"."name"` with just the time bounds. |
| QueryBuilder.Translate | influxdb/client.go:401-436 | The translation fails exactly when some matcher is unsupported, with the error of the first one. Otherwise the text starts with `SELECT value FROM `. |
| Client.Client.BuildCommand | influxdb/client.go:401-437 | The result is the translation of the query: the error of the first unsupported matcher, or the SELECT text. |
| Client.Client.AddMatcher | influxdb/client.go:407-431 | The result is one matcher's error, or the FROM clause and conditions once that matcher is added. |
| Merge.ConcatLabels | influxdb/client.go:470-479 | The key is the name/value pairs of some enumeration of the tag map, joined with the separator. It is empty exactly when the tag map is empty. |
| Merge.KeyIdentifiesTags | influxdb/client.go:470-479 | When no name or value holds the separator, equal keys come only from equal tag maps. |
| Merge.KeyDependsOnOrder | influxdb/client.go:475-478 | One tag map can give two different keys under two iteration orders. |
| Merge.TagsToLabelPairs | influxdb/client.go:481-503 | Every tag with a non-empty value appears once with its value, empty ones are skipped, and the metric-name label comes last. |
| Merge.DecodeRow | influxdb/client.go:508-530 | A row decodes exactly when it is a pair of an int64 timestamp and a float64 value, which become the sample. A row that is not a pair fails on its length, and then the timestamp is checked before the value. |
| Merge.DecodeRows | influxdb/client.go:505-538 | Decoding succeeds exactly when every row decodes. It then keeps length and order. A failure carries the error of the first failing row. |
| Merge.ValuesToSamples | influxdb/client.go:505-538 | The loop with its early returns computes `DecodeRows`. |
| Merge.BadLengthFails | influxdb/client.go:508-510 | A row that is not a pair makes the whole decoding fail. |
| Merge.DecodeStops | influxdb/client.go:507-531 | Rows after the first failing one do not matter. |
| Merge.MergeSamples | influxdb/client.go:542-561 | The two-pointer loop computes `Merged`. |
| Merge.MergedTimes | influxdb/client.go:542-561 | The merge holds exactly the union of both inputs' timestamps. |
| Merge.MergedKeepsFirst | influxdb/client.go:546-556 | Every sample of the first input survives, including ties. |
| Merge.MergedKeepsUnshadowed | influxdb/client.go:549-559 | A sample of the second input survives unless the first input has its timestamp. |
| Merge.MergedFromInputs | influxdb/client.go:542-561 | Only samples of the inputs appear. |
| Merge.MergedSorted | influxdb/client.go:540-561 | Strictly ascending inputs give a strictly ascending merge. |
| Merge.MergeExample | influxdb/client.go:542-561 | Merging [1,3,5] into [2,3,4] gives [1,2,3,4,5], with the first input's sample at 3. |
| Merge.MergeResult | influxdb/client.go:447-468 | The samples are the fold `MergeAll` of all series of all results, in order, stopping at the first decode error. Series already present keep their labels. A new tag set is labelled from its first series. |
| Merge.MergeSeries | influxdb/client.go:450-464 | One series is folded in: its entry is created when new, then merged with its decoded rows, or the decode error is returned. |
| Merge.EnsureEntry | influxdb/client.go:451-457 | A tag set seen for the first time gets an entry labelled from this series and without samples. Existing entries are untouched. |
| Merge.LabelledExtends | influxdb/client.go:451-457 | Labels fixed by the first series of a tag set stay fixed whatever follows. |
| Merge.MergeAllStops | influxdb/client.go:459-462 | After a decode error nothing further is merged. |
| Merge.ErrorSettles | influxdb/client.go:459-462 | An error part-way through the nested loops settles the outcome of the whole fold. |
| Merge.MergeAllKeys | influxdb/client.go:450-457 | Without an error, a tag set has an entry exactly when it had one before or occurs in a series. |
| Merge.MergeAllKeeps | influxdb/client.go:464 | Samples already held are never dropped. |
| Merge.MergeAllSorted | influxdb/client.go:464 | Strictly ascending series and rows fold into strictly ascending series. |
| Merge.SameTagsCoalesce | influxdb/client.go:450-464 | Two series with one tag set end up in a single entry holding the merge of their samples. |

## Left out

- Client construction beyond the index: the HTTP client, `os.Exit` on a nil adapter, the
  logger, and the `Name`/`Describe`/`Collect` collectors. These are I/O, process control and
  telemetry. The counters are plain `nat` fields.
- `Read`: sending the query, the response error check and assembling the response. These are
  network I/O, and the output order comes from map iteration. `buildCommand` and
  `mergeResult` with its helpers are modelled.
- `tagsFromMetric` and `getDatabasesInfo`: the first is not used by the write path, and the
  second only formats text for logging. All logging and timing calls are also left out.
- `checkSampleBelongToMeasurement` is not part of this model. `Client.Client.Write` takes it
  as the function parameter `classify`, whose empty measurement means "unclassified".
- Client.Client.Write: `influx.NewPoint` and `influx.NewBatchPoints` are the parameters
  `pointOk` and `batchOk`. Only whether they fail is modelled. `client.Write` failures are
  only logged in the source, so every attempted batch is recorded in `written`, in the
  order chosen.
- Floats.Float64: float arithmetic is not modelled. A value is finite or one of NaN, +Inf and
  -Inf, which is all the NaN/Inf test needs.
- Merge.DecodeRow: `json.Number` parsing is abstract. Each number carries the outcome of reading
  it as an int64 and as a float64.
- QueryBuilder.Quote: Go's `%q` is modelled for printable text, escaping only `"` and `\`.
  Printable non-ASCII characters are kept as they are, as in Go. The escapes Go writes for
  non-printable characters and invalid UTF-8 are not modelled.
- Strings are sequences of characters, not of UTF-8 bytes, throughout. Go indexes and measures
  strings in bytes. `Castrate.FindCutPoint` therefore returns a character index where Go
  returns a byte index (for `"é_x"` Go gives 2 and the model 1); the split it leads to is the
  same text. `Measurements.MeasurementsWhitelist.HasMeasurement` compares prefix lengths in
  characters, which orders prefixes of one name the same way as bytes do.
- Merge.ConcatLabels: strings are sequences of characters, not bytes. The separator byte 0xff
  is the character U+00FF.
- Merge.MergeResult: the result is keyed by the tag map itself, not by the `concatLabels`
  string. The key text depends on map iteration order (see Findings). `Merge.ConcatLabels`
  and `Merge.KeyIdentifiesTags` model the string key separately.
- Pointer sharing: Go's `*measurement`, `*databasesManager` and `*prompb.TimeSeries` are
  values here. No two entries of the source's maps share a pointer that is later written
  through, except the `ts.Samples` update in `mergeResult`, which the model writes back to the
  map.
- YAML loading and unmarshalling of the configuration: library code that builds the `Config`
  value taken as input.

## Findings

| source | as written | input that shows it | evidently intended | confidence | as-written member | corrected member |
|---|---|---|---|---|---|---|
| influxdb/client.go:470-479 | `concatLabels` joins the pairs in Go map iteration order, which is randomised, and `mergeResult` uses that text as the series key. | The tag map `{a: 1, b: 2}` read twice, as two series of one reply: the orders `a, b` and `b, a` give two different keys, so one Prometheus series is returned twice. | One key per tag set (for example the pairs sorted), so that equal tag sets coalesce into one series. | not executed; follows from the Go specification of map iteration | Merge.KeyDependsOnOrder | Merge.SameTagsCoalesce |
