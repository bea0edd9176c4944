/**
 * The measurement specs built from configuration and the per-database index derived from
 * them: what `measurement`, `adapterManager` and `databasesManager` hold.
 */
module Adapter {
  import opened Wrappers
  import opened Strings
  import opened Config

  datatype Measurement = Measurement(
    name: string,
    tags: set<string>,
    fields: set<string>,
    dropLabels: set<string>,
    database: string)

  datatype AdapterManager = AdapterManager(measurements: map<string, Measurement>)

  /** One destination database: metric name -> measurement name, and the measurements routed there. */
  datatype DatabasesManager = DatabasesManager(
    name: string,
    metrics: map<string, string>,
    measurements: map<string, Measurement>)

  /** The spec a whitelisted measurement name gets: the global tags, no fields, the default database. */
  function FromWhitelist(name: string, tagsWhitelist: seq<string>, defaultDatabase: string): Measurement {
    Measurement(name, Elems(tagsWhitelist), {}, {}, defaultDatabase)
  }

  /** The spec a configured measurement gets. */
  function FromConfig(mc: MeasurementConfig, tagsWhitelist: seq<string>, defaultDatabase: string): Measurement {
    Measurement(
      mc.name,
      Elems(tagsWhitelist) + Elems(mc.tags),
      Elems(mc.fields),
      Elems(mc.dropLabels),
      if mc.database == "" then defaultDatabase else mc.database)
  }

  /** The last configuration entry named `name`; entries with an empty name are skipped. */
  function LastConfig(configs: seq<MeasurementConfig>, name: string): (r: Option<MeasurementConfig>)
    ensures r.Some? ==> r.value in configs && r.value.name == name && name != ""
    ensures r.None? ==> name == "" || forall c :: c in configs ==> c.name != name
    // the entry returned is the last one of that name
    ensures r.Some? ==>
      exists i :: 0 <= i < |configs| && configs[i] == r.value &&
        forall j :: i < j < |configs| ==> configs[j].name != name
  {
    if configs == [] then None
    else if configs[|configs| - 1].name == name && name != "" then Some(configs[|configs| - 1])
    else LastConfig(configs[..|configs| - 1], name)
  }

  /** The names the adapter holds a spec for. */
  predicate IsRegistered(conf: Config, name: string) {
    name in conf.globalConfig.measurementsWhitelist || LastConfig(conf.measurementsConfig, name).Some?
  }

  /** The spec held for `name`: the last configuration entry wins over the whitelist. */
  function ExpectedMeasurement(conf: Config, defaultDatabase: string, name: string): (r: Measurement)
    ensures r.name == name
    ensures Elems(conf.globalConfig.tagsWhitelist) <= r.tags
    ensures r.database == "" ==> defaultDatabase == ""
    ensures LastConfig(conf.measurementsConfig, name).None? ==> r.fields == {} && r.dropLabels == {}
  {
    match LastConfig(conf.measurementsConfig, name)
    case Some(mc) => FromConfig(mc, conf.globalConfig.tagsWhitelist, defaultDatabase)
    case None => FromWhitelist(name, conf.globalConfig.tagsWhitelist, defaultDatabase)
  }

  /** Without configuration entries, exactly the whitelisted names are held, with whitelist specs. */
  lemma WhitelistOnly(gc: GlobalConfig, defaultDatabase: string)
    ensures forall k :: IsRegistered(Config(gc, []), k) <==> k in gc.measurementsWhitelist
    ensures forall k ::
      ExpectedMeasurement(Config(gc, []), defaultDatabase, k) == FromWhitelist(k, gc.tagsWhitelist, defaultDatabase)
  {
  }

  /** One more configuration entry replaces the spec of its name, when that name is not empty. */
  lemma ConfigEntryStep(gc: GlobalConfig, configs: seq<MeasurementConfig>, j: nat, defaultDatabase: string)
    requires j < |configs|
    ensures var before, after := Config(gc, configs[..j]), Config(gc, configs[..j + 1]);
      forall k :: ((IsRegistered(after, k) <==> IsRegistered(before, k) || (k == configs[j].name && k != "")) &&
                   ExpectedMeasurement(after, defaultDatabase, k) ==
                     if k == configs[j].name && k != "" then FromConfig(configs[j], gc.tagsWhitelist, defaultDatabase)
                     else ExpectedMeasurement(before, defaultDatabase, k))
  {
    assert configs[..j + 1][..j] == configs[..j];
  }

  /** The metric names a measurement registered under `name` answers to. */
  function MetricKeys(name: string, fields: set<string>): set<string> {
    if fields == {} then {name} else set f | f in fields :: name + "_" + f
  }

  /**
   * Database `db` holds measurement `name` and has a route for the metric name `key`. The route
   * need not lead to `name` (a field-less `a_b` and field `b` of `a` share a key); `IndexSound`
   * says where it leads.
   */
  predicate HasRoute(dbs: map<string, DatabasesManager>, db: string, name: string, key: string) {
    db in dbs && name in dbs[db].measurements && key in dbs[db].metrics
  }

  /**
   * One registration step of `createDatabasesManager`: make the bucket of `m.Database`,
   * add the measurement to it and map `key` to `name`, each only when absent.
   */
  function Register(dbs: map<string, DatabasesManager>, name: string, m: Measurement, key: string)
    : (r: map<string, DatabasesManager>)
    ensures r.Keys == dbs.Keys + {m.database}
    ensures HasRoute(r, m.database, name, key)
    ensures forall db, n, k :: HasRoute(dbs, db, n, k) ==> HasRoute(r, db, n, k)
  {
    var d := if m.database in dbs then dbs[m.database] else DatabasesManager(m.database, map[], map[]);
    var d1 := if name in d.measurements then d else d.(measurements := d.measurements[name := m]);
    var d2 := if key in d1.metrics then d1 else d1.(metrics := d1.metrics[key := name]);
    dbs[m.database := d2]
  }

  /** Registration touches one bucket, replaces nothing in it and adds only `key` and `name`. */
  lemma RegisterNeverOverwrites(dbs: map<string, DatabasesManager>, name: string, m: Measurement, key: string)
    ensures var r := Register(dbs, name, m, key);
      && r[m.database].name == (if m.database in dbs then dbs[m.database].name else m.database)
      && (forall db :: db in dbs && db != m.database ==> r[db] == dbs[db])
      && (m.database in dbs ==>
            (forall k :: k in dbs[m.database].metrics ==>
               k in r[m.database].metrics && r[m.database].metrics[k] == dbs[m.database].metrics[k]) &&
            (forall n :: n in dbs[m.database].measurements ==>
               n in r[m.database].measurements && r[m.database].measurements[n] == dbs[m.database].measurements[n]))
      && (forall k :: k in r[m.database].metrics ==>
            (m.database in dbs && k in dbs[m.database].metrics) || (k == key && r[m.database].metrics[k] == name))
      && (forall n :: n in r[m.database].measurements ==>
            (m.database in dbs && n in dbs[m.database].measurements) ||
            (n == name && r[m.database].measurements[n] == m))
  {
  }

  /** `r` keeps every bucket of `dbs`, with its name, its measurements and its routes unchanged. */
  ghost predicate Extends(dbs: map<string, DatabasesManager>, r: map<string, DatabasesManager>) {
    forall db :: db in dbs ==>
      && db in r
      && r[db].name == dbs[db].name
      && (forall k :: k in dbs[db].metrics ==> k in r[db].metrics && r[db].metrics[k] == dbs[db].metrics[k])
      && (forall n :: n in dbs[db].measurements ==>
            n in r[db].measurements && r[db].measurements[n] == dbs[db].measurements[n])
  }

  /** A registration replaces nothing, so a chain of them extends where it started. */
  lemma RegisterExtends(dbs0: map<string, DatabasesManager>, dbs: map<string, DatabasesManager>,
                        name: string, m: Measurement, key: string)
    requires Extends(dbs0, dbs)
    ensures Extends(dbs0, Register(dbs, name, m, key))
  {
    RegisterNeverOverwrites(dbs, name, m, key);
  }

  /** What `createDatabasesManager` keeps true of database `db` while filling it. */
  ghost predicate BucketSound(d: DatabasesManager, db: string, ms: map<string, Measurement>) {
    d.name == db &&
    |d.measurements| > 0 &&
    (forall n :: n in d.measurements ==> n in ms && d.measurements[n] == ms[n] && ms[n].database == db) &&
    (forall k :: k in d.metrics ==>
       d.metrics[k] in d.measurements && k in MetricKeys(d.metrics[k], ms[d.metrics[k]].fields))
  }

  /** Every bucket is sound: each metric name leads to a measurement of that database that generates it. */
  ghost predicate IndexSound(dbs: map<string, DatabasesManager>, ms: map<string, Measurement>) {
    forall db :: db in dbs ==> BucketSound(dbs[db], db, ms)
  }

  /**
   * Every metric name of `keys` has a route in the database of `m`, which holds `name`; under
   * `IndexSound` the route leads to a measurement of that database that generates the key.
   */
  ghost predicate Covers(dbs: map<string, DatabasesManager>, name: string, m: Measurement, keys: set<string>) {
    forall k :: k in keys ==> HasRoute(dbs, m.database, name, k)
  }

  /** Registering one of a measurement's own metric names keeps the index sound. */
  lemma RegisterKeepsSound(dbs: map<string, DatabasesManager>, ms: map<string, Measurement>, name: string, key: string)
    requires IndexSound(dbs, ms)
    requires name in ms && key in MetricKeys(name, ms[name].fields)
    ensures IndexSound(Register(dbs, name, ms[name], key), ms)
  {
    var m := ms[name];
    var r := Register(dbs, name, m, key);
    RegisterNeverOverwrites(dbs, name, m, key);
    forall db | db in r
      ensures BucketSound(r[db], db, ms)
    {
      if db != m.database {
        assert r[db] == dbs[db];
      } else {
        RegisteredBucketSound(dbs, ms, name, key);
      }
    }
  }

  /** The bucket a registration writes to stays sound. */
  lemma RegisteredBucketSound(dbs: map<string, DatabasesManager>, ms: map<string, Measurement>, name: string, key: string)
    requires IndexSound(dbs, ms)
    requires name in ms && key in MetricKeys(name, ms[name].fields)
    ensures BucketSound(Register(dbs, name, ms[name], key)[ms[name].database], ms[name].database, ms)
  {
    var m := ms[name];
    var db := m.database;
    var d := Register(dbs, name, m, key)[db];
    RegisterNeverOverwrites(dbs, name, m, key);
    if db in dbs {
      assert BucketSound(dbs[db], db, ms);
    }
    forall k | k in d.metrics
      ensures d.metrics[k] in d.measurements && k in MetricKeys(d.metrics[k], ms[d.metrics[k]].fields)
    {
    }
  }

  /** Registering one more field of `name` keeps the index sound, and keeps the fields done so far. */
  lemma RegisterFieldStep(dbs: map<string, DatabasesManager>, ms: map<string, Measurement>, name: string,
                          done: set<string>, field: string)
    requires IndexSound(dbs, ms) && name in ms && field in ms[name].fields
    requires forall f :: f in done ==> HasRoute(dbs, ms[name].database, name, name + "_" + f)
    ensures var r := Register(dbs, name, ms[name], name + "_" + field);
      && IndexSound(r, ms)
      && (forall f :: f in done + {field} ==> HasRoute(r, ms[name].database, name, name + "_" + f))
      && (forall db, n, k :: HasRoute(dbs, db, n, k) ==> HasRoute(r, db, n, k))
  {
    RegisterKeepsSound(dbs, ms, name, name + "_" + field);
    var r := Register(dbs, name, ms[name], name + "_" + field);
    forall f | f in done + {field}
      ensures HasRoute(r, ms[name].database, name, name + "_" + f)
    {
      if f != field {
        assert HasRoute(dbs, ms[name].database, name, name + "_" + f);
      }
    }
  }
}
