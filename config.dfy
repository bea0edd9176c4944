/** The configuration snapshot the adapter index is built from (YAML decoding is not modelled). */
module Config {
  datatype MeasurementConfig = MeasurementConfig(
    name: string,
    tags: seq<string>,
    database: string,
    fields: seq<string>,
    ignoreOtherLabel: bool,
    dropLabels: seq<string>)

  datatype GlobalConfig = GlobalConfig(measurementsWhitelist: seq<string>, tagsWhitelist: seq<string>)

  datatype Config = Config(globalConfig: GlobalConfig, measurementsConfig: seq<MeasurementConfig>)
}
