/** The interface configuration of `src/context/configContext/config.ts`:
    defaults read from the build environment, the merge with what the
    embedding page passes, and the check for required settings. The
    environment is a parameter. */
module Config {
  import opened Sequences

  /** A configuration value as JavaScript sees it: a key the caller set to
      `undefined` or `null` stays in the merged object. */
  datatype Value = Undefined | Null | Str(s: string)

  type Configuration = map<string, Value>

  /** `process.env[name] || ''`. */
  function EnvOr(env: map<string, string>, name: string): (v: Value)
    ensures v.Str?
    ensures name in env ==> v == Str(env[name])
    ensures name !in env ==> v == Str("")
  {
    Str(if name in env then env[name] else "")
  }

  /** Each configuration key and the environment variable behind it. */
  const EnvNames: map<string, string> := map[
    "mapboxToken" := "REACT_APP_MAPBOX_TOKEN",
    "mapboxStyle" := "REACT_APP_MAPBOX_STYLE_URL",
    "basemapStyle" := "REACT_APP_BASEMAP_STYLES_MAPBOX_ID",
    "stacApiUrl" := "REACT_APP_STAC_API_URL",
    "metadataEndpoint" := "REACT_APP_METADATA_ENDPOINT",
    "coverageUrl" := "REACT_APP_COVERAGE_URL",
    "baseStacApiUrl" := "REACT_APP_BASE_STAC_API_URL",
    "geoApifyKey" := "REACT_APP_GEOAPIFY_APIKEY",
    "latlonEndpoint" := "REACT_APP_LAT_LON_TO_COUNTRY_ENDPOINT",
    "rasterApiUrl" := "REACT_APP_RASTER_API_URL"
  ]

  /** The ten configuration keys. */
  const ConfigKeys: set<string> := EnvNames.Keys

  /** `defaultConfig`: every key bound to its environment variable, or to
      the empty string. */
  function DefaultConfig(env: map<string, string>): (c: Configuration)
    ensures c.Keys == ConfigKeys
    ensures forall k :: k in c ==> c[k] == EnvOr(env, EnvNames[k])
  {
    map k | k in EnvNames :: EnvOr(env, EnvNames[k])
  }

  /** `getConfig`: `{...defaultConfig, ...userConfig}`. Every key the
      caller passes wins, even one set to `undefined`; the others keep
      their default. */
  function GetConfig(userConfig: Configuration, env: map<string, string>): (c: Configuration)
    ensures c.Keys == ConfigKeys + userConfig.Keys
    ensures forall k :: k in userConfig ==> c[k] == userConfig[k]
    ensures forall k :: k in ConfigKeys && k !in userConfig ==> c[k] == DefaultConfig(env)[k]
  {
    DefaultConfig(env) + userConfig
  }

  /** Without a user configuration the defaults are used unchanged. */
  lemma NoUserConfigIsDefault(env: map<string, string>)
    ensures GetConfig(map[], env) == DefaultConfig(env)
  {
    assert GetConfig(map[], env).Keys == DefaultConfig(env).Keys;
  }

  /** The settings the interface cannot run without, in reporting order. */
  const RequiredFields: seq<string> := [
    "stacApiUrl", "metadataEndpoint", "coverageUrl", "baseStacApiUrl",
    "mapboxToken", "mapboxStyle", "geoApifyKey"
  ]

  /** A field counts as missing when it reads as `undefined`, `null` or the
      empty string. */
  predicate Missing(config: Configuration, field: string) {
    field !in config || config[field].Undefined? || config[field].Null? || config[field] == Str("")
  }

  datatype ValidationResult = ValidationResult(result: bool, missingFields: seq<string>)

  /** `validateConfig`: the required fields that are missing, in the order
      of `RequiredFields`; the configuration is valid exactly when there is
      none. */
  function ValidateConfig(config: Configuration): (v: ValidationResult)
    ensures forall f :: f in v.missingFields <==> f in RequiredFields && Missing(config, f)
    ensures SubsequenceOf(v.missingFields, RequiredFields)
    ensures v.result <==> v.missingFields == []
    ensures v.result <==> forall f :: f in RequiredFields ==> !Missing(config, f)
  {
    var missing := Filter(RequiredFields, f => Missing(config, f));
    if |missing| > 0 then
      assert missing[0] in missing;
      ValidationResult(false, missing)
    else ValidationResult(true, [])
  }

  /** `basemapStyle`, `latlonEndpoint` and `rasterApiUrl` are never
      reported, whatever they hold. */
  lemma OptionalFieldsNeverReported(config: Configuration)
    ensures "basemapStyle" !in ValidateConfig(config).missingFields
    ensures "latlonEndpoint" !in ValidateConfig(config).missingFields
    ensures "rasterApiUrl" !in ValidateConfig(config).missingFields
  {
    assert "basemapStyle" !in RequiredFields;
    assert "latlonEndpoint" !in RequiredFields;
    assert "rasterApiUrl" !in RequiredFields;
  }

  /** With no user configuration, validation succeeds exactly when the
      environment variables behind the required fields are all set and
      non-empty. */
  lemma DefaultsValidIff(env: map<string, string>)
    ensures forall f :: f in RequiredFields ==> f in EnvNames
    ensures ValidateConfig(GetConfig(map[], env)).result <==>
      (forall f :: f in RequiredFields ==> EnvNames[f] in env && env[EnvNames[f]] != "")
  {
    NoUserConfigIsDefault(env);
    assert forall f :: f in RequiredFields ==> f in EnvNames by {
      assert RequiredFields == ["stacApiUrl", "metadataEndpoint", "coverageUrl", "baseStacApiUrl",
                                "mapboxToken", "mapboxStyle", "geoApifyKey"];
    }
  }

  /** A key the caller passes as `undefined` hides its default: the field is
      reported missing even when the environment sets it. */
  lemma UndefinedOverrideHidesDefault(userConfig: Configuration, env: map<string, string>, field: string)
    requires field in RequiredFields
    requires field in userConfig && userConfig[field] == Undefined
    ensures field in ValidateConfig(GetConfig(userConfig, env)).missingFields
    ensures !ValidateConfig(GetConfig(userConfig, env)).result
  {
  }
}
