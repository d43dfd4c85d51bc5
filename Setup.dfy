/**
 * `async_setup_platform`: one pass over the `sensors` list of the platform
 * configuration. Each entry's refresh interval is resolved (a `timedelta` is
 * kept, another value is read as a number of seconds, a missing or unreadable
 * one falls back to 120 seconds); an entry without an `adb_command` is
 * skipped; every other entry becomes one sensor, in configuration order.
 */
module Setup {
  import opened Wrappers
  import opened Keywords
  import opened Binding

  /** The fallback refresh interval: 120 seconds. */
  const DefaultInterval: Duration := Duration(120 * 1000000)

  /** What `sensor_config.get(CONF_SCAN_INTERVAL)` gives. */
  datatype ScanSetting =
    | Missing                  // no `scan_interval` key
    | Period(period: Duration) // already a `timedelta`
    | Raw(text: string)        // any other value, read with `float(...)`

  /** One entry of the `sensors` list. */
  datatype SensorConfig = SensorConfig(
    name: Option<string>,
    entityId: Option<string>,
    scanInterval: ScanSetting,
    adbCommand: Option<string>,
    keywords: KeywordMap)

  /** `adb_command` is truthy: present and not the empty string. */
  predicate HasCommand(config: SensorConfig) {
    config.adbCommand.Some? && config.adbCommand.value != ""
  }

  /**
   * The refresh interval of one entry. `parse` is `timedelta(seconds=float(v))`,
   * `None` where that raises `ValueError`.
   */
  function ResolveInterval(setting: ScanSetting, parse: string -> Option<Duration>): (interval: Duration)
    ensures setting.Period? ==> interval == setting.period
    ensures setting.Raw? && parse(setting.text).Some? ==> interval == parse(setting.text).value
    ensures setting.Missing? || (setting.Raw? && parse(setting.text).None?) ==> interval == DefaultInterval
  {
    match setting
    case Period(d) => d
    case Raw(text) => parse(text).GetOr(DefaultInterval)
    case Missing => DefaultInterval
  }

  /** The sensor an entry with a command becomes. */
  function NewSensor(config: SensorConfig, parse: string -> Option<Duration>): AdbSensor
    requires HasCommand(config)
  {
    AdbSensor(config.name, config.entityId, config.keywords, UniqueId(config.entityId, config.name),
              config.adbCommand.value, ResolveInterval(config.scanInterval, parse))
  }

  /** The entries that have a command, in configuration order. */
  function Kept(configs: seq<SensorConfig>): (kept: seq<SensorConfig>)
    ensures |kept| <= |configs|
    ensures forall k :: 0 <= k < |kept| ==> HasCommand(kept[k])
    decreases |configs|
  {
    if configs == [] then []
    else
      var init, last := configs[..|configs| - 1], configs[|configs| - 1];
      Kept(init) + (if HasCommand(last) then [last] else [])
  }

  /** The kept entries are exactly the entries of the configuration that have a command. */
  lemma {:induction false} KeptMembers(configs: seq<SensorConfig>, c: SensorConfig)
    ensures c in Kept(configs) <==> c in configs && HasCommand(c)
    decreases |configs|
  {
    if configs != [] {
      var init, last := configs[..|configs| - 1], configs[|configs| - 1];
      assert configs == init + [last];
      KeptMembers(init, c);
    }
  }

  /**
   * The positions in `configs` of the kept entries, strictly increasing: each
   * kept entry is the entry at its position, so the kept entries keep their
   * configuration order.
   */
  function KeptPositions(configs: seq<SensorConfig>): (positions: seq<nat>)
    ensures |positions| == |Kept(configs)|
    ensures forall k :: 0 <= k < |positions| ==>
              positions[k] < |configs| && Kept(configs)[k] == configs[positions[k]]
    ensures forall k, m :: 0 <= k < m < |positions| ==> positions[k] < positions[m]
    decreases |configs|
  {
    if configs == [] then []
    else
      var n := |configs| - 1;
      var init := configs[..n];
      var earlier := KeptPositions(init);
      var kept := Kept(configs);
      var positions := earlier + (if HasCommand(configs[n]) then [n] else []);
      assert kept == Kept(init) + (if HasCommand(configs[n]) then [configs[n]] else []);
      assert forall j :: 0 <= j < n ==> init[j] == configs[j];
      assert forall k :: 0 <= k < |earlier| ==> positions[k] == earlier[k] && kept[k] == Kept(init)[k];
      positions
  }

  /** Every entry that has a command is kept: its position is among the kept positions. */
  lemma {:induction false} KeptPositionsCover(configs: seq<SensorConfig>, j: int)
    requires 0 <= j < |configs| && HasCommand(configs[j])
    ensures j in KeptPositions(configs)
    decreases |configs|
  {
    var n := |configs| - 1;
    if j < n {
      var init := configs[..n];
      assert init[j] == configs[j];
      KeptPositionsCover(init, j);
      assert KeptPositions(configs)[..|KeptPositions(init)|] == KeptPositions(init);
    } else {
      assert KeptPositions(configs)[|KeptPositions(configs)| - 1] == n;
    }
  }

  /** Extending the configuration by one entry extends the kept entries by that entry when it has a command. */
  lemma KeptStep(configs: seq<SensorConfig>, n: nat)
    requires n < |configs|
    ensures Kept(configs[..n + 1]) == Kept(configs[..n]) + (if HasCommand(configs[n]) then [configs[n]] else [])
  {
    assert configs[..n + 1][..n] == configs[..n];
  }

  /** The loop of `async_setup_platform`: one sensor per entry that has a command, in order. */
  method SetupPlatform(configs: seq<SensorConfig>, parse: string -> Option<Duration>)
    returns (sensors: seq<AdbSensor>)
    ensures |sensors| == |Kept(configs)|
    ensures forall k :: 0 <= k < |sensors| ==> sensors[k] == NewSensor(Kept(configs)[k], parse)
  {
    sensors := [];
    for n := 0 to |configs|
      invariant |sensors| == |Kept(configs[..n])|
      invariant forall k :: 0 <= k < |sensors| ==> sensors[k] == NewSensor(Kept(configs[..n])[k], parse)
    {
      var config := configs[n];
      var interval := ResolveInterval(config.scanInterval, parse);
      KeptStep(configs, n);
      if HasCommand(config) {
        var sensor := AdbSensor(config.name, config.entityId, config.keywords,
                                UniqueId(config.entityId, config.name), config.adbCommand.value, interval);
        sensors := sensors + [sensor];
      }
    }
    assert configs[..|configs|] == configs;
  }
}
