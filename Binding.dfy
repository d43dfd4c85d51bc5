/**
 * `ADBSensor`, the entity one sensor configuration becomes. Its name,
 * entity id and keywords are fixed when it is created; its state and
 * attributes are read from the coordinator's latest data, the
 * `(status, attributes)` pair `update_adb_sensor` returned, which is missing
 * until the first refresh has completed.
 */
module Binding {
  import opened Wrappers
  import opened Keywords
  import opened Poll

  /** A `timedelta`, counted in microseconds (its resolution). */
  datatype Duration = Duration(microseconds: int)

  /**
   * One sensor entity with the settings of the coordinator behind it: the
   * command template its refreshes format and the refresh interval.
   */
  datatype AdbSensor = AdbSensor(
    name: Option<string>,
    entityId: Option<string>,
    keywords: KeywordMap,
    uniqueId: string,
    template: string,
    interval: Duration)

  /** `str(x)` of an optional configuration string: "None" when missing. */
  function OptionText(x: Option<string>): string {
    match x
    case None => "None"
    case Some(s) => s
  }

  /** `f"adb_sensor_{entity_id}_{name}"`. */
  function UniqueId(entityId: Option<string>, name: Option<string>): string {
    "adb_sensor_" + OptionText(entityId) + "_" + OptionText(name)
  }

  /** The `state` property: the status of the latest data, none before the first refresh. */
  function SensorState(data: Option<PollResult>): Option<Status> {
    match data
    case None => None
    case Some(result) => Some(result.status)
  }

  /** The `extra_state_attributes` property: the attributes of the latest data, empty before the first refresh. */
  function ExtraStateAttributes(data: Option<PollResult>): map<string, string> {
    match data
    case None => map[]
    case Some(result) => result.attributes
  }

  /**
   * Before any refresh the sensor shows no state and no attributes. After a
   * refresh it shows that refresh's status and attributes; when online,
   * every label of the sensor's keywords is among its attributes with the
   * value "on" or "off".
   */
  lemma PublishedData(entityId: string, keywords: KeywordMap, template: string,
                      before: Option<DeviceState>, after: Option<DeviceState>, fault: Option<string>)
    ensures SensorState(None) == None && ExtraStateAttributes(None) == map[]
    ensures var data := Some(Outcome(entityId, keywords, template, before, after, fault).result);
            && SensorState(data) == Some(data.value.status)
            && ExtraStateAttributes(data) == data.value.attributes
            && (SensorState(data) == Some(Online) ==>
                  forall l :: l in Labels(keywords) ==>
                    l in ExtraStateAttributes(data) && ExtraStateAttributes(data)[l] in {On, Off})
  {
    if Outcome(entityId, keywords, template, before, after, fault).result.status == Online {
      OnlineAttributes(entityId, keywords, template, before, after, fault);
    }
  }
}
