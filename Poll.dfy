/**
 * One refresh of an ADB sensor, `update_adb_sensor`: read the Android TV
 * entity's state; give up (offline) when it is missing, unavailable or
 * unknown; otherwise build the command, send it through the
 * `androidtv.adb_command` service, wait, read the state again and turn its
 * `adb_response` attribute into one "on"/"off" flag per label. Every failure
 * ends in an offline result carrying the error text; nothing is raised.
 *
 * The host's state machine, the service and the two-second wait are outside
 * the model: the state before the call, the state after the wait and the
 * exception the service call raises (if any) are inputs.
 */
module Poll {
  import opened Wrappers
  import opened Text
  import opened Keywords
  import opened Command

  /**
   * The Android TV entity's state: its state string, its `adb_response`
   * attribute when it has one, and `str(state)`, which the host renders.
   */
  datatype DeviceState = DeviceState(status: string, adbResponse: Option<string>, repr: string)

  datatype Status = Online | Offline

  /** The `(status, attributes)` pair the coordinator stores as its data. */
  datatype PollResult = PollResult(status: Status, attributes: map<string, string>)

  /** One `adb_command` service call: the entity it targets and the command text. */
  datatype Dispatch = Dispatch(entityId: string, command: string)

  /** The result of one refresh together with the service calls it made. */
  datatype Cycle = Cycle(result: PollResult, sent: seq<Dispatch>)

  const Unavailable: string := "unavailable"
  const Unknown: string := "unknown"

  /** Error text when the entity has no state before the command. */
  const NoStateError: string := "未找到设备状态"
  /** Error text when the entity has no state after the command. */
  const NoUpdateError: string := "ADB 命令执行后无法获取更新状态"

  /** The attribute keys the online path writes before the labels. */
  const StateKey: string := "state"
  const KeywordsKey: string := "debug_keywords"
  const CommandKey: string := "debug_command"
  const ResponseKey: string := "adb_response"
  const ErrorKey: string := "error"

  predicate Unreachable(state: DeviceState) {
    state.status == Unavailable || state.status == Unknown
  }

  /** `str(state)`, where `str(None)` is "None". */
  function StateText(state: Option<DeviceState>): string {
    match state
    case None => "None"
    case Some(s) => s.repr
  }

  /** `str(keywords.keys())`: `dict_keys([...])` with each key as Python's repr. */
  function KeysText(keywords: KeywordMap): string {
    "dict_keys([" + Join(", ", ReprAll(Keys(keywords))) + "])"
  }

  function ReprAll(keys: seq<string>): seq<string> {
    seq(|keys|, i requires 0 <= i < |keys| => Repr(keys[i]))
  }

  /** Each key in single quotes. */
  function Quoted(keys: seq<string>): (r: seq<string>)
    ensures |r| == |keys|
    ensures forall i :: 0 <= i < |r| ==> r[i] == "'" + keys[i] + "'"
  {
    seq(|keys|, i requires 0 <= i < |keys| => "'" + keys[i] + "'")
  }

  /**
   * `debug_keywords` lists the keys in mapping order: "dict_keys([])" for no
   * keywords, and, when no key holds a quote, a backslash or a control
   * escape, each key in single quotes separated by ", ".
   */
  lemma KeysTextPlain(keywords: KeywordMap)
    ensures keywords == [] ==> KeysText(keywords) == "dict_keys([])"
    ensures (forall i :: 0 <= i < |keywords| ==> PlainText(keywords[i].0)) ==>
              KeysText(keywords) == "dict_keys([" + Join(", ", Quoted(Keys(keywords))) + "])"
  {
    if forall i :: 0 <= i < |keywords| ==> PlainText(keywords[i].0) {
      var keys := Keys(keywords);
      forall i | 0 <= i < |keys|
        ensures ReprAll(keys)[i] == Quoted(keys)[i]
      {
        ReprPlain(keys[i]);
      }
      assert ReprAll(keys) == Quoted(keys);
    }
  }

  function ErrorResult(message: string): PollResult {
    PollResult(Offline, map[ErrorKey := message])
  }

  /** The attributes the online path has written when the keyword loop starts. */
  function OnlineBase(before: DeviceState, keywords: KeywordMap, command: string, response: string): map<string, string> {
    map[StateKey := before.repr, KeywordsKey := KeysText(keywords), CommandKey := command, ResponseKey := response]
  }

  /** The result of one refresh and the service calls it makes, as a function of its inputs. */
  function Outcome(entityId: string, keywords: KeywordMap, template: string,
                   before: Option<DeviceState>, after: Option<DeviceState>, fault: Option<string>): Cycle
  {
    if before.None? then Cycle(ErrorResult(NoStateError), [])
    else if Unreachable(before.value) then Cycle(PollResult(Offline, map[StateKey := before.value.repr]), [])
    else match BuildCommand(template, keywords)
      case Err(e) => Cycle(ErrorResult(ErrorMessage(e)), [])
      case Ok(command) =>
        var sent := [Dispatch(entityId, command)];
        if fault.Some? then Cycle(ErrorResult(fault.value), sent)
        else if after.None? then Cycle(ErrorResult(NoUpdateError), sent)
        else
          var response := Lower(after.value.adbResponse.GetOr(""));
          Cycle(PollResult(Online, Flags(OnlineBase(before.value, keywords, command, response), keywords, response)), sent)
  }

  /**
   * The `androidtv.adb_command` service as the sensor sees it: fire and
   * forget. It keeps the log of every call made to it.
   */
  class AdbService {
    var sent: seq<Dispatch>

    constructor ()
      ensures sent == []
    {
      sent := [];
    }

    /** One call; `fault` is the exception the call raises, if it raises. */
    method Call(d: Dispatch, fault: Option<string>) returns (raised: Option<string>)
      modifies this
      ensures sent == old(sent) + [d]
      ensures raised == fault
    {
      sent := sent + [d];
      raised := fault;
    }
  }

  /** `update_adb_sensor`, building its attribute map in place. */
  method UpdateAdbSensor(service: AdbService, entityId: string, keywords: KeywordMap, template: string,
                         before: Option<DeviceState>, after: Option<DeviceState>, fault: Option<string>)
    returns (status: Status, attributes: map<string, string>)
    modifies service
    ensures PollResult(status, attributes) == Outcome(entityId, keywords, template, before, after, fault).result
    ensures service.sent == old(service.sent) + Outcome(entityId, keywords, template, before, after, fault).sent
  {
    attributes := map[StateKey := StateText(before)];
    if before.None? {
      return Offline, map[ErrorKey := NoStateError];
    }
    var state := before.value;
    if Unreachable(state) {
      return Offline, attributes;
    }
    var token := GrepToken(Keys(keywords));
    attributes := attributes[KeywordsKey := KeysText(keywords)];
    var formatted := Format(template, token);
    if formatted.Err? {
      return Offline, map[ErrorKey := ErrorMessage(formatted.error)];
    }
    var command := formatted.value;
    attributes := attributes[CommandKey := command];
    var raised := service.Call(Dispatch(entityId, command), fault);
    if raised.Some? {
      return Offline, map[ErrorKey := raised.value];
    }
    if after.None? {
      return Offline, map[ErrorKey := NoUpdateError];
    }
    var response := Lower(after.value.adbResponse.GetOr(""));
    attributes := attributes[ResponseKey := response];
    attributes := MatchKeywords(attributes, keywords, response);
    return Online, attributes;
  }

  /** A device known to be down is reported offline with its state text, and no command is sent. */
  lemma UnreachableNoDispatch(entityId: string, keywords: KeywordMap, template: string,
                              before: Option<DeviceState>, after: Option<DeviceState>, fault: Option<string>)
    requires before.Some? && Unreachable(before.value)
    ensures Outcome(entityId, keywords, template, before, after, fault)
            == Cycle(PollResult(Offline, map[StateKey := before.value.repr]), [])
  {
  }

  /**
   * A missing state, before the command or after the wait, gives an offline
   * result whose only attribute is the error; before the command nothing is sent.
   */
  lemma MissingStateIsError(entityId: string, keywords: KeywordMap, template: string,
                            before: Option<DeviceState>, after: Option<DeviceState>, fault: Option<string>)
    ensures before.None? ==>
              Outcome(entityId, keywords, template, before, after, fault) == Cycle(ErrorResult(NoStateError), [])
    ensures before.Some? && !Unreachable(before.value) && BuildCommand(template, keywords).Ok?
            && fault.None? && after.None? ==>
              Outcome(entityId, keywords, template, before, after, fault)
              == Cycle(ErrorResult(NoUpdateError), [Dispatch(entityId, BuildCommand(template, keywords).value)])
  {
  }

  /**
   * The refresh never raises: a bad template or a failing service call ends
   * in an offline result that carries only the error text; every offline
   * result is an error or the down-device report.
   */
  lemma FailuresAreOffline(entityId: string, keywords: KeywordMap, template: string,
                           before: Option<DeviceState>, after: Option<DeviceState>, fault: Option<string>)
    ensures var o := Outcome(entityId, keywords, template, before, after, fault);
            before.Some? && !Unreachable(before.value) && BuildCommand(template, keywords).Err? ==>
              o == Cycle(ErrorResult(ErrorMessage(BuildCommand(template, keywords).error)), [])
    ensures var o := Outcome(entityId, keywords, template, before, after, fault);
            before.Some? && !Unreachable(before.value) && BuildCommand(template, keywords).Ok? && fault.Some? ==>
              o.result == ErrorResult(fault.value)
    ensures var o := Outcome(entityId, keywords, template, before, after, fault);
            o.result.status == Offline ==>
              || o.result.attributes.Keys == {ErrorKey}
              || (before.Some? && Unreachable(before.value) && o.result.attributes == map[StateKey := before.value.repr])
  {
  }

  /**
   * The result is online exactly when the device was reachable, the command
   * could be built, the service call did not raise and the state could be read
   * again.
   */
  lemma OnlineIff(entityId: string, keywords: KeywordMap, template: string,
                  before: Option<DeviceState>, after: Option<DeviceState>, fault: Option<string>)
    ensures Outcome(entityId, keywords, template, before, after, fault).result.status == Online
            <==> before.Some? && !Unreachable(before.value) && BuildCommand(template, keywords).Ok?
                 && fault.None? && after.Some?
  {
  }

  /**
   * At most one command is sent; it is sent exactly when the device was
   * reachable and the command could be built, and it is that command, aimed
   * at the sensor's entity.
   */
  lemma AtMostOneDispatch(entityId: string, keywords: KeywordMap, template: string,
                          before: Option<DeviceState>, after: Option<DeviceState>, fault: Option<string>)
    ensures var o := Outcome(entityId, keywords, template, before, after, fault);
            && |o.sent| <= 1
            && (|o.sent| == 1 <==> before.Some? && !Unreachable(before.value) && BuildCommand(template, keywords).Ok?)
            && (|o.sent| == 1 ==> o.sent[0] == Dispatch(entityId, BuildCommand(template, keywords).value))
  {
  }

  /**
   * On an online result every label holds exactly "on" or "off"; the last
   * pair naming a label decides it, "on" iff its lower-cased keyword occurs
   * in the lower-cased response. The keys are the four debug keys plus the
   * labels; `debug_command` and `adb_response`, unless a label shadows them,
   * hold the command sent (the template with the grep token in every
   * `{grep_keywords}`) and the lower-cased response.
   */
  lemma OnlineAttributes(entityId: string, keywords: KeywordMap, template: string,
                         before: Option<DeviceState>, after: Option<DeviceState>, fault: Option<string>)
    requires Outcome(entityId, keywords, template, before, after, fault).result.status == Online
    ensures after.Some? && BuildCommand(template, keywords).Ok?
    ensures var attributes := Outcome(entityId, keywords, template, before, after, fault).result.attributes;
            attributes.Keys == {StateKey, KeywordsKey, CommandKey, ResponseKey} + Labels(keywords)
    ensures var attributes := Outcome(entityId, keywords, template, before, after, fault).result.attributes;
            forall l :: l in Labels(keywords) ==> l in attributes && attributes[l] in {On, Off}
    ensures var attributes := Outcome(entityId, keywords, template, before, after, fault).result.attributes;
            var response := Lower(after.value.adbResponse.GetOr(""));
            forall i :: Decides(keywords, i) ==>
              (attributes[keywords[i].1] == On <==> Contains(response, Lower(keywords[i].0)))
    ensures var attributes := Outcome(entityId, keywords, template, before, after, fault).result.attributes;
            CommandKey !in Labels(keywords) ==>
              && attributes[CommandKey] == BuildCommand(template, keywords).value
              && forall pieces :: Unparse(pieces) == template ==>
                   attributes[CommandKey] == Render(pieces, GrepToken(Keys(keywords)))
    ensures var attributes := Outcome(entityId, keywords, template, before, after, fault).result.attributes;
            ResponseKey !in Labels(keywords) ==>
              attributes[ResponseKey] == Lower(after.value.adbResponse.GetOr(""))
  {
    var command := BuildCommand(template, keywords).value;
    var response := Lower(after.value.adbResponse.GetOr(""));
    var base := OnlineBase(before.value, keywords, command, response);
    assert Outcome(entityId, keywords, template, before, after, fault).result.attributes
           == Flags(base, keywords, response);
    FlagsKeys(base, keywords, response);
    forall l | l in Labels(keywords)
      ensures l in Flags(base, keywords, response) && Flags(base, keywords, response)[l] in {On, Off}
    {
      FlagsLabels(base, keywords, response, l);
    }
    forall i | Decides(keywords, i)
      ensures Flags(base, keywords, response)[keywords[i].1] == On <==> Contains(response, Lower(keywords[i].0))
    {
      FlagsDecided(base, keywords, response, i);
    }
    if CommandKey !in Labels(keywords) {
      FlagsFrame(base, keywords, response, CommandKey);
      FormatIff(template, GrepToken(Keys(keywords)));
    }
    if ResponseKey !in Labels(keywords) {
      FlagsFrame(base, keywords, response, ResponseKey);
    }
  }

  /**
   * A state without an `adb_response` attribute reads as the empty response:
   * on an online result every label decided by a non-empty keyword is "off",
   * and every label decided by the empty keyword is "on".
   */
  lemma MissingResponse(entityId: string, keywords: KeywordMap, template: string,
                        before: Option<DeviceState>, after: Option<DeviceState>, fault: Option<string>)
    requires Outcome(entityId, keywords, template, before, after, fault).result.status == Online
    requires after.Some? && after.value.adbResponse.None?
    ensures var attributes := Outcome(entityId, keywords, template, before, after, fault).result.attributes;
            forall i :: Decides(keywords, i) ==>
              keywords[i].1 in attributes && attributes[keywords[i].1] == (if keywords[i].0 == "" then On else Off)
  {
    var command := BuildCommand(template, keywords).value;
    assert Lower("") == "";
    var base := OnlineBase(before.value, keywords, command, "");
    var attributes := Outcome(entityId, keywords, template, before, after, fault).result.attributes;
    assert attributes == Flags(base, keywords, "");
    forall i | Decides(keywords, i)
      ensures keywords[i].1 in attributes && attributes[keywords[i].1] == (if keywords[i].0 == "" then On else Off)
    {
      FlagsEmptyResponse(base, keywords, i);
    }
  }
}
