/** The Homey device of the alarm system (`MyDevice`): the mapping between
    the `homealarm_state` capability and the panel modes, the poll tick with
    its busy flag and persisted watermark, and the replacement of the
    repository when the settings change. */
module Device {
  import opened Wrappers
  import opened AlarmStates
  import opened BasicAuth
  import opened LogDecoder
  import opened Classifier
  import opened Reconciler
  import opened Repository

  const ArmedValue: string := "armed"
  const DisarmedValue: string := "disarmed"
  const PartiallyArmedValue: string := "partially_armed"

  /** The stored watermark `onAdded` writes: `new Date(1970, 0, 1)`, taken as
      the origin of the time line. */
  const FirstOfJanuary1970: Time := 0

  /** The capability value the `state-changed` listener sets for a mode. */
  function CapabilityOf(s: AlarmState): (value: string)
    ensures StateOfCapability(value) == Some(s)
  {
    match s
    case Armed => ArmedValue
    case Disarmed => DisarmedValue
    case PartiallyArmed => PartiallyArmedValue
  }

  /** The mode the capability listener sends for a value; any other value
      sends nothing. */
  function StateOfCapability(value: string): (r: Option<AlarmState>)
    ensures r == Some(Armed) <==> value == ArmedValue
    ensures r == Some(Disarmed) <==> value == DisarmedValue
    ensures r == Some(PartiallyArmed) <==> value == PartiallyArmedValue
  {
    if value == ArmedValue then Some(Armed)
    else if value == DisarmedValue then Some(Disarmed)
    else if value == PartiallyArmedValue then Some(PartiallyArmed)
    else None
  }

  /** The two switches are inverse: a mode shown on the capability is the mode
      the capability sends, and a value that sends a mode is the value shown
      for it. */
  lemma CapabilityRoundTrip(s: AlarmState, value: string)
    ensures StateOfCapability(CapabilityOf(s)) == Some(s)
    ensures StateOfCapability(value) == Some(s) ==> CapabilityOf(s) == value
  {
  }

  /** The calls the capability listener makes on the repository, in order. */
  datatype Call = Login | SetStateCall(state: AlarmState)

  class Device {
    var repository: WoonVeiligRepository
    /** The `lastKnownLogDate` entry of the settings store. */
    var lastKnownLogDate: Time
    /** The busy flag shared by the poll ticks. */
    var isReadingEvents: bool
    /** The `homealarm_state` value the `state-changed` callback last set;
        `None` until it sets one. */
    var homealarmState: Option<string>
    /** The `alarm_generic` value the `alarm-changed` callback last set;
        `None` until it sets one. */
    var alarmGeneric: Option<bool>

    /** `onInit`: a repository for the device's settings with the device's
        `state-changed` and `alarm-changed` callbacks registered on it, and an
        idle poll; `stored` is what the settings store holds. */
    constructor(settings: Settings, stored: Time)
      ensures fresh(repository) && repository.configuration == settings
      ensures repository.listeners == [StateChanged, AlarmChanged]
      ensures lastKnownLogDate == stored && !isReadingEvents
      ensures homealarmState == None && alarmGeneric == None
    {
      var repo := new WoonVeiligRepository(settings);
      repo.On(StateChanged);
      repo.On(AlarmChanged);
      repository := repo;
      lastKnownLogDate := stored;
      isReadingEvents := false;
      homealarmState := None;
      alarmGeneric := None;
    }

    /** `onAdded`: the watermark starts at 1 January 1970, before any record. */
    method OnAdded()
      modifies this
      ensures lastKnownLogDate == FirstOfJanuary1970
      ensures repository == old(repository) && isReadingEvents == old(isReadingEvents)
      ensures homealarmState == old(homealarmState) && alarmGeneric == old(alarmGeneric)
    {
      lastKnownLogDate := FirstOfJanuary1970;
    }

    /** The `homealarm_state` listener: log in first, then send the mode the
        value names, with `setState`'s attempts and its error; a value that
        names no mode sends nothing after the login. */
    method OnCapabilityChange(value: string, panel: nat -> Reply) returns (calls: seq<Call>, sent: seq<Request>, threw: bool)
      ensures |calls| > 0 && calls[0] == Login
      ensures StateOfCapability(value).None? ==> calls == [Login] && sent == [] && !threw
      ensures StateOfCapability(value).Some? ==>
        var s := StateOfCapability(value).value;
        && calls == [Login, SetStateCall(s)]
        && 1 <= |sent| <= MaxAttempts
        && (forall j :: 0 <= j < |sent| ==> sent[j] == repository.CommandRequest(s))
        && (forall j: nat :: j < |sent| - 1 ==> Rejected(panel(j)))
        && (|sent| < MaxAttempts ==> !Rejected(panel(|sent| - 1)))
        && (threw <==> panel(|sent| - 1).NetworkFailure?)
    {
      calls := [Login];
      sent := [];
      threw := false;
      if value == ArmedValue {
        calls := calls + [SetStateCall(Armed)];
        sent, threw := repository.SetState(Armed, panel);
      } else if value == DisarmedValue {
        calls := calls + [SetStateCall(Disarmed)];
        sent, threw := repository.SetState(Disarmed, panel);
      } else if value == PartiallyArmedValue {
        calls := calls + [SetStateCall(PartiallyArmed)];
        sent, threw := repository.SetState(PartiallyArmed, panel);
      }
    }

    /** The start of a poll tick: a tick that finds the flag set returns at
        once and touches nothing; otherwise it sets the flag and reads the
        stored watermark. */
    method TickStart() returns (since: Option<Time>)
      modifies this
      ensures old(isReadingEvents) ==> since == None
      ensures !old(isReadingEvents) ==> since == Some(lastKnownLogDate)
      ensures isReadingEvents
      ensures lastKnownLogDate == old(lastKnownLogDate) && repository == old(repository)
      ensures homealarmState == old(homealarmState) && alarmGeneric == old(alarmGeneric)
    {
      if isReadingEvents {
        return None;
      }
      isReadingEvents := true;
      since := Some(lastKnownLogDate);
    }

    /** The listener calls at the end of `processLastLogs`: each fact goes to
        the callbacks registered for its event on the current repository, and
        the device's callbacks set the capability for it. A fact without a
        callback is lost. */
    method Notify(facts: Facts)
      modifies this
      ensures alarmGeneric ==
        (if facts.alarm.Some? && AlarmChanged in repository.listeners then facts.alarm else old(alarmGeneric))
      ensures homealarmState ==
        (if facts.state.Some? && StateChanged in repository.listeners
         then Some(CapabilityOf(facts.state.value)) else old(homealarmState))
      ensures lastKnownLogDate == old(lastKnownLogDate) && isReadingEvents == old(isReadingEvents)
      ensures repository == old(repository)
    {
      if facts.alarm.Some? && AlarmChanged in repository.listeners {
        alarmGeneric := facts.alarm;
      }
      if facts.state.Some? && StateChanged in repository.listeners {
        homealarmState := Some(CapabilityOf(facts.state.value));
      }
    }

    /** The end of a poll tick: the watermark the poll returned is stored, a
        thrown error keeps the stored one, and the flag is cleared either way. */
    method TickEnd(result: Result<Poll, PollError>)
      modifies this
      ensures result.Ok? ==> lastKnownLogDate == result.value.watermark
      ensures result.Err? ==> lastKnownLogDate == old(lastKnownLogDate)
      ensures !isReadingEvents
      ensures repository == old(repository)
      ensures homealarmState == old(homealarmState) && alarmGeneric == old(alarmGeneric)
    {
      if result.Ok? {
        lastKnownLogDate := result.value.watermark;
      }
      isReadingEvents := false;
    }

    /** One run of the interval callback, given the panel's reply to the
        history request: a busy tick changes nothing; otherwise the facts of
        the poll reach the capabilities through the callbacks registered on
        the current repository, and the watermark is advanced to the one the
        poll returned, or kept when it threw. */
    method Tick(reply: Reply, parse: JsonParser, year: nat, parseDate: DateParser) returns (facts: Option<Facts>)
      modifies this
      ensures old(isReadingEvents) ==>
        && facts == None && lastKnownLogDate == old(lastKnownLogDate) && isReadingEvents
        && homealarmState == old(homealarmState) && alarmGeneric == old(alarmGeneric)
      ensures !old(isReadingEvents) ==>
        var r := PollOutcome(old(lastKnownLogDate), reply, parse, year, parseDate);
        && !isReadingEvents
        && lastKnownLogDate == (if r.Ok? then r.value.watermark else old(lastKnownLogDate))
        && facts == (if r.Ok? then Some(r.value.facts) else None)
      ensures facts.Some? && facts.value.alarm.Some? && AlarmChanged in repository.listeners ==>
        alarmGeneric == facts.value.alarm
      ensures !(facts.Some? && facts.value.alarm.Some? && AlarmChanged in repository.listeners) ==>
        alarmGeneric == old(alarmGeneric)
      ensures facts.Some? && facts.value.state.Some? && StateChanged in repository.listeners ==>
        homealarmState == Some(CapabilityOf(facts.value.state.value))
      ensures !(facts.Some? && facts.value.state.Some? && StateChanged in repository.listeners) ==>
        homealarmState == old(homealarmState)
      ensures repository == old(repository)
    {
      var since := TickStart();
      if since.None? {
        return None;
      }
      var _, r := repository.ProcessLastLogs(since.value, reply, parse, year, parseDate);
      if r.Ok? {
        Notify(r.value.facts);
      }
      TickEnd(r);
      facts := if r.Ok? then Some(r.value.facts) else None;
    }

    /** `onSettings`: a trial repository for the new settings logs in; when
        the login fails an error is thrown and the current repository stays,
        otherwise it is replaced by a repository for the new settings. The
        callbacks stay registered on the old repository: the new one has
        none, so later polls set no capability. `loginOk` is the answer of the
        trial repository's `login`. */
    method OnSettings(settings: Settings, loginOk: bool) returns (r: Result<(), string>)
      modifies this
      ensures !loginOk ==> r.Err? && repository == old(repository)
      ensures loginOk ==>
        && r.Ok? && fresh(repository) && repository.configuration == settings
        && repository.authorizationHeader == AuthorizationHeader(settings.username, settings.password)
        && repository.listeners == []
      ensures lastKnownLogDate == old(lastKnownLogDate) && isReadingEvents == old(isReadingEvents)
      ensures homealarmState == old(homealarmState) && alarmGeneric == old(alarmGeneric)
    {
      var trial := new WoonVeiligRepository(settings);
      if !loginOk {
        return Err("driverHuiscentrale.pairErrorConnecting");
      }
      repository := new WoonVeiligRepository(settings);
      r := Ok(());
    }
  }
}
