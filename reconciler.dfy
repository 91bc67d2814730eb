/** The decision part of `WoonVeiligRepository.processLastLogs`: from the
    classified log records and the watermark it derives the alarm fact and the
    mode fact, which the repository hands to its `alarm-changed` and
    `state-changed` listeners. Choices are made by position in the list the
    panel returned: the last element of each filtered list decides. */
module Reconciler {
  import opened Wrappers
  import opened Sequences
  import opened Text
  import opened LogDecoder
  import opened Classifier
  import opened AlarmStates

  const Disarm: string := "Disarm"
  const Arm: string := "Arm"
  const Home: string := "Home"
  const Timeout: string := "Timeout"
  const EntryTimeout: string := "Entry Timeout"

  /** The facts one poll produces: `null` becomes `None`. */
  datatype Facts = Facts(alarm: Option<bool>, state: Option<AlarmState>)

  const NoFacts: Facts := Facts(None, None)

  /** `log.log_time > lastLogDate`. */
  function After(watermark: Time): WoonVeiligLog -> bool
  {
    (log: WoonVeiligLog) => log.logTime > watermark
  }

  /** The test of `modeChangedLogs`. */
  predicate IsModeChange(log: WoonVeiligLog)
  {
    log.action == ModeChanged && log.msg == Success
  }

  /** The test of `modeDisarmedLogs`. */
  predicate IsDisarm(log: WoonVeiligLog)
  {
    log.mode == Disarm
  }

  /** The test of `alarmChangedLogs`: a burglary, or an entry timeout. */
  predicate IsAlarm(log: WoonVeiligLog)
  {
    log.msg == BurglarAlarm || (log.action == Timeout && log.msg == EntryTimeout)
  }

  /** The `switch` on the mode of the deciding mode-change record; any other
      mode leaves the state fact `null`. */
  function ModeOf(mode: string): (r: Option<AlarmState>)
    ensures r == Some(AlarmState.Armed) <==> mode == Arm
    ensures r == Some(AlarmState.PartiallyArmed) <==> mode == Home
    ensures r == Some(AlarmState.Disarmed) <==> mode == Disarm
  {
    if mode == Arm then Some(AlarmState.Armed)
    else if mode == Home then Some(AlarmState.PartiallyArmed)
    else if mode == Disarm then Some(AlarmState.Disarmed)
    else None
  }

  /** The name a mode has in the log (the inverse of `ModeOf`). */
  function ModeName(s: AlarmState): string
  {
    match s
    case Armed => Arm
    case PartiallyArmed => Home
    case Disarmed => Disarm
  }

  /** Every mode is read back from its log name, and a mode fact is only ever
      produced from that name. */
  lemma ModeNameRoundTrip(s: AlarmState, mode: string)
    ensures ModeOf(ModeName(s)) == Some(s)
    ensures ModeOf(mode) == Some(s) ==> mode == ModeName(s)
  {
  }

  /** The alarm branches: with alarm records, cleared only by a disarm whose
      time is strictly greater than the last alarm's; without them, a disarm
      alone clears the alarm; otherwise no fact. */
  function AlarmFact(modeDisarmedLogs: seq<WoonVeiligLog>, alarmChangedLogs: seq<WoonVeiligLog>): (r: Option<bool>)
    ensures r.None? <==> modeDisarmedLogs == [] && alarmChangedLogs == []
    ensures r == Some(true) ==> alarmChangedLogs != []
    ensures r == Some(false) ==> modeDisarmedLogs != []
    ensures r == Some(false) && alarmChangedLogs != [] ==>
      modeDisarmedLogs != [] && Last(modeDisarmedLogs).logTime > Last(alarmChangedLogs).logTime
  {
    if |alarmChangedLogs| > 0 then
      if |modeDisarmedLogs| > 0 && Last(modeDisarmedLogs).logTime > Last(alarmChangedLogs).logTime
      then Some(false)
      else Some(true)
    else if |modeDisarmedLogs| > 0 then Some(false)
    else None
  }

  /** The mode branch: the last mode-change record decides. */
  function StateFact(modeChangedLogs: seq<WoonVeiligLog>): (r: Option<AlarmState>)
    ensures r.Some? ==> modeChangedLogs != [] && Last(modeChangedLogs).mode == ModeName(r.value)
    ensures modeChangedLogs == [] ==> r.None?
  {
    if |modeChangedLogs| > 0 then ModeOf(Last(modeChangedLogs).mode) else None
  }

  /** The filters and branches of `processLastLogs` after the records are
      built: the new records first, then the facts decided from them. */
  function Reconcile(logs: seq<WoonVeiligLog>, watermark: Time): (r: Facts)
    ensures r.alarm == Some(true) ==> exists i :: 0 <= i < |logs| && NewAlarm(watermark)(logs[i])
    ensures r.alarm == Some(false) ==> exists i :: 0 <= i < |logs| && NewDisarm(watermark)(logs[i])
    ensures r.state.Some? ==>
      exists i :: 0 <= i < |logs| && NewModeChange(watermark)(logs[i]) && logs[i].mode == ModeName(r.state.value)
  {
    Decide(Filter(logs, After(watermark)))
  }

  /** The facts decided from the records newer than the watermark: an alarm
      is only raised by an alarm record, only cleared by a successful disarm,
      and a mode is only reported from a successful mode change to it. */
  function Decide(newLogs: seq<WoonVeiligLog>): (r: Facts)
    ensures r.alarm == Some(true) ==> exists i :: 0 <= i < |newLogs| && IsAlarm(newLogs[i])
    ensures r.alarm == Some(false) ==> exists i :: 0 <= i < |newLogs| && IsModeChange(newLogs[i]) && IsDisarm(newLogs[i])
    ensures r.state.Some? ==>
      exists i :: 0 <= i < |newLogs| && IsModeChange(newLogs[i]) && newLogs[i].mode == ModeName(r.state.value)
  {
    var modeChangedLogs := Filter(newLogs, IsModeChange);
    var modeDisarmedLogs := Filter(modeChangedLogs, IsDisarm);
    var alarmChangedLogs := Filter(newLogs, IsAlarm);
    var r := Facts(AlarmFact(modeDisarmedLogs, alarmChangedLogs), StateFact(modeChangedLogs));
    assert r.alarm == Some(true) ==>
      Last(alarmChangedLogs) in newLogs && IsAlarm(Last(alarmChangedLogs));
    assert r.alarm == Some(false) ==>
      Last(modeDisarmedLogs) in modeChangedLogs && IsDisarm(Last(modeDisarmedLogs));
    assert r.state.Some? ==>
      Last(modeChangedLogs) in newLogs && IsModeChange(Last(modeChangedLogs));
    r
  }

  // The tests on single records that the reference definitions below use:
  // a record is new, and also a mode change, a disarm, or an alarm.

  function NewModeChange(watermark: Time): WoonVeiligLog -> bool
  {
    (log: WoonVeiligLog) => log.logTime > watermark && IsModeChange(log)
  }

  function NewDisarm(watermark: Time): WoonVeiligLog -> bool
  {
    (log: WoonVeiligLog) => log.logTime > watermark && IsModeChange(log) && IsDisarm(log)
  }

  function NewAlarm(watermark: Time): WoonVeiligLog -> bool
  {
    (log: WoonVeiligLog) => log.logTime > watermark && IsAlarm(log)
  }

  /** The alarm fact by positions in the panel's list: the last new alarm
      record and the last new disarm record. */
  function AlarmFactByPosition(logs: seq<WoonVeiligLog>, watermark: Time): Option<bool>
  {
    match (LastWhere(logs, NewAlarm(watermark)), LastWhere(logs, NewDisarm(watermark)))
    case (Some(a), Some(d)) => Some(!(logs[d].logTime > logs[a].logTime))
    case (Some(a), None) => Some(true)
    case (None, Some(d)) => Some(false)
    case (None, None) => None
  }

  /** The mode fact by position: the last new mode-change record. */
  function StateFactByPosition(logs: seq<WoonVeiligLog>, watermark: Time): Option<AlarmState>
  {
    match LastWhere(logs, NewModeChange(watermark))
    case Some(i) => ModeOf(logs[i].mode)
    case None => None
  }

  /** The filtered lists of `processLastLogs` are the records of `logs` that
      pass the combined tests. */
  lemma FilteredLists(logs: seq<WoonVeiligLog>, watermark: Time)
    ensures var newLogs := Filter(logs, After(watermark));
      && Filter(newLogs, IsModeChange) == Filter(logs, NewModeChange(watermark))
      && Filter(Filter(newLogs, IsModeChange), IsDisarm) == Filter(logs, NewDisarm(watermark))
      && Filter(newLogs, IsAlarm) == Filter(logs, NewAlarm(watermark))
  {
    var newLogs := Filter(logs, After(watermark));
    FilterTwice(logs, After(watermark), IsModeChange, NewModeChange(watermark));
    FilterTwice(logs, NewModeChange(watermark), IsDisarm, NewDisarm(watermark));
    FilterTwice(logs, After(watermark), IsAlarm, NewAlarm(watermark));
  }

  /** The reconciler's facts are the facts decided by position: the alarm
      fact by the last new alarm and the last new disarm record, the mode
      fact by the last new mode-change record. */
  lemma ReconcileByPosition(logs: seq<WoonVeiligLog>, watermark: Time)
    ensures Reconcile(logs, watermark).alarm == AlarmFactByPosition(logs, watermark)
    ensures Reconcile(logs, watermark).state == StateFactByPosition(logs, watermark)
  {
    FilteredLists(logs, watermark);
    FilterLastWhere(logs, NewModeChange(watermark));
    FilterLastWhere(logs, NewDisarm(watermark));
    FilterLastWhere(logs, NewAlarm(watermark));
  }

  /** Only records newer than the watermark count: when there are none, no
      fact is produced. */
  lemma NoNewLogsNoFacts(logs: seq<WoonVeiligLog>, watermark: Time)
    requires forall i :: 0 <= i < |logs| ==> logs[i].logTime <= watermark
    ensures Reconcile(logs, watermark) == NoFacts
  {
    FilterEmpty(logs, After(watermark));
  }

  /** Records older than the watermark do not influence the facts. */
  lemma {:induction false} OldLogsIgnored(logs: seq<WoonVeiligLog>, stale: WoonVeiligLog, watermark: Time)
    requires stale.logTime <= watermark
    ensures Reconcile([stale] + logs, watermark) == Reconcile(logs, watermark)
    ensures Reconcile(logs + [stale], watermark) == Reconcile(logs, watermark)
  {
    var isNew := After(watermark);
    assert ([stale] + logs)[1..] == logs && ([stale] + logs)[0] == stale;
    assert Filter([stale] + logs, isNew) == Filter(logs, isNew);
    FilterAppend(logs, [stale], isNew);
    assert Filter([stale], isNew) == [];
    assert Filter(logs + [stale], isNew) == Filter(logs, isNew);
  }

  /** With a new alarm record present, the alarm fact is "on" unless the last
      new disarm record is strictly later than the last new alarm record;
      equal times leave the alarm on. */
  lemma AlarmWithAlarmRecords(logs: seq<WoonVeiligLog>, watermark: Time, a: nat)
    requires IsLastWhere(logs, NewAlarm(watermark), a)
    ensures Reconcile(logs, watermark).alarm ==
      Some(!exists d :: IsLastWhere(logs, NewDisarm(watermark), d) && logs[d].logTime > logs[a].logTime)
  {
    ReconcileByPosition(logs, watermark);
    assert LastWhere(logs, NewAlarm(watermark)) == Some(a);
  }

  /** Without new alarm records, a new disarm record turns the alarm off and
      otherwise no alarm fact is produced. */
  lemma AlarmWithoutAlarmRecords(logs: seq<WoonVeiligLog>, watermark: Time)
    requires forall i :: 0 <= i < |logs| ==> !NewAlarm(watermark)(logs[i])
    ensures Reconcile(logs, watermark).alarm ==
      if exists i :: 0 <= i < |logs| && NewDisarm(watermark)(logs[i]) then Some(false) else None
  {
    ReconcileByPosition(logs, watermark);
  }

  /** The last new mode-change record alone decides the mode fact: its mode
      maps Arm, Home and Disarm to a state, anything else gives no fact,
      whatever earlier records say. */
  lemma StateFromLastModeChange(logs: seq<WoonVeiligLog>, watermark: Time, i: nat)
    requires IsLastWhere(logs, NewModeChange(watermark), i)
    ensures Reconcile(logs, watermark).state == ModeOf(logs[i].mode)
  {
    ReconcileByPosition(logs, watermark);
    assert LastWhere(logs, NewModeChange(watermark)) == Some(i);
  }

  // Records built by the classifier: every action is "Mode Changed", so the
  // timeout branch of the alarm test never holds, and the message decides:
  // the mode-change records are exactly the records without "Burglary".

  /** For classified rows, the alarm test is "the action mentions Burglary"
      and the mode-change test is its negation. */
  lemma ClassifiedTests(row: HisRow, year: nat, parseDate: DateParser, watermark: Time)
    ensures var log := ToLog(row, year, parseDate);
      && !(log.action == Timeout && log.msg == EntryTimeout)
      && (NewAlarm(watermark)(log) <==> log.logTime > watermark && Contains(row.a, Burglary))
      && (NewModeChange(watermark)(log) <==> log.logTime > watermark && !Contains(row.a, Burglary))
      && (NewDisarm(watermark)(log) <==> log.logTime > watermark && row.a == Disarm)
  {
    assert !Contains(Disarm, Burglary) by {
      ContainsLength(Disarm, Burglary);
    }
  }
}
