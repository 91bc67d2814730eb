/** The row classifier of the repository (`reformattime`, `defineAction`,
    `defineMsg`) and the mapping of a `hisrows` entry to a log record. */
module Classifier {
  import opened Wrappers
  import opened Text
  import opened LogDecoder

  /** A point in time (`Date`), abstractly: the code only compares times. */
  type Time = int

  /** `new Date(text)`: the platform's date parser. */
  type DateParser = string -> Time

  const ModeChanged: string := "Mode Changed"
  const UnknownAction: string := "unknown"
  const Success: string := "Success"
  const BurglarAlarm: string := "Burglar Alarm"
  const Burglary: string := "Burglary"

  /** A log record (`WoonVeiligLog`) as the repository builds it from a row. */
  datatype WoonVeiligLog = WoonVeiligLog(
    action: string,
    area: string,
    deviceType: string,
    logTime: Time,
    mode: string,
    msg: string,
    source: string,
    user: string)

  /** JavaScript truthiness of a string value. */
  predicate Truthy(s: string)
  {
    |s| > 0
  }

  /** `defineAction`: its test is `action == "Arm" || "Disarm" || "Home"`,
      where the second and third operands are non-empty string literals and
      so truthy; every action is classified "Mode Changed" and "unknown"
      is unreachable. */
  function DefineAction(action: string): (r: string)
    ensures r == ModeChanged
    ensures r != UnknownAction
  {
    if action == "Arm" || Truthy("Disarm") || Truthy("Home") then ModeChanged else UnknownAction
  }

  /** `defineMsg`: "Burglar Alarm" exactly when the action mentions
      "Burglary", otherwise "Success". */
  function DefineMsg(action: string): (r: string)
    ensures r == BurglarAlarm <==> Contains(action, Burglary)
    ensures r == Success <==> !Contains(action, Burglary)
  {
    if Contains(action, Burglary) then BurglarAlarm else Success
  }

  /** Position of the first '/' of a date, or its length when it has none. */
  function FirstSlash(date: string): nat
  {
    match FindFirst(date, "/")
    case Some(k) => k
    case None => |date|
  }

  /** Replacing the first '/' by '-' changes that one character only. */
  lemma SlashReplaced(date: string)
    ensures var newDate := ReplaceFirst(date, "/", "-");
      |newDate| == |date| &&
      forall i :: 0 <= i < |date| ==> newDate[i] == if i == FirstSlash(date) then '-' else date[i]
  {
    match FindFirst(date, "/")
    case None =>
    case Some(k) =>
      assert OccursAt(date, "/", k);
  }

  /** `reformattime`: `year + "-" + date.replace("/", "-") + "T" + time + ":00"`,
      with the current year (`new Date().getFullYear()`) as a parameter. */
  function ReformatTime(year: nat, date: string, time: string): (r: string)
    ensures var y := NatToDecimal(year);
      var dateAt := |y| + 1;
      var timeAt := dateAt + |date| + 1;
      && |r| == timeAt + |time| + 3
      && r[..|y|] == y && r[|y|] == '-'
      && (forall i :: 0 <= i < |date| ==>
            r[dateAt + i] == if i == FirstSlash(date) then '-' else date[i])
      && r[timeAt - 1] == 'T'
      && r[timeAt..timeAt + |time|] == time
      && r[timeAt + |time|..] == ":00"
  {
    var y := NatToDecimal(year);
    var newDate := ReplaceFirst(date, "/", "-");
    SlashReplaced(date);
    var r := y + "-" + newDate + "T" + (time + ":00");
    assert r[|y| + 1..|y| + 1 + |date|] == newDate;
    r
  }

  /** The `logRows.map` callback: one row becomes one log record. */
  function ToLog(row: HisRow, year: nat, parseDate: DateParser): (log: WoonVeiligLog)
    ensures log.action == ModeChanged
    ensures log.msg == BurglarAlarm <==> Contains(row.a, Burglary)
    ensures log.msg == Success <==> !Contains(row.a, Burglary)
    ensures log.mode == row.a
    ensures log.logTime == parseDate(ReformatTime(year, row.d, row.t))
  {
    WoonVeiligLog(
      action := DefineAction(row.a),
      area := "1",
      deviceType := row.a,
      logTime := parseDate(ReformatTime(year, row.d, row.t)),
      mode := row.a,
      msg := DefineMsg(row.a),
      source := row.s,
      user := "admin")
  }

  /** All rows, classified in their original order. */
  function ToLogs(rows: seq<HisRow>, year: nat, parseDate: DateParser): (logs: seq<WoonVeiligLog>)
    ensures |logs| == |rows|
    ensures forall i :: 0 <= i < |rows| ==> logs[i] == ToLog(rows[i], year, parseDate)
  {
    seq(|rows|, i requires 0 <= i < |rows| => ToLog(rows[i], year, parseDate))
  }
}
