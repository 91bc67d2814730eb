/** `WoonVeiligRepository`: the commands it sends to the alarm panel and the
    poll of the panel's history. The panel's HTTP replies are parameters: a
    reply per request, or the failure of the request itself. */
module Repository {
  import opened Wrappers
  import opened Text
  import opened AlarmStates
  import opened BasicAuth
  import opened UriEncoding
  import opened LogDecoder
  import opened Classifier
  import opened Reconciler

  /** `WoonVeiligSettings`: where the panel is and how to log in. */
  datatype Settings = Settings(ipaddress: string, username: string, password: string)

  /** What a request carries besides the fixed browser-like headers. */
  datatype Request = Request(verb: string, url: string, authorization: string, contentType: string, body: Option<string>)

  /** The panel's answer to a request: a response with status and text, or a
      rejected `fetch` (after its own retries). */
  datatype Reply = Response(status: int, text: string) | NetworkFailure

  /** Why a poll throws instead of returning a watermark. */
  datatype PollError = NetworkError | MalformedLog

  /** A completed poll: the watermark it returns and the facts it hands to the
      `alarm-changed` and `state-changed` listeners. */
  datatype Poll = Poll(watermark: Time, facts: Facts)

  /** The two events a repository reports to the callbacks registered for
      them. */
  datatype EventType = StateChanged | AlarmChanged

  const Scheme: string := "http://"
  const PanelCondPost: string := "/action/panelCondPost"
  const HistoryGet: string := "/action/historyGet"
  const FormContentType: string := "application/x-www-form-urlencoded;charset=UTF-8"
  const ModeKey: string := "mode"
  /** The text a successful command reply contains. */
  const ResultOk: string := "result : 1"
  /** The number of attempts `setState` makes at most. */
  const MaxAttempts: nat := 3

  /** The mode rotation at the top of `setState`'s loop: 1 becomes 0, 0
      becomes 2 and 2 becomes 1, i.e. the code goes down by one modulo 3. */
  function Rotate(s: AlarmState): (r: AlarmState)
    ensures r.Code() == (s.Code() + 2) % 3
  {
    match s
    case Armed => Disarmed
    case Disarmed => PartiallyArmed
    case PartiallyArmed => Armed
  }

  /** No mode is sent as itself. */
  lemma RotateNoFixedPoint(s: AlarmState)
    ensures Rotate(s) != s
  {
  }

  /** The rotation is a bijection on the three modes. */
  lemma RotateBijective(s: AlarmState, t: AlarmState)
    ensures Rotate(s) == Rotate(t) ==> s == t
    ensures exists u :: Rotate(u) == t
  {
    assert Rotate(Rotate(Rotate(t))) == t;
  }

  /** Rotating three times gives the mode back. */
  lemma RotateThrice(s: AlarmState)
    ensures Rotate(Rotate(Rotate(s))) == s
  {
  }

  /** The form fields of the command for a mode: the rotated code. */
  function CommandDetails(state: AlarmState): seq<(string, string)>
  {
    [(ModeKey, NatToDecimal(Rotate(state).Code()))]
  }

  /** The command body is `mode=` followed by the single digit of the
      rotated code, and different modes give different bodies. */
  lemma CommandBody(state: AlarmState, other: AlarmState)
    ensures FormBody(CommandDetails(state)) == ModeKey + "=" + [Digit(Rotate(state).Code())]
    ensures FormBody(CommandDetails(state)) == FormBody(CommandDetails(other)) ==> state == other
  {
    var code := Rotate(state).Code();
    assert NatToDecimal(code) == [Digit(code)];
    SingleFieldBody(ModeKey, NatToDecimal(code));
    var otherCode := Rotate(other).Code();
    assert NatToDecimal(otherCode) == [Digit(otherCode)];
    SingleFieldBody(ModeKey, NatToDecimal(otherCode));
    if FormBody(CommandDetails(state)) == FormBody(CommandDetails(other)) {
      assert (ModeKey + "=" + [Digit(code)])[5] == (ModeKey + "=" + [Digit(otherCode)])[5];
      RotateBijective(state, other);
    }
  }

  /** The success test of `fetchPlus` on a completed request. */
  predicate IsSuccess(reply: Reply)
  {
    reply.Response? && reply.status == 200 && Contains(reply.text, ResultOk)
  }

  /** `fetchPlus` on the reply it received: `true` for a status 200 whose text
      contains "result : 1", `false` for any other response, and a thrown
      error when the request itself failed. */
  function FetchPlus(reply: Reply): (r: Result<bool, PollError>)
    ensures r.Err? <==> reply.NetworkFailure?
    ensures r == Ok(true) <==>
      reply.Response? && reply.status == 200 && exists k :: OccursAt(reply.text, ResultOk, k)
  {
    if reply.NetworkFailure? then Err(NetworkError)
    else
      ContainsIff(reply.text, ResultOk);
      Ok(IsSuccess(reply))
  }

  /** A response that `fetchPlus` reports as unsuccessful: one more attempt
      is spent. */
  predicate Rejected(reply: Reply)
  {
    FetchPlus(reply) == Ok(false)
  }

  /** The outcome of a poll, from the reply to its history request: it
      throws when the request fails or the history does not parse, and only
      a status 200 with at least one row moves the watermark or produces a
      fact. */
  function PollOutcome(lastLogDate: Time, reply: Reply, parse: JsonParser, year: nat, parseDate: DateParser): (r: Result<Poll, PollError>)
    ensures r == Err(NetworkError) <==> reply.NetworkFailure?
    ensures r == Err(MalformedLog) <==>
      reply.Response? && reply.status == 200 && parse(Normalised(reply.text)).None?
    ensures r.Ok? && (r.value.watermark != lastLogDate || r.value.facts != NoFacts) ==>
      && reply.Response? && reply.status == 200
      && parse(Normalised(reply.text)).Some? && parse(Normalised(reply.text)).value != []
  {
    if reply.NetworkFailure? then Err(NetworkError)
    else if reply.status != 200 then Ok(Poll(lastLogDate, NoFacts))
    else
      match parse(Normalised(reply.text))
      case None => Err(MalformedLog)
      case Some(rows) =>
        if rows == [] then Ok(Poll(lastLogDate, NoFacts))
        else
          var logs := ToLogs(rows, year, parseDate);
          Ok(Poll(logs[0].logTime, Reconcile(logs, lastLogDate)))
  }

  /** A poll whose reply is not a status 200, or whose history is empty,
      returns the watermark it was given and produces no fact. */
  lemma PollKeepsWatermark(lastLogDate: Time, reply: Reply, parse: JsonParser, year: nat, parseDate: DateParser)
    requires reply.Response?
    requires reply.status != 200 || parse(Normalised(reply.text)) == Some([])
    ensures PollOutcome(lastLogDate, reply, parse, year, parseDate) == Ok(Poll(lastLogDate, NoFacts))
  {
  }

  /** Otherwise the returned watermark is the time of the first row the panel
      listed, with the facts reconciled against the old watermark. */
  lemma PollTakesFirstRow(lastLogDate: Time, reply: Reply, parse: JsonParser, year: nat, parseDate: DateParser)
    requires reply.Response? && reply.status == 200
    requires parse(Normalised(reply.text)).Some? && parse(Normalised(reply.text)).value != []
    ensures var rows := parse(Normalised(reply.text)).value;
      var r := PollOutcome(lastLogDate, reply, parse, year, parseDate);
      && r.Ok?
      && r.value.watermark == parseDate(ReformatTime(year, rows[0].d, rows[0].t))
      && r.value.facts == Reconcile(ToLogs(rows, year, parseDate), lastLogDate)
  {
  }

  /** Nothing keeps the watermark from going back: a first row older than
      the watermark becomes the new watermark. */
  lemma WatermarkCanGoBack()
    ensures var row := HisRow("01/02", "10:00", "Arm", "panel");
      var reply := Response(200, "");
      var parse: JsonParser := _ => Some([row]);
      var parseDate: DateParser := _ => 5;
      PollOutcome(7, reply, parse, 2024, parseDate) == Ok(Poll(5, NoFacts))
  {
    var row := HisRow("01/02", "10:00", "Arm", "panel");
    var parseDate: DateParser := _ => 5;
    var logs := ToLogs([row], 2024, parseDate);
    NoNewLogsNoFacts(logs, 7);
  }

  /** When the panel lists its newest row first, the watermark a poll
      returns lies at or after every row, so polling the same history again
      from it produces no fact and keeps the watermark. */
  lemma RepeatedPollIsQuiet(lastLogDate: Time, reply: Reply, parse: JsonParser, year: nat, parseDate: DateParser)
    requires reply.Response? && reply.status == 200
    requires parse(Normalised(reply.text)).Some?
    requires var logs := ToLogs(parse(Normalised(reply.text)).value, year, parseDate);
      forall i :: 0 <= i < |logs| ==> logs[i].logTime <= logs[0].logTime
    ensures var first := PollOutcome(lastLogDate, reply, parse, year, parseDate);
      first.Ok? && PollOutcome(first.value.watermark, reply, parse, year, parseDate) == Ok(Poll(first.value.watermark, NoFacts))
  {
    var rows := parse(Normalised(reply.text)).value;
    if rows != [] {
      var logs := ToLogs(rows, year, parseDate);
      NoNewLogsNoFacts(logs, logs[0].logTime);
    }
  }

  class WoonVeiligRepository {
    const configuration: Settings
    const authorizationHeader: string
    /** The event of each callback registered with `on`, in the order of
        registration; a poll's facts go to the callbacks of their event. */
    var listeners: seq<EventType>

    /** The repository for a panel, with its `Authorization` header and no
        callbacks registered. */
    constructor(configuration: Settings)
      ensures this.configuration == configuration
      ensures authorizationHeader == AuthorizationHeader(configuration.username, configuration.password)
      ensures listeners == []
    {
      this.configuration := configuration;
      authorizationHeader := AuthorizationHeader(configuration.username, configuration.password);
      listeners := [];
    }

    /** `on`: one more callback for `eventType`. */
    method On(eventType: EventType)
      modifies this
      ensures listeners == old(listeners) + [eventType]
    {
      listeners := listeners + [eventType];
    }

    /** `getUrl`: the panel's address, over plain HTTP, followed by the route. */
    function GetUrl(route: string): (url: string)
      ensures StartsWith(url, Scheme)
      ensures url[|Scheme|..] == configuration.ipaddress + route
    {
      Scheme + configuration.ipaddress + route
    }

    /** The request `setState` posts for a mode. */
    function CommandRequest(state: AlarmState): Request
    {
      Request("post", GetUrl(PanelCondPost), authorizationHeader, FormContentType,
              Some(FormBody(CommandDetails(state))))
    }

    /** The request `processLastLogs` sends. */
    function HistoryRequest(): Request
    {
      Request("get", GetUrl(HistoryGet), authorizationHeader, FormContentType, None)
    }

    /** `setState`: the mode is rotated once (the `for` loop leaves through its
        `break` after the first pass), and the same command is posted until a
        reply succeeds or three replies have been rejected. The `n`-th request
        receives `panel(n)`; a failed request ends the call with an error.
        Nothing is returned to the caller. */
    method SetState(state: AlarmState, panel: nat -> Reply) returns (sent: seq<Request>, threw: bool)
      ensures 1 <= |sent| <= MaxAttempts
      ensures forall j :: 0 <= j < |sent| ==> sent[j] == CommandRequest(state)
      ensures forall j: nat :: j < |sent| - 1 ==> Rejected(panel(j))
      ensures |sent| < MaxAttempts ==> !Rejected(panel(|sent| - 1))
      ensures threw <==> panel(|sent| - 1).NetworkFailure?
    {
      var repeat := MaxAttempts;
      var mode := Rotate(state);
      var body := GetFormBody([(ModeKey, NatToDecimal(mode.Code()))]);
      var request := Request("post", GetUrl(PanelCondPost), authorizationHeader, FormContentType, Some(body));
      sent := [];
      threw := false;
      while true
        invariant 0 < repeat <= MaxAttempts && |sent| == MaxAttempts - repeat
        invariant forall j :: 0 <= j < |sent| ==> sent[j] == request
        invariant forall j: nat :: j < |sent| ==> Rejected(panel(j))
        decreases repeat
      {
        var response := FetchPlus(panel(|sent|));
        sent := sent + [request];
        if response.Err? {
          threw := true;
          return;
        }
        if response.value == true {
          repeat := 0;
        }
        if response.value == false {
          repeat := repeat - 1;
        }
        if !(repeat > 0) {
          break;
        }
      }
    }

    /** `processLastLogs`: fetch the history, normalise and parse it, classify
        its rows and reconcile them against the watermark. */
    method ProcessLastLogs(lastLogDate: Time, reply: Reply, parse: JsonParser, year: nat, parseDate: DateParser)
      returns (request: Request, r: Result<Poll, PollError>)
      ensures request == HistoryRequest()
      ensures r == PollOutcome(lastLogDate, reply, parse, year, parseDate)
    {
      request := Request("get", GetUrl(HistoryGet), authorizationHeader, FormContentType, None);
      if reply.NetworkFailure? {
        return request, Err(NetworkError);
      }
      if reply.status != 200 {
        return request, Ok(Poll(lastLogDate, NoFacts));
      }
      var logRows, _ := ProcessCrappyJson(reply.text, parse);
      if logRows.None? {
        return request, Err(MalformedLog);
      }
      var rows := logRows.value;
      if |rows| == 0 {
        return request, Ok(Poll(lastLogDate, NoFacts));
      }
      var logs := ToLogs(rows, year, parseDate);
      var facts := Reconcile(logs, lastLogDate);
      r := Ok(Poll(logs[0].logTime, facts));
    }
  }
}
