/** The Met Office WOW upload client: the report's timestamp, its payload,
    and the POST-and-retry protocol with its one reconnect path. The network
    is an oracle: respond(n) is what the n-th POST of the run meets, and the
    Wi-Fi status values are inputs. */
module MetofficeWow {
  import opened Common

  /** Retries made after a first POST that is not answered 201. */
  const MAX_RETRIES: nat := 3
  /** The status of a successful submission. */
  const CREATED: int := 201
  const NO_PAYLOAD_MESSAGE: string := "No temperature or payload for transmission..."
  const FAILED_MESSAGE: string := "WoW transmission failed"
  /** wlan.status() of a connected link. */
  const LINK_UP: int := 3

  // ---------------------------------------------------------------------
  // format_time

  /** One field of format_time: '0' before any value below 10. */
  function Pad(n: int): string {
    if n < 10 then "0" + IntToString(n) else IntToString(n)
  }

  /** The timestamp format_time builds: the first six fields of a local
      time, each padded, as "Y-M-DTh:m:s+00:00". */
  function Timestamp(t: seq<int>): string
    requires |t| >= 6
  {
    Pad(t[0]) + "-" + Pad(t[1]) + "-" + Pad(t[2]) + "T" + Pad(t[3]) + ":" + Pad(t[4])
      + ":" + Pad(t[5]) + "+" + "00:00"
  }

  /** The loop of metoffice_wow.format_time: every element of the local
      time, padded, in order. */
  method PadEach(utimeList: seq<int>) returns (formatted: seq<string>)
    ensures |formatted| == |utimeList|
    ensures forall j :: 0 <= j < |utimeList| ==> formatted[j] == Pad(utimeList[j])
  {
    formatted := [];
    for k := 0 to |utimeList|
      invariant |formatted| == k
      invariant forall j :: 0 <= j < k ==> formatted[j] == Pad(utimeList[j])
    {
      ghost var before := formatted;
      formatted := formatted + [Pad(utimeList[k])];
      assert forall j :: 0 <= j < k ==> formatted[j] == before[j];
    }
  }

  /** metoffice_wow.format_time: pads every element of the local time, then
      joins the first six. */
  method FormatTime(utimeList: seq<int>) returns (dtg: string)
    requires |utimeList| >= 6
    ensures dtg == Timestamp(utimeList)
  {
    var formatted := PadEach(utimeList);
    dtg := formatted[0] + "-" + formatted[1] + "-" + formatted[2] + "T" + formatted[3] + ":"
      + formatted[4] + ":" + formatted[5] + "+" + "00:00";
  }

  /** Where each field and separator lies in a timestamp whose fields have
      the widths 4, 2, 2, 2, 2, 2. */
  lemma TimestampLayout(a: string, b: string, c: string, d: string, e: string, f: string)
    requires |a| == 4 && |b| == 2 && |c| == 2 && |d| == 2 && |e| == 2 && |f| == 2
    ensures var s := a + "-" + b + "-" + c + "T" + d + ":" + e + ":" + f + "+" + "00:00";
      && |s| == 25 && s[4] == '-' && s[7] == '-' && s[10] == 'T' && s[13] == ':' && s[16] == ':'
      && s[..4] == a && s[5..7] == b && s[8..10] == c && s[11..13] == d && s[14..16] == e
      && s[17..19] == f && s[19..] == "+00:00"
  {
    var s := a + "-" + b + "-" + c + "T" + d + ":" + e + ":" + f + "+" + "00:00";
    assert s[..4] == a;
    assert s[5..7] == b;
    assert s[8..10] == c;
    assert s[11..13] == d;
    assert s[14..16] == e;
    assert s[17..19] == f;
    assert s[19..] == "+00:00";
  }

  /** A field in [0, 100) becomes exactly two digits that read back as it. */
  lemma PadTwoDigits(n: int)
    requires 0 <= n < 100
    ensures |Pad(n)| == 2 && AllDigits(Pad(n)) && DigitsValue(Pad(n)) == n
  {
    NatToStringWidth(n);
    NatToStringRoundTrip(n);
    if n < 10 {
      assert Pad(n) == ['0'] + NatToString(n);
      assert Pad(n)[..1] == "0";
    }
  }

  /** A four-digit year is written as it is. */
  lemma PadYear(y: int)
    requires 1000 <= y < 10000
    ensures |Pad(y)| == 4 && AllDigits(Pad(y)) && DigitsValue(Pad(y)) == y
  {
    NatToStringWidth(y);
    NatToStringRoundTrip(y);
  }

  /** Reads a "YYYY-MM-DDThh:mm:ss+00:00" timestamp back into its six fields. */
  function DecodeTime(s: string): Option<seq<int>> {
    if && |s| == 25 && s[4] == '-' && s[7] == '-' && s[10] == 'T'
       && s[13] == ':' && s[16] == ':' && s[19..] == "+00:00"
       && AllDigits(s[..4]) && AllDigits(s[5..7]) && AllDigits(s[8..10])
       && AllDigits(s[11..13]) && AllDigits(s[14..16]) && AllDigits(s[17..19])
    then
      Some([DigitsValue(s[..4]), DigitsValue(s[5..7]), DigitsValue(s[8..10]),
            DigitsValue(s[11..13]), DigitsValue(s[14..16]), DigitsValue(s[17..19])])
    else
      None
  }

  /** For a four-digit year and two-digit other fields, the timestamp has the
      ISO 8601 shape the API asks for, and it determines the six fields. */
  lemma TimestampDecodes(t: seq<int>)
    requires |t| >= 6 && 1000 <= t[0] < 10000
    requires forall k :: 1 <= k < 6 ==> 0 <= t[k] < 100
    ensures DecodeTime(Timestamp(t)) == Some(t[..6])
  {
    PadYear(t[0]);
    PadTwoDigits(t[1]);
    PadTwoDigits(t[2]);
    PadTwoDigits(t[3]);
    PadTwoDigits(t[4]);
    PadTwoDigits(t[5]);
    TimestampLayout(Pad(t[0]), Pad(t[1]), Pad(t[2]), Pad(t[3]), Pad(t[4]), Pad(t[5]));
    assert t[..6] == [t[0], t[1], t[2], t[3], t[4], t[5]];
  }

  /** The example of the source's own comment: 7 March 2024, 09:05:00. */
  lemma TimestampExample()
    ensures Timestamp([2024, 3, 7, 9, 5, 0, 3, 67]) == "2024-03-07T09:05:00+00:00"
  {
    PadExamples();
    var s := "2024" + "-" + "03" + "-" + "07" + "T" + "09" + ":" + "05" + ":" + "00" + "+" + "00:00";
    assert s == "2024-03-07T09:05:00+00:00";
  }

  lemma PadExamples()
    ensures Pad(2024) == "2024" && Pad(3) == "03" && Pad(7) == "07"
    ensures Pad(9) == "09" && Pad(5) == "05" && Pad(0) == "00"
  {
    assert NatToString(20) == "20";
    assert NatToString(202) == "202";
  }

  // ---------------------------------------------------------------------
  // The payload

  /** A JSON value of the payload; a temperature is in tenths of a degree. */
  datatype Json = Null | Str(s: string) | Num(n: int) | Tenths(t: int)

  /** The fields of a WOW observation report. */
  datatype Key =
    | ReportStartDateTime | ReportEndDateTime | SiteId | SiteAuthenticationKey
    | IsPublic | IsLatestVersion | DryBulbTemperature | AirTemperatureMax
    | AirTemperatureMin | CollectionName | ObservationType

  /** The JSON name of each field. */
  function KeyName(k: Key): string {
    match k
    case ReportStartDateTime => "reportStartDateTime"
    case ReportEndDateTime => "reportEndDateTime"
    case SiteId => "siteId"
    case SiteAuthenticationKey => "siteAuthenticationKey"
    case IsPublic => "isPublic"
    case IsLatestVersion => "isLatestVersion"
    case DryBulbTemperature => "dryBulbTemperature_Celsius"
    case AirTemperatureMax => "airTemperatureMax_Celsius"
    case AirTemperatureMin => "airTemperatureMin_Celsius"
    case CollectionName => "collectionName"
    case ObservationType => "observationType"
  }

  /** The dictionary send_wow serialises with json.dumps. */
  type Payload = map<Key, Json>

  /** The JSON form of a temperature argument that may be None. */
  function TempJson(t: Option<int>): Json {
    match t
    case Some(v) => Tenths(v)
    case None => Null
  }

  /** The fields every report carries. */
  const BASE_KEYS: set<Key> := {ReportStartDateTime, ReportEndDateTime, SiteId, SiteAuthenticationKey,
                                IsPublic, IsLatestVersion, DryBulbTemperature, CollectionName, ObservationType}

  /** The dictionary send_wow builds: both report times are the formatted
      local time, the temperature is null when absent, and the daily maximum
      and minimum are present exactly when given. */
  function Report(dtg: string, siteId: string, authKey: string,
                  tempc: Option<int>, maxT: Option<int>, minT: Option<int>): (data: Payload)
    ensures data.Keys == BASE_KEYS + (if maxT.Some? then {AirTemperatureMax} else {})
                                   + (if minT.Some? then {AirTemperatureMin} else {})
  {
    var required := map[ReportStartDateTime := Str(dtg), ReportEndDateTime := Str(dtg),
                        SiteId := Str(siteId), SiteAuthenticationKey := Str(authKey),
                        IsPublic := Str("true"), IsLatestVersion := Str("true"),
                        DryBulbTemperature := TempJson(tempc),
                        CollectionName := Num(1), ObservationType := Num(1)];
    var withMax := if maxT.Some? then required[AirTemperatureMax := Tenths(maxT.value)] else required;
    if minT.Some? then withMax[AirTemperatureMin := Tenths(minT.value)] else withMax
  }

  /** The report covers the single instant dtg and names the site and its
      authentication key. */
  lemma ReportIdentity(dtg: string, siteId: string, authKey: string,
                       tempc: Option<int>, maxT: Option<int>, minT: Option<int>)
    ensures var data := Report(dtg, siteId, authKey, tempc, maxT, minT);
      && data[ReportStartDateTime] == data[ReportEndDateTime] == Str(dtg)
      && data[SiteId] == Str(siteId) && data[SiteAuthenticationKey] == Str(authKey)
  {
  }

  /** The temperature (null when absent) and the fixed flags and codes. */
  lemma ReportObservation(dtg: string, siteId: string, authKey: string,
                          tempc: Option<int>, maxT: Option<int>, minT: Option<int>)
    ensures var data := Report(dtg, siteId, authKey, tempc, maxT, minT);
      && data[DryBulbTemperature] == TempJson(tempc)
      && data[IsPublic] == data[IsLatestVersion] == Str("true")
      && data[CollectionName] == data[ObservationType] == Num(1)
  {
  }

  /** The daily maximum and minimum, when given, are sent in tenths. */
  lemma ReportExtremes(dtg: string, siteId: string, authKey: string,
                       tempc: Option<int>, maxT: Option<int>, minT: Option<int>)
    ensures var data := Report(dtg, siteId, authKey, tempc, maxT, minT);
      && (maxT.Some? ==> data[AirTemperatureMax] == Tenths(maxT.value))
      && (minT.Some? ==> data[AirTemperatureMin] == Tenths(minT.value))
  {
  }

  // ---------------------------------------------------------------------
  // The POST-and-retry block

  /** What one POST meets: a response with its status code, or an exception
      from the transport. */
  datatype PostOutcome = Status(code: int) | TransportError

  /** How a POST-and-retry block ends, with the number of POSTs it made:
      with a status, or with an exception from its last POST. */
  datatype RetryEnd = Done(code: int, posts: nat) | Raised(posts: nat)

  function Shift(e: RetryEnd, n: nat): RetryEnd {
    match e
    case Done(c, p) => Done(c, p + n)
    case Raised(p) => Raised(p + n)
  }

  /** The block that starts with POST number i: one POST, then while the
      status is not 201 and retries are left, another. */
  function RunRetries(respond: nat -> PostOutcome, i: nat, retriesLeft: nat): RetryEnd
    decreases retriesLeft
  {
    match respond(i)
    case TransportError => Raised(1)
    case Status(c) =>
      if c == CREATED || retriesLeft == 0 then Done(c, 1)
      else Shift(RunRetries(respond, i + 1, retriesLeft - 1), 1)
  }

  /** A block makes at least one POST and at most 1 + retriesLeft. */
  lemma {:induction false} RetriesBounded(respond: nat -> PostOutcome, i: nat, retriesLeft: nat)
    ensures 1 <= RunRetries(respond, i, retriesLeft).posts <= retriesLeft + 1
    decreases retriesLeft
  {
    match respond(i)
    case TransportError =>
    case Status(c) =>
      if c != CREATED && retriesLeft > 0 {
        RetriesBounded(respond, i + 1, retriesLeft - 1);
      }
  }

  /** The block stops at the first 201, at the first exception, or when the
      retries run out, and reports the status of its last POST: every POST
      before the last was answered with a status other than 201. */
  lemma {:induction false} RetriesStop(respond: nat -> PostOutcome, i: nat, retriesLeft: nat)
    ensures var e := RunRetries(respond, i, retriesLeft);
      && 1 <= e.posts
      && (forall j :: i <= j < i + e.posts - 1 ==> respond(j).Status? && respond(j).code != CREATED)
      && (e.Done? ==> respond(i + e.posts - 1) == Status(e.code) && (e.code == CREATED || e.posts == retriesLeft + 1))
      && (e.Raised? ==> respond(i + e.posts - 1) == TransportError)
    decreases retriesLeft
  {
    match respond(i)
    case TransportError =>
    case Status(c) =>
      if c != CREATED && retriesLeft > 0 {
        RetriesStop(respond, i + 1, retriesLeft - 1);
      }
  }

  // ---------------------------------------------------------------------
  // send_wow as a whole

  /** What send_wow returns: a string, None (its except branch falls through
      without a return), or an exception escaping it. */
  datatype SendResult = Text(s: string) | NoneReturned | SendRaised

  /** The result, the number of POSTs and whether a reconnect was made. */
  datatype SendOutcome = SendOutcome(result: SendResult, posts: nat, reconnected: bool)

  /** send_wow when its first POST is POST number first, the link reports
      statusOnError once a POST has raised, and statusAfterConnect after the
      reconnect. */
  function Send(respond: nat -> PostOutcome, first: nat, tempc: Option<int>,
                statusOnError: int, statusAfterConnect: int): SendOutcome
  {
    if tempc.None? then SendOutcome(Text(NO_PAYLOAD_MESSAGE), 0, false)
    else
      match RunRetries(respond, first, MAX_RETRIES)
      case Done(c, n) => SendOutcome(Text(IntToString(c)), n, false)
      case Raised(n) =>
        if statusOnError < 0 || statusOnError >= LINK_UP then
          if statusAfterConnect == LINK_UP then
            match RunRetries(respond, first + n, MAX_RETRIES)
            case Done(c, m) => SendOutcome(Text(IntToString(c)), n + m, true)
            case Raised(m) => SendOutcome(SendRaised, n + m, true)
          else
            SendOutcome(Text(FAILED_MESSAGE), n, true)
        else
          SendOutcome(NoneReturned, n, false)
  }

  /** Without a temperature nothing is posted and the fixed message returns. */
  lemma SendWithoutTemperature(respond: nat -> PostOutcome, first: nat, s1: int, s2: int)
    ensures Send(respond, first, None, s1, s2) == SendOutcome(Text(NO_PAYLOAD_MESSAGE), 0, false)
  {
  }

  /** When no POST raises, at most 1 + MAX_RETRIES = 4 POSTs are made and the
      result is the text of the last status, 201 if the last one succeeded. */
  lemma SendNormalPath(respond: nat -> PostOutcome, first: nat, t: int, s1: int, s2: int)
    requires forall j :: first <= j < first + MAX_RETRIES + 1 ==> respond(j).Status?
    ensures var o := Send(respond, first, Some(t), s1, s2);
      && 1 <= o.posts <= MAX_RETRIES + 1 && !o.reconnected
      && o.result == Text(IntToString(respond(first + o.posts - 1).code))
      && (forall j :: first <= j < first + o.posts - 1 ==> respond(j).code != CREATED)
      && (respond(first + o.posts - 1).code == CREATED || o.posts == MAX_RETRIES + 1)
  {
    RetriesBounded(respond, first, MAX_RETRIES);
    RetriesStop(respond, first, MAX_RETRIES);
  }

  /** A reconnect is tried exactly when a POST raised and the status then is
      negative or at least 3; a status of 0, 1 or 2 makes send_wow return
      None. At most one reconnect and at most 2 * (1 + MAX_RETRIES) POSTs. */
  lemma SendReconnect(respond: nat -> PostOutcome, first: nat, t: int, s1: int, s2: int)
    ensures var o := Send(respond, first, Some(t), s1, s2);
      var e := RunRetries(respond, first, MAX_RETRIES);
      && (o.reconnected <==> e.Raised? && (s1 < 0 || s1 >= LINK_UP))
      && (o.result == NoneReturned <==> e.Raised? && 0 <= s1 < LINK_UP)
      && (o.result == Text(FAILED_MESSAGE) <==> o.reconnected && s2 != LINK_UP)
      && o.posts <= 2 * (MAX_RETRIES + 1)
  {
    RetriesBounded(respond, first, MAX_RETRIES);
    var e := RunRetries(respond, first, MAX_RETRIES);
    RetriesBounded(respond, first + e.posts, MAX_RETRIES);
    if e.Done? {
      IntToStringNotFailed(e.code);
    } else if (s1 < 0 || s1 >= LINK_UP) && s2 == LINK_UP {
      var e2 := RunRetries(respond, first + e.posts, MAX_RETRIES);
      if e2.Done? {
        IntToStringNotFailed(e2.code);
      }
    }
  }

  /** No status code prints as the failure message. */
  lemma IntToStringNotFailed(c: int)
    ensures IntToString(c) != FAILED_MESSAGE
  {
    assert FAILED_MESSAGE[0] == 'W';
  }

  /** Three 500s then a 201 give "201" after four POSTs. */
  lemma SendRetriesUntilCreated(first: nat, t: int, s1: int, s2: int)
    ensures var respond := (j: nat) => if j < first + 3 then Status(500) else Status(201);
      Send(respond, first, Some(t), s1, s2) == SendOutcome(Text("201"), 4, false)
  {
    var respond := (j: nat) => if j < first + 3 then Status(500) else Status(201);
    assert RunRetries(respond, first + 3, 0) == Done(201, 1);
    assert RunRetries(respond, first, MAX_RETRIES) == Done(201, 4);
    assert NatToString(201) == "201" by {
      assert NatToString(20) == "20";
    }
  }

  /** Four failures give the last status, not an exception. */
  lemma SendGivesUpAfterRetries(first: nat, t: int, s1: int, s2: int)
    ensures var respond := (j: nat) => if j < first + 3 then Status(500) else Status(503);
      Send(respond, first, Some(t), s1, s2) == SendOutcome(Text("503"), 4, false)
  {
    var respond := (j: nat) => if j < first + 3 then Status(500) else Status(503);
    assert RunRetries(respond, first + 3, 0) == Done(503, 1);
    assert RunRetries(respond, first, MAX_RETRIES) == Done(503, 4);
    assert NatToString(503) == "503" by {
      assert NatToString(50) == "50";
    }
  }

  // ---------------------------------------------------------------------
  // The client

  /** after is before followed by n copies of data. */
  ghost predicate Appended(before: seq<Payload>, after: seq<Payload>, data: Payload, n: nat) {
    && |after| == |before| + n && after[..|before|] == before
    && forall k :: |before| <= k < |after| ==> after[k] == data
  }

  lemma AppendOne(before: seq<Payload>, after: seq<Payload>, data: Payload, n: nat)
    requires Appended(before, after, data, n)
    ensures Appended(before, after + [data], data, n + 1)
  {
    assert (after + [data])[..|before|] == after[..|before|];
  }

  lemma AppendBoth(before: seq<Payload>, mid: seq<Payload>, after: seq<Payload>, data: Payload, n: nat, m: nat)
    requires Appended(before, mid, data, n) && Appended(mid, after, data, m)
    ensures Appended(before, after, data, n + m)
  {
    assert after[..|before|] == mid[..|mid|][..|before|];
  }

  /** The block that starts at POST i ends at POST i + n when the POSTs
      before it were answered with a status other than 201, and POST i + n
      raises, is answered 201, or is the last one the retries allow. */
  lemma {:induction false} RetriesEndAt(respond: nat -> PostOutcome, i: nat, retriesLeft: nat, n: nat)
    requires n <= retriesLeft
    requires forall j :: i <= j < i + n ==> respond(j).Status? && respond(j).code != CREATED
    requires respond(i + n).TransportError? || respond(i + n).code == CREATED || n == retriesLeft
    ensures RunRetries(respond, i, retriesLeft)
         == match respond(i + n)
            case TransportError => Raised(n + 1)
            case Status(c) => Done(c, n + 1)
    decreases n
  {
    if n > 0 {
      RetriesEndAt(respond, i + 1, retriesLeft - 1, n - 1);
    }
  }

  /** The link to the WOW API: what each POST will meet, every payload
      posted so far, and the reconnects made. */
  class WowClient {
    const respond: nat -> PostOutcome
    var posted: seq<Payload>
    var reconnects: nat

    constructor (respond: nat -> PostOutcome)
      ensures this.respond == respond && posted == [] && reconnects == 0
    {
      this.respond := respond;
      posted := [];
      reconnects := 0;
    }

    /** requests.post of one payload. */
    method Post(data: Payload) returns (o: PostOutcome)
      modifies this
      ensures posted == old(posted) + [data] && reconnects == old(reconnects)
      ensures o == respond(|old(posted)|)
    {
      o := respond(|posted|);
      posted := posted + [data];
    }

    /** One POST, then up to MAX_RETRIES more while the status is not 201;
        a POST that raises ends the block. */
    method PostWithRetries(data: Payload) returns (e: RetryEnd)
      modifies this
      ensures e == RunRetries(respond, |old(posted)|, MAX_RETRIES)
      ensures Appended(old(posted), posted, data, e.posts) && reconnects == old(reconnects)
    {
      ghost var first := |posted|;
      var numberRetries: nat := 0;
      var response := Post(data);
      AppendOne(old(posted), old(posted), data, 0);
      if response.TransportError? {
        RetriesEndAt(respond, first, MAX_RETRIES, 0);
        return Raised(1);
      }
      while response.code != CREATED && numberRetries < MAX_RETRIES
        decreases MAX_RETRIES - numberRetries
        invariant numberRetries <= MAX_RETRIES && response.Status?
        invariant response == respond(first + numberRetries)
        invariant forall j :: first <= j < first + numberRetries ==> respond(j).Status? && respond(j).code != CREATED
        invariant Appended(old(posted), posted, data, numberRetries + 1)
        invariant reconnects == old(reconnects)
      {
        AppendOne(old(posted), posted, data, numberRetries + 1);
        response := Post(data);
        numberRetries := numberRetries + 1;
        if response.TransportError? {
          RetriesEndAt(respond, first, MAX_RETRIES, numberRetries);
          return Raised(numberRetries + 1);
        }
      }
      RetriesEndAt(respond, first, MAX_RETRIES, numberRetries);
      e := Done(response.code, numberRetries + 1);
    }

    /** The try/except block of send_wow, posting data, with statusOnError
        the link status once a POST has raised and statusAfterConnect the
        status after the reconnect. */
    method Transmit(data: Payload, tempc: Option<int>, statusOnError: int, statusAfterConnect: int)
      returns (r: SendResult)
      modifies this
      ensures var o := Send(respond, |old(posted)|, tempc, statusOnError, statusAfterConnect);
        && r == o.result
        && Appended(old(posted), posted, data, o.posts)
        && reconnects == old(reconnects) + (if o.reconnected then 1 else 0)
    {
      ghost var first := |posted|;
      ghost var o := Send(respond, first, tempc, statusOnError, statusAfterConnect);
      if tempc.None? {
        assert posted[..|old(posted)|] == posted;
        return Text(NO_PAYLOAD_MESSAGE);
      }
      var e := PostWithRetries(data);
      ghost var mid := posted;
      if e.Done? {
        return Text(IntToString(e.code));
      }
      // the except branch
      if statusOnError < 0 || statusOnError >= LINK_UP {
        reconnects := reconnects + 1;
        if statusAfterConnect == LINK_UP {
          var e2 := PostWithRetries(data);
          AppendBoth(old(posted), mid, posted, data, e.posts, e2.posts);
          r := if e2.Done? then Text(IntToString(e2.code)) else SendRaised;
        } else {
          r := Text(FAILED_MESSAGE);
        }
      } else {
        r := NoneReturned;
      }
    }

    /** metoffice_wow.send_wow at local time localtime: the report is built
        once and posted as Transmit describes. */
    method SendWow(localtime: seq<int>, siteId: string, authKey: string,
                   tempc: Option<int>, maxT: Option<int>, minT: Option<int>,
                   statusOnError: int, statusAfterConnect: int) returns (r: SendResult)
      requires |localtime| >= 6
      modifies this
      ensures var o := Send(respond, |old(posted)|, tempc, statusOnError, statusAfterConnect);
        && r == o.result
        && Appended(old(posted), posted, Report(Timestamp(localtime), siteId, authKey, tempc, maxT, minT), o.posts)
        && reconnects == old(reconnects) + (if o.reconnected then 1 else 0)
    {
      var dtg := FormatTime(localtime);
      var data := Report(dtg, siteId, authKey, tempc, maxT, minT);
      r := Transmit(data, tempc, statusOnError, statusAfterConnect);
    }
  }
}
