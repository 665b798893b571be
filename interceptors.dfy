/** The response interceptor: every handler result is wrapped as
    `{ data, success, message }`. */
module TransformResponse {
  import opened Js

  const DefaultMessage: string := "Request successful"

  datatype ApiResponse = ApiResponse(data: JsValue, success: bool, message: JsValue)

  /** `value !== null && typeof value === 'object' && 'data' in value`: only an object
      (not null, not an array) that has a `data` key counts as already shaped. */
  predicate HasDataShape(value: JsValue)
  {
    value.Object? && "data" in value.fields
  }

  /** The `map` step of the interceptor. */
  function Transform(value: JsValue): (r: ApiResponse)
    ensures r.success
    ensures !IsNullish(r.message)
    ensures HasDataShape(value) ==> r.data == value.fields["data"]
    ensures HasDataShape(value) ==>
      r.message == (if IsNullish(Get(value.fields, "message")) then Str(DefaultMessage)
                    else value.fields["message"])
    ensures !HasDataShape(value) ==> r.data == value && r.message == Str(DefaultMessage)
  {
    if HasDataShape(value) then
      var message := Get(value.fields, "message");
      ApiResponse(value.fields["data"], true, if IsNullish(message) then Str(DefaultMessage) else message)
    else
      ApiResponse(value, true, Str(DefaultMessage))
  }

  /** The envelope as the value it is serialised from. */
  function ToJs(r: ApiResponse): JsValue
  {
    Object(map["data" := r.data, "success" := Bool(r.success), "message" := r.message])
  }

  /** `null` is an object for `typeof`, yet it is never unwrapped: it becomes the data. */
  lemma NullIsWrapped()
    ensures Transform(Null) == ApiResponse(Null, true, Str(DefaultMessage))
  {
  }

  /** Wrapping is idempotent: an envelope passed through the interceptor again comes
      out as the same envelope. */
  lemma TransformIdempotent(value: JsValue)
    ensures Transform(ToJs(Transform(value))) == Transform(value)
  {
    var r := Transform(value);
    var fields := ToJs(r).fields;
    assert "data" in fields && fields["data"] == r.data;
    assert Get(fields, "message") == r.message;
  }
}

/** The logging interceptor: client address selection and the one-line access log. */
module Logging {
  import opened Domain
  import opened Strings

  datatype Level = Log | Warn

  /** How the handler's stream ended: with a response status, or with an error. */
  datatype HandlerOutcome = Completed(statusCode: int) | Errored

  /** The status and error flag each `tap` callback passes to `logRequest`: the error
      callback always reports 500. */
  function ReportedStatus(outcome: HandlerOutcome): (r: (int, bool))
    ensures outcome.Errored? ==> r == (500, true)
    ensures outcome.Completed? ==> r == (outcome.statusCode, false)
  {
    match outcome
    case Completed(code) => (code, false)
    case Errored => (500, true)
  }

  /** `x-forwarded-for` split on commas, first segment trimmed; else `request.ip`; else
      the socket's remote address. `??` falls back only when the header is missing, so
      a header whose first segment is blank yields the empty string. */
  function ClientIp(forwardedFor: Option<string>, requestIp: Option<string>, remoteAddress: Option<string>)
    : (ip: Option<string>)
    ensures forwardedFor.Some? ==> ip == Some(Trim(Split(forwardedFor.value, ',')[0]))
    ensures forwardedFor.Some? ==> ',' !in ip.value
    ensures forwardedFor.None? && requestIp.Some? ==> ip == requestIp
    ensures forwardedFor.None? && requestIp.None? ==> ip == remoteAddress
  {
    if forwardedFor.Some? then
      var first := Split(forwardedFor.value, ',')[0];
      var t := Trim(first);
      assert forall k :: 0 <= k < |t| ==> t[k] == first[LeadingWhitespace(first) + k];
      Some(t)
    else if requestIp.Some? then requestIp
    else remoteAddress
  }

  /** The first hop of a forwarded-for list is the client address, whitespace aside. */
  lemma ClientIpIsFirstHop(hop: string, rest: string, requestIp: Option<string>, remoteAddress: Option<string>)
    requires ',' !in hop
    requires hop == "" || (!IsWhitespace(hop[0]) && !IsWhitespace(hop[|hop| - 1]))
    ensures ClientIp(Some(hop + "," + rest), requestIp, remoteAddress) == Some(hop)
  {
    SplitAfterSegment(hop, ',', rest);
    assert hop + "," + rest == hop + [','] + rest;
    TrimOfTrimmed(hop);
  }

  /** `userAgent.slice(0, 60)` followed by "..." exactly when the agent is longer. */
  function UserAgentField(userAgent: string): (r: string)
    ensures |userAgent| <= 60 ==> r == userAgent
    ensures |userAgent| > 60 <==> |r| > 60
    ensures |userAgent| > 60 ==> r[..60] == userAgent[..60] && r[60..] == "..."
    ensures |r| <= 63
  {
    if |userAgent| > 60 then userAgent[..60] + "..." else userAgent
  }

  /** The fields of the log line, in order: the four fixed ones, then each optional
      one whose value is non-empty. */
  function LogParts(
    httpMethod: string, url: string, statusCode: int, duration: int,
    userId: Option<string>, ip: Option<string>, userAgent: string)
    : (parts: seq<string>)
    ensures var n := (if userId.Some? && userId.value != "" then 1 else 0)
                   + (if ip.Some? && ip.value != "" then 1 else 0)
                   + (if userAgent != "" then 1 else 0);
      |parts| == 4 + n
    ensures parts[..4] == ["method=" + httpMethod, "path=" + url, "status=" + IntToString(statusCode),
                           "duration=" + IntToString(duration) + "ms"]
    ensures userId.Some? && userId.value != "" ==> parts[4] == "userId=" + userId.value
    ensures ip.Some? && ip.value != "" ==>
      parts[if userId.Some? && userId.value != "" then 5 else 4] == "ip=" + ip.value
    ensures userAgent != "" ==> parts[|parts| - 1] == "ua=" + UserAgentField(userAgent)
  {
    ["method=" + httpMethod, "path=" + url, "status=" + IntToString(statusCode),
     "duration=" + IntToString(duration) + "ms"]
    + (if userId.Some? && userId.value != "" then ["userId=" + userId.value] else [])
    + (if ip.Some? && ip.value != "" then ["ip=" + ip.value] else [])
    + (if userAgent != "" then ["ua=" + UserAgentField(userAgent)] else [])
  }

  /** `logRequest`: builds the parts one push at a time, joins them with single spaces
      and picks the level. */
  method LogRequest(
    httpMethod: string, url: string, statusCode: int, duration: int,
    userId: Option<string>, ip: Option<string>, userAgent: string, isError: bool)
    returns (message: string, level: Level)
    ensures message == Join(LogParts(httpMethod, url, statusCode, duration, userId, ip, userAgent), ' ')
    ensures level == Warn <==> isError || statusCode >= 400
  {
    var parts := [
      "method=" + httpMethod,
      "path=" + url,
      "status=" + IntToString(statusCode),
      "duration=" + IntToString(duration) + "ms"
    ];
    if userId.Some? && userId.value != "" {
      parts := parts + ["userId=" + userId.value];
    }
    if ip.Some? && ip.value != "" {
      parts := parts + ["ip=" + ip.value];
    }
    if userAgent != "" {
      parts := parts + ["ua=" + UserAgentField(userAgent)];
    }
    assert parts == LogParts(httpMethod, url, statusCode, duration, userId, ip, userAgent);
    message := Join(parts, ' ');
    if isError || statusCode >= 400 {
      level := Warn;
    } else {
      level := Log;
    }
  }

  /** When no value holds a space, the log line splits back into exactly its fields,
      so each field can be read off by position. */
  lemma LogLineSplitsIntoParts(
    httpMethod: string, url: string, statusCode: int, duration: int,
    userId: Option<string>, ip: Option<string>, userAgent: string)
    requires ' ' !in httpMethod && ' ' !in url && ' ' !in userAgent
    requires userId.Some? ==> ' ' !in userId.value
    requires ip.Some? ==> ' ' !in ip.value
    ensures var parts := LogParts(httpMethod, url, statusCode, duration, userId, ip, userAgent);
      Split(Join(parts, ' '), ' ') == parts
  {
    var parts := LogParts(httpMethod, url, statusCode, duration, userId, ip, userAgent);
    IntToStringHasNoSeparator(statusCode, ' ');
    IntToStringHasNoSeparator(duration, ' ');
    var ua := UserAgentField(userAgent);
    assert ' ' !in ua by {
      if |userAgent| > 60 {
        assert ua == userAgent[..60] + "...";
        forall k | 0 <= k < 60 ensures ua[k] != ' ' { assert ua[k] == userAgent[k]; }
      }
    }
    forall i | 0 <= i < |parts| ensures ' ' !in parts[i] {
      NoSpaceInPart(parts, i, httpMethod, url, statusCode, duration, userId, ip, userAgent);
    }
    SplitOfJoin(parts, ' ');
  }

  lemma NoSpaceInPart(
    parts: seq<string>, i: nat,
    httpMethod: string, url: string, statusCode: int, duration: int,
    userId: Option<string>, ip: Option<string>, userAgent: string)
    requires parts == LogParts(httpMethod, url, statusCode, duration, userId, ip, userAgent)
    requires i < |parts|
    requires ' ' !in httpMethod && ' ' !in url && ' ' !in UserAgentField(userAgent)
    requires ' ' !in IntToString(statusCode) && ' ' !in IntToString(duration)
    requires userId.Some? ==> ' ' !in userId.value
    requires ip.Some? ==> ' ' !in ip.value
    ensures ' ' !in parts[i]
  {
    var hasUser := userId.Some? && userId.value != "";
    var hasIp := ip.Some? && ip.value != "";
    if i < 4 {
      assert parts[i] == parts[..4][i];
      if i == 0 { NoSpaceInConcat("method=", httpMethod); }
      else if i == 1 { NoSpaceInConcat("path=", url); }
      else if i == 2 { NoSpaceInConcat("status=", IntToString(statusCode)); }
      else {
        NoSpaceInConcat("duration=", IntToString(duration));
        NoSpaceInConcat("duration=" + IntToString(duration), "ms");
      }
    } else if hasUser && i == 4 {
      NoSpaceInConcat("userId=", userId.value);
    } else if hasIp && i == (if hasUser then 5 else 4) {
      NoSpaceInConcat("ip=", ip.value);
    } else {
      assert i == |parts| - 1 && userAgent != "";
      NoSpaceInConcat("ua=", UserAgentField(userAgent));
    }
  }

  lemma NoSpaceInConcat(a: string, b: string)
    requires ' ' !in a && ' ' !in b
    ensures ' ' !in a + b
  {
    forall k | 0 <= k < |a + b| ensures (a + b)[k] != ' ' {
      if k < |a| { assert (a + b)[k] == a[k]; } else { assert (a + b)[k] == b[k - |a|]; }
    }
  }

  /** A failed handler is always reported as status 500 with the error flag, and its
      log line carries "status=500". */
  lemma ErrorsReportStatus500(
    httpMethod: string, url: string, duration: int,
    userId: Option<string>, ip: Option<string>, userAgent: string)
    ensures var (code, isError) := ReportedStatus(Errored);
      code == 500 && isError
      && LogParts(httpMethod, url, code, duration, userId, ip, userAgent)[2] == "status=500"
  {
    assert IntToString(500) == "500" by {
      assert NatToString(50) == "50" by { assert NatToString(5) == "5"; }
    }
  }
}
