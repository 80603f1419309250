/** The logger of `src/logger.js`: log records are serialised, passed through
    the password redaction and sent as a Loki push event. The clock reading of
    each log call is a parameter, and every event handed to the network is
    recorded in `sent`. */
module Logging {
  import opened Wrappers
  import opened Decimal
  import opened JsonText
  import opened Redaction

  /** `statusToLogLevel`. */
  function StatusToLogLevel(statusCode: int): (level: string)
    ensures level == "error" <==> statusCode >= 500
    ensures level == "warn" <==> 400 <= statusCode < 500
    ensures level == "info" <==> statusCode < 400
  {
    if statusCode >= 500 then "error"
    else if statusCode >= 400 then "warn"
    else "info"
  }

  /** The order of the three levels, least severe first. */
  function Severity(level: string): nat {
    if level == "error" then 2 else if level == "warn" then 1 else 0
  }

  /** A higher status code never gets a less severe level. */
  lemma LevelMonotone(a: int, b: int)
    requires a <= b
    ensures Severity(StatusToLogLevel(a)) <= Severity(StatusToLogLevel(b))
  {
  }

  /** `nowString`: the clock reading in milliseconds, times 10^6, as decimal
      text. The product is rounded to a double when it is computed, but every
      number of the form ms * 10^6 below 10^21 reads back as that double with no
      more digits than its own, so Number::toString prints it exactly. */
  function NowString(nowMs: int): (s: string)
    ensures ParseDecimal(s) == Some(nowMs * 1000000)
  {
    DecimalRoundTrip(nowMs * 1000000);
    DecimalString(nowMs * 1000000)
  }

  /** The timestamp is the millisecond reading followed by six zeros, except at
      the epoch itself, where it is the single digit zero. */
  lemma NowStringShape(nowMs: nat)
    ensures nowMs != 0 ==> NowString(nowMs) == Digits(nowMs) + "000000"
    ensures nowMs == 0 ==> NowString(nowMs) == "0"
  {
    if nowMs != 0 {
      DigitsTimesMillion(nowMs);
    }
  }

  /** `sanitize`: the serialised record with every password field masked.
      Every password field the pattern finds in the result holds the mask, and
      sanitising the result again changes nothing. */
  function Sanitize(data: Record): (line: string)
    ensures Clean(line)
    ensures Redact(line) == line
  {
    var s := Serialize(data);
    RedactIsClean(s);
    RedactIdempotent(s);
    Redact(s)
  }

  /** A record without password fields is logged exactly as serialised. */
  lemma SanitizeKeepsPlainRecord(data: Record)
    requires NoField(Serialize(data))
    ensures Sanitize(data) == Serialize(data)
  {
    RedactWithoutField(Serialize(data));
  }

  datatype Labels = Labels(component: string, level: string, logType: string)
  /** One `[timestamp, line]` pair of a stream. */
  datatype Entry = Entry(timestamp: string, line: string)
  datatype Stream = Stream(stream: Labels, values: seq<Entry>)
  /** The Loki push body `log` builds: one stream holding one entry. */
  datatype LogEvent = LogEvent(streams: seq<Stream>)

  /** One call of `log`: its level, its type, the clock reading it takes and
      the record. */
  datatype LogCall = LogCall(level: string, logType: string, nowMs: int, data: Record)

  /** The event `log` pushes for one call. */
  function BuildLogEvent(component: string, call: LogCall): (e: LogEvent)
    ensures |e.streams| == 1 && |e.streams[0].values| == 1
    ensures e.streams[0].stream == Labels(component, call.level, call.logType)
    ensures ParseDecimal(e.streams[0].values[0].timestamp) == Some(call.nowMs * 1000000)
    ensures e.streams[0].values[0].line == Sanitize(call.data)
    ensures Clean(e.streams[0].values[0].line)
  {
    LogEvent([Stream(Labels(component, call.level, call.logType), [Entry(NowString(call.nowMs), Sanitize(call.data))])])
  }

  /** The parts of an Express request the HTTP log reads. `body` is the JSON
      text of the parsed body, `None` where JSON.stringify gives `undefined`. */
  datatype Request = Request(httpMethod: string, originalUrl: string, authorization: Option<string>, body: Option<string>)

  /** `!!req.headers.authorization`: a header that is present and not empty.
      An empty header is falsy, so it does not count as authorised. */
  function Authorized(req: Request): (b: bool)
    ensures b ==> req.authorization.Some?
    ensures req.authorization == Some("") ==> !b
  {
    req.authorization.Some? && req.authorization.value != ""
  }

  /** The record `httpLogger` logs; `resBody` is the JSON text of the value
      passed to `res.send`. Only the two bodies can be `undefined`, and each is
      exactly when its JSON text is. */
  function HttpLogData(req: Request, statusCode: int, resBody: Option<string>): (r: Record)
    ensures |r| == 6 && r[0].0 == "authorized" && r[1].0 == "path" && r[2].0 == "method"
    ensures r[3].0 == "statusCode" && r[4].0 == "reqBody" && r[5].0 == "resBody"
    ensures r[0].1 == Flag(req.authorization.Some? && req.authorization.value != "")
    ensures r[1].1 == Text(req.originalUrl) && r[2].1 == Text(req.httpMethod)
    ensures r[3].1 == Integer(statusCode)
    ensures r[4].1.Omitted? <==> req.body.None?
    ensures r[5].1.Omitted? <==> resBody.None?
    ensures req.body.Some? ==> r[4].1 == Text(req.body.value)
    ensures resBody.Some? ==> r[5].1 == Text(resBody.value)
  {
    [ ("authorized", Flag(Authorized(req))),
      ("path", Text(req.originalUrl)),
      ("method", Text(req.httpMethod)),
      ("statusCode", Integer(statusCode)),
      ("reqBody", OptionalText(req.body)),
      ("resBody", OptionalText(resBody)) ]
  }

  /** The record `logDatabaseQuery` logs; the parameters are left out when
      their JSON text is `undefined`. */
  function DatabaseQueryData(query: string, params: Option<string>): (r: Record)
    ensures |r| == 2 && r[0].0 == "query" && r[1].0 == "params"
    ensures r[0].1 == Text(query)
    ensures r[1].1.Omitted? <==> params.None?
    ensures params.Some? ==> r[1].1 == Text(params.value)
  {
    [("query", Text(query)), ("params", OptionalText(params))]
  }

  /** The record `logFactoryRequest` logs; the body is left out when its JSON
      text is `undefined`. */
  function FactoryRequestData(url: string, httpMethod: string, body: Option<string>): (r: Record)
    ensures |r| == 3 && r[0].0 == "url" && r[1].0 == "method" && r[2].0 == "body"
    ensures r[0].1 == Text(url) && r[1].1 == Text(httpMethod)
    ensures r[2].1.Omitted? <==> body.None?
    ensures body.Some? ==> r[2].1 == Text(body.value)
  {
    [("url", Text(url)), ("method", Text(httpMethod)), ("body", OptionalText(body))]
  }

  /** The record `logUnhandledException` logs; an error without a stack has
      no `stack` property in the line. */
  function ExceptionData(message: string, stack: Option<string>): (r: Record)
    ensures |r| == 2 && r[0].0 == "message" && r[1].0 == "stack"
    ensures r[0].1 == Text(message)
    ensures r[1].1.Omitted? <==> stack.None?
    ensures stack.Some? ==> r[1].1 == Text(stack.value)
  {
    [("message", Text(message)), ("stack", OptionalText(stack))]
  }

  /** What `res.send` currently is: Express's own function, or the wrapper
      `httpLogger` installed over an earlier one for a request. */
  datatype SendFn = Native | Intercept(previous: SendFn, req: Request)

  /** The number of wrappers stacked on the response. */
  function Depth(f: SendFn): nat {
    if f.Native? then 0 else 1 + Depth(f.previous)
  }

  /** The log call one wrapper makes for a response with `statusCode` and `body`. */
  function HttpCall(req: Request, statusCode: int, body: Option<string>, nowMs: int): LogCall {
    LogCall(StatusToLogLevel(statusCode), "http", nowMs, HttpLogData(req, statusCode, body))
  }

  /** The log calls made when `res.send` is `f`: each wrapper logs once,
      the most recently installed first, at the level of the status code. */
  function HttpCalls(f: SendFn, statusCode: int, body: Option<string>, nowMs: int): (cs: seq<LogCall>)
    ensures |cs| == Depth(f)
    ensures forall i :: 0 <= i < |cs| ==>
      cs[i].level == StatusToLogLevel(statusCode) && cs[i].logType == "http" && cs[i].nowMs == nowMs
  {
    match f
    case Native => []
    case Intercept(previous, req) =>
      [HttpCall(req, statusCode, body, nowMs)] + HttpCalls(previous, statusCode, body, nowMs)
  }

  /** The one `Logger` instance the module exports. */
  class Logger {
    /** `config.logging.source` */
    const component: string
    /** Every log call whose event was handed to the network, in order; the
        body pushed for a call `c` is `BuildLogEvent(component, c)`. */
    var sent: seq<LogCall>

    constructor (component: string)
      ensures this.component == component && sent == []
    {
      this.component := component;
      sent := [];
    }

    /** `log`: build the event and send it; a failed push is only reported
        on the console, so the send is the appended event. */
    method Log(level: string, logType: string, data: Record, nowMs: int)
      modifies this`sent
      ensures sent == old(sent) + [LogCall(level, logType, nowMs, data)]
    {
      sent := sent + [LogCall(level, logType, nowMs, data)];
    }

    method LogDatabaseQuery(query: string, params: Option<string>, nowMs: int)
      modifies this`sent
      ensures sent == old(sent) + [LogCall("info", "database", nowMs, DatabaseQueryData(query, params))]
    {
      Log("info", "database", DatabaseQueryData(query, params), nowMs);
    }

    method LogFactoryRequest(url: string, httpMethod: string, body: Option<string>, nowMs: int)
      modifies this`sent
      ensures sent == old(sent) + [LogCall("info", "factory", nowMs, FactoryRequestData(url, httpMethod, body))]
    {
      Log("info", "factory", FactoryRequestData(url, httpMethod, body), nowMs);
    }

    method LogUnhandledException(message: string, stack: Option<string>, nowMs: int)
      modifies this`sent
      ensures sent == old(sent) + [LogCall("error", "exception", nowMs, ExceptionData(message, stack))]
    {
      Log("error", "exception", ExceptionData(message, stack), nowMs);
    }

    /** `httpLogger`: wrap the response's current `send`. Nothing is logged
        until the response is sent. */
    method HttpLogger(req: Request, res: Response)
      modifies res`send
      ensures res.send == Intercept(old(res.send), req)
    {
      res.send := Intercept(res.send, req);
    }
  }

  lemma AppendAssoc<T>(a: seq<T>, b: seq<T>, c: seq<T>)
    ensures a + b + c == a + (b + c)
  {
  }

  class Response {
    var statusCode: int
    var send: SendFn
    /** The bodies Express's own `send` has delivered, in order. */
    var delivered: seq<Option<string>>

    constructor (statusCode: int)
      ensures this.statusCode == statusCode && send == Native && delivered == []
    {
      this.statusCode := statusCode;
      send := Native;
      delivered := [];
    }

    /** `res.send(body)`. A wrapper logs the HTTP record at the level of the
        status code, puts back the function it replaced and calls it; Express's
        own function delivers the body. */
    method Send(logger: Logger, body: Option<string>, nowMs: int)
      modifies this`send, this`delivered, logger`sent
      ensures send == Native
      ensures delivered == old(delivered) + [body]
      ensures logger.sent == old(logger.sent) + HttpCalls(old(send), statusCode, body, nowMs)
      decreases send
    {
      match send
      case Native =>
        delivered := delivered + [body];
      case Intercept(previous, req) =>
        var call := HttpCall(req, statusCode, body, nowMs);
        ghost var before := logger.sent;
        logger.Log(call.level, call.logType, call.data, call.nowMs);
        send := previous;
        Send(logger, body, nowMs);
        AppendAssoc(before, [call], HttpCalls(previous, statusCode, body, nowMs));
    }
  }

  /** A response wrapped once logs its first send and none after it, and both
      bodies reach the client. */
  method LoggedOnce(component: string, req: Request, statusCode: int, body1: Option<string>, body2: Option<string>, nowMs: int)
    returns (calls: seq<LogCall>, delivered: seq<Option<string>>)
    ensures calls == [HttpCall(req, statusCode, body1, nowMs)]
    ensures delivered == [body1, body2]
  {
    var logger := new Logger(component);
    var res := new Response(statusCode);
    logger.HttpLogger(req, res);
    res.Send(logger, body1, nowMs);
    res.Send(logger, body2, nowMs);
    calls, delivered := logger.sent, res.delivered;
  }

  /** The JSON text of a request body `{"password": p}`. */
  function PasswordBody(p: string): string {
    Serialize([("password", Text(p))])
  }

  /** The object `{w: p}` for a key `w` that JSON.stringify leaves unescaped. */
  lemma MemberBodyText(w: string, p: string)
    requires forall i :: 0 <= i < |w| ==> IsPlain(w[i])
    ensures Serialize([(w, Text(p))]) == "{" + ("\"" + w + "\"") + ":" + "\"" + Escape(p) + "\"}"
  {
    EscapePlain(w);
    var rec: Record := [(w, Text(p))];
    assert rec[1..] == [];
    assert MemberList(rec) == ("\"" + w + "\"") + ":" + ("\"" + Escape(p) + "\"");
    Regroup("{", "\"" + w + "\"", ":", "\"", Escape(p), "}");
    assert "\"" + "}" == "\"}";
  }

  lemma Regroup(a: string, b: string, c: string, d: string, e: string, f: string)
    ensures a + (b + c + (d + e + d)) + f == a + b + c + d + e + (d + f)
  {
  }

  lemma EscapeSmall()
    ensures Escape("\"") == "\\\"" && Escape("{") == "{" && Escape(":") == ":"
    ensures Escape("\"}") == "\\\"}"
  {
  }

  lemma EscapeMemberHead(w: string)
    requires forall i :: 0 <= i < |w| ==> IsPlain(w[i])
    ensures Escape("{" + ("\"" + w + "\"") + ":" + "\"") == "{" + ("\\\"" + w + "\\\"") + ":" + "\\\""
  {
    EscapePlain(w);
    EscapeSmall();
    var a := "\"" + w;
    EscapeAppend("\"", w);
    var b := a + "\"";
    EscapeAppend(a, "\"");
    var c := "{" + b;
    EscapeAppend("{", b);
    var d := c + ":";
    EscapeAppend(c, ":");
    EscapeAppend(d, "\"");
  }

  lemma Regroup3(w: string, x: string)
    ensures "{" + ("\\\"" + w + "\\\"") + ":" + "\\\"" + x + "\\\"}"
      == "{" + (("\\\"" + w + "\\\"" + ":") + "\\\"" + x + "\\\"") + "}"
  {
  }

  /** Escaping the object `{w: p}` once more, as happens when it is a string
      property of a log record. */
  lemma EscapedMemberBody(w: string, p: string)
    requires forall i :: 0 <= i < |w| ==> IsPlain(w[i])
    ensures Escape(Serialize([(w, Text(p))]))
      == "{" + (("\\\"" + w + "\\\"" + ":") + "\\\"" + Escape(Escape(p)) + "\\\"") + "}"
  {
    MemberBodyText(w, p);
    var h := "{" + ("\"" + w + "\"") + ":" + "\"";
    EscapeAppend(h, Escape(p));
    EscapeAppend(h + Escape(p), "\"}");
    EscapeMemberHead(w);
    EscapeSmall();
    Regroup3(w, Escape(Escape(p)));
  }

  lemma PasswordKey()
    ensures forall i :: 0 <= i < |"password"| ==> IsPlain("password"[i])
    ensures "\\\"" + "password" + "\\\"" + ":" == Key
  {
  }

  lemma EscapedPasswordBody(p: string)
    ensures Escape(PasswordBody(p)) == "{" + (Key + "\\\"" + Escape(Escape(p)) + "\\\"") + "}"
  {
    PasswordKey();
    EscapedMemberBody("password", p);
  }

  /** A key, backslash-quote, a quote-free value and backslash-quote form a match. */
  lemma FieldOfValue(x: string)
    requires '"' !in x
    ensures IsField(Key + "\\\"" + x + "\\\"")
  {
    var f := Key + "\\\"" + x + "\\\"";
    assert f[..13] == Key;
    assert FieldSplit(f, 13) by {
      forall i | 15 <= i < |f| - 2
        ensures f[i] != '"'
      {
        assert f[i] == x[i - 15];
      }
    }
  }

  /** Every match starts with a backslash. */
  lemma NoMatchAt(s: string)
    requires s != [] && s[0] != '\\'
    ensures MatchLength(s).None?
  {
    if |s| >= 13 {
      assert s[..13][0] == s[0];
    }
  }

  /** A character other than a backslash is not a match position; the
      replace keeps it and goes on from the next character. */
  lemma RedactStep(c: char, t: string)
    requires c != '\\'
    ensures Redact([c] + t) == [c] + Redact(t)
  {
    var s := [c] + t;
    NoMatchAt(s);
    assert s[1..] == t;
  }

  /** Re-bracketing lemmas: each is one sequence identity, kept separate so
      the lemmas that use them do not reason about associativity themselves. */
  lemma Wrap(a: char, m: string, b: char)
    ensures [a] + m + [b] == [a] + (m + [b])
  {
  }

  lemma Flatten(o: char, m: string, v: string, t: string)
    ensures [o] + (m + (v + t)) == [o] + m + v + t
  {
  }

  lemma PasswordBodyMasked(p: string)
    requires '"' !in p
    ensures Redact(Escape(PasswordBody(p))) == "{" + Mask + "}"
  {
    EscapedPasswordBody(p);
    EscapeQuoteFree(p);
    EscapeQuoteFree(Escape(p));
    var f := Key + "\\\"" + Escape(Escape(p)) + "\\\"";
    FieldOfValue(Escape(Escape(p)));
    Wrap('{', f, '}');
    RedactStep('{', f + ['}']);
    RedactReplacesField(f, ['}']);
    RedactStep('}', []);
    assert ['}'] + [] == ['}'];
    Wrap('{', Mask, '}');
  }

  lemma EscapeQuotedTail(u: string, v: string)
    requires forall i :: 0 <= i < |v| ==> IsPlain(v[i])
    ensures Escape(Escape(u + "\"" + v)) == Escape(Escape(u)) + ("\\\\" + "\\\"") + v
  {
    EscapePlain(v);
    EscapeSmall();
    EscapeAppend(u + "\"", v);
    EscapeAppend(u, "\"");
    var e := Escape(u) + "\\\"" + v;
    assert Escape(u + "\"" + v) == e;
    EscapeAppend(Escape(u) + "\\\"", v);
    EscapeAppend(Escape(u), "\\\"");
    assert Escape("\\\"") == "\\\\" + "\\\"";
  }

  lemma Reshape(k: string, a: string, v: string, e: string, w: string)
    requires e == a + ("\\\\" + "\\\"") + v
    requires w == "{" + (k + "\\\"" + e + "\\\"") + "}"
    ensures w == ['{'] + ((k + "\\\"" + (a + "\\\\") + "\\\"") + (v + "\\\"}"))
  {
  }

  /** A string of plain characters followed by backslash-quote-brace holds no match. */
  lemma NoFieldInTail(v: string)
    requires forall i :: 0 <= i < |v| ==> IsPlain(v[i])
    ensures NoField(v + "\\\"}")
  {
    var rest := v + "\\\"}";
    forall i | 0 <= i <= |rest|
      ensures MatchLength(rest[i..]).None?
    {
      if i < |v| {
        assert rest[i..][0] == v[i];
        NoMatchAt(rest[i..]);
      }
    }
  }

  /** For a password u"v, the escaped body is a field holding the doubly
      escaped u and an escaped backslash, followed by v and the closing text. */
  lemma QuotedPasswordLayout(u: string, v: string)
    requires forall i :: 0 <= i < |v| ==> IsPlain(v[i])
    ensures Escape(PasswordBody(u + "\"" + v))
      == ['{'] + ((Key + "\\\"" + (Escape(Escape(u)) + "\\\\") + "\\\"") + (v + "\\\"}"))
  {
    var p := u + "\"" + v;
    EscapedPasswordBody(p);
    EscapeQuotedTail(u, v);
    Reshape(Key, Escape(Escape(u)), v, Escape(Escape(p)), Escape(PasswordBody(p)));
  }

  /** A field with a quote-free value, then plain text and the closing text:
      the field is masked and the rest is kept. */
  lemma FieldThenTail(x: string, v: string)
    requires '"' !in x
    requires forall i :: 0 <= i < |v| ==> IsPlain(v[i])
    ensures Redact(['{'] + ((Key + "\\\"" + x + "\\\"") + (v + "\\\"}"))) == "{" + Mask + v + "\\\"}"
  {
    var f := Key + "\\\"" + x + "\\\"";
    var rest := v + "\\\"}";
    FieldOfValue(x);
    RedactStep('{', f + rest);
    RedactReplacesField(f, rest);
    NoFieldInTail(v);
    RedactWithoutField(rest);
    Flatten('{', Mask, v, "\\\"}");
  }

  lemma QuotedPasswordTailSurvives(u: string, v: string)
    requires '"' !in u
    requires forall i :: 0 <= i < |v| ==> IsPlain(v[i])
    ensures Redact(Escape(PasswordBody(u + "\"" + v))) == "{" + Mask + v + "\\\"}"
  {
    QuotedPasswordLayout(u, v);
    EscapeQuoteFree(u);
    EscapeQuoteFree(Escape(u));
    var x := Escape(Escape(u)) + "\\\\";
    assert '"' !in x;
    FieldThenTail(x, v);
  }
}
