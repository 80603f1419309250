# Telemetry of the pizza service: metrics registry and structured logger

This project models, in Dafny, the telemetry core of the pizza service. It has
two parts.

- **`src/metrics.js`**: a process-wide registry of counters and gauges.
  - Its counters: authentication attempts, requests in total and per HTTP
    method, pizzas sold, creation failures, revenue and the set of active users.
  - Business hooks and the request middleware update the counters.
  - Timers flush them to an OTLP/JSON metrics endpoint, one metric per POST.
  - Each flush reports the auth and sales counters, then zeroes them.
- **`src/logger.js`**: a logger that pushes one Loki stream entry per call.
  - The entry carries labels, a nanosecond timestamp and a sanitised line.
  - The line is the `JSON.stringify` of a record, with every escaped
    `password` member masked by a global regular-expression replace.
  - Express middleware wraps `res.send` so that each response is logged once.

Files:

| file | what it holds |
|---|---|
| `wrappers.dfy` | `Option` |
| `decimal.dfy` | decimal text of integers (`Number::toString` below 10^21) and its parser |
| `json_text.dfy` | `JSON.stringify` for strings (QuoteJSONString of ECMA-262) and for flat records; `JSON.parse` of a string body |
| `redaction.dfy` | the `sanitize` regular expression as a left-to-right scanner (`Redact`), and what it guarantees |
| `payload.dfy` | the body `sendMetricToGrafana` posts, and the double-precision timestamp |
| `metrics.dfy` | class `Registry`: the module's counters and the functions that update and flush them |
| `logger.dfy` | classes `Logger` and `Response`: `log`, its three callers and the `httpLogger` wrapper of `res.send` |

State that the source mutates in place is a class:
- `Metrics.Registry` holds the module-level variables of `metrics.js`.
- `Logging.Logger` is the exported logger.
- `Logging.Response` holds the `send` property that `httpLogger` overwrites.

Every network send is appended to a `sent` field. For the registry it is the
payload. For the logger it is the `LogCall` (level, type, clock reading,
record); the body pushed for a call `c` is `BuildLogEvent(component, c)`.

The environment enters as parameters:
- `Date.now()` and `Math.random()` as a `Stamp`;
- the clock reading of a log call as `nowMs`;
- the CPU and memory percentages as reals.

The registry's invariant `Valid()` says that `totalRequests` is the sum of
the per-method counts. Every method keeps it.

Where the code and its evident intent disagree, the model follows the code,
with one exception (the metric timestamp, last item):

- Request counters (`totalRequests`, `methods`) are never reset. Only the auth
  and sales counters are zeroed by their flushes.
- `authorized` is `!!req.headers.authorization`: a header that is present and
  not empty (`Logging.Authorized`).
- The periodic `requests` and `latency` metrics are always 0. The module
  variables behind them are never assigned (`Metrics.Registry.SendPeriodicMetrics`).
- The log timestamp is the millisecond count followed by six zeros. The one
  exception is millisecond 0, where it is `"0"` (`Logging.NowStringShape`).
- The redaction does not mask a whole password when the password contains a
  double quote. `[^"]*` stops at the escaped quote, and the rest of the
  password stays in the logged line (`Logging.QuotedPasswordTailSurvives`).
- A field can survive next to a masked one. The scan resumes after each
  replacement, and `Clean` speaks only of the matches the scan finds. In the
  line `\"password\":\"\"password\":\"s\"` the first match ends with the
  escaped quote that opens the second field, so the line becomes the mask
  followed by `password\":\"s\"`. From the mask's closing `\"` onward that is
  again a full field holding `s`, which the replace never revisits.
- A response sent with `res.json` reaches `res.send` as a string, its JSON
  text. `JSON.stringify(resBody)` (src/logger.js:15) escapes it a second time
  and the record a third, so its keys read `\\\"password\\\":` and the
  pattern, which expects `\"password\":`, never matches them.
- The metric timestamp is computed in doubles, and `JSON.stringify`
  (src/metrics.js:66) posts the double's shortest decimal. The jitter does not
  make it unique. As posted, it can pass ms·10^6 + 999 (by one nanosecond in the
  example under Findings); at the milliseconds the model examines it does not
  fall below ms·10^6. The payload the registry sends carries the exact timestamp
  instead (`MetricPayload.TimeUnixNano`); `MetricPayload.TimeUnixNanoAsWritten`
  is the double computation, and the lemmas beside it state where the two
  differ.

## Model

| member | source | states |
|---|---|---|
| Decimal.DecimalString | src/logger.js:40 | `Number::toString` of an integer is non-empty and starts with a minus sign exactly when the integer is negative |
| Decimal.DecimalRoundTrip | src/logger.js:39-41 | the decimal text of an integer parses back to that integer |
| Decimal.DigitsTimesMillion | src/logger.js:40 | multiplying a nonzero count by 10^6 appends exactly six zero digits to its decimal text |
| JsonText.Escape | src/logger.js:44 | each character is written as 1 to 6 characters, so the escaped text is at least as long as the string and at most six times as long |
| JsonText.Quote | src/logger.js:14-15 | the JSON text of a string is enclosed in double quotes, and JSON.parse of what lies between them gives back the string |
| JsonText.MemberList | src/logger.js:44 | the members of a record are written as empty text exactly when every property is `undefined` |
| JsonText.Serialize | src/logger.js:44 | the JSON text of a record is enclosed in braces, and is `{}` exactly when every property is `undefined` |
| JsonText.EscapeRoundTrip | src/logger.js:44 | JSON.parse of what JSON.stringify writes inside a string literal gives back the string |
| JsonText.EscapeAppend | src/logger.js:44 | string escaping distributes over concatenation |
| JsonText.EscapeQuoteFree | src/logger.js:44 | escaping a string without double quotes yields text without double quotes |
| JsonText.EscapePlain | src/logger.js:44 | a string of characters that need no escape is written unchanged |
| Redaction.Redact | src/logger.js:45 | a text shorter than the shortest match (17 characters) is left unchanged |
| Redaction.MatchLength | src/logger.js:45 | a match at the start of the text begins with the key and is at least 17 characters long |
| Redaction.MatchLengthIff | src/logger.js:45 | the scanner finds a match of length n exactly when the first n characters form a string the pattern matches as a whole |
| Redaction.MaskMatches | src/logger.js:45 | the replacement text is itself a match of the pattern |
| Redaction.RedactReplacesField | src/logger.js:45 | a field at the scan position is replaced by the mask and the scan resumes after it |
| Redaction.RedactWithoutField | src/logger.js:45 | text in which no position starts a match is left unchanged |
| Redaction.RedactIsClean | src/logger.js:45 | in the replaced text every match the scanner finds is the mask |
| Redaction.CleanIffFixpoint | src/logger.js:45 | a text is clean exactly when the replace leaves it unchanged |
| Redaction.RedactIdempotent | src/logger.js:45 | sanitising twice gives the same line as sanitising once |
| MetricPayload.Jitter | src/metrics.js:49 | the jitter is an integer in [0, 1000) and the floor of random × 1000 |
| MetricPayload.TimeUnixNanoOrder | src/metrics.js:49 | exact timestamps lie within their millisecond and are ordered, and equal, exactly as the (millisecond, jitter) pairs are |
| MetricPayload.BuildPayload | src/metrics.js:35-64 | one resource, scope and metric with the given name, unit and kind and one data point holding the value and the exact timestamp, which lies in the current millisecond; temporality cumulative and monotonic exactly for sums |
| MetricPayload.RoundToDouble | src/metrics.js:49 | the rounded value is within half a spacing of the integer |
| MetricPayload.RoundsBackNearNow | src/metrics.js:49 | near present-day timestamps, adding at most 128 to a multiple of 512 rounds back to that multiple |
| MetricPayload.TimeUnixNanoAsWritten | src/metrics.js:49 | the timestamp computed in doubles equals the exact one while the sum stays below 2^53 |
| MetricPayload.TimeUnixNanoAsWrittenError | src/metrics.js:49 | each of the two roundings moves the double timestamp by at most half the spacing around its operand |
| MetricPayload.MillisecondLeftAsWritten | src/metrics.js:49 | for a present-day millisecond whose nanosecond count is 64 above a multiple of 256, jitter 0 gives an in-memory double before that millisecond; the count itself is the only multiple of 10^6 that reads back as the double, so the posted text stays in the millisecond |
| MetricPayload.MillisecondLeftOnSampleDay | src/metrics.js:49 | at millisecond 1700000000001 with jitter 0, the in-memory double is 1700000000000999936, 64 ns before the millisecond, and 1700000000001000000 is the only multiple of 10^6 that reads back as it |
| MetricPayload.MillisecondPassedAsWritten | src/metrics.js:49-66 | for such a millisecond, jitter 999 gives the double ms·10^6 + 960; among the present-day decimals that read back as it none is a multiple of 10^4 and only ms·10^6 + 1000 is a multiple of 10^3, so the shortest text posted is ms·10^6 + 1000, past the millisecond's last nanosecond |
| MetricPayload.MillisecondPassedOnSampleDay | src/metrics.js:49-66 | at millisecond 1700000000001 with jitter 999 the double is 1700000000001000960, and the only shortest decimal reading back as it is 1700000000001001000 = ms·10^6 + 1000 |
| MetricPayload.JitterLostAt | src/metrics.js:49 | for a present-day millisecond whose nanosecond count is a multiple of 512, jitters 0 to 128 all give that multiple |
| MetricPayload.JitterLostAsWritten | src/metrics.js:49 | in double arithmetic, jitters 0 to 128 give one timestamp for every millisecond divisible by 8 from 2006 to 2043, although the exact timestamps differ |
| MetricPayload.JitterLostOnSampleDay | src/metrics.js:49 | at 1700000000000 ms, jitters 0 and 1 give the same timestamp |
| Metrics.InitialMethodsSum | src/metrics.js:125-128 | the initial per-method counts sum to the initial total, 0 |
| Metrics.Registry.constructor | src/metrics.js:86-149 | every counter starts at 0, the method table holds GET, POST, PUT and DELETE at 0, no user is active, nothing is sent, and the invariant holds |
| Metrics.Registry.SendMetric | src/metrics.js:35-84 | exactly the built payload is appended to the sends |
| Metrics.Registry.SendActiveUsersMetric | src/metrics.js:98-100 | sends the gauge `active_users` holding the number of active users |
| Metrics.Registry.TrackUserLogin | src/metrics.js:88-91 | the user is added to the set and the new set size is sent |
| Metrics.Registry.TrackUserLogout | src/metrics.js:93-96 | the user is removed from the set and the new set size is sent |
| Metrics.Registry.TrackSuccessfulLogin | src/metrics.js:107-109 | the successful count grows by one and the failed count is unchanged |
| Metrics.Registry.TrackFailedLogin | src/metrics.js:111-113 | the failed count grows by one and the successful count is unchanged |
| Metrics.Registry.SendAuthMetrics | src/metrics.js:115-121 | sends both counts as sums in order, then both are 0 |
| Metrics.Registry.TrackRequest | src/metrics.js:130-132 | the total grows by one; the method's count grows by one, from 0 for a method not yet seen; the total stays the sum of the per-method counts |
| Metrics.Registry.RequestFinished | src/metrics.js:135-142 | sends the duration, the method's count and the total, in that order |
| Metrics.Registry.HandleRequest | src/metrics.js:130-145 | counts the request, then reports counts that include it |
| Metrics.Registry.TrackPizzaSale | src/metrics.js:151-154 | one more pizza sold, and the revenue grows by the amount |
| Metrics.Registry.TrackCreationFailure | src/metrics.js:156-158 | the failure count grows by one |
| Metrics.Registry.SendPizzaMetrics | src/metrics.js:160-168 | sends sold, failures and revenue as sums in order, then all three are 0 |
| Metrics.Registry.SendPeriodicMetrics | src/metrics.js:21-33 | sends cpu and memory gauges, requests and latency sums of 0 and the active-users gauge, in that order; nothing is reset |
| Metrics.TrackAll | src/metrics.js:130-132 | after a run of requests, each method's count grew by its number of occurrences and the total by the run's length |
| Metrics.CountRequests | src/metrics.js:125-132 | from the initial state, each method's count is its number of occurrences, the total is the number of requests and equals the sum of the counts |
| Metrics.FlushAuthTwice | src/metrics.js:102-121 | a flush reports the attempts since the previous one; a flush right after it reports 0 |
| Metrics.FlushPizzaTwice | src/metrics.js:147-168 | a flush reports the number of sales, the failures and the total of the amounts; a flush right after it reports 0 for all three |
| Metrics.LoginTwiceThenLogout | src/metrics.js:86-100 | the gauge counts users, not logins: two logins of one user give 1, 1, and the logout gives 0 |
| Logging.StatusToLogLevel | src/logger.js:33-37 | error exactly for codes from 500, warn exactly for 400 to 499, info exactly below 400 |
| Logging.LevelMonotone | src/logger.js:33-37 | a higher status code never gets a less severe level |
| Logging.NowString | src/logger.js:39-41 | the timestamp text parses to the millisecond reading times 10^6 |
| Logging.NowStringShape | src/logger.js:39-41 | the timestamp is the millisecond digits followed by six zeros, or "0" at millisecond 0 |
| Logging.Sanitize | src/logger.js:43-46 | every password field the pattern finds in a sanitised line is the mask, and sanitising again changes nothing |
| Logging.SanitizeKeepsPlainRecord | src/logger.js:43-46 | a record whose serialisation holds no password field is logged exactly as serialised |
| Logging.BuildLogEvent | src/logger.js:25-31 | one stream with the component, level and type labels and one entry whose timestamp parses to the reading times 10^6 and whose line is the sanitised record, in which every password field the pattern finds is the mask |
| Logging.Authorized | src/logger.js:10 | a request counts as authorised only with an authorization header, and an empty header does not count |
| Logging.HttpLogData | src/logger.js:9-16 | the record has, in order, authorized (header present and not empty), path, method, the status code, and the two bodies, each `undefined` exactly when its JSON text is and that JSON text otherwise |
| Logging.DatabaseQueryData | src/logger.js:72-75 | the record has the query text and the parameters, which are `undefined` exactly when their JSON text is and that JSON text otherwise |
| Logging.FactoryRequestData | src/logger.js:80-84 | the record has url, method and the body, which is `undefined` exactly when its JSON text is and that JSON text otherwise |
| Logging.ExceptionData | src/logger.js:89-92 | the record has the message and the stack, which is `undefined` exactly when the error has none and the error's stack otherwise |
| Logging.HttpCalls | src/logger.js:8-21 | one log call per installed wrapper, each of type http at the level of the status code |
| Logging.Logger.constructor | src/logger.js:97 | the logger has its component and has sent nothing |
| Logging.Logger.Log | src/logger.js:25-31 | exactly one call is appended to the sends |
| Logging.Logger.LogDatabaseQuery | src/logger.js:71-77 | logs the query and its parameters at info with type database |
| Logging.Logger.LogFactoryRequest | src/logger.js:79-86 | logs url, method and body at info with type factory |
| Logging.Logger.LogUnhandledException | src/logger.js:88-94 | logs message and stack at error with type exception |
| Logging.Logger.HttpLogger | src/logger.js:5-23 | the response's send becomes a wrapper over the previous one, for this request; nothing is logged yet |
| Logging.Response.Send | src/logger.js:8-21 | every wrapper logs once, most recent first; the wrappers are removed; the body is delivered once |
| Logging.LoggedOnce | src/logger.js:5-23 | a response wrapped once logs its first send only, and both bodies are delivered |
| Logging.EscapedMemberBody | src/logger.js:14 | the request body `{w: p}` inside the logged record reads as the escaped key, then the doubly escaped value between escaped quotes |
| Logging.EscapedPasswordBody | src/logger.js:14 | the same for the key `password`: the key of the pattern, then the doubly escaped password |
| Logging.PasswordBodyMasked | src/logger.js:43-46 | a request body `{"password": p}` with no double quote in p is sanitised to `{` mask `}`, so none of p remains |
| Logging.QuotedPasswordTailSurvives | src/logger.js:45 | for a password u"v, where u has no quote and v needs no escaping, the sanitised body is `{` mask, then v, then an escaped quote and `}`: the tail v is logged |

## Left out

- The network: `fetch`, its `.then`/`.catch` and all console output. A send is modelled as appended to `sent`; the model does not say whether it arrives.
- The timers: `setInterval` and the three periods. Each flush is a method the caller invokes.
- Concurrency of in-flight sends, which is invisible here because nothing reads a reply.
- The CPU and memory samplers (`os.loadavg`, `os.totalmem`, `os.freemem`). Their percentages are parameters.
- `process.hrtime`: the request duration is a parameter.
- `toFixed` string formatting of the duration, memory and revenue. Values are `real`, so the JSON string that `toFixed` puts in `asDouble` is not modelled.
- `Metrics.Registry.RequestFinished`: requires the method's key to be in the table. `requestTracker` guarantees this by counting before it registers the handler; `Metrics.Registry.HandleRequest` models the two steps together.
- HTTP method names that are properties of `Object.prototype` (such as `constructor`). The model's table is a plain map.
- `config` values: the log component is a constructor parameter; the URLs and API keys are left out.
- Express internals beyond `res.send` and `res.statusCode`: `next()` and the wrapper's return value are left out.
- Request and response bodies and the database parameters are given as their `JSON.stringify` text, with `None` for `undefined`.
- JSON numbers other than integers (the status code is the only number in a log record).
- Lone surrogates: `char` values here are Unicode scalar values, so the `\u` escapes `JSON.stringify` writes for lone surrogates do not arise.
- `Logging.NowString`: stated for integer readings of any size, while `Number::toString` switches to exponent notation from 10^21, that is, after the year 33658.
- `Logging.Response.Send`: all wrappers of one send share one clock reading, while each `log` call reads `Date.now()` itself.
- `Logging.Logger.LogUnhandledException`: the message is a string; an error object without a message, or a thrown non-error, is not modelled.
- MetricPayload.BuildPayload: the data point holds the exact timestamp ms·10^6 + jitter (`TimeUnixNano`), not the source's double (`TimeUnixNanoAsWritten`) or the decimal `JSON.stringify` posts for it. Each of the two roundings moves the double by at most half a spacing, 256 ns in all for present-day times (`TimeUnixNanoAsWrittenError`). At millisecond 1700000000001 the double for jitter 0 is 1700000000000999936, below ms·10^6, yet it is posted as 1700000000001000000 (`MetricPayload.MillisecondLeftOnSampleDay`). The double for jitter 999 is 1700000000001000960, posted as 1700000000001001000, one past ms·10^6 + 999 (`MetricPayload.MillisecondPassedOnSampleDay`). Printing doubles in general is not modelled: those lemmas show only which decimals read back as the double.
- `Logging.PasswordBodyMasked`: stated for the escaped request body on its own, not for the whole serialised record around it.
- Several `Logger` instances: the source exports one, and the model's `Response.Send` logs through the logger it is given.

## Findings

| source | as written | input that shows it | evidently intended | confidence | as-written member | corrected member |
|---|---|---|---|---|---|---|
| src/metrics.js:49 | `Date.now() * 1000000 + jitter` is computed in doubles. Around present-day values (2^60 to 2^61) doubles are 256 apart, so the jitter is rounded away | `Date.now()` = 1700000000000 with jitter 0 and jitter 1: both give 1700000000000000000 | a timestamp unique within the millisecond, ordered by (millisecond, jitter), as the comment "Ensure unique timestamp" says | high (not executed) | MetricPayload.JitterLostAsWritten | MetricPayload.TimeUnixNanoOrder |
| src/metrics.js:49 | the same double computation rounds `Date.now() * 1000000` and the sum to multiples of 256, and `JSON.stringify(metric)` (line 66) posts the double's shortest decimal, which can lie past the millisecond's last nanosecond | `Date.now()` = 1700000000001 with jitter 999: the double is 1700000000001000960, posted as 1700000000001001000 = ms·10^6 + 1000 | a timestamp in [ms·10^6, ms·10^6 + 999] | high (not executed) | MetricPayload.MillisecondPassedOnSampleDay | MetricPayload.TimeUnixNanoOrder |
