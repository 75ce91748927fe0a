# DevOps info service: a verified model of its response rules

The service (`app_python/app.py`) is a small HTTP service with two routes.
`GET /` reports facts about the service, the host, the runtime and the
request. `GET /health` answers liveness probes. Two exception handlers turn
every error into a JSON body of the form `{error, message}`. This project
models the rules behind these responses as pure Dafny functions and proves
the properties the service promises. The clock, the host queries and the
request are passed in as parameters.

| file | module | what it models |
|---|---|---|
| `wrappers.dfy` | `Wrappers` | `Option`, which stands for Python's `None` or a value |
| `text.dfy` | `Text` | Python's `str(int)`, `"%0Nd"`, ASCII `str.lower` and `str.replace`, plus parsers that invert them |
| `config.dfy` | `Config` | the `DEBUG` environment flag |
| `uptime.dfy` | `Uptime` | `get_uptime`: elapsed seconds, hours and minutes, and the human-readable text |
| `timestamp.dfy` | `Timestamp` | `iso_utc_now`: `isoformat(timespec="milliseconds")` followed by `.replace("+00:00", "Z")` |
| `errors.dfy` | `ErrorHandlers` | `http_exception_handler`, `unhandled_exception_handler` and which of them handles a fault |
| `endpoints.dfy` | `Endpoints` | `get_platform_version`, `get_system_info`, `index` and `health` |

Modelling choices:

- **Clock.** The start time and the current time are integers counting
  microseconds, the resolution of Python's `timedelta`.
  `int(delta.total_seconds())` truncates toward zero, as Python's `int()` does.
- **Timestamp input.** The timestamp is computed from the broken-down UTC
  fields of a `datetime`, including microseconds. `isoformat` truncates the
  microseconds to milliseconds.
- **Two clock reads per response.** `get_uptime` and `iso_utc_now` each call
  `datetime.now()`. A response therefore takes two separate clock readings
  (`Endpoints.Clock`).
- **Division.** Python's `//` and `%` with a positive divisor agree with
  Dafny's `/` and `%`, so `s // 3600` and `(s % 3600) // 60` are written
  directly, negative `s` included.
- **Negative uptime.** Uptime is not always non-negative. The code reads the
  wall clock, and the wall clock can move backwards. The model therefore lets
  `ElapsedSeconds` be negative. It proves non-negativity and monotonicity
  only for a clock that does not go backwards.

## Model

| member | source | states |
|---|---|---|
| `Config.DebugEnabled` | app_python/app.py:22 | an unset `DEBUG` (default "False") gives false |
| `Config.DebugEnabledIff` | app_python/app.py:22 | DEBUG is on exactly when the variable is set to the four letters of "true" in any mix of cases |
| `Config.DebugRejectsOtherTruthyValues` | app_python/app.py:22 | "1", "yes", "on" and " true" give false; "TRUE" and "True" give true |
| `Text.Lower` | app_python/app.py:22 | lowering keeps the length and maps each character through the ASCII case mapping |
| `Text.NatToString` | app_python/app.py:50 | the decimal form of a natural number is non-empty, all digits, without a leading zero, and "0" for 0 |
| `Text.IntToString` | app_python/app.py:50 | `str(i)` starts with `-` exactly when i is negative, and the digits after the sign have no leading zero (so never "-0") |
| `Text.IntToStringRoundTrip` | app_python/app.py:50 | the text of any integer, signed or not, parses back to that integer |
| `Text.NatTextRoundTrip` | app_python/app.py:50 | a digit string without a leading zero is the decimal form of its own value |
| `Text.ParseIntIff` | app_python/app.py:50 | a text reads back as integer i exactly when it is the text `str(i)`, so each integer has one spelling |
| `Text.PadDigits` | app_python/app.py:42 | a zero-padded field of width w has exactly w characters, all decimal digits |
| `Text.PadDigitsRoundTrip` | app_python/app.py:42 | a zero-padded field of width w reads back as the number it was written for, for any number below 10^w |
| `Text.DigitsValueRoundTrip` | app_python/app.py:42 | every digit string equals the zero-padded rendering of its own value at its own width |
| `Text.ReplaceAll` | app_python/app.py:42 | one property of `str.replace`: replacing a pattern by itself leaves the string unchanged; the scan itself is characterised by `ReplaceFirst` |
| `Text.ReplaceFirst` | app_python/app.py:42 | the left-to-right scan: when the first occurrence of the pattern in p + pat + rest follows p, that occurrence is replaced, p is kept, and the scan resumes after the occurrence, so occurrences never overlap |
| `Text.ReplaceAbsent` | app_python/app.py:42 | `str.replace` leaves a string without the pattern unchanged |
| `Text.ReplaceTrailing` | app_python/app.py:42 | a pattern that ends the string, and whose first character does not occur before it, is the only part replaced |
| `Uptime.ElapsedSeconds` | app_python/app.py:46-47 | whole seconds are the elapsed time truncated toward zero: the lower bound when the clock moved forwards, the upper bound when it moved back |
| `Uptime.HoursMinutes` | app_python/app.py:48-49 | minutes lie in [0, 60) and hours*3600 + minutes*60 <= s < hours*3600 + minutes*60 + 60 |
| `Uptime.HoursMinutesUnique` | app_python/app.py:48-49 | those bounds determine hours and minutes, so only the sub-minute remainder is dropped |
| `Uptime.NoDayRollover` | app_python/app.py:48-49 | 90000 seconds are 25 hours and 0 minutes, so hours are not folded into days; 59 seconds give 0 and 0 |
| `Uptime.GetUptime` | app_python/app.py:45-50 | `seconds` is the elapsed whole seconds, and the `human` text reads back as that value's hours and minutes; with `ParseHumanIff` this text is exactly "<hours> hours, <minutes> minutes" |
| `Uptime.Human` | app_python/app.py:50 | the text "<h> hours, <m> minutes" reads back as (h, m), for all integers h and m |
| `Uptime.ParseHumanParts` | app_python/app.py:50 | any two texts that read back as numbers, put into the f-string, read back as those numbers |
| `Uptime.ParseHumanIff` | app_python/app.py:50 | a text reads back as (h, m) exactly when it is the f-string text for h and m, so no other spelling (leading zeros, "-0") is accepted |
| `Uptime.UnderAMinute` | app_python/app.py:47-50 | less than a minute of uptime reads "0 hours, 0 minutes" |
| `Uptime.ElapsedMonotone` | app_python/app.py:46-47 | with a clock that does not go backwards, uptime is non-negative and does not decrease between reads |
| `Timestamp.ToStamp` | app_python/app.py:42 | year, month, day, hour, minute and second are kept, and the millisecond shown is the microsecond truncated to milliseconds |
| `Timestamp.ParseTimestamp` | app_python/app.py:41-42 | a string parses exactly when it has the shape YYYY-MM-DDTHH:MM:SS.mmmZ |
| `Timestamp.DateTimePart` | app_python/app.py:42 | the "%04d-%02d-%02dT%02d:%02d:%02d.%03d" text has the timestamp shape once a Z follows it, and holds no '+' |
| `Timestamp.IsoFormatMillis` | app_python/app.py:42 | the `isoformat` text has 29 characters and holds "+00:00" once, at its end |
| `Timestamp.OffsetOnlyAtEnd` | app_python/app.py:42 | after a text without '+', an appended "+00:00" is the only occurrence of "+00:00" |
| `Timestamp.IsoUtc` | app_python/app.py:40-42 | replacing "+00:00" rewrites only the trailing offset: the result is the date-time part followed by a literal Z, in the shape YYYY-MM-DDTHH:MM:SS.mmmZ |
| `Timestamp.IsoUtcWellFormed` | app_python/app.py:40-42 | the timestamp has the shape YYYY-MM-DDTHH:MM:SS.mmmZ, never contains "+00:00", and reads back as its instant at millisecond precision |
| `Timestamp.TimestampRoundTrip` | app_python/app.py:40-42 | every well-formed timestamp of a valid instant is the one written for that instant |
| `Timestamp.ExampleTimestamp` | app_python/app.py:41 | 2026-01-07 14:30:00.000 UTC is written "2026-01-07T14:30:00.000Z" |
| `ErrorHandlers.HttpExceptionHandler` | app_python/app.py:78-88 | the status is always kept; 404 gets the fixed not-found body; any other status gets "HTTP Error" with the original detail |
| `ErrorHandlers.UnhandledExceptionHandler` | app_python/app.py:91-97 | status 500 with the fixed internal-error body |
| `ErrorHandlers.NotFoundIgnoresDetail` | app_python/app.py:80-84 | every 404 gets the same response, whatever its detail |
| `ErrorHandlers.UnhandledLeaksNothing` | app_python/app.py:91-97 | every unhandled exception gets the same response, whatever its content |
| `ErrorHandlers.ErrorLabelIdentifiesKind` | app_python/app.py:78-97 | the `error` label is "Not Found", "HTTP Error" or "Internal Server Error" exactly for a 404, another HTTP error or an unhandled exception |
| `ErrorHandlers.HttpErrorPassThrough` | app_python/app.py:85-88 | two non-404 HTTP errors get the same response only when their status and detail are the same |
| `ErrorHandlers.Handle` | app_python/app.py:76-97 | an HTTP fault gets exactly the response of `http_exception_handler` for its status and detail, so its status is kept (even 500), 404 gets the not-found body and any other status gets "HTTP Error" with the detail; an unhandled exception gets exactly the response of `unhandled_exception_handler`: 500 with the fixed internal-error body |
| `Endpoints.PlatformVersion` | app_python/app.py:53-64 | a present, non-empty PRETTY_NAME is used; otherwise the generic platform string is used |
| `Endpoints.CpuCount` | app_python/app.py:73 | the CPU count is at least 1 and equals any positive count the OS reports |
| `Endpoints.CpuCountFallback` | app_python/app.py:73 | the count is 1 exactly when the OS reports none, 0 or 1 |
| `Endpoints.GetSystemInfo` | app_python/app.py:67-75 | each host fact is reported unchanged, the platform version follows the PRETTY_NAME fallback rule, and the CPU count is `CpuCount` of the reported count, so a positive OS count is passed through and it is never below 1 |
| `Endpoints.Index` | app_python/app.py:106-134 | fixed service name "devops-info-service", version "1.0.0" and framework "FastAPI"; the system facts of `get_system_info`; the seconds and text of `get_uptime`; the current time of `iso_utc_now`; timezone "UTC"; the request fields echoed; the fixed endpoint list |
| `Endpoints.EndpointsListed` | app_python/app.py:130-133 | the index lists exactly two endpoints, "/" and "/health", both GET |
| `Endpoints.IndexRuntimeConsistent` | app_python/app.py:118-123 | `uptime_human` reads back as the hours and minutes of `uptime_seconds`, and `current_time` is a well-formed timestamp of the clock reading without "+00:00" |
| `Endpoints.IndexEchoesRequest` | app_python/app.py:124-129 | GET / with User-Agent "pytest" reports that agent, method GET and path "/" |
| `Endpoints.Health` | app_python/app.py:137-144 | `status` is always "healthy", the timestamp is that of `iso_utc_now`, and `uptime_seconds` is the seconds `get_uptime` computes |
| `Endpoints.HealthTimestampWellFormed` | app_python/app.py:140-144 | the health timestamp is well-formed and reads back as the clock reading |
| `Endpoints.HealthUptimeNonDecreasing` | app_python/app.py:137-144 | two health checks with a clock that does not go backwards report a non-negative uptime that does not decrease |

## Left out

- `pulumi/__main__.py` is not part of this model. It is a declarative cloud-resource graph that an external engine evaluates. It reads a key file and calls a cloud API.
- Clock reads (`datetime.now`) are parameters.
- `timedelta.total_seconds()` returns a float, and its rounding is not modelled. The elapsed microseconds are truncated exactly.
- Host queries are opaque inputs: `socket.gethostname`, the `platform.*` calls, `os.cpu_count` and `freedesktop_os_release` with its exception fallback. Only the choice between PRETTY_NAME and `platform.platform()` is modelled.
- The FastAPI/Starlette framework is not modelled: routing, async dispatch, handler registration and JSON serialisation. `ErrorHandlers.Handle` stands for the dispatch of a fault to its handler. The request is reduced to four fields: client host, User-Agent, method and path.
- The HTTP exception's `detail` is modelled as a string. Starlette fills in the status phrase when no detail is given. A non-string detail is not modelled.
- Logging is not modelled. This covers the logging setup, the `log_requests` middleware and `logger.exception` in the unhandled-exception handler. None of them affects a response.
- `HOST` and `PORT` are not modelled. They are read only to start the server. `PORT` relies on Python's `int()` parsing, and its default is 5000.
- The uvicorn start-up is not modelled. `DEBUG` is used in three places besides its definition at app_python/app.py:22: it picks the log level (line 28), it is printed in the start-up message (line 148), and it is passed as `reload=DEBUG` (line 149). These uses are left out along with logging and the server start-up.
- `Text.Lower`: does not model Python's full Unicode `str.lower`, only ASCII case mapping. No non-ASCII character lowercases to one of the letters of "true", so `DebugEnabled` gives the same answer either way.
