# Click-counter handler with simulated error injection

This project models the one piece of logic in the demo web server: the
handler of `GET /` in `src/SreAgentDemo/Program.cs`. Each request reads

- the `INJECT_ERROR` environment variable (error injection is on exactly when
  it is the text `"1"`),
- the presence of the `safe` and `crash` query keys, and
- the `crashCount` cookie, parsed with `int.TryParse` (0 if absent or unreadable).

It then computes the next counter. Safe mode resets it to 0. Otherwise a press
(`crash`) adds one, with C# `int` wrap-around. The handler writes the counter
back to the `crashCount` cookie, with a one-hour lifetime. Then it either throws
the simulated error or renders the page.

The error fires when injection is on, the request is a press outside safe mode,
and the new counter exceeds 5. The cookie is appended before this check, so it
is on the response in both cases. The server keeps no state: the counter lives
in the browser's cookie.

Files:

- `Wrappers.dfy`: `Option`.
- `Int32Arith.dfy`: the C# `int` range, two's-complement wrap-around, and unchecked `++`.
- `Decimal.dfy`: `int.ToString()` (`FormatInt32`) and `int.TryParse` (`TryParseInt32`).
  Includes the cookie round-trip lemma.
- `Handler.dfy`:
  - the request inputs, and `Step`, the pure description of one request;
  - the abstract page (counter, click note, warning);
  - the response object as a class (`HttpResponse`), with content type,
    appended cookies and written body;
  - `HandleRoot`, the handler as an imperative method with a local `pressCount`,
    proved equal to `Step`;
  - lemmas for each behaviour of the handler.
- `Session.dfy`: a browser that submits the page's two forms (or visits `/`
  with no query) in turn and sends back the cookie each time. Lemmas cover
  runs of presses, resets and visits (the "error on 6th click" promise, and
  recovery by reset).

Behaviour worth noting:

- Negative counters occur. The handler accepts any Int32 numeral in the
  cookie, including negative ones, and keeps it when no flag is given.
- A press adds one only below int.MaxValue. A cookie of `2147483647` plus a
  press gives `-2147483648`, because `pressCount++` is unchecked. That request
  does not fault, because the wrapped counter is not above 5
  (`Handler.PressIncrements`, `Handler.FaultCondition`).
- The warning banner tells the user to append `?=safe=1` to the URL. The
  banner is modelled only as present or absent, so the model makes no claim
  about that text.

## Model

| member | source | states |
|---|---|---|
| Int32Arith.Wrap | src/SreAgentDemo/Program.cs:23 | the result is the Int32 congruent to the exact value modulo 2^32, and equals it when it is in range (unchecked C# arithmetic) |
| Int32Arith.Inc | src/SreAgentDemo/Program.cs:22-23 | `pressCount++` adds one below int.MaxValue and wraps int.MaxValue to int.MinValue |
| Decimal.Digits | src/SreAgentDemo/Program.cs:25 | the digits of a natural number are non-empty, all decimal digits, with a leading '0' only for 0 itself |
| Decimal.FormatInt32 | src/SreAgentDemo/Program.cs:25 | `ToString()` text is non-empty, starts with '-' exactly for negative values, and is digits after that |
| Decimal.DigitsValue | src/SreAgentDemo/Program.cs:25 | the digits written for n denote n |
| Decimal.ParseFormatRoundTrip | src/SreAgentDemo/Program.cs:17-25 | `int.TryParse` of the text `ToString` writes succeeds and gives back the same Int32, int.MinValue included |
| Decimal.FormatInjective | src/SreAgentDemo/Program.cs:25 | distinct counters are written as distinct cookie texts |
| Decimal.ParseRejectsOverflow | src/SreAgentDemo/Program.cs:16-17 | a numeral beyond the Int32 range fails to parse, with or without a sign |
| Decimal.ParseRejectsNonNumeral | src/SreAgentDemo/Program.cs:16-17 | text with a non-digit (other than a leading sign) fails to parse |
| Decimal.TryParseInt32 | src/SreAgentDemo/Program.cs:16-17 | `int.TryParse`: text that parses is an optional sign followed by at least one digit, and a negative result comes only from a leading '-' |
| Decimal.ParseNumeral | src/SreAgentDemo/Program.cs:16-17 | an optional sign followed by digits whose value fits its sign's Int32 bound parses to its signed value. This covers leading zeros, a '+' sign and "-0" |
| Handler.InjectErrorEnabled | src/SreAgentDemo/Program.cs:11 | error injection is on when the INJECT_ERROR value is the text "1" |
| Handler.ReadInputs | src/SreAgentDemo/Program.cs:11-16 | the inputs of a request: injection on exactly when INJECT_ERROR is "1", `safe` and `crash` exactly when those query keys are present, and the `crashCount` cookie's text exactly when the request has that cookie |
| Handler.StartCounter | src/SreAgentDemo/Program.cs:15-17 | the counter before the flags apply; a non-zero value is always the successful parse of a cookie that is present |
| Handler.NextCounter | src/SreAgentDemo/Program.cs:19-23 | the counter after the flags: 0 in safe mode, one more after a press below int.MaxValue, unchanged with neither flag |
| Handler.Faults | src/SreAgentDemo/Program.cs:27 | the throw condition: injection on, not safe, pressed, and the counter above 5 |
| Handler.Render | src/SreAgentDemo/Program.cs:105-115 | the page shows the counter; the click note, when present, shows the same count, and it is present exactly when the warning is |
| Handler.Step | src/SreAgentDemo/Program.cs:15-28 | one request's outcome: a fault only when injection is on, not safe, pressed and the counter is above 5. A rendered page shows the outcome's counter, and safe mode always renders 0 |
| Handler.CounterCookie | src/SreAgentDemo/Program.cs:25 | the `crashCount` cookie with a one-hour lifetime, whose text parses back to the counter |
| Handler.HttpResponse.AppendCookie | src/SreAgentDemo/Program.cs:25 | appending a cookie adds exactly that `Set-Cookie` and changes nothing else on the response |
| Handler.HttpResponse.Write | src/SreAgentDemo/Program.cs:33-120 | writing the page appends it to the body and changes nothing else |
| Handler.HandleRoot | src/SreAgentDemo/Program.cs:8-33 | the handler sets the HTML content type and always appends the `crashCount` cookie with the counter `Step` gives. It throws the simulated-error message exactly when `Step` faults, leaving the body untouched. Otherwise it writes the page `Step` gives |
| Handler.UnreadableCookieStartsAtZero | src/SreAgentDemo/Program.cs:15-17 | an absent or unparsable cookie gives a starting counter of 0 with no error. The request then shows 0, or 1 after a press outside safe mode |
| Handler.SafeModeResets | src/SreAgentDemo/Program.cs:19-23 | with `safe` present, the counter is 0 and the page is rendered, whether or not `crash` is present |
| Handler.PressIncrements | src/SreAgentDemo/Program.cs:22-23 | a press outside safe mode gives the parsed counter plus one; at int.MaxValue it wraps to int.MinValue and renders |
| Handler.NoFlagsKeepsCounter | src/SreAgentDemo/Program.cs:15-23 | with neither flag, the counter is the parsed cookie value and the page is rendered |
| Handler.FaultCondition | src/SreAgentDemo/Program.cs:27-28 | the fault fires if and only if injection is on, not safe, pressed and the counter exceeds 5. Equivalently, the cookie read from 5 up to, not including, int.MaxValue |
| Handler.FaultConditionOnRequest | src/SreAgentDemo/Program.cs:11-28 | the same if-and-only-if, stated on the environment value, the query keys and the cookie map |
| Handler.InjectionOffNeverFaults | src/SreAgentDemo/Program.cs:11-28 | an INJECT_ERROR value other than exactly "1", absent included, never faults |
| Handler.PageMatchesCookie | src/SreAgentDemo/Program.cs:105-115 | a rendered page shows the counter the cookie carries. The click note, showing that count, and the warning appear exactly when injection is on |
| Handler.CookieRoundTrip | src/SreAgentDemo/Program.cs:15-25 | the cookie a response writes, sent back on a request with no flags, is read as the same counter and shown again |
| Handler.FaultOnSixthPress | src/SreAgentDemo/Program.cs:15-28 | injection on, cookie "5", a press: the counter becomes 6, the cookie text is "6", and the request faults |
| Handler.SafeModeSuppressesFault | src/SreAgentDemo/Program.cs:19-28 | the same request with `safe` added renders counter 0 |
| Handler.InjectionOffCountsOn | src/SreAgentDemo/Program.cs:11-28 | injection off, cookie "10", a press: counter 11, cookie text "11", the page renders |
| Session.PressRun | src/SreAgentDemo/Program.cs:106-109 | a browser pressing Increment n times from any cookie value, carrying the cookie, gets exactly the outcomes of the cookie-free reference `Presses`, wrap-around included |
| Session.PressesShape | src/SreAgentDemo/Program.cs:22-28 | the k-th press from counter c (negative included) shows c+k+1. With injection on, the run stops at the first press past 5, which faults |
| Session.SixthPressFaults | src/SreAgentDemo/Program.cs:114-115 | with injection on, from counter 0, however many presses are attempted, presses 1 to 5 render 1 to 5 and the sixth faults |
| Session.PressesWithoutInjection | src/SreAgentDemo/Program.cs:11-28 | with injection off, n presses from counter c (negative included) all render, showing c+1 to c+n |
| Session.ResetOnce | src/SreAgentDemo/Program.cs:110-113 | submitting the reset form renders counter 0, whatever the cookie held |
| Session.ResetRun | src/SreAgentDemo/Program.cs:19-20 | repeated resets all render 0 and never fault, from any prior cookie |
| Session.ResetRecovers | src/SreAgentDemo/Program.cs:110-115 | after a reset, five further presses all render (0 to 5), even with injection on |
| Session.VisitRun | src/SreAgentDemo/Program.cs:15-25 | visiting `/` with no query n times keeps the cookie's counter on every page and never faults |

## Left out

- Hosting, the application builder, route registration and `app.Run()` are
  framework plumbing, with no decision in them.
- Environment access is not modelled. The value of `INJECT_ERROR` is a parameter
  (`Option<string>`), read per request.
- Query and cookie lookup is abstracted to the framework's parsed results: a set
  of query keys and a map of cookies. ASP.NET's key-comparison rules, such as
  case-insensitive query keys, belong to the framework and are modelled as exact
  membership.
- `int.TryParse` is modelled as optional sign, digits and the Int32 range.
  Surrounding whitespace and culture-specific sign symbols are not modelled, and
  neither is culture-specific formatting in `ToString()`.
- The cookie's absolute expiry depends on the wall clock, so only its one-hour
  lifetime is kept. Other cookie options (path, flags) are the framework's defaults.
- The exception's journey through the host to an HTTP 500 response is not
  modelled. The handler returns the thrown message instead. Whether the host
  still sends the already-appended cookie with the error response is host
  behaviour, so `Session.Browse` stops at the first fault.
- The page is modelled as its counter, the click note with its count, and the
  warning's presence. The remaining HTML, the CSS and the static configuration
  note are fixed text.
- `buttonColor` and `buttonHover` yield the same constant on both branches,
  so they carry no behaviour.
- Response writing is asynchronous in the source and synchronous in the model.
  Concurrent requests share nothing, so no concurrency is modelled.
- Session.PressesShape: without injection, the c+k+1 form is stated only while
  c + n stays within int.MaxValue. Past that, the counter wraps, and the run is
  described by `Session.Presses`, which `Session.PressRun` ties to the browser.
- Session.PressesWithoutInjection: stated only while c + n stays within
  int.MaxValue, for the same reason. Longer runs wrap to int.MinValue and are
  covered by `Session.PressRun`.
