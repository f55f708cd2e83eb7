/** The `GET /` handler of the click-counter demo: it reads the error-injection
    setting, the `safe` and `crash` query flags and the `crashCount` cookie,
    computes the next counter, writes it back as a cookie, and then either
    throws the simulated error or renders the page. */
module Handler {
  import opened Wrappers
  import opened Int32Arith
  import Decimal

  const CookieName: string := "crashCount"
  const SafeKey: string := "safe"
  const CrashKey: string := "crash"
  const HtmlContentType: string := "text/html; charset=utf-8"
  const FaultMessage: string := "Simulated error after 5 button clicks!"
  /** The counter must exceed this for the simulated error to fire. */
  const FaultThreshold: int := 5
  /** The cookie expires this many hours after the response is produced. */
  const CookieLifetimeHours: nat := 1

  /** Everything one request contributes to the decision. */
  datatype Inputs = Inputs(injectError: bool, safe: bool, crash: bool, cookie: Option<string>)

  /** Error injection is on exactly when INJECT_ERROR holds the text "1". */
  function InjectErrorEnabled(env: Option<string>): bool {
    env == Some("1")
  }

  /** The flags and cookie text of a request: the value of INJECT_ERROR, the
      set of query-string keys, and the request cookies by name. */
  function ReadInputs(env: Option<string>, query: set<string>, cookies: map<string, string>): (i: Inputs)
    ensures i.injectError <==> env == Some("1")
    ensures i.safe <==> SafeKey in query
    ensures i.crash <==> CrashKey in query
    ensures i.cookie.Some? <==> CookieName in cookies
    ensures i.cookie.Some? ==> i.cookie.value == cookies[CookieName]
  {
    Inputs(InjectErrorEnabled(env), SafeKey in query, CrashKey in query,
           if CookieName in cookies then Some(cookies[CookieName]) else None)
  }

  /** The counter as read from the cookie: 0 when there is no cookie or its
      text is not an Int32 numeral (TryParse leaves 0 behind on failure). */
  function StartCounter(cookie: Option<string>): (r: Int32)
    ensures r != 0 ==> cookie.Some? && Decimal.TryParseInt32(cookie.value) == Some(r)
  {
    match cookie
    case None => 0
    case Some(text) =>
      match Decimal.TryParseInt32(text)
      case Some(v) => v
      case None => 0
  }

  /** The counter after the flags are applied: safe mode wins and resets,
      otherwise a press adds one (with int wrap-around). */
  function NextCounter(start: Int32, safe: bool, crash: bool): (r: Int32)
    ensures safe ==> r == 0
    ensures !safe && crash && start < MaxValue ==> r == start + 1
    ensures !safe && !crash ==> r == start
  {
    if safe then 0 else if crash then Inc(start) else start
  }

  /** The condition under which the handler throws. */
  predicate Faults(i: Inputs, counter: Int32) {
    i.injectError && !i.safe && i.crash && counter > FaultThreshold
  }

  /** What the rendered page shows beyond its fixed text: the counter, the
      click-count note (with the count it shows) and the warning banner. */
  datatype Page = Page(counter: Int32, clickNote: Option<Int32>, warning: bool)

  function Render(injectError: bool, counter: Int32): (p: Page)
    ensures p.counter == counter
    ensures p.clickNote.Some? ==> p.clickNote.value == p.counter
    ensures p.clickNote.Some? <==> p.warning
  {
    Page(counter, if injectError then Some(counter) else None, injectError)
  }

  /** A request ends either with the page, or with the simulated error; both
      carry the counter written to the cookie. */
  datatype Outcome = Ok(counter: Int32, page: Page) | Fault(counter: Int32)

  /** The handler's decision as a function of its inputs. */
  function Step(i: Inputs): (r: Outcome)
    ensures r.Fault? ==> i.injectError && !i.safe && i.crash && r.counter > FaultThreshold
    ensures r.Ok? ==> r.page.counter == r.counter
    ensures i.safe ==> r.Ok? && r.counter == 0
  {
    var counter := NextCounter(StartCounter(i.cookie), i.safe, i.crash);
    if Faults(i, counter) then Fault(counter) else Ok(counter, Render(i.injectError, counter))
  }

  /** A `Set-Cookie` the response carries; the absolute expiry time depends on
      the clock, so only its distance from the response time is kept. */
  datatype SetCookie = SetCookie(name: string, value: string, lifetimeHours: nat)

  function CounterCookie(counter: Int32): (c: SetCookie)
    ensures c.name == CookieName && c.lifetimeHours == CookieLifetimeHours
    ensures Decimal.TryParseInt32(c.value) == Some(counter)
  {
    Decimal.ParseFormatRoundTrip(counter);
    SetCookie(CookieName, Decimal.FormatInt32(counter), CookieLifetimeHours)
  }

  /** The parts of the HTTP response the handler changes. */
  class HttpResponse {
    var contentType: Option<string>
    var cookies: seq<SetCookie>
    var body: seq<Page>

    constructor ()
      ensures contentType == None && cookies == [] && body == []
    {
      contentType := None;
      cookies := [];
      body := [];
    }

    /** `Response.Cookies.Append`: adds one `Set-Cookie` to the response. */
    method AppendCookie(c: SetCookie)
      modifies this
      ensures cookies == old(cookies) + [c]
      ensures contentType == old(contentType) && body == old(body)
    {
      cookies := cookies + [c];
    }

    /** `Response.WriteAsync`: appends a rendered page to the body. */
    method Write(p: Page)
      modifies this
      ensures body == old(body) + [p]
      ensures contentType == old(contentType) && cookies == old(cookies)
    {
      body := body + [p];
    }
  }

  /** The handler itself. `thrown` is the message of the exception that
      escapes to the host, if any. The cookie is appended before the fault
      check, so it is on the response in both outcomes. */
  method HandleRoot(env: Option<string>, query: set<string>, requestCookies: map<string, string>,
                    response: HttpResponse)
    returns (thrown: Option<string>)
    modifies response
    ensures var o := Step(ReadInputs(env, query, requestCookies));
      && response.contentType == Some(HtmlContentType)
      && response.cookies == old(response.cookies) + [CounterCookie(o.counter)]
      && (thrown.Some? <==> o.Fault?)
      && (thrown.Some? ==> thrown.value == FaultMessage && response.body == old(response.body))
      && (o.Ok? ==> response.body == old(response.body) + [o.page])
  {
    response.contentType := Some(HtmlContentType);
    var injectError := InjectErrorEnabled(env);
    var safeMode := SafeKey in query;
    var buttonPressed := CrashKey in query;

    var pressCount: Int32 := 0;
    if CookieName in requestCookies {
      match Decimal.TryParseInt32(requestCookies[CookieName])
      case Some(v) => pressCount := v;
      case None => pressCount := 0;
    }

    if safeMode {
      pressCount := 0;
    }

    if buttonPressed && !safeMode {
      pressCount := Inc(pressCount);
    }

    response.AppendCookie(CounterCookie(pressCount));

    if injectError && !safeMode && buttonPressed && pressCount > FaultThreshold {
      return Some(FaultMessage);
    }

    response.Write(Render(injectError, pressCount));
    thrown := None;
  }

  /** Without a readable cookie the counter starts at 0, and nothing fails. */
  lemma UnreadableCookieStartsAtZero(i: Inputs)
    requires i.cookie.None? || Decimal.TryParseInt32(i.cookie.value).None?
    ensures StartCounter(i.cookie) == 0
    ensures !i.crash || i.safe ==> Step(i) == Ok(0, Render(i.injectError, 0))
    ensures i.crash && !i.safe ==> Step(i) == Ok(1, Render(i.injectError, 1))
  {
  }

  /** Safe mode resets the counter to 0 and never faults, pressed or not. */
  lemma SafeModeResets(i: Inputs)
    requires i.safe
    ensures Step(i) == Ok(0, Render(i.injectError, 0))
  {
  }

  /** A press outside safe mode adds exactly one to the cookie's counter,
      except at int.MaxValue, where the C# increment wraps to int.MinValue. */
  lemma PressIncrements(i: Inputs)
    requires i.crash && !i.safe
    ensures StartCounter(i.cookie) < MaxValue ==> Step(i).counter == StartCounter(i.cookie) + 1
    ensures StartCounter(i.cookie) == MaxValue ==> Step(i) == Ok(MinValue, Render(i.injectError, MinValue))
  {
  }

  /** With neither flag the counter is the cookie's, and nothing fails. */
  lemma NoFlagsKeepsCounter(i: Inputs)
    requires !i.safe && !i.crash
    ensures Step(i) == Ok(StartCounter(i.cookie), Render(i.injectError, StartCounter(i.cookie)))
  {
  }

  /** The simulated error fires exactly when injection is on, the request is
      a press outside safe mode and the new counter exceeds 5; in terms of the
      cookie, when it held a value from 5 up to (but not including)
      int.MaxValue. */
  lemma FaultCondition(i: Inputs)
    ensures Step(i).Fault? <==> i.injectError && !i.safe && i.crash && Step(i).counter > FaultThreshold
    ensures Step(i).Fault? <==>
      i.injectError && !i.safe && i.crash && FaultThreshold <= StartCounter(i.cookie) < MaxValue
  {
  }

  /** The same condition stated on the raw request: INJECT_ERROR is exactly
      "1", the query has `crash` and not `safe`, and the cookie reads from 5
      up to (not including) int.MaxValue. */
  lemma FaultConditionOnRequest(env: Option<string>, query: set<string>, cookies: map<string, string>)
    ensures var cookie := if CookieName in cookies then Some(cookies[CookieName]) else None;
      Step(ReadInputs(env, query, cookies)).Fault? <==>
        env == Some("1") && SafeKey !in query && CrashKey in query &&
        FaultThreshold <= StartCounter(cookie) < MaxValue
  {
  }

  /** Error injection switched off (INJECT_ERROR anything but "1") never faults. */
  lemma InjectionOffNeverFaults(env: Option<string>, query: set<string>, cookies: map<string, string>)
    requires env != Some("1")
    ensures Step(ReadInputs(env, query, cookies)).Ok?
  {
  }

  /** The page shows the counter that the cookie carries; the click note (with
      that same count) and the warning appear exactly when injection is on. */
  lemma PageMatchesCookie(i: Inputs)
    requires Step(i).Ok?
    ensures Step(i).page.counter == Step(i).counter
    ensures Step(i).page.clickNote == (if i.injectError then Some(Step(i).counter) else None)
    ensures Step(i).page.warning <==> i.injectError
  {
  }

  /** The cookie written by one response, sent back unchanged on a request
      without flags, is read as the same counter and shown again. */
  lemma CookieRoundTrip(i: Inputs, next: Inputs)
    requires next.cookie == Some(CounterCookie(Step(i).counter).value)
    requires !next.safe && !next.crash
    ensures StartCounter(next.cookie) == Step(i).counter
    ensures Step(next) == Ok(Step(i).counter, Render(next.injectError, Step(i).counter))
  {
    Decimal.ParseFormatRoundTrip(Step(i).counter);
  }

  /** Injection on, cookie "5", a press: the counter becomes 6, the cookie
      says "6", and the request fails. */
  lemma FaultOnSixthPress()
    ensures Step(Inputs(true, false, true, Some("5"))) == Fault(6)
    ensures CounterCookie(6).value == "6"
  {
  }

  /** The same request with safe mode added: counter 0 and the page. */
  lemma SafeModeSuppressesFault()
    ensures Step(Inputs(true, true, true, Some("5"))) == Ok(0, Render(true, 0))
  {
  }

  /** Injection off, cookie "10", a press: counter 11 and the page. */
  lemma InjectionOffCountsOn()
    ensures Step(Inputs(false, false, true, Some("10"))) == Ok(11, Render(false, 11))
    ensures CounterCookie(11).value == "11"
  {
    assert Decimal.TryParseInt32("10") == Some(10) by {
      assert Decimal.Digits(1) == "1";
      assert Decimal.Digits(10) == "10";
      assert Decimal.FormatInt32(10) == "10";
      Decimal.ParseFormatRoundTrip(10);
    }
  }
}
