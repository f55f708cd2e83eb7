/** A browser using the page: it submits the page's forms one after another
    and sends back, each time, the `crashCount` cookie the previous response
    set. This is how the counter is threaded from request to request. */
module Session {
  import opened Wrappers
  import opened Int32Arith
  import opened Handler
  import Decimal

  /** The "Increment" form (hidden field crash=1), the "Reset Counter" form
      (hidden field safe=1), and a visit to `/` with no query string. */
  datatype Form = Increment | Reset | Visit

  function QueryOf(f: Form): set<string> {
    match f
    case Increment => {CrashKey}
    case Reset => {SafeKey}
    case Visit => {}
  }

  function CookieIn(jar: map<string, string>): Option<string> {
    if CookieName in jar then Some(jar[CookieName]) else None
  }

  /** The outcomes of submitting `forms` in order, starting from the cookies
      in `jar`; the browser stops at the first simulated error. */
  function Browse(env: Option<string>, jar: map<string, string>, forms: seq<Form>): seq<Outcome>
    decreases |forms|
  {
    if forms == [] then []
    else
      var o := Step(ReadInputs(env, QueryOf(forms[0]), jar));
      if o.Fault? then [o]
      else [o] + Browse(env, jar[CookieName := CounterCookie(o.counter).value], forms[1..])
  }

  function Repeat(f: Form, n: nat): (r: seq<Form>)
    ensures |r| == n && forall k :: 0 <= k < n ==> r[k] == f
  {
    if n == 0 then [] else [f] + Repeat(f, n - 1)
  }

  /** The outcome of a press that brings the counter to `counter`. */
  function PressOutcome(injectError: bool, counter: Int32): Outcome {
    if injectError && counter > FaultThreshold then Fault(counter)
    else Ok(counter, Render(injectError, counter))
  }

  /** One press, from a cookie that reads c. */
  lemma PressOnce(env: Option<string>, jar: map<string, string>, c: Int32)
    requires StartCounter(CookieIn(jar)) == c
    ensures Step(ReadInputs(env, QueryOf(Increment), jar)) == PressOutcome(InjectErrorEnabled(env), Inc(c))
  {
    assert ReadInputs(env, QueryOf(Increment), jar) == Inputs(InjectErrorEnabled(env), false, true, CookieIn(jar));
  }

  /** The counter a response set is what the next request reads. */
  lemma CarryCookie(jar: map<string, string>, c: Int32)
    ensures StartCounter(CookieIn(jar[CookieName := CounterCookie(c).value])) == c
  {
    Decimal.ParseFormatRoundTrip(c);
  }

  /** Browsing one form and then the rest, when the first does not fail. */
  lemma BrowseFirst(env: Option<string>, jar: map<string, string>, forms: seq<Form>)
    requires forms != []
    ensures var o := Step(ReadInputs(env, QueryOf(forms[0]), jar));
      Browse(env, jar, forms) ==
        if o.Fault? then [o]
        else [o] + Browse(env, jar[CookieName := CounterCookie(o.counter).value], forms[1..])
  {
  }

  /** The outcomes n presses should have from counter c, computed on the
      counter alone, without cookies or parsing. */
  function Presses(injectError: bool, c: Int32, n: nat): seq<Outcome>
    decreases n
  {
    if n == 0 then []
    else if PressOutcome(injectError, Inc(c)).Fault? then [PressOutcome(injectError, Inc(c))]
    else [PressOutcome(injectError, Inc(c))] + Presses(injectError, Inc(c), n - 1)
  }

  /** A browser pressing n times gets exactly the outcomes `Presses` predicts. */
  lemma {:induction false} PressRun(env: Option<string>, jar: map<string, string>, c: Int32, n: nat)
    requires StartCounter(CookieIn(jar)) == c
    decreases n
    ensures Browse(env, jar, Repeat(Increment, n)) == Presses(InjectErrorEnabled(env), c, n)
  {
    if n > 0 {
      var forms := Repeat(Increment, n);
      var o := Step(ReadInputs(env, QueryOf(forms[0]), jar));
      PressOnce(env, jar, c);
      BrowseFirst(env, jar, forms);
      if o.Ok? {
        var next := jar[CookieName := CounterCookie(o.counter).value];
        CarryCookie(jar, o.counter);
        assert forms[1..] == Repeat(Increment, n - 1);
        PressRun(env, next, Inc(c), n - 1);
      }
    }
  }

  /** n presses from counter c: the k-th shows c + k + 1, and with injection
      on the run ends at the first press that takes the counter past 5,
      which fails. Without injection this holds while the counter stays
      within int.MaxValue; with injection, from any c below int.MaxValue. */
  lemma {:induction false} PressesShape(injectError: bool, c: Int32, n: nat)
    requires if injectError then c < MaxValue else c + n <= MaxValue
    decreases n
    ensures var run := Presses(injectError, c, n);
      var stop := if c < FaultThreshold then FaultThreshold + 1 - c else 1;
      && |run| == (if injectError && n > stop then stop else n)
      && forall k :: 0 <= k < |run| ==> run[k] == PressOutcome(injectError, c + k + 1)
  {
    if n > 0 && PressOutcome(injectError, c + 1).Ok? {
      PressesShape(injectError, c + 1, n - 1);
      var rest := Presses(injectError, c + 1, n - 1);
      var run := Presses(injectError, c, n);
      assert run == [PressOutcome(injectError, c + 1)] + rest;
      forall k | 0 < k < |run|
        ensures run[k] == PressOutcome(injectError, c + k + 1)
      {
        assert run[k] == rest[k - 1];
      }
    }
  }

  /** With injection on, a fresh browser (or one whose cookie reads 0) that
      keeps pressing sees its first five presses show 1 to 5, and the sixth
      fails ("error on 6th click"). */
  lemma SixthPressFaults(env: Option<string>, jar: map<string, string>, n: nat)
    requires InjectErrorEnabled(env)
    requires StartCounter(CookieIn(jar)) == 0
    requires n >= 6
    ensures var run := Browse(env, jar, Repeat(Increment, n));
      && |run| == 6
      && (forall k :: 0 <= k < 5 ==> run[k] == Ok(k + 1, Render(true, k + 1)))
      && run[5] == Fault(6)
  {
    PressRun(env, jar, 0, n);
    PressesShape(true, 0, n);
  }

  /** With injection off, presses never fail and count up from the cookie. */
  lemma PressesWithoutInjection(env: Option<string>, jar: map<string, string>, c: Int32, n: nat)
    requires !InjectErrorEnabled(env)
    requires c + n <= MaxValue
    requires StartCounter(CookieIn(jar)) == c
    ensures var run := Browse(env, jar, Repeat(Increment, n));
      && |run| == n
      && forall k :: 0 <= k < n ==> run[k] == Ok(c + k + 1, Render(false, c + k + 1))
  {
    PressRun(env, jar, c, n);
    PressesShape(false, c, n);
  }

  /** A reset shows 0 and never fails, whatever the cookie held. */
  lemma ResetOnce(env: Option<string>, jar: map<string, string>)
    ensures Step(ReadInputs(env, QueryOf(Reset), jar)) == Ok(0, Render(InjectErrorEnabled(env), 0))
  {
  }

  /** Repeated resets show 0 every time and never fail, whatever the cookie. */
  lemma {:induction false} ResetRun(env: Option<string>, jar: map<string, string>, n: nat)
    decreases n
    ensures var run := Browse(env, jar, Repeat(Reset, n));
      && |run| == n
      && forall k :: 0 <= k < n ==> run[k] == Ok(0, Render(InjectErrorEnabled(env), 0))
  {
    if n > 0 {
      var forms := Repeat(Reset, n);
      var next := jar[CookieName := CounterCookie(0).value];
      ResetOnce(env, jar);
      BrowseFirst(env, jar, forms);
      assert forms[1..] == Repeat(Reset, n - 1);
      ResetRun(env, next, n - 1);
    }
  }

  /** After a reset, whatever the cookie held, five presses succeed again
      even with injection on: the way out of the simulated errors. */
  lemma ResetRecovers(env: Option<string>, jar: map<string, string>)
    ensures var run := Browse(env, jar, [Reset] + Repeat(Increment, 5));
      && |run| == 6
      && forall k :: 0 <= k < 6 ==> run[k] == Ok(k, Render(InjectErrorEnabled(env), k))
  {
    var inj := InjectErrorEnabled(env);
    var forms := [Reset] + Repeat(Increment, 5);
    var next := jar[CookieName := CounterCookie(0).value];
    ResetOnce(env, jar);
    BrowseFirst(env, jar, forms);
    assert forms[1..] == Repeat(Increment, 5);
    CarryCookie(jar, 0);
    PressRun(env, next, 0, 5);
    PressesShape(inj, 0, 5);
    var rest := Presses(inj, 0, 5);
    var run := [Ok(0, Render(inj, 0))] + rest;
    forall k | 0 < k < 6
      ensures run[k] == Ok(k, Render(inj, k))
    {
      assert run[k] == rest[k - 1];
    }
  }

  /** A visit without query keeps the counter the cookie holds, and never
      fails; repeating it shows the same counter every time. */
  lemma {:induction false} VisitRun(env: Option<string>, jar: map<string, string>, n: nat)
    decreases n
    ensures var run := Browse(env, jar, Repeat(Visit, n));
      var c := StartCounter(CookieIn(jar));
      && |run| == n
      && forall k :: 0 <= k < n ==> run[k] == Ok(c, Render(InjectErrorEnabled(env), c))
  {
    if n > 0 {
      var c := StartCounter(CookieIn(jar));
      var forms := Repeat(Visit, n);
      var next := jar[CookieName := CounterCookie(c).value];
      assert ReadInputs(env, QueryOf(Visit), jar) == Inputs(InjectErrorEnabled(env), false, false, CookieIn(jar));
      BrowseFirst(env, jar, forms);
      CarryCookie(jar, c);
      assert forms[1..] == Repeat(Visit, n - 1);
      VisitRun(env, next, n - 1);
    }
  }
}
