/** The request loop of packages/sdk/src/transport.ts, against any answers of the server. */
module Request {
  import opened Text
  import Passkey

  const MAX_RATE_LIMIT_RETRY_AFTER_SECONDS := 30
  const MAX_RATE_LIMIT_WAIT_MS := 60_000

  type Headers = map<string, string>

  datatype Config = Config(maxRetries: nat, rateLimitRetries: nat, headers: Headers, asksPasskey: bool)

  datatype Call = Call(verb: string, extra: Headers, hub: string)

  /** What a response body parses as. An error may carry a passkey challenge. */
  datatype Body = NotJson | Data | Error(code: string, challenge: bool)

  datatype Fetched =
    | Failed(abortShaped: bool)
    | Answered(status: nat, ok: bool, empty: bool, retryAfter: Option<nat>, body: Body)

  /** All that one pass through the loop may meet: whether the signal is aborted before it, while fetching, while
      sleeping or while asking; the caller's headers; the server's answer; the person's. */
  datatype Turn = Turn(aborted: bool, auth: Headers, zone: string, fetched: Fetched, abortedFetching: bool,
                       abortedSleeping: bool, answer: Option<string>, abortedAsking: bool)

  datatype Failure =
    | Aborted
    | NetworkError
    | Unauthorized
    | InvalidResponse(status: nat, retryAfter: Option<nat>)
    | ServerError(code: string, status: nat, retryAfter: Option<nat>)

  datatype Outcome = Nothing | Parsed | Threw(failure: Failure)

  /** What a pass does that can be seen from outside. */
  datatype Event = Sent(headers: Headers) | WaitedLimit(ms: nat) | WaitedReady | Asked

  /** The loop's variables. An undefined answer and an empty one are both falsy. */
  datatype Loop = Loop(attempt: nat, rateLimited: nat, waitedMs: nat, answer: string)

  datatype Next = Again(loop: Loop) | Done(outcome: Outcome)

  datatype Pass = Pass(events: seq<Event>, next: Next)

  function Lower(s: string): string {
    seq(|s|, i requires 0 <= i < |s| => if 'A' <= s[i] <= 'Z' then (s[i] as int + 32) as char else s[i])
  }

  function Upper(s: string): string {
    seq(|s|, i requires 0 <= i < |s| => if 'a' <= s[i] <= 'z' then (s[i] as int - 32) as char else s[i])
  }

  /** `safeToRepeat`: a read, or a command with an idempotency key. */
  predicate SafeToRepeat(verb: string, headers: Headers) {
    || Upper(verb) == "GET" || Upper(verb) == "HEAD"
    || exists name | name in headers :: Lower(name) == "idempotency-key" && headers[name] != ""
  }

  /** `rateLimitWaitMs`. */
  function RateLimitWaitMs(c: Config, q: Call, headers: Headers, retryAfter: Option<nat>, l: Loop): Option<nat> {
    if l.rateLimited >= c.rateLimitRetries || !SafeToRepeat(q.verb, headers) then None else
    match retryAfter
    case None => None
    case Some(seconds) =>
      if seconds > MAX_RATE_LIMIT_RETRY_AFTER_SECONDS then None else
      var ms := (if seconds < 1 then 1 else seconds) * 1000;
      if l.waitedMs + ms <= MAX_RATE_LIMIT_WAIT_MS then Some(ms) else None
  }

  function HeadersFor(c: Config, q: Call, l: Loop, t: Turn): Headers {
    var h := map["Content-Type" := "application/json"] + c.headers + t.auth + q.extra;
    var h := if q.hub != "" then h["X-Hub-ID" := q.hub] else h;
    var h := if l.answer != "" then h["X-Memax-Passkey" := l.answer] else h;
    if t.zone != "" then h["X-Timezone" := t.zone] else h
  }

  function RetryAfterOf(status: nat, retryAfter: Option<nat>): Option<nat> {
    if status == 429 || status == 503 then retryAfter else None
  }

  /** What an answer that isn't waited out leads to. */
  function Judge(c: Config, l: Loop, t: Turn): Pass
    requires t.fetched.Answered?
  {
    var Answered(status, ok, empty, retryAfter, body) := t.fetched;
    if empty && ok then Pass([], Done(Nothing)) else
    match if empty then NotJson else body
    case NotJson =>
      Pass([], Done(Threw(if status == 401 then Unauthorized
                          else InvalidResponse(status, RetryAfterOf(status, retryAfter)))))
    case Data => Pass([], Done(Parsed))
    case Error(code, challenge) =>
      if code == "not_ready" && l.attempt < c.maxRetries then
        if t.abortedSleeping then Pass([WaitedReady], Done(Threw(Aborted)))
        else Pass([WaitedReady], Again(l.(attempt := l.attempt + 1)))
      else if code == "needs_passkey" && l.answer == "" && challenge && c.asksPasskey then
        if t.abortedAsking then Pass([Asked], Done(Threw(Aborted)))
        else if t.answer.Some? then Pass([Asked], Again(l.(answer := Passkey.Encoded(t.answer.value))))
        else Pass([Asked], Done(Threw(ServerError(code, status, RetryAfterOf(status, retryAfter)))))
      else Pass([], Done(Threw(ServerError(code, status, RetryAfterOf(status, retryAfter)))))
  }

  /** One pass through the loop. */
  function PassOf(c: Config, q: Call, l: Loop, t: Turn): Pass {
    if t.aborted then Pass([], Done(Threw(Aborted))) else
    var headers := HeadersFor(c, q, l, t);
    match t.fetched
    case Failed(abortShaped) =>
      Pass([Sent(headers)], Done(Threw(if t.abortedFetching || abortShaped then Aborted else NetworkError)))
    case Answered(status, _, _, retryAfter, _) =>
      var wait := if status == 429 then RateLimitWaitMs(c, q, headers, retryAfter, l) else None;
      match wait
      case Some(ms) =>
        Pass([Sent(headers), WaitedLimit(ms)],
             if t.abortedSleeping then Done(Threw(Aborted))
             else Again(l.(rateLimited := l.rateLimited + 1, waitedMs := l.waitedMs + ms)))
      case None =>
        var judged := Judge(c, l, t);
        Pass([Sent(headers)] + judged.events, judged.next)
  }

  function Start(): Loop { Loop(0, 0, 0, "") }

  /** The budgets: not_ready retries, rate limits to wait out, and the one passkey answer. */
  predicate Within(c: Config, l: Loop) {
    l.attempt <= c.maxRetries && l.rateLimited <= c.rateLimitRetries && l.waitedMs <= MAX_RATE_LIMIT_WAIT_MS
  }

  function Measure(c: Config, l: Loop): nat
    requires Within(c, l)
  {
    (c.maxRetries - l.attempt) + (c.rateLimitRetries - l.rateLimited) + if l.answer == "" then 1 else 0
  }

  /** No answer that encodes to nothing is given: without a handler none is given at all. */
  predicate Speaks(c: Config, t: Turn) { c.asksPasskey ==> t.answer != Some("") }

  ghost predicate AlwaysSpeaks(c: Config, world: nat -> Turn) { forall i :: Speaks(c, world(i)) }

  lemma PassSpends(c: Config, q: Call, l: Loop, t: Turn)
    requires Within(c, l) && Speaks(c, t)
    ensures var next := PassOf(c, q, l, t).next;
            next.Again? ==> Within(c, next.loop) && Measure(c, next.loop) == Measure(c, l) - 1
  {
    hide HeadersFor, SafeToRepeat;
    if t.answer.Some? { Passkey.EncodedEmpty(t.answer.value); }
  }

  datatype Run = Run(events: seq<Event>, outcome: Outcome)

  /** The run from pass `i` on. */
  ghost function RunFrom(c: Config, q: Call, l: Loop, world: nat -> Turn, i: nat): Run
    requires Within(c, l) && AlwaysSpeaks(c, world)
    decreases Measure(c, l)
  {
    var Pass(events, next) := PassOf(c, q, l, world(i));
    PassSpends(c, q, l, world(i));
    match next
    case Done(outcome) => Run(events, outcome)
    case Again(loop) => var rest := RunFrom(c, q, loop, world, i + 1); Run(events + rest.events, rest.outcome)
  }

  /** `request`: three budgets in one loop, two of which take the loop's own count back. It ends, and never by
      running out of attempts. */
  method Request(c: Config, q: Call, world: nat -> Turn) returns (outcome: Outcome, log: seq<Event>)
    requires AlwaysSpeaks(c, world)
    ensures Run(log, outcome) == RunFrom(c, q, Start(), world, 0)
  {
    hide HeadersFor, SafeToRepeat, RateLimitWaitMs, RunFrom, Passkey.Encoded, Speaks,
      AlwaysSpeaks, Measure, RetryAfterOf;
    log := [];
    var turn := 0;
    var answer := "";
    var rateLimited, waitedMs := 0, 0;
    var attempt := 0;
    while attempt <= c.maxRetries
      invariant 0 <= attempt <= c.maxRetries && 0 <= rateLimited && 0 <= waitedMs && 0 <= turn
      invariant Within(c, Loop(attempt, rateLimited, waitedMs, answer))
      invariant var rest := RunFrom(c, q, Loop(attempt, rateLimited, waitedMs, answer), world, turn);
                Run(log + rest.events, rest.outcome) == RunFrom(c, q, Start(), world, 0)
      decreases Measure(c, Loop(attempt, rateLimited, waitedMs, answer))
    {
      var t := world(turn);
      ghost var l := Loop(attempt, rateLimited, waitedMs, answer);
      RunStep(c, q, l, world, turn);
      turn := turn + 1;
      if t.aborted { return Threw(Aborted), log; }
      var headers := HeadersFor(c, q, Loop(attempt, rateLimited, waitedMs, answer), t);
      log := log + [Sent(headers)];
      if t.fetched.Failed? {
        if t.abortedFetching || t.fetched.abortShaped { return Threw(Aborted), log; }
        return Threw(NetworkError), log;
      }
      var Answered(status, ok, empty, retryAfter, body) := t.fetched;
      if status == 429 {
        var wait := RateLimitWaitMs(c, q, headers, retryAfter, Loop(attempt, rateLimited, waitedMs, answer));
        if wait.Some? {
          rateLimited := rateLimited + 1;
          waitedMs := waitedMs + wait.value;
          log := log + [WaitedLimit(wait.value)];
          if t.abortedSleeping { return Threw(Aborted), log; }
          attempt := attempt - 1;
          attempt := attempt + 1;
          continue;
        }
      }
      if empty && ok { return Nothing, log; }
      if empty || body.NotJson? {
        if status == 401 { return Threw(Unauthorized), log; }
        return Threw(InvalidResponse(status, RetryAfterOf(status, retryAfter))), log;
      }
      if body.Error? {
        if body.code == "not_ready" && attempt < c.maxRetries {
          log := log + [WaitedReady];
          if t.abortedSleeping { return Threw(Aborted), log; }
          attempt := attempt + 1;
          continue;
        }
        if body.code == "needs_passkey" && answer == "" && body.challenge && c.asksPasskey {
          log := log + [Asked];
          if t.abortedAsking { return Threw(Aborted), log; }
          if t.answer.Some? {
            answer := Passkey.Encoded(t.answer.value);
            attempt := attempt - 1;
            attempt := attempt + 1;
            continue;
          }
        }
        return Threw(ServerError(body.code, status, RetryAfterOf(status, retryAfter))), log;
      }
      return Parsed, log;
    }
    assert false;
  }

  lemma RunStep(c: Config, q: Call, l: Loop, world: nat -> Turn, i: nat)
    requires Within(c, l) && AlwaysSpeaks(c, world)
    ensures match PassOf(c, q, l, world(i)).next
            case Done(outcome) => RunFrom(c, q, l, world, i) == Run(PassOf(c, q, l, world(i)).events, outcome)
            case Again(loop) =>
              Within(c, loop) && Measure(c, loop) == Measure(c, l) - 1 &&
              var rest := RunFrom(c, q, loop, world, i + 1);
              RunFrom(c, q, l, world, i) == Run(PassOf(c, q, l, world(i)).events + rest.events, rest.outcome)
  {
    hide PassOf;
    PassSpends(c, q, l, world(i));
  }

  // ---------------------------------------------------------------------
  // What every run keeps
  // ---------------------------------------------------------------------

  function Sends(events: seq<Event>): nat {
    if events == [] then 0 else Sends(events[..|events| - 1]) + if events[|events| - 1].Sent? then 1 else 0
  }

  function LimitWaits(events: seq<Event>): nat {
    if events == [] then 0 else LimitWaits(events[..|events| - 1]) + if events[|events| - 1].WaitedLimit? then 1 else 0
  }

  function WaitedMs(events: seq<Event>): nat {
    if events == [] then 0
    else WaitedMs(events[..|events| - 1]) + if events[|events| - 1].WaitedLimit? then events[|events| - 1].ms else 0
  }

  function Asks(events: seq<Event>): nat {
    if events == [] then 0 else Asks(events[..|events| - 1]) + if events[|events| - 1].Asked? then 1 else 0
  }

  function ReadyWaits(events: seq<Event>): nat {
    if events == [] then 0 else ReadyWaits(events[..|events| - 1]) + if events[|events| - 1].WaitedReady? then 1 else 0
  }

  lemma {:induction false} CountsConcat(a: seq<Event>, b: seq<Event>)
    ensures Sends(a + b) == Sends(a) + Sends(b) && WaitedMs(a + b) == WaitedMs(a) + WaitedMs(b)
    ensures LimitWaits(a + b) == LimitWaits(a) + LimitWaits(b) && Asks(a + b) == Asks(a) + Asks(b)
    ensures ReadyWaits(a + b) == ReadyWaits(a) + ReadyWaits(b)
  {
    if b == [] {
      assert a + b == a;
    } else {
      assert (a + b)[..|a + b| - 1] == a + b[..|b| - 1];
      CountsConcat(a, b[..|b| - 1]);
    }
  }

  lemma CountsOne(e: Event)
    ensures Sends([e]) == (if e.Sent? then 1 else 0) && WaitedMs([e]) == (if e.WaitedLimit? then e.ms else 0)
    ensures LimitWaits([e]) == (if e.WaitedLimit? then 1 else 0) && Asks([e]) == (if e.Asked? then 1 else 0)
    ensures ReadyWaits([e]) == (if e.WaitedReady? then 1 else 0)
  {
    assert [e][..0] == [];
  }

  lemma CountsTwo(e: Event, f: Event)
    ensures Sends([e, f]) == Sends([e]) + Sends([f]) && WaitedMs([e, f]) == WaitedMs([e]) + WaitedMs([f])
    ensures LimitWaits([e, f]) == LimitWaits([e]) + LimitWaits([f]) && Asks([e, f]) == Asks([e]) + Asks([f])
    ensures ReadyWaits([e, f]) == ReadyWaits([e]) + ReadyWaits([f])
  {
    CountsConcat([e], [f]);
    assert [e] + [f] == [e, f];
  }

  /** What one pass may show: nothing, a send, or a send and one thing after it. */
  ghost predicate Shape(c: Config, q: Call, l: Loop, events: seq<Event>, next: Next) {
    && |events| <= 2
    && (|events| > 0 ==> events[0].Sent?)
    && (|events| > 1 ==>
          match events[1]
          case Sent(_) => false
          case WaitedLimit(ms) =>
            && SafeToRepeat(q.verb, events[0].headers) && 1_000 <= ms <= 30_000
            && l.waitedMs + ms <= MAX_RATE_LIMIT_WAIT_MS && l.rateLimited < c.rateLimitRetries
            && (next.Again? ==> next.loop == l.(rateLimited := l.rateLimited + 1, waitedMs := l.waitedMs + ms))
          case WaitedReady =>
            l.attempt < c.maxRetries && (next.Again? ==> next.loop == l.(attempt := l.attempt + 1))
          case Asked =>
            l.answer == "" && (next.Again? ==> next.loop == l.(answer := next.loop.answer) && next.loop.answer != ""))
    && (next.Again? ==> |events| == 2)
  }

  lemma PassShape(c: Config, q: Call, l: Loop, t: Turn)
    requires Speaks(c, t)
    ensures Shape(c, q, l, PassOf(c, q, l, t).events, PassOf(c, q, l, t).next)
  {
    hide HeadersFor, SafeToRepeat, Passkey.Encoded;
    if t.answer.Some? { Passkey.EncodedEmpty(t.answer.value); }
  }

  lemma ShapeCounts(c: Config, q: Call, l: Loop, events: seq<Event>, next: Next)
    requires Within(c, l) && Shape(c, q, l, events, next)
    ensures Sends(events) <= 1 && l.waitedMs + WaitedMs(events) <= MAX_RATE_LIMIT_WAIT_MS
    ensures LimitWaits(events) > 0 ==> LimitWaits(events) == 1 && l.rateLimited < c.rateLimitRetries
    ensures ReadyWaits(events) > 0 ==> ReadyWaits(events) == 1 && l.attempt < c.maxRetries
    ensures Asks(events) > 0 ==> Asks(events) == 1 && l.answer == ""
    ensures next.Again? ==>
              && next.loop.waitedMs == l.waitedMs + WaitedMs(events)
              && next.loop.rateLimited == l.rateLimited + LimitWaits(events)
              && next.loop.attempt == l.attempt + ReadyWaits(events)
              && (if Asks(events) == 1 then next.loop.answer != "" else next.loop.answer == l.answer)
  {
    hide SafeToRepeat;
    if events == [] {
    } else if |events| == 1 {
      CountsOne(events[0]);
      assert events == [events[0]];
    } else {
      CountsOne(events[0]);
      CountsOne(events[1]);
      CountsTwo(events[0], events[1]);
      assert events == [events[0], events[1]];
    }
  }

  /** At most as many sends as the budgets allow; at most 60 seconds of waiting out rate limits, in all. */
  lemma {:induction false} RunBounds(c: Config, q: Call, l: Loop, world: nat -> Turn, i: nat)
    requires Within(c, l) && AlwaysSpeaks(c, world)
    ensures var events := RunFrom(c, q, l, world, i).events;
            && Sends(events) <= Measure(c, l) + 1
            && l.waitedMs + WaitedMs(events) <= MAX_RATE_LIMIT_WAIT_MS
            && LimitWaits(events) <= c.rateLimitRetries - l.rateLimited
            && ReadyWaits(events) <= c.maxRetries - l.attempt
            && Asks(events) <= if l.answer == "" then 1 else 0
    decreases Measure(c, l)
  {
    hide PassOf, RunFrom, Shape, Sends, WaitedMs, LimitWaits, ReadyWaits, Asks;
    RunStep(c, q, l, world, i);
    PassSpends(c, q, l, world(i));
    PassShape(c, q, l, world(i));
    var Pass(events, next) := PassOf(c, q, l, world(i));
    ShapeCounts(c, q, l, events, next);
    if next.Again? {
      RunBounds(c, q, next.loop, world, i + 1);
      CountsConcat(events, RunFrom(c, q, next.loop, world, i + 1).events);
    }
  }

  /** A rate limit is waited out only after a request that is safe to repeat, for 1 to 30 seconds. */
  ghost predicate WaitsAreSafe(q: Call, events: seq<Event>) {
    forall k | 0 <= k < |events| && events[k].WaitedLimit? ::
      k > 0 && events[k - 1].Sent? && SafeToRepeat(q.verb, events[k - 1].headers) && 1_000 <= events[k].ms <= 30_000
  }

  lemma {:induction false} RunWaitsSafely(c: Config, q: Call, l: Loop, world: nat -> Turn, i: nat)
    requires Within(c, l) && AlwaysSpeaks(c, world)
    ensures WaitsAreSafe(q, RunFrom(c, q, l, world, i).events)
    decreases Measure(c, l)
  {
    hide PassOf, RunFrom, SafeToRepeat;
    RunStep(c, q, l, world, i);
    PassSpends(c, q, l, world(i));
    PassShape(c, q, l, world(i));
    var Pass(events, next) := PassOf(c, q, l, world(i));
    if next.Again? { RunWaitsSafely(c, q, next.loop, world, i + 1); }
  }

  /** The promises of one request, from its start. */
  lemma RequestBounds(c: Config, q: Call, world: nat -> Turn)
    requires AlwaysSpeaks(c, world)
    ensures var events := RunFrom(c, q, Start(), world, 0).events;
            && Sends(events) <= c.maxRetries + c.rateLimitRetries + 2
            && WaitedMs(events) <= 60_000 && LimitWaits(events) <= c.rateLimitRetries
            && ReadyWaits(events) <= c.maxRetries && Asks(events) <= 1
            && WaitsAreSafe(q, events)
  {
    hide RunFrom, WaitsAreSafe;
    RunBounds(c, q, Start(), world, 0);
    RunWaitsSafely(c, q, Start(), world, 0);
  }

  // ---------------------------------------------------------------------
  // When the loop ends
  // ---------------------------------------------------------------------

  /** Where the loop is after `n` passes, with no promise that it ends. */
  function After(c: Config, q: Call, world: nat -> Turn, n: nat): Next {
    if n == 0 then Again(Start()) else
    match After(c, q, world, n - 1)
    case Done(outcome) => Done(outcome)
    case Again(l) => PassOf(c, q, l, world(n - 1)).next
  }

  ghost predicate Ends(c: Config, q: Call, world: nat -> Turn) { exists n: nat :: After(c, q, world, n).Done? }

  ghost predicate AnswersFrom(world: nat -> Turn, answers: iset<string>) {
    forall i :: world(i).answer.Some? ==> world(i).answer.value in answers
  }

  lemma {:induction false} SpendsEachPass(c: Config, q: Call, world: nat -> Turn, n: nat)
    requires AlwaysSpeaks(c, world)
    ensures match After(c, q, world, n)
            case Done(_) => true
            case Again(l) => Within(c, l) && Measure(c, l) + n == Measure(c, Start())
  {
    hide PassOf;
    if n > 0 {
      SpendsEachPass(c, q, world, n - 1);
      if After(c, q, world, n - 1).Again? { PassSpends(c, q, After(c, q, world, n - 1).loop, world(n - 1)); }
    }
  }

  /** A server that keeps asking for a passkey, and a person whose answer is empty. */
  function Asking(): Turn {
    Turn(false, map[], "", Answered(403, false, false, None, Error("needs_passkey", true)), false, false,
         Some(""), false)
  }

  function AlwaysAsking(): nat -> Turn { (i: nat) => Asking() }

  lemma AskingAgain(c: Config, q: Call)
    requires c.asksPasskey
    ensures PassOf(c, q, Start(), Asking()).next == Again(Start())
  {
    hide HeadersFor, SafeToRepeat;
    Passkey.EncodedEmpty("");
  }

  lemma {:induction false} AskingForever(c: Config, q: Call, n: nat)
    requires c.asksPasskey
    ensures After(c, q, AlwaysAsking(), n) == Again(Start())
  {
    hide PassOf, Asking;
    AskingAgain(c, q);
    if n > 0 { AskingForever(c, q, n - 1); }
  }

  /** The loop ends against every server exactly if there is no handler, or none of the answers it may give is empty:
      an empty answer is falsy, so the loop asks again and takes its count back each time. */
  lemma EndsExactly(c: Config, q: Call, answers: iset<string>)
    ensures (forall world | AnswersFrom(world, answers) :: Ends(c, q, world)) <==> !c.asksPasskey || "" !in answers
  {
    hide After;
    if !c.asksPasskey || "" !in answers {
      forall world | AnswersFrom(world, answers)
        ensures Ends(c, q, world)
      {
        var n := Measure(c, Start()) + 1;
        SpendsEachPass(c, q, world, n);
        assert After(c, q, world, n).Done?;
      }
    } else {
      var world := AlwaysAsking();
      assert AnswersFrom(world, answers);
      forall n: nat
        ensures !After(c, q, world, n).Done?
      {
        AskingForever(c, q, n);
      }
      assert !Ends(c, q, world);
    }
  }
}
