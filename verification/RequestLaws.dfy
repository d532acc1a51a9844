/** What a run of the request loop in packages/sdk/src/transport.ts sends, waits for and ends with, send by send. */
module RequestLaws {
  import opened Text
  import opened Request
  import Passkey

  // ---------------------------------------------------------------------
  // Pass by pass
  // ---------------------------------------------------------------------

  /** The run from the start. */
  ghost function Full(c: Config, q: Call, world: nat -> Turn): Run
    requires AlwaysSpeaks(c, world)
  {
    RunFrom(c, q, Start(), world, 0)
  }

  /** The loop's variables, from what the run has shown: its counts, and the answer. */
  ghost predicate Tells(world: nat -> Turn, before: seq<Event>, n: nat, l: Loop) {
    && |before| == 2 * n
    && l.attempt == ReadyWaits(before) && l.rateLimited == LimitWaits(before) && l.waitedMs == WaitedMs(before)
    && (l.answer == "" ==> forall a | 0 <= a < n :: before[2 * a + 1] != Asked)
    && (forall a | 0 <= a < n && before[2 * a + 1] == Asked ::
          world(a).answer.Some? && l.answer == Passkey.Encoded(world(a).answer.value))
    && (l.answer != "" ==> exists a | 0 <= a < n :: before[2 * a + 1] == Asked)
  }

  /** What a pass that goes round again shows, and what it does to the loop's variables. */
  lemma PassTells(c: Config, q: Call, l: Loop, t: Turn)
    requires Within(c, l) && Speaks(c, t) && PassOf(c, q, l, t).next.Again?
    ensures var Pass(events, next) := PassOf(c, q, l, t);
            && |events| == 2 && events[0].Sent? && !events[1].Sent?
            && next.loop.attempt == l.attempt + ReadyWaits(events)
            && next.loop.rateLimited == l.rateLimited + LimitWaits(events)
            && next.loop.waitedMs == l.waitedMs + WaitedMs(events)
            && (if events[1] == Asked
                then l.answer == "" && t.answer.Some? && next.loop.answer == Passkey.Encoded(t.answer.value)
                     && next.loop.answer != ""
                else next.loop.answer == l.answer)
  {
    hide HeadersFor, SafeToRepeat, RateLimitWaitMs, Passkey.Encoded;
    var events := PassOf(c, q, l, t).events;
    if t.answer.Some? { Passkey.EncodedEmpty(t.answer.value); }
    CountsOne(events[0]);
    CountsOne(events[1]);
    CountsTwo(events[0], events[1]);
    assert events == [events[0], events[1]];
  }

  lemma TellsMore(world: nat -> Turn, before: seq<Event>, n: nat, l: Loop, events: seq<Event>, next: Loop)
    requires Tells(world, before, n, l) && |events| == 2
    requires next.attempt == l.attempt + ReadyWaits(events) && next.rateLimited == l.rateLimited + LimitWaits(events)
    requires next.waitedMs == l.waitedMs + WaitedMs(events)
    requires if events[1] == Asked
             then l.answer == "" && world(n).answer.Some? && next.answer == Passkey.Encoded(world(n).answer.value)
                  && next.answer != ""
             else next.answer == l.answer
    ensures Tells(world, before + events, n + 1, next)
  {
    hide ReadyWaits, LimitWaits, WaitedMs, Passkey.Encoded;
    CountsConcat(before, events);
    var all := before + events;
    assert all[2 * n + 1] == events[1];
    assert forall a | 0 <= a < n :: all[2 * a + 1] == before[2 * a + 1];
    if next.answer != "" && events[1] != Asked {
      var a :| 0 <= a < n && before[2 * a + 1] == Asked;
      assert all[2 * a + 1] == Asked;
    }
  }

  /** The first `n` passes, if all of them go round again, and the rest of the run. */
  lemma {:induction false} Unrolled(c: Config, q: Call, world: nat -> Turn, n: nat) returns (before: seq<Event>)
    requires AlwaysSpeaks(c, world) && After(c, q, world, n).Again?
    ensures var l := After(c, q, world, n).loop;
            && Within(c, l) && Tells(world, before, n, l)
            && var rest := RunFrom(c, q, l, world, n);
               Full(c, q, world) == Run(before + rest.events, rest.outcome)
  {
    hide PassOf, RunFrom, Tells, Measure;
    if n == 0 {
      before := [];
      NothingTold(world);
    } else {
      before := Unrolled(c, q, world, n - 1);
      var l := After(c, q, world, n - 1).loop;
      var t := world(n - 1);
      var Pass(events, next) := PassOf(c, q, l, t);
      RunStep(c, q, l, world, n - 1);
      PassTells(c, q, l, t);
      TellsMore(world, before, n - 1, l, events, next.loop);
      var rest := RunFrom(c, q, next.loop, world, n);
      assert before + (events + rest.events) == before + events + rest.events;
      before := before + events;
    }
  }

  lemma NothingTold(world: nat -> Turn)
    ensures Tells(world, [], 0, Start())
  {
  }

  /** A run that shows more than `n` whole passes has gone round `n` times. */
  lemma {:induction false} GoneRound(c: Config, q: Call, world: nat -> Turn, n: nat)
    requires AlwaysSpeaks(c, world) && 2 * n < |Full(c, q, world).events|
    ensures After(c, q, world, n).Again?
  {
    hide PassOf, RunFrom, Tells;
    if n > 0 {
      GoneRound(c, q, world, n - 1);
      var before := Unrolled(c, q, world, n - 1);
      var l := After(c, q, world, n - 1).loop;
      assert |before| == 2 * (n - 1) by { ToldLength(world, before, n - 1, l); }
      RunStep(c, q, l, world, n - 1);
      PassShape(c, q, l, world(n - 1));
    }
  }

  lemma ToldLength(world: nat -> Turn, before: seq<Event>, n: nat, l: Loop)
    requires Tells(world, before, n, l)
    ensures |before| == 2 * n
  {
  }

  /** The `k`-th pass, from what came before it. */
  lemma PassAt(c: Config, q: Call, world: nat -> Turn, k: nat) returns (l: Loop)
    requires AlwaysSpeaks(c, world) && 2 * k < |Full(c, q, world).events|
    ensures var events := Full(c, q, world).events;
            && Within(c, l) && Tells(world, events[..2 * k], k, l)
            && var pass := PassOf(c, q, l, world(k)).events;
               0 < |pass| <= 2 && 2 * k + |pass| <= |events| && events[2 * k..2 * k + |pass|] == pass
               && (|pass| == 1 ==> |events| == 2 * k + 1)
  {
    hide PassOf, RunFrom, Tells;
    GoneRound(c, q, world, k);
    var before := Unrolled(c, q, world, k);
    l := After(c, q, world, k).loop;
    ToldLength(world, before, k, l);
    RunStep(c, q, l, world, k);
    PassShape(c, q, l, world(k));
    var events := Full(c, q, world).events;
    assert events[..2 * k] == before;
    assert events[2 * k..] == RunFrom(c, q, l, world, k).events;
  }

  // ---------------------------------------------------------------------
  // What is sent
  // ---------------------------------------------------------------------

  function Header(h: Headers, name: string): Option<string> { if name in h then Some(h[name]) else None }

  lemma HeadersCarry(c: Config, q: Call, l: Loop, t: Turn, name: string)
    ensures Header(HeadersFor(c, q, l, t), name) ==
            if name == "X-Timezone" && t.zone != "" then Some(t.zone)
            else if name == "X-Memax-Passkey" && l.answer != "" then Some(l.answer)
            else if name == "X-Hub-ID" && q.hub != "" then Some(q.hub)
            else if name in q.extra then Some(q.extra[name])
            else if name in t.auth then Some(t.auth[name])
            else if name in c.headers then Some(c.headers[name])
            else if name == "Content-Type" then Some("application/json")
            else None
  {
    NamesDiffer();
  }

  lemma NamesDiffer()
    ensures "X-Timezone" != "X-Memax-Passkey" && "X-Timezone" != "X-Hub-ID" && "X-Memax-Passkey" != "X-Hub-ID"
  {
    assert "X-Timezone"[2] == 'T' && "X-Memax-Passkey"[2] == 'M' && "X-Hub-ID"[2] == 'H';
  }

  /** Every pass sends once, first, and each header is what the first of these gives: the time zone, the encoded answer
      of the person who was asked after an earlier send, the hub, the call's own headers, the credentials, the
      configuration, and the content type. */
  lemma SendsCarry(c: Config, q: Call, world: nat -> Turn, k: nat, name: string)
    requires AlwaysSpeaks(c, world) && 2 * k < |Full(c, q, world).events|
    ensures var events := Full(c, q, world).events;
            && events[2 * k].Sent?
            && (name == "X-Memax-Passkey" ==>
                  forall a | 0 <= a < k && events[2 * a + 1] == Asked ::
                    world(a).answer.Some?
                    && Header(events[2 * k].headers, name) == Some(Passkey.Encoded(world(a).answer.value)))
            && ((name == "X-Memax-Passkey" ==> forall a | 0 <= a < k :: events[2 * a + 1] != Asked) ==>
                  Header(events[2 * k].headers, name) ==
                  if name == "X-Timezone" && world(k).zone != "" then Some(world(k).zone)
                  else if name == "X-Hub-ID" && q.hub != "" then Some(q.hub)
                  else if name in q.extra then Some(q.extra[name])
                  else if name in world(k).auth then Some(world(k).auth[name])
                  else if name in c.headers then Some(c.headers[name])
                  else if name == "Content-Type" then Some("application/json")
                  else None)
  {
    hide RunFrom, HeadersFor, Full;
    var l := PassAt(c, q, world, k);
    HeadersCarry(c, q, l, world(k), name);
    NamesDiffer();
    PassSends(c, q, l, world(k));
    var events := Full(c, q, world).events;
    assert events[2 * k..2 * k + |PassOf(c, q, l, world(k)).events|][0] == events[2 * k];
    assert forall a | 0 <= a < k :: events[..2 * k][2 * a + 1] == events[2 * a + 1];
    if exists a :: 0 <= a < k && events[2 * a + 1] == Asked {
      var a :| 0 <= a < k && events[2 * a + 1] == Asked;
      assert l.answer == Passkey.Encoded(world(a).answer.value);
      Passkey.EncodedEmpty(world(a).answer.value);
    }
  }

  lemma PassSends(c: Config, q: Call, l: Loop, t: Turn)
    ensures var events := PassOf(c, q, l, t).events;
            |events| > 0 ==> events[0] == Sent(HeadersFor(c, q, l, t))
  {
    hide HeadersFor, RateLimitWaitMs;
  }

  // ---------------------------------------------------------------------
  // When it goes again
  // ---------------------------------------------------------------------

  /** The same but for the case of ASCII letters. */
  predicate SameLetters(s: string, t: string) {
    |s| == |t| && forall i | 0 <= i < |s| :: s[i] == t[i] || OtherCase(s[i], t[i]) || OtherCase(t[i], s[i])
  }

  predicate OtherCase(c: char, d: char) { 'a' <= c <= 'z' && c as int == d as int + 32 }

  lemma LowerIs(s: string, t: string)
    requires forall i | 0 <= i < |t| :: !('A' <= t[i] <= 'Z')
    ensures Lower(s) == t <==> SameLetters(s, t)
  {
    assert |Lower(s)| == |s|;
    if SameLetters(s, t) { assert forall i | 0 <= i < |s| :: Lower(s)[i] == t[i]; }
    if Lower(s) == t { assert forall i | 0 <= i < |s| :: Lower(s)[i] == t[i]; }
  }

  lemma UpperIs(s: string, t: string)
    requires forall i | 0 <= i < |t| :: !('a' <= t[i] <= 'z')
    ensures Upper(s) == t <==> SameLetters(s, t)
  {
    assert |Upper(s)| == |s|;
    if SameLetters(s, t) { assert forall i | 0 <= i < |s| :: Upper(s)[i] == t[i]; }
    if Upper(s) == t { assert forall i | 0 <= i < |s| :: Upper(s)[i] == t[i]; }
  }

  /** Safe to repeat: a GET, a HEAD, or a request with an idempotency key, in upper or lower case. */
  lemma SafeExactly(verb: string, headers: Headers)
    ensures SafeToRepeat(verb, headers) <==>
            || SameLetters(verb, "GET") || SameLetters(verb, "HEAD")
            || exists name | name in headers :: SameLetters(name, "idempotency-key") && headers[name] != ""
  {
    hide Lower, Upper, SameLetters;
    UpperIs(verb, "GET");
    UpperIs(verb, "HEAD");
    forall name
      ensures Lower(name) == "idempotency-key" <==> SameLetters(name, "idempotency-key")
    {
      LowerIs(name, "idempotency-key");
    }
  }

  /** A 429 that says when to come back, to a request that is safe to repeat, within both limits of waiting. */
  predicate WaitsOut(c: Config, q: Call, headers: Headers, fetched: Fetched, waits: nat, waitedMs: nat, ms: nat) {
    && fetched.Answered? && fetched.status == 429 && fetched.retryAfter.Some?
    && fetched.retryAfter.value <= 30
    && ms == (if fetched.retryAfter.value == 0 then 1_000 else 1_000 * fetched.retryAfter.value)
    && waitedMs + ms <= 60_000 && waits < c.rateLimitRetries && SafeToRepeat(q.verb, headers)
  }

  /** An error's code, of an answer that carries one. */
  predicate Says(fetched: Fetched, code: string) {
    fetched.Answered? && !fetched.empty && fetched.body.Error? && fetched.body.code == code
  }

  lemma PassGoes(c: Config, q: Call, l: Loop, t: Turn)
    requires !t.aborted
    ensures var events, h := PassOf(c, q, l, t).events, HeadersFor(c, q, l, t);
            && (forall ms: nat :: (|events| > 1 && events[1] == WaitedLimit(ms)) <==>
                                  WaitsOut(c, q, h, t.fetched, l.rateLimited, l.waitedMs, ms))
            && (|events| > 1 && events[1] == WaitedReady <==>
                && Says(t.fetched, "not_ready") && l.attempt < c.maxRetries
                && !exists ms: nat :: WaitsOut(c, q, h, t.fetched, l.rateLimited, l.waitedMs, ms))
            && (|events| > 1 && events[1] == Asked <==>
                && Says(t.fetched, "needs_passkey") && t.fetched.body.challenge && c.asksPasskey && l.answer == ""
                && !exists ms: nat :: WaitsOut(c, q, h, t.fetched, l.rateLimited, l.waitedMs, ms))
  {
    hide HeadersFor, SafeToRepeat, Passkey.Encoded;
    CodesDiffer();
    var retryAfter := if t.fetched.Answered? then t.fetched.retryAfter else None;
    var wait := RateLimitWaitMs(c, q, HeadersFor(c, q, l, t), retryAfter, l);
    forall ms: nat
      ensures WaitsOut(c, q, HeadersFor(c, q, l, t), t.fetched, l.rateLimited, l.waitedMs, ms) <==>
              t.fetched.Answered? && t.fetched.status == 429 && wait == Some(ms)
    {
    }
  }

  lemma CodesDiffer()
    ensures "not_ready" != "needs_passkey"
  {
    assert |"not_ready"| == 9 && |"needs_passkey"| == 13;
  }

  /** What follows a send: waiting out a rate limit, for exactly as long as it asks; waiting for what is not ready,
      while retries are left; or asking the person, once. The budgets are what the run has not used up before. */
  lemma RepeatsExactly(c: Config, q: Call, world: nat -> Turn, k: nat, ms: nat)
    requires AlwaysSpeaks(c, world) && 2 * k < |Full(c, q, world).events|
    ensures var events := Full(c, q, world).events;
            var before, later := events[..2 * k], events[2 * k + 1..];
            && events[2 * k].Sent?
            && var h := events[2 * k].headers;
            && (later != [] && later[0] == WaitedLimit(ms) <==>
                WaitsOut(c, q, h, world(k).fetched, LimitWaits(before), WaitedMs(before), ms))
            && (later != [] && later[0] == WaitedReady <==>
                && Says(world(k).fetched, "not_ready") && ReadyWaits(before) < c.maxRetries
                && !exists m: nat :: WaitsOut(c, q, h, world(k).fetched, LimitWaits(before), WaitedMs(before), m))
            && (later != [] && later[0] == Asked <==>
                && Says(world(k).fetched, "needs_passkey") && world(k).fetched.body.challenge && c.asksPasskey
                && (forall a | 0 <= a < k :: events[2 * a + 1] != Asked)
                && !exists m: nat :: WaitsOut(c, q, h, world(k).fetched, LimitWaits(before), WaitedMs(before), m))
  {
    hide RunFrom, HeadersFor, Full, LimitWaits, WaitedMs, ReadyWaits, WaitsOut, Passkey.Encoded, Says;
    var l := PassAt(c, q, world, k);
    var pass := PassOf(c, q, l, world(k)).events;
    PassSends(c, q, l, world(k));
    NotAborted(c, q, l, world(k));
    PassGoes(c, q, l, world(k));
    var events := Full(c, q, world).events;
    var p := |pass|;
    assert events[2 * k..2 * k + p] == pass;
    assert events[2 * k] == pass[0];
    assert p == 2 ==> events[2 * k + 1..][0] == pass[1];
    assert p == 1 ==> events[2 * k + 1..] == [];
    assert forall a | 0 <= a < k :: events[..2 * k][2 * a + 1] == events[2 * a + 1];
  }

  lemma NotAborted(c: Config, q: Call, l: Loop, t: Turn)
    requires PassOf(c, q, l, t).events != []
    ensures !t.aborted
  {
  }

  // ---------------------------------------------------------------------
  // What it ends with
  // ---------------------------------------------------------------------

  /** Retry-After counts for 429 and 503 only. */
  predicate Advises(fetched: Fetched, status: nat, retryAfter: Option<nat>) {
    fetched.Answered? && fetched.status == status
    && retryAfter == if status in {429, 503} then fetched.retryAfter else None
  }

  /** What the last turn must have been for a run to end so; `last` is what the run showed in it. */
  predicate EndsWith(t: Turn, last: seq<Event>, outcome: Outcome) {
    match outcome
    case Nothing => t.fetched.Answered? && t.fetched.empty && t.fetched.ok && !t.aborted
    case Parsed => t.fetched.Answered? && !t.fetched.empty && t.fetched.body == Data && !t.aborted
    case Threw(Unauthorized) =>
      && t.fetched.Answered? && t.fetched.status == 401 && !t.aborted
      && (if t.fetched.empty then !t.fetched.ok else t.fetched.body == NotJson)
    case Threw(InvalidResponse(status, retryAfter)) =>
      && Advises(t.fetched, status, retryAfter) && status != 401 && !t.aborted
      && (if t.fetched.empty then !t.fetched.ok else t.fetched.body == NotJson)
    case Threw(ServerError(code, status, retryAfter)) =>
      Says(t.fetched, code) && Advises(t.fetched, status, retryAfter) && !t.aborted
    case Threw(NetworkError) => t.fetched.Failed? && !t.fetched.abortShaped && !t.abortedFetching && !t.aborted
    case Threw(Aborted) =>
      || (last == [] && t.aborted)
      || (|last| == 1 && t.fetched.Failed? && (t.fetched.abortShaped || t.abortedFetching))
      || (|last| == 2 && (if last[1] == Asked then t.abortedAsking else t.abortedSleeping))
  }

  lemma PassEnds(c: Config, q: Call, l: Loop, t: Turn)
    requires PassOf(c, q, l, t).next.Done?
    ensures EndsWith(t, PassOf(c, q, l, t).events, PassOf(c, q, l, t).next.outcome)
  {
    hide HeadersFor, RateLimitWaitMs, Passkey.Encoded;
  }

  /** A run ends with what its last turn says: data, nothing, unauthorized, a body that is no JSON, the server's own
      code with its status, no network, or an abort where the caller asked for one. */
  lemma EndsWithLastAnswer(c: Config, q: Call, world: nat -> Turn) returns (n: nat)
    requires AlwaysSpeaks(c, world)
    ensures var run := Full(c, q, world);
            2 * n <= |run.events| <= 2 * n + 2 && EndsWith(world(n), run.events[2 * n..], run.outcome)
  {
    hide RunFrom, PassOf, Tells, EndsWith, Measure;
    n := LastPass(c, q, world, 0);
    var before := Unrolled(c, q, world, n);
    var l := After(c, q, world, n).loop;
    ToldLength(world, before, n, l);
    RunStep(c, q, l, world, n);
    PassShape(c, q, l, world(n));
    PassEnds(c, q, l, world(n));
    assert Full(c, q, world).events[2 * n..] == PassOf(c, q, l, world(n)).events;
  }

  lemma {:induction false} LastPass(c: Config, q: Call, world: nat -> Turn, k: nat) returns (n: nat)
    requires AlwaysSpeaks(c, world) && After(c, q, world, k).Again?
    requires Within(c, After(c, q, world, k).loop)
    ensures After(c, q, world, n).Again? && Within(c, After(c, q, world, n).loop)
    ensures PassOf(c, q, After(c, q, world, n).loop, world(n)).next.Done?
    decreases Measure(c, After(c, q, world, k).loop)
  {
    hide PassOf, Measure;
    n := k;
    var l := After(c, q, world, k).loop;
    if PassOf(c, q, l, world(k)).next.Again? {
      PassSpends(c, q, l, world(k));
      assert After(c, q, world, k + 1) == PassOf(c, q, l, world(k)).next;
      n := LastPass(c, q, world, k + 1);
    }
  }
}
