/** `LoginAttemptLimiter` (auth.py): a pruned queue of recent failures per key, against
    the full history, and what the login endpoint (api.py) achieves with it. */
module LoginLimiter {
  import opened Models
  import opened Sorting

  function After(cutoff: Time): Time -> bool { t => t > cutoff }

  /** Failures strictly inside the window that ends now. */
  function Recent(history: seq<Time>, now: Time, window: Time): nat { Count(After(now - window), history) }

  ghost predicate Chronological(history: seq<Time>, now: Time) {
    && (forall i, j :: 0 <= i < j < |history| ==> history[i] <= history[j])
    && (forall i :: 0 <= i < |history| ==> history[i] <= now)
  }

  /** The queue is the history without a prefix of failures that left the window. */
  ghost predicate QueueOk(queue: seq<Time>, all: seq<Time>, now: Time, window: Time) {
    && Chronological(all, now)
    && |queue| <= |all| && queue == all[|all| - |queue|..]
    && forall i :: 0 <= i < |all| - |queue| ==> all[i] <= now - window
  }

  class LoginAttemptLimiter {
    const maximumAttempts: nat
    const windowSeconds: Time
    var attempts: map<string, seq<Time>>
    /** Every failure since the key was last cleared, and the latest clock reading. */
    ghost var history: map<string, seq<Time>>
    ghost var clock: Time

    /** Each queue is its history with only failures too old to matter taken off the front. */
    ghost predicate Valid()
      reads this
    {
      && history.Keys <= attempts.Keys
      && forall key | key in attempts :: QueueOk(attempts[key], Failures(key), clock, windowSeconds)
    }

    ghost function Failures(key: string): seq<Time>
      reads this
    {
      if key in history then history[key] else []
    }

    constructor (maximumAttempts: nat, windowSeconds: Time, ghost clock: Time)
      ensures Valid() && this.clock == clock && forall key :: Failures(key) == []
      ensures this.maximumAttempts == maximumAttempts && this.windowSeconds == windowSeconds
    {
      this.clock := clock;
      this.maximumAttempts := maximumAttempts;
      this.windowSeconds := windowSeconds;
      attempts := map[];
      history := map[];
    }

    /** Every queue is still accurate at a later time. */
    lemma ClockAdvances(now: Time)
      requires Valid() && now >= clock
      ensures forall key | key in attempts :: QueueOk(attempts[key], Failures(key), now, windowSeconds)
      ensures forall key | key !in attempts :: Failures(key) == []
    {
      forall key | key in attempts ensures QueueOk(attempts[key], Failures(key), now, windowSeconds) {
        assert QueueOk(attempts[key], Failures(key), clock, windowSeconds);
      }
    }

    method Allowed(key: string, now: Time) returns (ok: bool)
      requires Valid() && now >= clock
      modifies this
      ensures Valid() && history == old(history) && clock == now
      ensures ok <==> Recent(Failures(key), now, windowSeconds) < maximumAttempts
    {
      var values := if key in attempts then attempts[key] else [];
      ghost var all := Failures(key);
      ClockAdvances(now);
      values := Prune(values, now, windowSeconds, all);
      attempts := attempts[key := values];
      clock := now;
      return |values| < maximumAttempts;
    }

    method RecordFailure(key: string, now: Time)
      requires Valid() && now >= clock
      modifies this
      ensures Valid() && clock == now
      ensures history == old(history)[key := old(Failures(key)) + [now]]
    {
      var values := if key in attempts then attempts[key] else [];
      ghost var all := Failures(key);
      ClockAdvances(now);
      QueueAppend(values, all, now, windowSeconds);
      attempts := attempts[key := values + [now]];
      history := history[key := all + [now]];
      clock := now;
    }

    method Clear(key: string)
      requires Valid()
      modifies this`attempts, this`history
      ensures Valid() && history == old(history) - {key}
    {
      attempts := attempts - {key};
      history := history - {key};
    }
  }

  lemma QueueAppend(queue: seq<Time>, all: seq<Time>, now: Time, window: Time)
    requires QueueOk(queue, all, now, window)
    ensures QueueOk(queue + [now], all + [now], now, window)
  {
    assert (all + [now])[|all| - |queue|..] == all[|all| - |queue|..] + [now];
  }

  /** Popping from the front while the front has left the window: what remains is as
      long as the number of failures still inside it. */
  method Prune(queue: seq<Time>, now: Time, window: Time, ghost all: seq<Time>) returns (values: seq<Time>)
    requires QueueOk(queue, all, now, window)
    ensures QueueOk(values, all, now, window)
    ensures |values| == Recent(all, now, window)
  {
    values := queue;
    var cutoff := now - window;
    while values != [] && values[0] <= cutoff
      invariant QueueOk(values, all, now, window)
    {
      assert values[0] == all[|all| - |values|];
      assert values[1..] == all[|all| - |values| + 1..];
      values := values[1..];
    }
    QueueCounts(all, |all| - |values|, cutoff);
  }

  lemma {:induction false} QueueCounts(all: seq<Time>, n: int, cutoff: Time)
    requires 0 <= n <= |all|
    requires forall i :: 0 <= i < n ==> all[i] <= cutoff
    requires forall i :: n <= i < |all| ==> all[i] > cutoff
    ensures Count(After(cutoff), all) == |all| - n
  {
    if all != [] {
      QueueCounts(all[1..], if n == 0 then 0 else n - 1, cutoff);
    }
  }

  // ---------- the login endpoint ----------

  datatype Response = TooManyRequests | Unauthorized | LoggedIn

  /** One request on its own: check, try the credentials, then record or clear. */
  method Login(limiter: LoginAttemptLimiter, key: string, now: Time, credentialsOk: bool, answered: Time)
    returns (response: Response)
    requires limiter.Valid() && limiter.clock <= now <= answered
    modifies limiter
    ensures limiter.Valid()
    ensures response == TooManyRequests <==>
      Recent(old(limiter.Failures(key)), now, limiter.windowSeconds) >= limiter.maximumAttempts
    ensures response == LoggedIn <==>
      credentialsOk && Recent(old(limiter.Failures(key)), now, limiter.windowSeconds) < limiter.maximumAttempts
    ensures response == Unauthorized <==>
      !credentialsOk && Recent(old(limiter.Failures(key)), now, limiter.windowSeconds) < limiter.maximumAttempts
    ensures limiter.clock == if response == Unauthorized then answered else now
    ensures limiter.history ==
      match response
      case TooManyRequests => old(limiter.history)
      case Unauthorized => old(limiter.history)[key := old(limiter.Failures(key)) + [answered]]
      case LoggedIn => old(limiter.history) - {key}
  {
    var ok := limiter.Allowed(key, now);
    if !ok {
      return TooManyRequests;
    }
    if !credentialsOk {
      limiter.RecordFailure(key, answered);
      return Unauthorized;
    }
    limiter.Clear(key);
    return LoggedIn;
  }

  // ---------- requests one after the other ----------

  datatype Request = Request(key: string, at: Time, credentialsOk: bool, answered: Time)

  ghost predicate InTurn(requests: seq<Request>, clock: Time) {
    && (forall i :: 0 <= i < |requests| ==> clock <= requests[i].at <= requests[i].answered)
    && (forall i, j :: 0 <= i < j < |requests| ==> requests[i].answered <= requests[j].at)
  }

  /** The failures of `key` after the first `n` answers: none since its last login. */
  function FailuresAfter(initial: seq<Time>, requests: seq<Request>, responses: seq<Response>, key: string, n: nat): seq<Time>
    requires n <= |requests| && n <= |responses|
  {
    if n == 0 then initial
    else
      var before := FailuresAfter(initial, requests, responses, key, n - 1);
      if requests[n - 1].key != key then before
      else match responses[n - 1]
        case TooManyRequests => before
        case Unauthorized => before + [requests[n - 1].answered]
        case LoggedIn => []
  }

  /** The answer to one request, given the failures of its key. */
  ghost predicate AnsweredAs(maximum: nat, window: Time, failures: seq<Time>, request: Request, response: Response) {
    response == if Recent(failures, request.at, window) >= maximum then TooManyRequests
                else if request.credentialsOk then LoggedIn else Unauthorized
  }

  /** The `i`-th answer is right for the failures that the answers before it left. */
  ghost predicate RightAt(maximum: nat, window: Time, requests: seq<Request>, responses: seq<Response>, i: int)
    requires 0 <= i < |responses| <= |requests|
  {
    AnsweredAs(maximum, window, FailuresAfter([], requests, responses, requests[i].key, i), requests[i], responses[i])
  }

  ghost predicate Served(maximum: nat, window: Time, requests: seq<Request>, responses: seq<Response>) {
    && |responses| <= |requests|
    && forall i :: 0 <= i < |responses| ==> RightAt(maximum, window, requests, responses, i)
  }

  lemma {:induction false} AnswersFixed(initial: seq<Time>, requests: seq<Request>, a: seq<Response>, b: seq<Response>, key: string, n: nat)
    requires n <= |requests| && n <= |a| && n <= |b| && forall i :: 0 <= i < n ==> a[i] == b[i]
    ensures FailuresAfter(initial, requests, a, key, n) == FailuresAfter(initial, requests, b, key, n)
  {
    if n > 0 {
      AnswersFixed(initial, requests, a, b, key, n - 1);
    }
  }

  /** The limiter holds the failures that the answers so far leave. */
  ghost predicate Tracks(limiter: LoginAttemptLimiter, requests: seq<Request>, responses: seq<Response>)
    reads limiter
    requires |responses| <= |requests|
  {
    forall key :: limiter.Failures(key) == FailuresAfter([], requests, responses, key, |responses|)
  }

  lemma {:induction false} OneMoreAnswer(requests: seq<Request>, responses: seq<Response>, response: Response, key: string)
    requires |responses| < |requests|
    ensures var n, before := |responses|, FailuresAfter([], requests, responses, key, |responses|);
      FailuresAfter([], requests, responses + [response], key, n + 1)
        == if requests[n].key != key || response == TooManyRequests then before
           else if response == Unauthorized then before + [requests[n].answered]
           else []
  {
    AnswersFixed([], requests, responses + [response], responses, key, |responses|);
  }

  method ServeOne(limiter: LoginAttemptLimiter, requests: seq<Request>, ghost responses: seq<Response>, n: nat)
    returns (response: Response)
    requires limiter.Valid() && n == |responses| < |requests| && Tracks(limiter, requests, responses)
    requires limiter.clock <= requests[n].at <= requests[n].answered
    modifies limiter
    ensures limiter.Valid() && limiter.clock <= requests[n].answered
    ensures Tracks(limiter, requests, responses + [response])
    ensures AnsweredAs(limiter.maximumAttempts, limiter.windowSeconds,
                       FailuresAfter([], requests, responses, requests[n].key, n), requests[n], response)
  {
    var r := requests[n];
    ghost var failures := limiter.Failures(r.key);
    response := Login(limiter, r.key, r.at, r.credentialsOk, r.answered);
    forall key ensures limiter.Failures(key) == FailuresAfter([], requests, responses + [response], key, n + 1) {
      OneMoreAnswer(requests, responses, response, key);
      assert old(limiter.Failures(key)) == FailuresAfter([], requests, responses, key, n);
    }
  }

  lemma {:induction false} ServedStep(
    maximum: nat, window: Time, requests: seq<Request>, responses: seq<Response>, response: Response)
    requires |responses| < |requests| && Served(maximum, window, requests, responses)
    requires var n := |responses|;
      AnsweredAs(maximum, window, FailuresAfter([], requests, responses, requests[n].key, n), requests[n], response)
    ensures Served(maximum, window, requests, responses + [response])
  {
    forall i | 0 <= i < |responses| + 1 ensures RightAt(maximum, window, requests, responses + [response], i) {
      AnswersFixed([], requests, responses + [response], responses, requests[i].key, i);
      if i < |responses| {
        assert RightAt(maximum, window, requests, responses, i);
      }
    }
  }

  /** A fresh limiter behind the login endpoint answers every sequence of requests so. */
  method Serve(maximum: nat, window: Time, clock: Time, requests: seq<Request>) returns (responses: seq<Response>)
    requires InTurn(requests, clock)
    ensures |responses| == |requests| && Served(maximum, window, requests, responses)
  {
    var limiter := new LoginAttemptLimiter(maximum, window, clock);
    responses := [];
    for n := 0 to |requests|
      invariant fresh(limiter) && limiter.Valid() && limiter.maximumAttempts == maximum && limiter.windowSeconds == window
      invariant |responses| == n && forall i :: n <= i < |requests| ==> limiter.clock <= requests[i].at
      invariant Tracks(limiter, requests, responses) && Served(maximum, window, requests, responses)
    {
      var response := ServeOne(limiter, requests, responses, n);
      ServedStep(maximum, window, requests, responses, response);
      responses := responses + [response];
    }
  }

  /** The rejected attempts on `key` after `cutoff` with no login of it since, among the
      first `n` requests. */
  ghost function Counted(requests: seq<Request>, responses: seq<Response>, key: string, n: nat, cutoff: Time): set<int>
    requires n <= |requests| && n <= |responses|
  {
    set j | 0 <= j < n && Counts(requests, responses, key, n, cutoff, j)
  }

  ghost predicate Counts(requests: seq<Request>, responses: seq<Response>, key: string, n: nat, cutoff: Time, j: int)
    requires n <= |requests| && n <= |responses| && 0 <= j < n
  {
    && requests[j].key == key && responses[j] == Unauthorized && requests[j].answered > cutoff
    && forall m :: j < m < n && requests[m].key == key ==> responses[m] != LoggedIn
  }

  lemma {:induction false} CountedStep(requests: seq<Request>, responses: seq<Response>, key: string, n: nat, cutoff: Time)
    requires 0 < n <= |requests| && n <= |responses|
    ensures var before, now, last := Counted(requests, responses, key, n - 1, cutoff), Counted(requests, responses, key, n, cutoff), n - 1;
      if requests[last].key != key || responses[last] == TooManyRequests then now == before
      else if responses[last] == LoggedIn then now == {}
      else now == if requests[last].answered > cutoff then before + {last} else before
  {
    forall j: int | 0 <= j < n - 1
      ensures Counts(requests, responses, key, n, cutoff, j) <==>
        && Counts(requests, responses, key, n - 1, cutoff, j)
        && !(requests[n - 1].key == key && responses[n - 1] == LoggedIn)
    {
    }
  }

  lemma {:induction false} CountedAre(requests: seq<Request>, responses: seq<Response>, key: string, n: nat, cutoff: Time)
    requires n <= |requests| && n <= |responses|
    ensures Count(After(cutoff), FailuresAfter([], requests, responses, key, n))
         == |Counted(requests, responses, key, n, cutoff)|
  {
    if n > 0 {
      CountedAre(requests, responses, key, n - 1, cutoff);
      CountedStep(requests, responses, key, n, cutoff);
      CountAppendOne(After(cutoff), FailuresAfter([], requests, responses, key, n - 1), requests[n - 1].answered);
    }
  }

  /** A request is refused exactly when the maximum of wrong attempts on its key lies in its
      window with no login since; otherwise its credentials alone decide. */
  lemma {:induction false} RefusedExactly(maximum: nat, window: Time, requests: seq<Request>, responses: seq<Response>, i: nat)
    requires Served(maximum, window, requests, responses) && i < |responses|
    ensures var wrong := Counted(requests, responses, requests[i].key, i, requests[i].at - window);
      && (responses[i] == TooManyRequests <==> |wrong| >= maximum)
      && (responses[i] == LoggedIn <==> |wrong| < maximum && requests[i].credentialsOk)
      && (forall j :: j in wrong ==> 0 <= j < i && !requests[j].credentialsOk)
  {
    assert RightAt(maximum, window, requests, responses, i);
    CountedAre(requests, responses, requests[i].key, i, requests[i].at - window);
    forall j: int | 0 <= j < i && responses[j] == Unauthorized ensures !requests[j].credentialsOk {
      WrongWhenUnauthorized(maximum, window, requests, responses, j);
    }
  }

  lemma {:induction false} WrongWhenUnauthorized(
    maximum: nat, window: Time, requests: seq<Request>, responses: seq<Response>, j: int)
    requires Served(maximum, window, requests, responses) && 0 <= j < |responses| && responses[j] == Unauthorized
    ensures !requests[j].credentialsOk
  {
    assert RightAt(maximum, window, requests, responses, j);
  }

  /** After a login only later attempts count against the key. */
  lemma {:induction false} LoginStartsAfresh(requests: seq<Request>, responses: seq<Response>, i: nat, n: nat, cutoff: Time)
    requires i < n <= |requests| && n <= |responses| && responses[i] == LoggedIn
    ensures FailuresAfter([], requests, responses, requests[i].key, i + 1) == []
    ensures forall j :: j in Counted(requests, responses, requests[i].key, n, cutoff) ==> i < j < n
  {
  }

  // ---------- concurrent requests for one key ----------

  /** The failures of one key since its last clear, and the requests that passed the
      check but have not been answered. */
  datatype Watch = Watch(now: Time, failures: seq<Time>, inFlight: nat)

  datatype Event = Check(at: Time) | Fail(at: Time) | Succeed(at: Time)

  datatype Policy = Policy(maximum: nat, window: Time, concurrent: nat)

  ghost predicate Step(p: Policy, w: Watch, e: Event, w': Watch) {
    && e.at >= w.now
    && match e
       case Check(at) =>
         if Recent(w.failures, at, p.window) < p.maximum
         then w.inFlight < p.concurrent && w' == w.(now := at, inFlight := w.inFlight + 1)
         else w' == w.(now := at)
       case Fail(at) =>
         w.inFlight > 0 && w' == Watch(at, w.failures + [at], w.inFlight - 1)
       case Succeed(at) =>
         w.inFlight > 0 && w' == Watch(at, [], w.inFlight - 1)
  }

  ghost predicate Run(p: Policy, states: seq<Watch>, events: seq<Event>) {
    && |states| == |events| + 1
    && states[0].failures == [] && states[0].inFlight == 0
    && forall i :: 0 <= i < |events| ==> Step(p, states[i], events[i], states[i + 1])
  }

  function Between(start: Time, window: Time): Time -> bool { t => start < t <= start + window }

  /** Failures in the half-open window after `start`. */
  function InWindow(failures: seq<Time>, start: Time, window: Time): nat { Count(Between(start, window), failures) }

  ghost predicate Bounded(p: Policy, w: Watch, start: Time) {
    InWindow(w.failures, start, p.window) + (if w.now <= start + p.window then w.inFlight else 0)
      <= p.maximum + p.concurrent - 1
  }

  ghost predicate Invariant(p: Policy, w: Watch) {
    && w.inFlight <= p.concurrent
    && forall start :: Bounded(p, w, start)
  }

  lemma StepKeeps(p: Policy, w: Watch, e: Event, w': Watch)
    requires p.concurrent >= 1 && Invariant(p, w) && Step(p, w, e, w')
    ensures Invariant(p, w')
  {
    forall start ensures Bounded(p, w', start) {
      assert Bounded(p, w, start);
      match e
      case Check(at) =>
        if at <= start + p.window {
          CountMonotone(Between(start, p.window), After(at - p.window), w.failures);
        }
      case Fail(at) =>
        CountAppendOne(Between(start, p.window), w.failures, at);
        assert InWindow(w'.failures, start, p.window)
            == InWindow(w.failures, start, p.window) + if start < at <= start + p.window then 1 else 0;
      case Succeed(_) =>
    }
  }

  /** However requests for one key overlap, if at most `concurrent` of them are between
      their check and their answer, no window ever holds more than
      `maximum + concurrent - 1` failures between clears. */
  lemma {:induction false} WindowBoundOverEveryRun(p: Policy, states: seq<Watch>, events: seq<Event>, i: nat, start: Time)
    requires p.concurrent >= 1 && Run(p, states, events) && i < |states|
    ensures InWindow(states[i].failures, start, p.window) <= p.maximum + p.concurrent - 1
    ensures Invariant(p, states[i])
  {
    if i > 0 {
      WindowBoundOverEveryRun(p, states, events, i - 1, start);
      assert Step(p, states[i - 1], events[i - 1], states[i]);
      StepKeeps(p, states[i - 1], events[i - 1], states[i]);
    }
    assert Bounded(p, states[i], start);
  }

  // ---------- the bound is reached ----------

  ghost predicate Reachable(p: Policy, w: Watch) {
    exists states, events :: Run(p, states, events) && w == states[|events|]
  }

  lemma ReachableStep(p: Policy, w: Watch, e: Event, w': Watch)
    requires Reachable(p, w) && Step(p, w, e, w')
    ensures Reachable(p, w')
  {
    var states, events :| Run(p, states, events) && w == states[|events|];
    var states', events' := states + [w'], events + [e];
    forall i | 0 <= i < |events'| ensures Step(p, states'[i], events'[i], states'[i + 1]) {
      if i < |events| {
        assert states'[i + 1] == states[i + 1];
      }
    }
    assert Run(p, states', events') && states'[|events'|] == w';
  }

  function Zeros(n: nat): seq<Time> { seq(n, _ => 0.0) }

  /** `n` failures at time zero, `k` requests in flight. */
  function AtZero(n: nat, k: nat): Watch { Watch(0.0, Zeros(n), k) }

  lemma AllCounted(n: nat, keep: Time -> bool)
    requires keep(0.0)
    ensures Count(keep, Zeros(n)) == n
  {
    CountAll(keep, Zeros(n));
  }

  lemma CheckAtZero(p: Policy, n: nat, k: nat)
    requires p.window > 0.0 && n < p.maximum && k < p.concurrent && Reachable(p, AtZero(n, k))
    ensures Reachable(p, AtZero(n, k + 1))
  {
    AllCounted(n, After(0.0 - p.window));
    ReachableStep(p, AtZero(n, k), Check(0.0), AtZero(n, k + 1));
  }

  lemma FailAtZero(p: Policy, n: nat, k: nat)
    requires k > 0 && Reachable(p, AtZero(n, k))
    ensures Reachable(p, AtZero(n + 1, k - 1))
  {
    assert Zeros(n + 1) == Zeros(n) + [0.0];
    ReachableStep(p, AtZero(n, k), Fail(0.0), AtZero(n + 1, k - 1));
  }

  /** `n` failures one after the other, while the limiter still allows them. */
  lemma {:induction false} OneByOne(p: Policy, n: nat)
    requires p.window > 0.0 && p.concurrent >= 1 && n < p.maximum
    ensures Reachable(p, AtZero(n, 0))
  {
    if n == 0 {
      assert Run(p, [AtZero(0, 0)], []);
    } else {
      OneByOne(p, n - 1);
      CheckAtZero(p, n - 1, 0);
      FailAtZero(p, n - 1, 1);
    }
  }

  /** Then `k` requests pass their check before any of them is answered. */
  lemma {:induction false} ManyChecks(p: Policy, k: nat)
    requires p.window > 0.0 && p.maximum >= 1 && 0 < k <= p.concurrent
    ensures Reachable(p, AtZero(p.maximum - 1, k))
  {
    if k == 1 {
      OneByOne(p, p.maximum - 1);
    } else {
      ManyChecks(p, k - 1);
    }
    CheckAtZero(p, p.maximum - 1, k - 1);
  }

  lemma {:induction false} AllFail(p: Policy, j: nat)
    requires p.window > 0.0 && p.maximum >= 1 && p.concurrent >= 1 && j <= p.concurrent
    ensures Reachable(p, AtZero(p.maximum - 1 + j, p.concurrent - j))
  {
    if j == 0 {
      ManyChecks(p, p.concurrent);
    } else {
      AllFail(p, j - 1);
      FailAtZero(p, p.maximum - 1 + (j - 1), p.concurrent - (j - 1));
    }
  }

  /** The most failures a window can hold, for every policy that allows any. */
  lemma MostFailuresExactly(p: Policy)
    requires p.window > 0.0 && p.maximum >= 1 && p.concurrent >= 1
    ensures forall w, start :: Reachable(p, w) ==> InWindow(w.failures, start, p.window) <= p.maximum + p.concurrent - 1
    ensures exists w, start :: Reachable(p, w) && InWindow(w.failures, start, p.window) == p.maximum + p.concurrent - 1
  {
    forall w, start | Reachable(p, w)
      ensures InWindow(w.failures, start, p.window) <= p.maximum + p.concurrent - 1
    {
      var states, events :| Run(p, states, events) && w == states[|events|];
      WindowBoundOverEveryRun(p, states, events, |events|, start);
    }
    AllFail(p, p.concurrent);
    AllCounted(p.maximum + p.concurrent - 1, Between(0.0 - p.window, p.window));
    var w := AtZero(p.maximum + p.concurrent - 1, 0);
    assert Reachable(p, w) && InWindow(w.failures, 0.0 - p.window, p.window) == p.maximum + p.concurrent - 1;
  }

  ghost predicate NeverOverMaximum(p: Policy) {
    forall w, start :: Reachable(p, w) ==> InWindow(w.failures, start, p.window) <= p.maximum
  }

  lemma {:induction false} NothingAllowed(p: Policy, states: seq<Watch>, events: seq<Event>, i: nat)
    requires (p.maximum == 0 || p.concurrent == 0) && Run(p, states, events) && i < |states|
    ensures states[i].failures == [] && states[i].inFlight == 0
  {
    if i > 0 {
      NothingAllowed(p, states, events, i - 1);
      assert Step(p, states[i - 1], events[i - 1], states[i]);
    }
  }

  lemma NoFailures(p: Policy, w: Watch, start: Time)
    requires (p.maximum == 0 || p.concurrent == 0) && Reachable(p, w)
    ensures InWindow(w.failures, start, p.window) == 0
  {
    var states, events :| Run(p, states, events) && w == states[|events|];
    NothingAllowed(p, states, events, |events|);
  }

  /** The configured maximum of a policy is never passed exactly when requests for a key
      are answered one at a time, or the policy lets nothing through, or counts nothing. */
  lemma MaximumHoldsExactly(p: Policy)
    ensures NeverOverMaximum(p) <==> p.concurrent <= 1 || p.maximum == 0 || p.window <= 0.0
  {
    if p.maximum == 0 || p.concurrent == 0 {
      forall w, start | Reachable(p, w) ensures InWindow(w.failures, start, p.window) <= p.maximum {
        NoFailures(p, w, start);
      }
    } else if p.window <= 0.0 {
      forall w, start | Reachable(p, w) ensures InWindow(w.failures, start, p.window) <= p.maximum {
        CountNone(Between(start, p.window), w.failures);
      }
    } else {
      MostFailuresExactly(p);
    }
  }
}
