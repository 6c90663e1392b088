/** The retry policy of the pipeline (azfile/zc_policy_retry.go): which endpoint each try goes to,
    when it stops, and what becomes of response bodies and per-try contexts. */
module RetryPolicy {
  import opened Text
  import opened Ranges
  import opened Backoff

  // ----- What a try can come back with -----

  /** Whether an error is of one of the types that isNotRetriable lists. */
  datatype Kind = Listed | Unlisted

  datatype Cause = Cause(kind: Kind, message: Text)

  /** A net.Error; an OpError wraps another error, or none. */
  datatype NetError =
    | Plain(temporary: bool, timeout: bool, cause: Cause)
    | OpError(temporary: bool, timeout: bool, inner: Option<Cause>)

  datatype TryError = StorageError(temporary: bool, status: Option<int>) | Network(e: NetError) | Unrecognized

  datatype HttpResponse = HttpResponse(status: int, hasBody: bool)

  /** `ctxDone` says that the caller's context has ended. */
  datatype Outcome = Outcome(ctxDone: bool, response: Option<HttpResponse>, err: Option<TryError>)

  predicate ContainsText(s: Text, part: Text) {
    exists i :: 0 <= i <= |s| && part <= s[i..]
  }

  predicate IsNotRetriable(e: NetError) {
    if e.temporary || e.timeout then false
    else if e.OpError? && e.inner.None? then true
    else
      var cause := if e.OpError? then e.inner.value else e.cause;
      cause.kind.Listed? || ContainsText(cause.message, "invalid header field")
  }

  predicate IsSuccessStatusCode(status: int) {
    status in {200, 201, 202, 204, 206}
  }

  datatype Action = NoRetry | Retry | RetryOnPrimary

  /** The switch over the outcome of a try. */
  function Decide(tryingPrimary: bool, out: Outcome): Action {
    if out.ctxDone then NoRetry
    else if !tryingPrimary && out.response.Some? && out.response.value.status == 404 then RetryOnPrimary
    else
      match out.err
      case None => NoRetry
      case Some(StorageError(temporary, status)) =>
        if temporary || (status.Some? && IsSuccessStatusCode(status.value)) then Retry else NoRetry
      case Some(Network(e)) => if IsNotRetriable(e) then NoRetry else Retry
      case Some(Unrecognized) => NoRetry
  }

  // ----- The resources of a try -----

  class TryContext {
    var cancelled: bool

    constructor ()
      ensures !cancelled
    {
      cancelled := false;
    }

    method Cancel()
      modifies this
      ensures cancelled
    {
      cancelled := true;
    }
  }

  class Body {
    var drained: bool
    var closed: bool

    constructor ()
      ensures !drained && !closed
    {
      drained, closed := false, false;
    }

    /** io.Copy to ioutil.Discard, then Close. */
    method Flush()
      modifies this
      ensures drained && closed
    {
      drained := true;
      closed := true;
    }
  }

  /** contextCancelReadCloser: the body handed to the user, which takes its try's context with it. */
  class CancelOnClose {
    const context: TryContext
    const body: Body?

    constructor (context: TryContext, body: Body?)
      ensures this.context == context && this.body == body
    {
      this.context := context;
      this.body := body;
    }

    method Close()
      modifies context, body
      ensures context.cancelled
      ensures body != null ==> body.closed && body.drained == old(body.drained)
    {
      if body != null {
        body.closed := true;
      }
      context.Cancel();
    }
  }

  /** One pass through the loop. */
  datatype Attempt = Attempt(primary: bool, primaryTry: nat, delay: int, outcome: Outcome, context: TryContext,
                             body: Body?)
  {
    function Action(): Action {
      Decide(primary, outcome)
    }
  }

  /** What has been done with the try's body and context: a try that is retried leaves its body
      flushed and its context cancelled; one that ends the operation leaves its body alone, and
      its context alive if and only if it has no error. */
  ghost predicate Settled(a: Attempt)
    reads a.context, a.body
  {
    && (a.context.cancelled <==> !a.Action().NoRetry? || a.outcome.err.Some?)
    && (a.body != null ==> (a.body.drained <==> !a.Action().NoRetry?) && (a.body.closed <==> !a.Action().NoRetry?))
    && (a.body != null <==> a.outcome.response.Some? && a.outcome.response.value.hasBody)
  }

  // ----- The schedule -----

  function Primaries(attempts: seq<Attempt>, k: nat): nat
    requires k <= |attempts|
  {
    if k == 0 then 0 else Primaries(attempts, k - 1) + (if attempts[k - 1].primary then 1 else 0)
  }

  /** The secondary answered 404 among the first k tries. */
  ghost predicate Dropped(attempts: seq<Attempt>, k: nat)
    requires k <= |attempts|
  {
    exists j :: 0 <= j < k && attempts[j].Action().RetryOnPrimary?
  }

  /** How long a try may wait: the back-off of its number on the primary, about a second otherwise. */
  ghost predicate Waited(o: RetryOptions, primary: bool, primaryTry: nat, delay: int) {
    if primary then
      && primaryTry >= 1 && MayWait(o, primaryTry, delay) && delay <= o.maxRetryDelay
      && (primaryTry == 1 ==> delay == 0)
      && (Fits(o, primaryTry) ==> IsWait(o, primaryTry, delay))
    else 8 * SECOND <= 10 * delay <= 13 * SECOND
  }

  /** Try number k + 1 went where it should, counts the primary tries rightly, and waited. */
  ghost predicate Scheduled(o: RetryOptions, useSecondary: bool, attempts: seq<Attempt>, k: nat)
    requires k < |attempts|
  {
    var a := attempts[k];
    && (a.primary <==> !useSecondary || k % 2 == 0 || Dropped(attempts, k))
    && a.primaryTry == Primaries(attempts, k + 1)
    && Waited(o, a.primary, a.primaryTry, a.delay)
  }

  ghost predicate IsSchedule(o: RetryOptions, useSecondary: bool, attempts: seq<Attempt>) {
    && (forall k :: 0 <= k < |attempts| ==> Scheduled(o, useSecondary, attempts, k))
    && (forall k :: 0 <= k < |attempts| - 1 ==> !attempts[k].Action().NoRetry?)
  }

  datatype Result = Returned(response: Option<HttpResponse>, err: Option<TryError>, wrapped: CancelOnClose?) | Panicked

  method Wait(o: RetryOptions, primary: bool, primaryTry: nat) returns (delay: int)
    requires Sensible(o) && (primary ==> primaryTry >= 1)
    ensures Waited(o, primary, primaryTry, delay)
  {
    assert IsJitter(1.0);
    var jitter: real :| IsJitter(jitter);
    if primary {
      delay := CalcDelay(o, primaryTry, jitter);
    } else {
      JitterRange(SECOND, jitter);
      ScaledAtLeast(jitter);
      delay := ToDuration(Scaled(SECOND as real, jitter));
    }
  }

  lemma ScaledAtLeast(jitter: real)
    requires IsJitter(jitter)
    ensures 8 * SECOND <= 10 * Scaled(SECOND as real, jitter).Floor
  {
    ScaleMonotone(SECOND as real, 0.8, jitter);
    assert SECOND as real * 0.8 == 800_000_000.0;
  }

  /** Appending a try keeps what was said of the earlier ones. */
  lemma ScheduleGrows(o: RetryOptions, useSecondary: bool, attempts: seq<Attempt>, a: Attempt)
    requires IsSchedule(o, useSecondary, attempts)
    requires attempts != [] ==> !attempts[|attempts| - 1].Action().NoRetry?
    requires Scheduled(o, useSecondary, attempts + [a], |attempts|)
    ensures IsSchedule(o, useSecondary, attempts + [a])
  {
    var more := attempts + [a];
    forall k | 0 <= k < |attempts|
      ensures Scheduled(o, useSecondary, more, k)
    {
      assert Scheduled(o, useSecondary, attempts, k);
      PrimariesPrefix(attempts, a, k + 1);
      assert forall j :: 0 <= j < k ==> more[j] == attempts[j];
      assert Dropped(more, k) <==> Dropped(attempts, k);
    }
  }

  lemma {:induction false} PrimariesPrefix(attempts: seq<Attempt>, a: Attempt, k: nat)
    requires k <= |attempts|
    ensures Primaries(attempts + [a], k) == Primaries(attempts, k)
  {
    if k > 0 {
      PrimariesPrefix(attempts, a, k - 1);
    }
  }

  /** One more try, made where and when it should be. */
  lemma OneMore(o: RetryOptions, useSecondary: bool, attempts: seq<Attempt>, a: Attempt)
    requires IsSchedule(o, useSecondary, attempts)
    requires attempts != [] ==> !attempts[|attempts| - 1].Action().NoRetry?
    requires a.primary <==> !useSecondary || |attempts| % 2 == 0 || Dropped(attempts, |attempts|)
    requires a.primaryTry == Primaries(attempts, |attempts|) + (if a.primary then 1 else 0)
    requires Waited(o, a.primary, a.primaryTry, a.delay)
    ensures var more := attempts + [a];
            && IsSchedule(o, useSecondary, more) && Primaries(more, |more|) == a.primaryTry
            && (Dropped(more, |more|) <==> Dropped(attempts, |attempts|) || a.Action().RetryOnPrimary?)
  {
    hide Waited;
    var more, n := attempts + [a], |attempts|;
    PrimariesPrefix(attempts, a, n);
    assert forall j :: 0 <= j < n ==> more[j] == attempts[j];
    assert Dropped(more, n) <==> Dropped(attempts, n);
    assert Scheduled(o, useSecondary, more, n);
    ScheduleGrows(o, useSecondary, attempts, a);
    if a.Action().RetryOnPrimary? {
      assert more[n].Action().RetryOnPrimary?;
    }
  }

  ghost predicate Owned(attempts: seq<Attempt>)
    reads set a | a in attempts :: a.context, set a | a in attempts && a.body != null :: a.body
  {
    forall k :: 0 <= k < |attempts| ==> Settled(attempts[k])
  }

  lemma OwnedGrows(attempts: seq<Attempt>, a: Attempt)
    requires Owned(attempts) && Settled(a)
    ensures Owned(attempts + [a])
  {
  }

  lemma OwnedLast(attempts: seq<Attempt>)
    requires attempts != [] && Owned(attempts) && !attempts[|attempts| - 1].Action().NoRetry?
    ensures attempts[|attempts| - 1].body != null ==> attempts[|attempts| - 1].body.closed
  {
    assert Settled(attempts[|attempts| - 1]);
  }

  predicate Apart(a: Attempt, b: Attempt) {
    a.context != b.context && (a.body == null || a.body != b.body)
  }

  /** What the policy returns after its last try. */
  ghost predicate HandsOn(r: Result, last: Attempt) {
    && r.Returned? && r.response == last.outcome.response && r.err == last.outcome.err
    && (r.wrapped != null <==> last.Action().NoRetry? && r.err.None?)
    && (r.wrapped != null ==> r.wrapped.context == last.context && r.wrapped.body == last.body)
  }

  /** Send the try, which comes back with an outcome, decide, and dispose of its body and context. */
  method Try(primary: bool, primaryTry: nat, delay: int, outcome: Outcome)
    returns (a: Attempt, wrapped: CancelOnClose?, panicked: bool)
    ensures a.primary == primary && a.primaryTry == primaryTry && a.delay == delay && a.outcome == outcome
    ensures fresh(Objects(a))
    ensures panicked <==> a.Action().NoRetry? && a.outcome.err.None? && a.outcome.response.None?
    ensures !panicked ==> Settled(a) && HandsOn(Returned(a.outcome.response, a.outcome.err, wrapped), a)
  {
    wrapped, panicked := null, false;
    var context := new TryContext();
    var body: Body? := null;
    if outcome.response.Some? && outcome.response.value.hasBody {
      body := new Body();
    }
    a := Attempt(primary, primaryTry, delay, outcome, context, body);
    if a.Action().NoRetry? {
      match outcome.err {
        case Some(_) =>
          context.Cancel();
        case None =>
          match outcome.response {
            case None => panicked := true;
            case Some(_) => wrapped := new CancelOnClose(context, body);
          }
      }
      return;
    }
    if body != null {
      body.Flush();
    }
    context.Cancel();
  }

  /** A secondary answered 404 while the caller's context was alive. */
  predicate NotOnSecondary(a: Attempt) {
    && !a.primary && !a.outcome.ctxDone
    && a.outcome.response.Some? && a.outcome.response.value.status == 404
  }

  /** A try with a nil error is retried in one case only. */
  lemma NilErrorAction(a: Attempt)
    requires a.outcome.err.None?
    ensures !a.Action().NoRetry? <==> NotOnSecondary(a)
  {
  }

  lemma NilErrorReturned(r: Result, attempts: seq<Attempt>, maxTries: nat)
    requires attempts != [] && HandsOn(r, attempts[|attempts| - 1]) && r.err.None? && Owned(attempts)
    requires !attempts[|attempts| - 1].Action().NoRetry? ==> |attempts| == maxTries
    ensures var last := attempts[|attempts| - 1];
            && (r.wrapped == null <==> |attempts| == maxTries && NotOnSecondary(last))
            && (r.wrapped == null && last.body != null ==> last.body.closed)
  {
    hide Owned, Decide;
    NilErrorAction(attempts[|attempts| - 1]);
    if r.wrapped == null {
      OwnedLast(attempts);
    }
  }

  ghost predicate Answered(attempts: seq<Attempt>, outcomes: nat -> Outcome) {
    forall k :: 0 <= k < |attempts| ==> attempts[k].outcome == outcomes(k)
  }

  lemma AnsweredGrows(attempts: seq<Attempt>, outcomes: nat -> Outcome, a: Attempt)
    requires Answered(attempts, outcomes) && a.outcome == outcomes(|attempts|)
    ensures Answered(attempts + [a], outcomes)
  {
  }

  /** What holds before every try: all tries so far were retried, and the counters tell of them. */
  ghost predicate GoesOn(o: RetryOptions, useSecondary: bool, attempts: seq<Attempt>, primaryTry: nat,
                         considerSecondary: bool) {
    && IsSchedule(o, useSecondary, attempts)
    && primaryTry == Primaries(attempts, |attempts|)
    && (considerSecondary <==> useSecondary && !Dropped(attempts, |attempts|))
    && (attempts != [] ==> !attempts[|attempts| - 1].Action().NoRetry?)
  }

  lemma TryMade(o: RetryOptions, useSecondary: bool, attempts: seq<Attempt>, a: Attempt, primaryTry: nat,
                considerSecondary: bool)
    requires GoesOn(o, useSecondary, attempts, primaryTry, considerSecondary)
    requires a.primary <==> !considerSecondary || |attempts| % 2 == 0
    requires a.primaryTry == primaryTry + (if a.primary then 1 else 0)
    requires Waited(o, a.primary, a.primaryTry, a.delay)
    ensures IsSchedule(o, useSecondary, attempts + [a])
    ensures !a.Action().NoRetry? ==>
              GoesOn(o, useSecondary, attempts + [a], a.primaryTry, considerSecondary && !a.Action().RetryOnPrimary?)
  {
    hide Waited, IsSchedule, Decide, Primaries, Dropped;
    OneMore(o, useSecondary, attempts, a);
  }

  function Objects(a: Attempt): set<object> {
    {a.context} + (if a.body == null then {} else {a.body})
  }

  /** No try shares its context or its body with another, and all of them are in `repr`. */
  ghost predicate Separate(attempts: seq<Attempt>, repr: set<object>) {
    && (forall i, j :: 0 <= i < j < |attempts| ==> Apart(attempts[i], attempts[j]))
    && (forall a :: a in attempts ==> Objects(a) <= repr)
  }

  lemma SeparateGrows(attempts: seq<Attempt>, repr: set<object>, a: Attempt)
    requires Separate(attempts, repr) && Objects(a) !! repr
    ensures Separate(attempts + [a], repr + Objects(a))
  {
    forall b | b in attempts
      ensures Apart(b, a)
    {
      assert b.context in Objects(b) && a.context in Objects(a);
    }
  }

  /** The loop of the policy. A panic is the sanity check on a nil error without a response. */
  method Tries(o: RetryOptions, useSecondary: bool, outcomes: nat -> Outcome)
    returns (r: Result, attempts: seq<Attempt>, ghost repr: set<object>)
    requires Sensible(o) && 1 <= o.maxTries
    ensures Answered(attempts, outcomes) && 1 <= |attempts| <= o.maxTries && IsSchedule(o, useSecondary, attempts)
    ensures !attempts[|attempts| - 1].Action().NoRetry? ==> |attempts| == o.maxTries
    ensures r.Panicked? <==>
            var last := attempts[|attempts| - 1];
            last.Action().NoRetry? && last.outcome.err.None? && last.outcome.response.None?
    ensures r.Returned? ==> HandsOn(r, attempts[|attempts| - 1]) && Owned(attempts)
    ensures Separate(attempts, repr) && fresh(repr)
  {
    var primaryTry, considerSecondary := 0, useSecondary;
    attempts, repr := [], {};
    r := Returned(None, None, null);
    var try := 1;
    assert GoesOn(o, useSecondary, attempts, 0, useSecondary) && Owned(attempts) && Separate(attempts, repr);
    assert Answered(attempts, outcomes);
    hide IsSchedule, GoesOn, Waited, Decide, Owned, Settled, Separate, Objects, Sensible, HandsOn, Answered;
    while try <= o.maxTries
      invariant 1 <= try <= o.maxTries + 1 && |attempts| == try - 1
      invariant Answered(attempts, outcomes) && (attempts != [] ==> IsSchedule(o, useSecondary, attempts))
      invariant GoesOn(o, useSecondary, attempts, primaryTry, considerSecondary)
      invariant attempts != [] ==> HandsOn(r, attempts[|attempts| - 1])
      invariant Owned(attempts) && Separate(attempts, repr) && fresh(repr)
    {
      var tryingPrimary := !considerSecondary || try % 2 == 1;
      ghost var primaryTries := primaryTry;
      if tryingPrimary {
        primaryTry := primaryTry + 1;
      }
      var delay := Wait(o, tryingPrimary, primaryTry);
      var a, wrapped, panicked := Try(tryingPrimary, primaryTry, delay, outcomes(try - 1));
      TryMade(o, useSecondary, attempts, a, primaryTries, considerSecondary);
      AnsweredGrows(attempts, outcomes, a);
      SeparateGrows(attempts, repr, a);
      ghost var before := attempts;
      attempts, repr := attempts + [a], repr + Objects(a);
      if panicked {
        r := Panicked;
        break;
      }
      OwnedGrows(before, a);
      r := Returned(a.outcome.response, a.outcome.err, wrapped);
      if a.Action().RetryOnPrimary? {
        considerSecondary := false;
      }
      if a.Action().NoRetry? {
        break;
      }
      try := try + 1;
    }
  }

  // ----- When a run ends, told from the world alone -----

  /** An error of one of the listed types, or one that says "invalid header field". */
  ghost predicate Refused(cause: Cause) {
    cause.kind.Listed? || exists head: Text, tail: Text :: cause.message == head + "invalid header field" + tail
  }

  /** There is nothing to be gained by trying again. */
  ghost predicate IsFinal(out: Outcome) {
    out.ctxDone ||
    match out.err
    case None => true
    case Some(Unrecognized) => true
    case Some(StorageError(temporary, status)) =>
      !temporary && forall code :: status == Some(code) ==> code !in [200, 201, 202, 204, 206]
    case Some(Network(Plain(temporary, timeout, cause))) => !temporary && !timeout && Refused(cause)
    case Some(Network(OpError(temporary, timeout, inner))) =>
      !temporary && !timeout && forall cause :: inner == Some(cause) ==> Refused(cause)
  }

  predicate NotFound(out: Outcome) {
    !out.ctxDone && exists hasBody :: out.response == Some(HttpResponse(404, hasBody))
  }

  /** Where try number k + 1 goes: every second one to the secondary, until that says 404. */
  ghost predicate OnPrimary(useSecondary: bool, outcomes: nat -> Outcome, k: nat) {
    !useSecondary || k % 2 == 0 || exists j :: 0 <= j < k && j % 2 == 1 && NotFound(outcomes(j))
  }

  ghost predicate Stops(useSecondary: bool, outcomes: nat -> Outcome, k: nat) {
    IsFinal(outcomes(k)) && (OnPrimary(useSecondary, outcomes, k) || !NotFound(outcomes(k)))
  }

  /** In this world the first try that stops is number n, or none of the n that are allowed does before
      the last. */
  ghost predicate EndsAt(useSecondary: bool, outcomes: nat -> Outcome, maxTries: nat, n: nat) {
    && 1 <= n <= maxTries
    && (forall k :: 0 <= k < n - 1 ==> !Stops(useSecondary, outcomes, k))
    && (n < maxTries ==> Stops(useSecondary, outcomes, n - 1))
  }

  /** The world decides how many tries there are. */
  lemma OneEnd(useSecondary: bool, outcomes: nat -> Outcome, maxTries: nat, m: nat, n: nat)
    requires EndsAt(useSecondary, outcomes, maxTries, m) && EndsAt(useSecondary, outcomes, maxTries, n)
    ensures m == n
  {
    hide Stops;
  }

  /** While network errors are temporary or timeouts, all tries that are allowed are made. */
  lemma TemporaryIsRetried(useSecondary: bool, outcomes: nat -> Outcome, maxTries: nat, n: nat)
    requires EndsAt(useSecondary, outcomes, maxTries, n)
    requires forall k :: 0 <= k < maxTries ==>
               && !outcomes(k).ctxDone && outcomes(k).err.Some? && outcomes(k).err.value.Network?
               && (outcomes(k).err.value.e.temporary || outcomes(k).err.value.e.timeout)
    ensures n == maxTries
  {
    assert !Stops(useSecondary, outcomes, n - 1);
  }

  lemma RefusedMeans(cause: Cause)
    ensures Refused(cause) <==> cause.kind.Listed? || ContainsText(cause.message, "invalid header field")
  {
    var s, part: Text := cause.message, "invalid header field";
    if i :| 0 <= i <= |s| && part <= s[i..] {
      var head, tail := s[..i], s[i..][|part|..];
      assert s == head + "invalid header field" + tail;
    }
    if head: Text, tail: Text :| s == head + "invalid header field" + tail {
      assert s[|head|..] == "invalid header field" + tail;
      assert "invalid header field" <= s[|head|..];
    }
  }

  lemma NotRetriableMeans(e: NetError)
    ensures IsNotRetriable(e) <==>
            !e.temporary && !e.timeout &&
            if e.OpError? then e.inner.None? || Refused(e.inner.value) else Refused(e.cause)
  {
    if e.OpError? {
      if e.inner.Some? {
        RefusedMeans(e.inner.value);
      }
    } else {
      RefusedMeans(e.cause);
    }
    hide ContainsText, Refused;
  }

  lemma DecideMeans(primary: bool, out: Outcome)
    ensures Decide(primary, out).NoRetry? <==> IsFinal(out) && (primary || !NotFound(out))
    ensures Decide(primary, out).RetryOnPrimary? <==> !primary && NotFound(out)
  {
    if out.response.Some? {
      assert out.response.value == HttpResponse(out.response.value.status, out.response.value.hasBody);
    }
    if out.err.Some? && out.err.value.Network? {
      NotRetriableMeans(out.err.value.e);
    }
    hide IsNotRetriable, Refused;
  }

  lemma {:induction false} GoesWhere(o: RetryOptions, useSecondary: bool, attempts: seq<Attempt>,
                                     outcomes: nat -> Outcome, k: nat)
    requires IsSchedule(o, useSecondary, attempts) && Answered(attempts, outcomes) && k <= |attempts|
    ensures useSecondary ==>
              (Dropped(attempts, k) <==> exists j :: 0 <= j < k && j % 2 == 1 && NotFound(outcomes(j)))
    ensures k < |attempts| ==> (attempts[k].primary <==> OnPrimary(useSecondary, outcomes, k))
  {
    assert k < |attempts| ==> Scheduled(o, useSecondary, attempts, k);
    hide IsSchedule, Waited, NotFound, Decide;
    if k > 0 {
      GoesWhere(o, useSecondary, attempts, outcomes, k - 1);
      DecideMeans(attempts[k - 1].primary, attempts[k - 1].outcome);
      assert attempts[k - 1].Action() == Decide(attempts[k - 1].primary, outcomes(k - 1));
    }
  }

  /** A schedule that is not stopped early, and stops where it is to stop, is the one the world asks for. */
  lemma EndsAsAsked(o: RetryOptions, useSecondary: bool, attempts: seq<Attempt>, outcomes: nat -> Outcome)
    requires IsSchedule(o, useSecondary, attempts) && Answered(attempts, outcomes)
    requires 1 <= |attempts| <= o.maxTries
    requires !attempts[|attempts| - 1].Action().NoRetry? ==> |attempts| == o.maxTries
    ensures EndsAt(useSecondary, outcomes, o.maxTries, |attempts|)
    ensures forall k :: 0 <= k < |attempts| ==> (attempts[k].primary <==> OnPrimary(useSecondary, outcomes, k))
  {
    forall k | 0 <= k < |attempts|
      ensures attempts[k].Action().NoRetry? <==> Stops(useSecondary, outcomes, k)
      ensures attempts[k].primary <==> OnPrimary(useSecondary, outcomes, k)
    {
      GoesWhere(o, useSecondary, attempts, outcomes, k);
      DecideMeans(attempts[k].primary, outcomes(k));
      hide IsFinal, NotFound, OnPrimary, Decide, IsSchedule;
    }
    hide Scheduled, Stops, OnPrimary, Decide;
  }

  /** The policy, against a world that answers the tries one after the other. */
  method Do(options: RetryOptions, isRead: bool, secondaryHost: Text, outcomes: nat -> Outcome)
    returns (r: Result, attempts: seq<Attempt>)
    requires Sensible(options)
    ensures Answered(attempts, outcomes) && 1 <= |attempts| <= Defaults(options).maxTries
    ensures IsSchedule(Defaults(options), isRead && secondaryHost != "", attempts)
    ensures r.Returned? && !attempts[|attempts| - 1].Action().NoRetry? ==> |attempts| == Defaults(options).maxTries
    ensures EndsAt(isRead && secondaryHost != "", outcomes, Defaults(options).maxTries, |attempts|)
    ensures forall k :: 0 <= k < |attempts| ==>
              (attempts[k].primary <==> OnPrimary(isRead && secondaryHost != "", outcomes, k))
    ensures r.Panicked? <==>
            var last := outcomes(|attempts| - 1); last.err.None? && last.response.None?
    ensures r.Returned? ==> HandsOn(r, attempts[|attempts| - 1]) && Owned(attempts)
    ensures r.Returned? && r.err.None? ==>
              var last := attempts[|attempts| - 1];
              && (r.wrapped == null <==> |attempts| == Defaults(options).maxTries && NotOnSecondary(last))
              && (r.wrapped == null && last.body != null ==> last.body.closed)
    ensures forall i, j :: 0 <= i < j < |attempts| ==> Apart(attempts[i], attempts[j])
    ensures forall a :: a in attempts ==> fresh(a.context) && (a.body != null ==> fresh(a.body))
  {
    DefaultsAreSensible(options);
    ghost var repr;
    r, attempts, repr := Tries(Defaults(options), isRead && secondaryHost != "", outcomes);
    EndsAsAsked(Defaults(options), isRead && secondaryHost != "", attempts, outcomes);
    var last := attempts[|attempts| - 1];
    if r.Returned? && r.err.None? {
      NilErrorReturned(r, attempts, Defaults(options).maxTries);
    }
    if last.outcome.err.None? {
      NilErrorAction(last);
    }
    hide EndsAt, OnPrimary, IsSchedule, Answered, Defaults, HandsOn, Owned, NotOnSecondary, Decide;
  }

  /** With the secondary host this version ships, which is empty, a nil error leaves exactly one
      context alive, that of the last try; closing the returned body cancels it, and then no body
      and no context of any try is left. With an error nothing is left alive at once. */
  method DoAndClose(options: RetryOptions, isRead: bool, outcomes: nat -> Outcome)
    returns (r: Result, attempts: seq<Attempt>)
    requires Sensible(options)
    ensures attempts != []
    ensures r.Returned? ==> forall a :: a in attempts ==> a.context.cancelled
    ensures r.Returned? && r.err.None? ==> forall a :: a in attempts && a.body != null ==> a.body.closed
    ensures r.Returned? && r.err.None? ==> r.wrapped != null && attempts[|attempts| - 1].Action().NoRetry?
  {
    r, attempts := Do(options, isRead, "", outcomes);
    if r.Panicked? {
      return;
    }
    var last := attempts[|attempts| - 1];
    assert Scheduled(Defaults(options), false, attempts, |attempts| - 1);
    if r.err.None? {
      NilErrorAction(last);
    }
    assert Settled(last);
    assert forall a :: a in attempts && a != last ==> exists k :: 0 <= k < |attempts| - 1 && attempts[k] == a;
    assert forall a :: a in attempts && a != last ==> !a.Action().NoRetry? && a.context.cancelled && Apart(a, last);
    if r.wrapped != null {
      r.wrapped.Close();
    }
  }

  /** Without a secondary every try is a primary try and is counted as such. */
  lemma {:induction false} AllPrimary(o: RetryOptions, attempts: seq<Attempt>, k: nat)
    requires IsSchedule(o, false, attempts) && k <= |attempts|
    ensures Primaries(attempts, k) == k
    ensures forall i :: 0 <= i < k ==> attempts[i].primary && attempts[i].primaryTry == i + 1
  {
    if k > 0 {
      AllPrimary(o, attempts, k - 1);
      assert Scheduled(o, false, attempts, k - 1);
    }
  }

  /** Of the first k tries, number j + 1 was the secondary's 404; before it tries alternated, after it
      they are primary. */
  ghost predicate DroppedAt(attempts: seq<Attempt>, k: nat, j: nat)
    requires k <= |attempts|
  {
    && 0 < j < k && j % 2 == 1 && !Dropped(attempts, j) && !attempts[j].primary
    && Primaries(attempts, k) == (j + 1) / 2 + (k - j - 1)
    && forall i :: j < i < k ==> attempts[i].primary
  }

  lemma StaysDropped(attempts: seq<Attempt>, k: nat, j: nat)
    requires 1 <= k <= |attempts| && DroppedAt(attempts, k - 1, j) && attempts[k - 1].primary
    ensures DroppedAt(attempts, k, j)
  {
    hide Dropped;
  }

  /** With one, tries alternate, the primary first, until the secondary answers 404; from then on
      every try is a primary one. */
  lemma {:induction false} Alternates(o: RetryOptions, attempts: seq<Attempt>, k: nat)
    requires IsSchedule(o, true, attempts) && k <= |attempts|
    ensures !Dropped(attempts, k) ==> Primaries(attempts, k) == (k + 1) / 2
    ensures Dropped(attempts, k) ==> exists j :: DroppedAt(attempts, k, j)
  {
    if k > 0 {
      Alternates(o, attempts, k - 1);
      assert Scheduled(o, true, attempts, k - 1);
      assert attempts[k - 1].Action().RetryOnPrimary? ==> !attempts[k - 1].primary;
      assert attempts[k - 1].primary <==> (k - 1) % 2 == 0 || Dropped(attempts, k - 1);
      assert Dropped(attempts, k) <==> Dropped(attempts, k - 1) || attempts[k - 1].Action().RetryOnPrimary?;
      assert Primaries(attempts, k) == Primaries(attempts, k - 1) + if attempts[k - 1].primary then 1 else 0;
      hide IsSchedule, Scheduled, Waited, Decide, Dropped, Primaries;
      if Dropped(attempts, k - 1) {
        var j :| DroppedAt(attempts, k - 1, j);
        StaysDropped(attempts, k, j);
      } else if attempts[k - 1].Action().RetryOnPrimary? {
        assert DroppedAt(attempts, k, k - 1);
      }
      hide DroppedAt;
    }
  }

  /** The time a run without a secondary sleeps, as long as no wait overflows. */
  lemma SleepsAtMost(o: RetryOptions, attempts: seq<Attempt>)
    requires IsSchedule(o, false, attempts) && attempts != []
    requires 0 <= o.retryDelay <= o.maxRetryDelay
    requires forall try :: 1 <= try <= |attempts| ==> Fits(o, try)
    ensures var slept := Sum(seq(|attempts|, i requires 0 <= i < |attempts| => attempts[i].delay));
            && 0 <= slept <= (|attempts| - 1) * o.maxRetryDelay
            && 10 * slept <= 13 * SumNominal(o, |attempts|)
  {
    var n := |attempts|;
    var delays := seq(n, i requires 0 <= i < n => attempts[i].delay);
    AllPrimary(o, attempts, n);
    forall i | 0 <= i < n
      ensures IsWait(o, i + 1, delays[i])
    {
      assert Scheduled(o, false, attempts, i);
    }
    TotalWait(o, delays);
  }

  /** The time slept before the first k tries; a negative delay is no sleep. */
  function Slept(attempts: seq<Attempt>, k: nat): int
    requires k <= |attempts|
  {
    if k == 0 then 0 else Slept(attempts, k - 1) + (if attempts[k - 1].delay > 0 then attempts[k - 1].delay else 0)
  }

  /** Whatever overflows, and with or without a secondary: a run sleeps at most the cap before every
      primary try but the first, and 1.3 seconds before every secondary one. */
  lemma {:induction false} SleepsCapped(o: RetryOptions, useSecondary: bool, attempts: seq<Attempt>, k: nat)
    requires IsSchedule(o, useSecondary, attempts) && 1 <= k <= |attempts| && 0 <= o.maxRetryDelay
    ensures Primaries(attempts, k) >= 1
    ensures var primaries := Primaries(attempts, k);
            10 * Slept(attempts, k) <= 10 * ((primaries - 1) * o.maxRetryDelay) + 13 * SECOND * (k - primaries)
  {
    assert Scheduled(o, useSecondary, attempts, k - 1);
    if k == 1 {
      assert Primaries(attempts, 0) == 0 && Slept(attempts, 0) == 0;
      assert Primaries(attempts, 1) == 1;
    } else {
      SleepsCapped(o, useSecondary, attempts, k - 1);
      Distribute(Primaries(attempts, k - 1) - 1, 1, o.maxRetryDelay);
      hide MayWait, Fits, IsWait, Dropped;
    }
  }

  // ----- A nil error with a response that is closed already -----

  /** Only with a secondary, and after an even number of tries, is the last answer a secondary's. */
  lemma SecondaryIsEven(o: RetryOptions, useSecondary: bool, attempts: seq<Attempt>)
    requires IsSchedule(o, useSecondary, attempts) && attempts != [] && NotOnSecondary(attempts[|attempts| - 1])
    ensures useSecondary && |attempts| % 2 == 0
  {
    assert Scheduled(o, useSecondary, attempts, |attempts| - 1);
  }

  /** Every try but the last fails for the time being, the last gets a 404. */
  function NotFoundAtLast(tries: nat): nat -> Outcome {
    (k: nat) =>
      if k + 1 < tries then Outcome(false, None, Some(StorageError(true, None)))
      else Outcome(false, Some(HttpResponse(404, true)), None)
  }

  /** With a secondary host and an even number of tries allowed, the policy, so answered, returns a nil
      error and a response that was drained and closed as if it were retried. */
  method ClosedResponse(options: RetryOptions, secondaryHost: Text) returns (r: Result, attempts: seq<Attempt>)
    requires Sensible(options) && secondaryHost != "" && Defaults(options).maxTries % 2 == 0
    ensures |attempts| == Defaults(options).maxTries
    ensures r.Returned? && r.err.None? && r.response.Some? && r.wrapped == null
    ensures var last := attempts[|attempts| - 1];
            r.response == last.outcome.response && last.body != null && last.body.drained && last.body.closed
  {
    var tries := Defaults(options).maxTries;
    r, attempts := Do(options, true, secondaryHost, NotFoundAtLast(tries));
    var last := attempts[|attempts| - 1];
    assert last.outcome == NotFoundAtLast(tries)(|attempts| - 1);
    assert forall k :: 0 <= k < |attempts| - 1 ==> attempts[k].outcome == NotFoundAtLast(tries)(k);
    assert !Dropped(attempts, |attempts| - 1);
    assert Scheduled(Defaults(options), true, attempts, |attempts| - 1);
    assert Settled(last);
  }
}
