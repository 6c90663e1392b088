/** The self-healing body reader (azfile/zc_retry_reader.go) over a file that does not change. */
module RetryReader {
  import opened Text
  import opened Ranges

  /** EOF is io.EOF. A NetError is an error that satisfies net.Error. */
  datatype ReadError = EOF | NetError(message: Text) | OtherError(message: Text)

  /** Both are int64 in the source; the reader keeps them in range. */
  datatype HttpGetterInfo = HttpGetterInfo(offset: nat, count: nat)

  datatype Options = Options(maxRetryRequests: nat, notify: bool, treatEarlyCloseAsError: bool)

  /** One call of NotifyFailedRead. */
  datatype Failure = Failure(failureCount: nat, error: ReadError, offset: nat, count: nat, willRetry: bool)

  /** The failures of one Read that started at `info`: numbered from one, each retried just when
      its error is retriable and retries are left, and none following one that is not retried. */
  ghost predicate FailureLog(failed: seq<Failure>, info: HttpGetterInfo, o: Options) {
    forall i :: 0 <= i < |failed| ==>
      && failed[i].failureCount == i + 1
      && failed[i].offset == info.offset && failed[i].count == info.count
      && failed[i].error != EOF
      && (failed[i].willRetry <==> Retriable(failed[i].error, o) && i < o.maxRetryRequests)
      && (i < |failed| - 1 ==> failed[i].willRetry)
  }

  lemma FailureLogGrows(failed: seq<Failure>, failure: Failure, info: HttpGetterInfo, o: Options)
    requires FailureLog(failed, info, o) && (failed != [] ==> failed[|failed| - 1].willRetry)
    requires failure.failureCount == |failed| + 1 && failure.offset == info.offset && failure.count == info.count
    requires failure.error != EOF
    requires failure.willRetry <==> Retriable(failure.error, o) && |failed| < o.maxRetryRequests
    ensures FailureLog(failed + [failure], info, o)
  {
  }

  /** The log after the GET that it takes if there is no response, and that succeeds. */
  function AfterGet(log: Log, info: HttpGetterInfo, noResponse: bool): Log {
    if noResponse then log.(gets := log.gets + [info], answers := log.answers + [None]) else log
  }

  /** What the body read of a turn, the one numbered `try`, adds to the log: it delivers, or fails and is
      retried or not. */
  ghost predicate BodyLogged(before: Log, after: Log, info: HttpGetterInfo, try: nat, err: Option<ReadError>,
                             done: bool, bytes: seq<byte>, o: Options) {
    after == before.(bodyReads := before.bodyReads + [err],
                     delivered := if err.None? || err == Some(EOF) then before.delivered + bytes else before.delivered,
                     failures := if err.None? || err == Some(EOF) then before.failures else
                       before.failures + [Failure(try + 1, err.value, info.offset, info.count, !done)])
    && (done <==> err.None? || err == Some(EOF) || !Retriable(err.value, o) || try >= o.maxRetryRequests)
  }

  /** What a turn adds to the log. It only says EOF when a bounded request is spent. Otherwise it asks
      for what is left if there is no response; and unless that fails it makes one body read. */
  ghost predicate TurnLogged(before: Log, after: Log, info: HttpGetterInfo, spent: bool, noResponse: bool, try: nat,
                             err: Option<ReadError>, done: bool, bytes: seq<byte>, o: Options) {
    if spent then after == before && err == Some(EOF) && done
    else if |after.bodyReads| == |before.bodyReads| then
      && noResponse && done && err.Some? && err != Some(EOF)
      && after == before.(gets := before.gets + [info], answers := before.answers + [err])
    else BodyLogged(AfterGet(before, info, noResponse), after, info, try, err, done, bytes, o)
  }

  function Times<T>(n: nat, x: T): (s: seq<T>)
    ensures |s| == n
  {
    seq(n, _ => x)
  }

  /** The errors of failed body reads. */
  function Errors(failed: seq<Failure>): (errors: seq<Option<ReadError>>)
    ensures |errors| == |failed|
  {
    seq(|failed|, i requires 0 <= i < |failed| => Some(failed[i].error))
  }

  /** How many GETs it takes to make so many turns. */
  function GetsFor(turns: nat, noResponse: bool): nat {
    if turns == 0 then 0 else turns - 1 + if noResponse then 1 else 0
  }

  /** What a Read has added to the log after some turns, all of which failed and were retried. */
  ghost predicate TriesLogged(before: Log, now: Log, failed: seq<Failure>, info: HttpGetterInfo, noResponse: bool,
                              o: Options) {
    && now.failures == before.failures + failed && now.delivered == before.delivered
    && FailureLog(failed, info, o) && (forall f :: f in failed ==> f.willRetry)
    && now.bodyReads == before.bodyReads + Errors(failed)
    && now.gets == before.gets + Times(GetsFor(|failed|, noResponse), info)
    && now.answers == before.answers + Times(GetsFor(|failed|, noResponse), None)
  }

  /** What a whole Read adds to the log. A spent request adds nothing. Otherwise every GET asks for
      exactly what is then left. A first failure that is not retried ends the Read, and its error is
      returned; so does a GET that fails; or else a last body read delivers, with nil or EOF. */
  ghost predicate ReadLogged(before: Log, after: Log, failed: seq<Failure>, info: HttpGetterInfo, spent: bool,
                             noResponse: bool, err: Option<ReadError>, bytes: seq<byte>, o: Options) {
    if spent then after == before && err == Some(EOF) && failed == []
    else
      && after.failures == before.failures + failed && FailureLog(failed, info, o)
      && if failed != [] && !failed[|failed| - 1].willRetry then
           var gets := GetsFor(|failed|, noResponse);
           && err == Some(failed[|failed| - 1].error) && after.delivered == before.delivered
           && after.bodyReads == before.bodyReads + Errors(failed)
           && after.gets == before.gets + Times(gets, info) && after.answers == before.answers + Times(gets, None)
         else
           var gets := GetsFor(|failed| + 1, noResponse);
           && after.gets == before.gets + Times(gets, info)
           && if |after.bodyReads| == |before.bodyReads| + |failed| then
                && err.Some? && err != Some(EOF) && gets >= 1 && after.delivered == before.delivered
                && after.bodyReads == before.bodyReads + Errors(failed)
                && after.answers == before.answers + Times(gets - 1, None) + [err]
              else
                && (err.None? || err == Some(EOF)) && after.delivered == before.delivered + bytes
                && after.bodyReads == before.bodyReads + Errors(failed) + [err]
                && after.answers == before.answers + Times(gets, None)
  }

  lemma NoTriesYet(log: Log, info: HttpGetterInfo, noResponse: bool, o: Options)
    ensures TriesLogged(log, log, [], info, noResponse, o)
  {
    assert log.bodyReads + [] == log.bodyReads && log.gets + [] == log.gets && log.answers + [] == log.answers;
    assert log.failures + [] == log.failures;
  }

  lemma OneMoreTime<T>(s: seq<T>, n: nat, x: T)
    ensures s + Times(n, x) + [x] == s + Times(n + 1, x)
  {
  }

  lemma OneMoreError(s: seq<Option<ReadError>>, failed: seq<Failure>, failure: Failure)
    ensures s + Errors(failed) + [Some(failure.error)] == s + Errors(failed + [failure])
  {
  }

  /** One more turn either ends the Read or leaves it one try further on. */
  lemma LogTurn(before: Log, now: Log, after: Log, failed: seq<Failure>, info: HttpGetterInfo, spent: bool,
                noResponse: bool, err: Option<ReadError>, done: bool, bytes: seq<byte>, o: Options)
    returns (failed': seq<Failure>)
    requires |failed| <= o.maxRetryRequests && (spent ==> failed == [] && now == before)
    requires TriesLogged(before, now, failed, info, noResponse, o)
    requires TurnLogged(now, after, info, spent, failed != [] || noResponse, |failed|, err, done, bytes, o)
    ensures done ==> ReadLogged(before, after, failed', info, spent, noResponse, err, bytes, o)
    ensures !done ==> |failed| < o.maxRetryRequests && |failed'| == |failed| + 1 && !spent
    ensures !done ==> TriesLogged(before, after, failed', info, noResponse, o)
  {
    failed' := failed;
    if spent {
      return;
    }
    OneMoreTime(before.gets, GetsFor(|failed|, noResponse), info);
    OneMoreTime(before.answers, GetsFor(|failed|, noResponse), None);
    if after.failures != now.failures {
      var failure := after.failures[|now.failures|];
      failed' := failed + [failure];
      assert before.failures + failed + [failure] == before.failures + failed';
      FailureLogGrows(failed, failure, info, o);
      OneMoreError(before.bodyReads, failed, failure);
    }
    hide FailureLog, Times, Errors;
  }

  const READ_ON_CLOSED_BODY_MESSAGE: Text := "read on closed response body"

  predicate HasSuffix(s: Text, suffix: Text) {
    |suffix| <= |s| && s[|s| - |suffix|..] == suffix
  }

  lemma SuffixMeans(s: Text, suffix: Text)
    ensures HasSuffix(s, suffix) <==> exists start: Text :: s == start + suffix
  {
    if HasSuffix(s, suffix) {
      assert s == s[..|s| - |suffix|] + suffix;
    }
  }

  /** The errors after which a body is asked for again. */
  predicate Retriable(error: ReadError, o: Options) {
    error.NetError? || (error.OtherError? && !o.treatEarlyCloseAsError &&
                        HasSuffix(error.message, READ_ON_CLOSED_BODY_MESSAGE))
  }

  /** Which failures are retried, told from what the body reads of a Read came with, no GET failing:
      an error of the network is, as often as is allowed; another error is not, if early closes are
      errors or it does not say that the body was closed. */
  lemma WhichAreRetried(before: Log, after: Log, failed: seq<Failure>, info: HttpGetterInfo, spent: bool,
                        noResponse: bool, err: Option<ReadError>, bytes: seq<byte>, o: Options)
    requires ReadLogged(before, after, failed, info, spent, noResponse, err, bytes, o)
    ensures forall i :: 0 <= i < |failed| ==>
              match failed[i].error
              case EOF => false
              case NetError(_) => failed[i].willRetry <==> i < o.maxRetryRequests
              case OtherError(m) => i < o.maxRetryRequests ==>
                (!failed[i].willRetry <==>
                 o.treatEarlyCloseAsError || !(exists start: Text :: m == start + "read on closed response body"))
    ensures err.Some? && err.value.NetError? && (forall e :: e in after.answers[|before.answers|..] ==> e.None?) ==>
              |after.bodyReads| == |before.bodyReads| + o.maxRetryRequests + 1
  {
    forall i | 0 <= i < |failed| && failed[i].error.OtherError?
      ensures HasSuffix(failed[i].error.message, READ_ON_CLOSED_BODY_MESSAGE) <==>
              exists start: Text :: failed[i].error.message == start + "read on closed response body"
    {
      SuffixMeans(failed[i].error.message, READ_ON_CLOSED_BODY_MESSAGE);
    }
    var last := |failed| - 1;
    if err.Some? && err != Some(EOF) && (failed == [] || failed[last].willRetry) {
      var news := after.answers[|before.answers|..];
      assert news[|news| - 1] == err && err in news;
    }
    if failed != [] && !failed[last].willRetry && failed[last].error.NetError? {
      assert last > 0 ==> failed[last - 1].willRetry && last - 1 < o.maxRetryRequests;
      assert last == o.maxRetryRequests;
    }
  }

  /** The part of the file that (offset, count) still stands for. Once a bounded count has
      reached zero nothing is left, although CountToEnd is zero too. */
  function Remaining(content: seq<byte>, info: HttpGetterInfo, bounded: bool): seq<byte> {
    if info.offset >= |content| || (bounded && info.count == 0) then []
    else Slice(content, info.offset, info.count)
  }

  /** Consuming n bytes of what is left, and moving offset and count along, leaves the rest. */
  lemma RemainingAfter(content: seq<byte>, info: HttpGetterInfo, bounded: bool, n: nat)
    requires bounded || info.count == 0
    requires n <= |Remaining(content, info, bounded)|
    ensures bounded ==> n <= info.count
    ensures n > 0 ==> info.offset + n <= |content|
    ensures n > 0 ==> Remaining(content, info, bounded)[..n] == content[info.offset..info.offset + n]
    ensures Remaining(content, info, bounded)[n..] ==
            Remaining(content, HttpGetterInfo(info.offset + n, if bounded then info.count - n else info.count), bounded)
  {
  }

  lemma Split<T>(a: seq<T>, b: seq<T>, n: nat)
    requires n <= |b|
    ensures a + b == (a + b[..n]) + b[n..]
  {
  }

  /** The effect of reading into b[lo..hi) when the cursor stands at `offset`: the first n bytes
      are the file's, the rest of the window may hold anything, nothing else has changed. */
  ghost predicate ReadOutcome(content: seq<byte>, before: seq<byte>, after: seq<byte>, lo: nat, hi: nat, offset: nat,
                              n: nat) {
    && lo <= hi <= |before| == |after|
    && n <= hi - lo
    && after[..lo] == before[..lo] && after[hi..] == before[hi..]
    && (n > 0 ==> offset + n <= |content| && after[lo..lo + n] == content[offset..offset + n])
  }

  /** Scribbling on the window beforehand makes no difference to the outcome. */
  lemma ReadOutcomeFrom(content: seq<byte>, before: seq<byte>, scribbled: seq<byte>, after: seq<byte>,
                        lo: nat, hi: nat, offset: nat, n: nat)
    requires |before| == |scribbled| && lo <= hi <= |before|
    requires scribbled[..lo] == before[..lo] && scribbled[hi..] == before[hi..]
    requires ReadOutcome(content, scribbled, after, lo, hi, offset, n)
    ensures ReadOutcome(content, before, after, lo, hi, offset, n)
    ensures after[..lo] == before[..lo] && after[hi..] == before[hi..]
  {
  }

  /** An HTTP response: what the server sent, and how far it was read. A body read delivers any
      prefix of what is left together with any error, may scribble on the rest of the window,
      and does not return (0, nil) for a non-empty window. It says EOF only at its end. */
  class Response {
    const data: seq<byte>
    var pos: nat
    /** What the reads so far came back with. */
    ghost var came: seq<Option<ReadError>>

    constructor (data: seq<byte>)
      ensures this.data == data && pos == 0 && came == []
    {
      this.data := data;
      pos := 0;
      came := [];
    }

    method Read(b: array<byte>, lo: nat, hi: nat) returns (n: nat, err: Option<ReadError>)
      requires pos <= |data| && lo <= hi <= b.Length
      modifies this`pos, this`came, b
      ensures n <= hi - lo && pos == old(pos) + n <= |data| && came == old(came) + [err]
      ensures b[lo..lo + n] == data[old(pos)..pos]
      ensures b[..lo] == old(b[..lo]) && b[hi..] == old(b[hi..])
      ensures err == Some(EOF) ==> pos == |data|
      ensures err.None? && lo < hi ==> n > 0
    {
      ghost var start := pos;
      n := 0;
      var limit: nat :| limit <= hi - lo && limit <= |data| - pos;
      while n < limit
        invariant n <= limit && pos == start + n && came == old(came)
        invariant b[lo..lo + n] == data[start..pos]
        invariant b[..lo] == old(b[..lo]) && b[hi..] == old(b[hi..])
      {
        b[lo + n] := data[pos];
        n, pos := n + 1, pos + 1;
        assert b[lo..lo + n] == data[start..pos - 1] + [data[pos - 1]];
      }
      var k := lo + n;
      while k < hi
        invariant lo + n <= k <= hi && pos == start + n && came == old(came)
        invariant b[lo..lo + n] == data[start..pos]
        invariant b[..lo] == old(b[..lo]) && b[hi..] == old(b[hi..])
      {
        b[k] := *;
        k := k + 1;
      }
      err := *;
      if (err.None? && lo < hi && n == 0) || (err == Some(EOF) && pos < |data|) {
        err := Some(NetError("reset"));
      }
      came := came + [err];
    }
  }

  /** What a reader has done so far: the bytes its Reads returned with nil or EOF, its GETs and the
      errors they were answered with, its failed body reads, and what error each body read came with. */
  datatype Log = Log(delivered: seq<byte>, gets: seq<HttpGetterInfo>, answers: seq<Option<ReadError>>,
                     failures: seq<Failure>, bodyReads: seq<Option<ReadError>>)

  class RetryReader {
    const content: seq<byte>
    const initial: HttpGetterInfo
    const countWasBounded: bool
    const o: Options
    var info: HttpGetterInfo
    var response: Response?
    var notified: seq<Failure>
    ghost var log: Log
    /** The responses this reader was given whose bodies nobody has closed. */
    ghost var open: set<Response>

    /** A bounded request of which nothing is left. */
    ghost predicate Spent()
      reads this
    {
      countWasBounded && info.count == 0
    }

    ghost function Left(): seq<byte>
      reads this
    {
      Remaining(content, info, countWasBounded)
    }

    /** The cursor conserves the request: what was handed out and what is left make it up; a reader
        with a bounded count never asked for everything up to the end; and no response but the
        current one is open. */
    ghost predicate ValidCursor()
      reads this
    {
      && |content| <= MAX_INT64
      && countWasBounded == (initial.count != COUNT_TO_END)
      && info.offset == initial.offset + |log.delivered| <= MAX_INT64
      && (if countWasBounded then info.offset + info.count == initial.offset + initial.count <= MAX_INT64
          else info.count == COUNT_TO_END)
      && log.delivered + Left() == Remaining(content, initial, countWasBounded)
      && (countWasBounded ==> forall g :: g in log.gets ==> g.count != COUNT_TO_END)
      && (forall r :: r in open ==> r == response)
      && notified == (if o.notify then log.failures else [])
    }

    /** Between Reads the current response holds exactly what is left. */
    ghost predicate Valid()
      reads this, response
    {
      && ValidCursor()
      && (response != null ==> response.pos <= |response.data| && response.data[response.pos..] == Left())
    }

    /** NewRetryReader; the initial response, if any, answers the initial request. */
    constructor (content: seq<byte>, initialResponse: Response?, info: HttpGetterInfo, o: Options)
      requires |content| <= MAX_INT64
      requires info.offset + info.count <= MAX_INT64
      requires initialResponse != null ==>
                 initialResponse.pos == 0 && initialResponse.data == Remaining(content, info, info.count != 0)
      ensures Valid()
      ensures this.content == content && this.initial == info && this.info == info && this.o == o
      ensures response == initialResponse && notified == []
      ensures open == if initialResponse == null then {} else {initialResponse}
      ensures log == Log([], [], [], [], [])
    {
      this.content, this.initial, this.info, this.o := content, info, info, o;
      this.countWasBounded := info.count != COUNT_TO_END;
      this.response := initialResponse;
      this.notified := [];
      this.open := if initialResponse == null then {} else {initialResponse};
      this.log := Log([], [], [], [], []);
    }

    /** The bytes handed out so far are the file's bytes from the initial offset to the cursor. */
    lemma DeliveredIsContent()
      requires Valid()
      ensures log.delivered != [] ==> info.offset <= |content|
      ensures log.delivered != [] ==> log.delivered == content[initial.offset..info.offset]
    {
      assert log.delivered <= Remaining(content, initial, countWasBounded);
      RemainingAfter(content, initial, countWasBounded, |log.delivered|);
    }

    /** When nothing is left, everything that was asked for has been handed out. */
    lemma NothingLeft()
      requires Valid() && Left() == []
      ensures log.delivered == Remaining(content, initial, countWasBounded)
    {
    }

    /** Of a bounded request inside the file, what is left is what the count says. */
    lemma CountLeft()
      requires Valid() && initial.count != COUNT_TO_END && initial.offset + initial.count <= |content|
      ensures countWasBounded && info.offset + info.count == initial.offset + initial.count
      ensures Left() == [] <==> Spent()
    {
    }

    /** Other goroutines may call Close at this point. */
    method Interference()
      modifies this`open
      ensures open <= old(open)
    {
      if * {
        Close();
      }
    }

    method Close()
      modifies this`open
      ensures open == if response == null then old(open) else old(open) - {response}
    {
      if response != null {
        open := open - {response};
      }
    }

    /** Whatever happened before, a Close between two Reads leaves no body open. */
    method CloseBetweenReads()
      requires Valid()
      modifies this`open
      ensures Valid() && open == {}
    {
      Close();
    }

    /** The getter of DownloadResponse.Body: a ranged GET of what is left, or any failure. */
    method Get() returns (newResponse: Response?, err: Option<ReadError>)
      requires ValidCursor() && !(countWasBounded && info.count == 0)
      modifies this`log
      ensures log == old(log).(gets := old(log).gets + [info], answers := old(log).answers + [err])
      ensures err.None? ==>
                newResponse != null && fresh(newResponse) && newResponse.pos == 0 && newResponse.data == Left()
      ensures err != Some(EOF)
    {
      newResponse := null;
      err := *;
      if err == Some(EOF) {
        err := Some(OtherError("EOF"));
      }
      var answer := Serve(content, Pointers(info.offset as int64, info.count as int64));
      ServeRange(content, info.offset as int64, info.count as int64);
      if answer.None? {
        err := Some(OtherError("416"));
      } else if err.None? {
        newResponse := new Response(answer.value);
      }
      log := log.(gets := log.gets + [info], answers := log.answers + [err]);
    }

    /** Take the current response, or ask for a new one when there is none. */
    method EnsureResponse() returns (resp: Response?, err: Option<ReadError>)
      requires Valid() && !(countWasBounded && info.count == 0)
      modifies this`log, this`response, this`open
      ensures Valid()
      ensures log == if old(response) != null then old(log) else
                       old(log).(gets := old(log).gets + [info], answers := old(log).answers + [err])
      ensures err.None? ==> resp != null && resp == response && (resp == old(response) || fresh(resp))
      ensures err.Some? ==> old(response) == null == response && err != Some(EOF)
    {
      resp, err := response, None;
      Interference();
      if resp == null {
        resp, err := Get();
        if err.Some? {
          return;
        }
        Interference();
        response, open := resp, open + {resp};
      }
      Interference();
    }

    /** One read of the response's body. Its bytes are the next ones of what is left. */
    method ReadOnce(resp: Response, b: array<byte>, lo: nat, hi: nat) returns (n: nat, err: Option<ReadError>)
      requires Valid() && resp == response && lo <= hi <= b.Length
      modifies resp`pos, resp`came, this`log, b
      ensures ValidCursor()
      ensures log == old(log).(bodyReads := old(log).bodyReads + [err]) && resp.came == old(resp.came) + [err]
      ensures ReadOutcome(content, old(b[..]), b[..], lo, hi, info.offset, n)
      ensures n <= |Left()| && b[lo..lo + n] == Left()[..n]
      ensures resp.pos <= |resp.data| && resp.data[resp.pos..] == Left()[n..]
      ensures err == Some(EOF) ==> n == |Left()|
      ensures err.None? && lo < hi ==> n > 0
    {
      ghost var start := resp.pos;
      n, err := resp.Read(b, lo, hi);
      log := log.(bodyReads := log.bodyReads + [err]);
      assert resp.data[start..][..n] == b[lo..lo + n];
      assert resp.data[start..][n..] == resp.data[resp.pos..];
      RemainingAfter(content, info, countWasBounded, n);
    }

    /** Move the cursor past the n bytes just read. */
    method Advance(ghost bytes: seq<byte>, n: nat)
      requires ValidCursor() && response != null && response.pos <= |response.data|
      requires n == |bytes| <= |Left()| && bytes == Left()[..n]
      requires response.data[response.pos..] == Left()[n..]
      modifies this`info, this`log, this`open
      ensures Valid() && log == old(log).(delivered := old(log).delivered + bytes)
      ensures Left() == old(Left())[n..] && info.offset == old(info.offset) + n && response == old(response)
    {
      hide Remaining;
      Interference();
      RemainingAfter(content, info, countWasBounded, n);
      Split(log.delivered, Left(), n);
      info := info.(offset := info.offset + n);
      if info.count != COUNT_TO_END {
        info := info.(count := info.count - n);
      }
      log := log.(delivered := log.delivered + bytes);
    }

    /** Close the stream that failed, forget it, and tell NotifyFailedRead, if there is one. */
    method GiveUp(failure: Failure)
      requires ValidCursor()
      modifies this`response, this`open, this`log, this`notified
      ensures Valid() && response == null
      ensures log == old(log).(failures := old(log).failures + [failure])
    {
      Interference();
      Close();
      Interference();
      response := null;
      log := log.(failures := log.failures + [failure]);
      if o.notify {
        notified := notified + [failure];
      }
    }

    /** What is made of a body read: it delivers, or failed and is retried or not. */
    method Settle(ghost bytes: seq<byte>, n: nat, err: Option<ReadError>, try: nat) returns (done: bool)
      requires ValidCursor() && response != null && response.pos <= |response.data|
      requires n == |bytes| <= |Left()| && bytes == Left()[..n] && response.data[response.pos..] == Left()[n..]
      requires err == Some(EOF) ==> n == |Left()|
      modifies this`info, this`log, this`open, this`response, this`notified
      ensures Valid() && (response == null || response == old(response))
      ensures BodyLogged(old(log).(bodyReads := []), log.(bodyReads := [err]), old(info), try, err, done, bytes, o)
      ensures log.bodyReads == old(log).bodyReads
      ensures err == Some(EOF) ==> Left() == []
      ensures info.offset == old(info.offset) + if err.None? || err == Some(EOF) then n else 0
      ensures err.Some? && err != Some(EOF) ==> info == old(info) && response == null
    {
      done := true;
      if err.None? || err == Some(EOF) {
        Advance(bytes, n);
        return;
      }
      var retriesExhausted := try >= o.maxRetryRequests;
      var willRetry := Retriable(err.value, o) && !retriesExhausted;
      GiveUp(Failure(try + 1, err.value, info.offset, info.count, willRetry));
      done := !willRetry;
    }

    /** One read of the current response, and what is made of it. */
    method BodyTurn(resp: Response, b: array<byte>, lo: nat, hi: nat, try: nat)
      returns (n: nat, err: Option<ReadError>, done: bool)
      requires Valid() && resp == response && lo <= hi <= b.Length
      modifies this, resp, b
      ensures Valid() && (response == null || response == resp)
      ensures ReadOutcome(content, old(b[..]), b[..], lo, hi, old(info.offset), n)
      ensures BodyLogged(old(log), log, old(info), try, err, done, b[lo..lo + n], o)
      ensures err == Some(EOF) ==> Left() == []
      ensures err.None? && lo < hi ==> n > 0
      ensures info.offset == old(info.offset) + if err.None? || err == Some(EOF) then n else 0
      ensures err.Some? && err != Some(EOF) ==> info == old(info) && response == null
      ensures !done ==> response == null && info == old(info)
    {
      n, err := ReadOnce(resp, b, lo, hi);
      hide Remaining, ReadOutcome, Retriable;
      done := Settle(b[lo..lo + n], n, err, try);
    }

    /** One turn of Read's loop. It ends the Read unless it failed and is to be retried. */
    method Turn(b: array<byte>, lo: nat, hi: nat, try: nat) returns (n: nat, err: Option<ReadError>, done: bool)
      requires Valid() && lo <= hi <= b.Length
      modifies this, response, b
      ensures Valid() && (response == null || response == old(response) || fresh(response))
      ensures ReadOutcome(content, old(b[..]), b[..], lo, hi, old(info.offset), n)
      ensures err == Some(EOF) ==> Left() == []
      ensures err.None? && lo < hi ==> n > 0
      ensures err.None? || err == Some(EOF) ==> info.offset == old(info.offset) + n
      ensures n <= hi - lo
      ensures TurnLogged(old(log), log, old(info), old(Spent()), old(response) == null, try, err, done,
                         b[lo..lo + n], o)
      ensures err.Some? && err != Some(EOF) ==> info == old(info)
      ensures !done ==> response == null && info == old(info)
    {
      if countWasBounded && info.count == COUNT_TO_END {
        return 0, Some(EOF), true;
      }
      var resp, getErr := EnsureResponse();
      if getErr.Some? {
        return 0, getErr, true;
      }
      assert log == AfterGet(old(log), info, old(response) == null);
      hide Remaining, ReadOutcome, Retriable, AfterGet;
      n, err, done := BodyTurn(resp, b, lo, hi, try);
    }

    /** Fill b[lo..hi) as far as one Read does. */
    method Read(b: array<byte>, lo: nat, hi: nat) returns (n: nat, err: Option<ReadError>, ghost failed: seq<Failure>)
      requires Valid() && lo <= hi <= b.Length
      modifies this, response, b
      ensures Valid() && (response == null || response == old(response) || fresh(response))
      ensures ReadOutcome(content, old(b[..]), b[..], lo, hi, old(info.offset), n)
      ensures err == Some(EOF) ==> Left() == []
      ensures err.None? && lo < hi ==> n > 0
      ensures err.None? || err == Some(EOF) ==> info.offset == old(info.offset) + n
      ensures ReadLogged(old(log), log, failed, old(info), old(Spent()), old(response) == null, err, b[lo..lo + n], o)
    {
      var try := 0;
      failed := [];
      ghost var noResponse := response == null;
      hide Valid, ReadOutcome, TriesLogged, TurnLogged, ReadLogged;
      NoTriesYet(log, info, noResponse, o);
      while true
        invariant Valid() && (response == null || response == old(response) || fresh(response))
        invariant info == old(info) && (Spent() ==> try == 0 && log == old(log))
        invariant try == 0 ==> response == old(response) && failed == []
        invariant 0 < try ==> response == null
        invariant 0 <= try == |failed| <= o.maxRetryRequests
        invariant b[..lo] == old(b[..lo]) && b[hi..] == old(b[hi..])
        invariant TriesLogged(old(log), log, failed, info, noResponse, o)
        decreases o.maxRetryRequests - try
      {
        ghost var before, beforeLog := b[..], log;
        var done;
        n, err, done := Turn(b, lo, hi, try);
        ReadOutcomeFrom(content, old(b[..]), before, b[..], lo, hi, old(info.offset), n);
        failed := LogTurn(old(log), beforeLog, log, failed, old(info), old(Spent()), noResponse, err, done,
                          b[lo..lo + n], o);
        if done {
          return;
        }
        try := try + 1;
      }
    }
  }
}
