/** Downloading into a buffer in place (azfile/highlevel.go, azfile/url_file.go): the operations run
    on real readers and a real array, one body read at a time, while the pool schedules them in any
    order. What happens is, step by step, a run of the system in Download. */
module BufferDownload {
  import opened Text
  import opened Ranges
  import opened RetryReader
  import opened TransferPool
  import D = Download

  lemma SliceOfSlice<T>(s: seq<T>, offset: nat, m: nat, n: nat, k: nat)
    requires offset + m <= |s| && n + k <= m
    ensures s[offset..offset + m][n..n + k] == s[offset + n..offset + n + k]
  {
    var t := s[offset..offset + m];
    var u := t[n..n + k];
    assert forall i :: 0 <= i < m ==> t[i] == s[offset + i];
    assert forall i :: 0 <= i < k ==> u[i] == t[n + i];
  }

  /** What the first GET of a chunk is answered with. */
  lemma FirstResponse(content: seq<byte>, offset: nat, count: nat)
    requires 0 < count && offset + count <= |content| <= MAX_INT64
    ensures var answer := Serve(content, Pointers(offset as int64, count as int64));
            && answer.Some?
            && answer.value == Remaining(content, HttpGetterInfo(offset, count), true)
            && answer.value == content[offset..offset + count]
  {
    ServeRange(content, offset as int64, count as int64);
  }

  // ----- One operation -----

  /** Download, whose GET is taken to succeed, and Body: a reader over the response if retries are
      wanted, else the response itself. */
  method Body(content: seq<byte>, offset: nat, count: nat, maxRetries: nat)
    returns (response: Response, reader: RetryReader?)
    requires 0 < count && offset + count <= |content| <= MAX_INT64
    ensures fresh(response) && (reader != null ==> fresh(reader))
    ensures response.pos == 0 && response.data == content[offset..offset + count]
    ensures reader == null <==> maxRetries == 0
    ensures reader != null ==>
              && reader.Valid() && reader.response == response && reader.content == content
              && reader.o == Options(maxRetries, false, false)
              && reader.initial == reader.info == HttpGetterInfo(offset, count)
  {
    FirstResponse(content, offset, count);
    hide Serve, Remaining, RetryReader.Valid;
    response := new Response(Serve(content, Pointers(offset as int64, count as int64)).value);
    reader := null;
    if maxRetries > 0 {
      reader := new RetryReader(content, response, HttpGetterInfo(offset, count), Options(maxRetries, false, false));
    }
  }

  /** What the network has said to an operation: the errors its body reads, and its GETs, came with. */
  datatype Trail = Trail(bodyReads: seq<Option<ReadError>>, answers: seq<Option<ReadError>>)

  /** The last thing it said, to a body read or to a GET that failed, was this. */
  ghost predicate CameBack(before: Trail, after: Trail, err: Option<ReadError>) {
    || after.bodyReads == before.bodyReads + [err]
    || (after.bodyReads == before.bodyReads && after.answers == before.answers + [err] && err.Some?)
  }

  lemma TurnCameBack(before: Log, after: Log, info: HttpGetterInfo, noResponse: bool, try: nat, err: Option<ReadError>,
                     done: bool, bytes: seq<byte>, o: Options)
    requires TurnLogged(before, after, info, false, noResponse, try, err, done, bytes, o)
    ensures CameBack(Trail(before.bodyReads, before.answers), Trail(after.bodyReads, after.answers), err)
    ensures !done ==> try < o.maxRetryRequests && err.Some?
  {
  }

  /** The operation of a chunk, between two reads of its body: DownloadResponse.Body, which is a
      retrying reader or, when no retries are wanted, the plain body, under io.ReadFull. `got` is what
      io.ReadFull has so far, `try` the number of the reader's next body read. */
  class Operation {
    const content: seq<byte>
    const offset: nat
    const end: nat
    const maxRetries: nat
    const reader: RetryReader?
    const body: Response
    var got: nat
    var try: nat
    ghost var Repr: set<object>

    ghost predicate Valid()
      reads this, Repr
    {
      && this in Repr
      && offset + got < end <= |content| && try <= maxRetries
      && (reader != null ==>
            && reader in Repr && (reader.response != null ==> reader.response in Repr)
            && reader.Valid() && reader.content == content && reader.o.maxRetryRequests == maxRetries
            && reader.initial == HttpGetterInfo(offset, end - offset) && reader.info.offset == offset + got)
      && (reader == null ==> body in Repr && ValidBody())
    }

    /** The plain body holds the file's bytes from the chunk's offset on. */
    ghost predicate ValidBody()
      reads this, body
    {
      && body.pos == got <= |body.data| && maxRetries == 0
      && offset <= end <= |content| && body.data == content[offset..end]
    }

    ghost function Said(): Trail
      reads reader, body
    {
      if reader != null then Trail(reader.log.bodyReads, reader.log.answers) else Trail(body.came, [])
    }

    constructor (content: seq<byte>, offset: nat, count: nat, maxRetries: nat)
      requires 0 < count && offset + count <= |content| <= MAX_INT64
      ensures Valid() && this in Repr && fresh(Repr)
      ensures this.content == content && this.offset == offset && this.end == offset + count
      ensures this.maxRetries == maxRetries && got == 0 && try == 0
    {
      var response, retrying := Body(content, offset, count, maxRetries);
      this.content, this.offset, this.end, this.maxRetries := content, offset, offset + count, maxRetries;
      this.reader, this.body := retrying, response;
      got, try := 0, 0;
      new;
      Repr := {this, response} + (if retrying == null then {} else {retrying});
    }

    /** What a body read does: the next n bytes come into the rest of the chunk, and nothing else of the
        buffer changes; a read that failed and is made again counts as a try, any other as bytes. */
    ghost predicate Stepped(before: seq<byte>, after: seq<byte>, wasGot: nat, wasTry: nat, n: nat,
                            err: Option<ReadError>, done: bool)
      reads this
    {
      && ReadOutcome(content, before, after, offset + wasGot, end, offset + wasGot, n)
      && (err.None? ==> done && n > 0)
      && (!done ==> err.Some? && wasTry < maxRetries)
      && got == wasGot + (if done then n else 0) && try == (if done then 0 else wasTry + 1)
      && (err == Some(EOF) ==> done && offset + got == end)
    }

    predicate GoesOn(err: Option<ReadError>, done: bool)
      reads this
    {
      !done || (err.None? && offset + got < end)
    }

    /** One body read. Done says that io.ReadFull's Read has returned; otherwise it has failed and
        the reader will try again. An operation that is over leaves no body open. */
    method Step(b: array<byte>) returns (n: nat, err: Option<ReadError>, done: bool)
      requires Valid() && end <= b.Length
      modifies Repr, b
      ensures Stepped(old(b[..]), b[..], old(got), old(try), n, err, done)
      ensures CameBack(old(Said()), Said(), err)
      ensures if GoesOn(err, done) then Valid() else reader != null ==> reader.open == {}
      ensures this in Repr && fresh(Repr - old(Repr))
    {
      if reader != null {
        n, err, done := StepReader(b);
      } else {
        n, err := StepBody(b);
        done := true;
      }
    }

    method StepReader(b: array<byte>) returns (n: nat, err: Option<ReadError>, done: bool)
      requires Valid() && end <= b.Length && reader != null
      modifies Repr, b
      ensures Stepped(old(b[..]), b[..], old(got), old(try), n, err, done)
      ensures CameBack(old(Said()), Said(), err)
      ensures if GoesOn(err, done) then Valid() else reader != null ==> reader.open == {}
      ensures this in Repr && fresh(Repr - old(Repr))
    {
      hide ReadOutcome, RetryReader.Valid, TurnLogged, CameBack;
      reader.CountLeft();
      ghost var log, info, noResponse, was := reader.log, reader.info, reader.response == null, try;
      n, err, done := reader.Turn(b, offset + got, end, try);
      reader.CountLeft();
      TurnCameBack(log, reader.log, info, noResponse, was, err, done, b[offset + got..offset + got + n], reader.o);
      if reader.response != null {
        Repr := Repr + {reader.response};
      }
      Count(n, err, done);
    }

    /** io.ReadFull counts the bytes, the reader its tries; and an operation that is over closes its body. */
    method Count(n: nat, err: Option<ReadError>, done: bool)
      requires reader != null && reader.Valid()
      modifies this`got, this`try, reader`open
      ensures got == old(got) + (if done then n else 0) && try == if done then 0 else old(try) + 1
      ensures reader.Valid() && (!GoesOn(err, done) ==> reader.open == {})
    {
      if !done {
        try := try + 1;
      } else {
        got, try := got + n, 0;
        if !GoesOn(err, done) {
          reader.CloseBetweenReads();
        }
      }
    }

    method StepBody(b: array<byte>) returns (n: nat, err: Option<ReadError>)
      requires Valid() && end <= b.Length && reader == null
      modifies Repr, b
      ensures ReadOutcome(content, old(b[..]), b[..], offset + old(got), end, offset + old(got), n)
      ensures err.None? ==> n > 0
      ensures got == old(got) + n && try == 0
      ensures err == Some(EOF) ==> offset + got == end
      ensures CameBack(old(Said()), Said(), err)
      ensures err.None? && offset + got < end ==> Valid()
      ensures Repr == old(Repr)
    {
      n, err := body.Read(b, offset + got, end);
      SliceOfSlice(content, offset, |body.data|, got, n);
      assert b[..][offset + got..offset + got + n] == b[offset + got..offset + got + n];
      got, try := got + n, 0;
    }
  }

  // ----- The pool, its operations interleaved -----

  datatype Outcome = Done | Failed(error: Text) | Panicked

  /** The operation that worker w executes stands where the abstract download says. */
  ghost predicate Doing(c: D.Setup, s: D.State, w: nat, op: Operation)
    reads op, op.Repr
  {
    && D.RunningOn(c, s, w) && op.Valid()
    && var i := s.pool.workers[w].chunk;
       && op.content == c.content && op.maxRetries == c.maxRetries
       && op.offset == c.chunks[i].offset && op.end == c.chunks[i].End()
       && op.got == s.got[i] && op.try == s.tries[i]
  }

  /** The abstract download is the pool and the buffer as they are. */
  ghost predicate Mirrors(c: D.Setup, s: D.State, p: Pool, b: array<byte>)
    reads b
  {
    D.SetupOk(c) && D.Inv(c, s) && s.pool == p && s.b == b[..] && |c.content| <= MAX_INT64
  }

  lemma ChunkInside(c: D.Setup, s: D.State, w: nat)
    requires D.SetupOk(c) && D.Inv(c, s) && D.RunningOn(c, s, w)
    ensures var ch := c.chunks[s.pool.workers[w].chunk]; ch.End() <= |c.content| <= |s.b| && 1 <= ch.count
  {
    var i := s.pool.workers[w].chunk;
    TilesDisjoint(c.chunks, |c.content|, c.chunkSize, i, i);
  }

  /** Only worker w has moved, and only its chunk was worked on. */
  ghost predicate OnlyWorker(s: D.State, s': D.State, w: nat)
    requires w < |s.pool.workers| && s.pool.workers[w].Running?
  {
    && |s'.pool.workers| == |s.pool.workers| && |s'.got| == |s.got| && |s'.tries| == |s.tries|
    && (forall v :: 0 <= v < |s.pool.workers| && v != w ==> s'.pool.workers[v] == s.pool.workers[v])
    && (forall j :: 0 <= j < |s.got| && j != s.pool.workers[w].chunk ==> s'.got[j] == s.got[j])
    && (forall j :: 0 <= j < |s.tries| && j != s.pool.workers[w].chunk ==> s'.tries[j] == s.tries[j])
  }

  /** What a body read makes of the abstract download. */
  lemma ReadAdvances(c: D.Setup, s: D.State, w: nat, b': seq<byte>, n: nat, err: Option<ReadError>, done: bool)
    requires D.SetupOk(c) && D.Inv(c, s) && D.RunningOn(c, s, w)
    requires D.ReadBack(c, s, s.pool.workers[w].chunk, b', n, err, done)
    ensures var s', i := D.AfterRead(c, s, w, b', n, err, done), s.pool.workers[w].chunk;
            && D.Inv(c, s') && D.Next(c, s, D.StepOf(c, s, w, n, err, done), s') && OnlyWorker(s, s', w) && s'.b == b'
            && (if done && (err.Some? || s.got[i] + n >= c.chunks[i].count) then
                  var result := if s.got[i] + n >= c.chunks[i].count then None else D.ErrorText(s.got[i] + n, err);
                  s'.pool == Apply(|c.chunks|, s.pool, Finish(w, result)) && !s'.pool.workers[w].Running?
                else
                  && D.RunningOn(c, s', w) && s'.pool == s.pool && s'.got[i] == s.got[i] + (if done then n else 0)
                  && s'.tries[i] == if done then 0 else s.tries[i] + 1)
  {
    D.ReadIsStep(c, s, w, b', n, err, done);
    D.StepKeepsInv(c, s, D.StepOf(c, s, w, n, err, done), D.AfterRead(c, s, w, b', n, err, done));
    hide D.Inv, D.Next, D.ReadBack, D.SetupOk;
  }

  lemma ReadWentBack(c: D.Setup, s: D.State, i: nat, op: Operation, got: nat, try: nat, b': seq<byte>, n: nat,
                     err: Option<ReadError>, done: bool)
    requires i < |c.chunks| == |s.got| == |s.tries| && op.content == c.content && op.maxRetries == c.maxRetries
    requires op.offset == c.chunks[i].offset && op.end == c.chunks[i].End() && got == s.got[i] && try == s.tries[i]
    requires op.Stepped(s.b, b', got, try, n, err, done)
    ensures D.ReadBack(c, s, i, b', n, err, done)
    ensures op.got == s.got[i] + (if done then n else 0) && op.try == if done then 0 else s.tries[i] + 1
    ensures err == Some(EOF) ==> done && op.offset + op.got == op.end
  {
  }

  method ReadChunk(ghost c: D.Setup, ghost s: D.State, ghost p: Pool, op: Operation, ghost w: nat, b: array<byte>)
    returns (n: nat, err: Option<ReadError>, done: bool)
    requires Mirrors(c, s, p, b) && w < |p.workers| && p.workers[w].Running? && Doing(c, s, w, op)
    modifies op.Repr, b
    ensures D.ReadBack(c, s, p.workers[w].chunk, b[..], n, err, done)
    ensures op.got == s.got[p.workers[w].chunk] + (if done then n else 0)
    ensures op.try == if done then 0 else s.tries[p.workers[w].chunk] + 1
    ensures err == Some(EOF) ==> done && op.offset + op.got == op.end
    ensures CameBack(old(op.Said()), op.Said(), err)
    ensures op.GoesOn(err, done) ==> op.Valid()
    ensures op in op.Repr && fresh(op.Repr - old(op.Repr))
  {
    ChunkInside(c, s, w);
    ghost var i, got, try := p.workers[w].chunk, op.got, op.try;
    assert op.Valid() && op.end <= b.Length && s.b == b[..] && op.offset == c.chunks[i].offset;
    assert op.end == c.chunks[i].End() && op.content == c.content && op.maxRetries == c.maxRetries;
    assert got == s.got[i] && try == s.tries[i] && i < |c.chunks| == |s.got| == |s.tries|;
    hide *;
    n, err, done := op.Step(b);
    ReadWentBack(c, s, i, op, got, try, b[..], n, err, done);
  }

  /** What a body read of worker w's operation came back with; done says that its Read was over. */
  datatype BodyRead = BodyRead(w: nat, n: nat, err: Option<ReadError>, done: bool)

  /** The read has made this step. An end of file only comes at the end of a chunk. */
  ghost predicate Makes(c: D.Setup, s: D.State, read: BodyRead, step: D.Step) {
    && D.RunningOn(c, s, read.w)
    && step == D.StepOf(c, s, read.w, read.n, read.err, read.done)
    && var i := s.pool.workers[read.w].chunk;
       read.err == Some(EOF) ==> read.done && s.got[i] + read.n == c.chunks[i].count
  }

  /** One body read by the operation of worker w is a step of the abstract download. */
  method Work(ghost c: D.Setup, ghost s: D.State, numChunks: nat, p: Pool, op: Operation, w: nat, b: array<byte>)
    returns (p': Pool, ghost read: BodyRead, ghost step: D.Step, ghost s': D.State)
    requires Mirrors(c, s, p, b) && numChunks == |c.chunks|
    requires w < |p.workers| && p.workers[w].Running? && Doing(c, s, w, op)
    modifies op.Repr, b
    ensures Mirrors(c, s', p', b) && D.Next(c, s, step, s') && OnlyWorker(s, s', w)
    ensures p'.workers[w].Running? ==> Doing(c, s', w, op)
    ensures read.w == w && Makes(c, s, read, step) && CameBack(old(op.Said()), op.Said(), read.err)
    ensures op in op.Repr && fresh(op.Repr - old(op.Repr))
  {
    hide CameBack, Operation.Valid, D.Inv, D.SetupOk, D.Next, D.ReadBack, D.AfterRead, OnlyWorker;
    var n, err, done := ReadChunk(c, s, p, op, w, b);
    read, step := BodyRead(w, n, err, done), D.StepOf(c, s, w, n, err, done);
    s' := D.AfterRead(c, s, w, b[..], n, err, done);
    ReadAdvances(c, s, w, b[..], n, err, done);
    p' := p;
    if !op.GoesOn(err, done) {
      var result := if op.offset + op.got >= op.end then None else D.ErrorText(op.got, err);
      p' := Apply(numChunks, p, Finish(w, result));
    }
  }

  /** Worker v and the counters of the chunk it executes are as they were. */
  ghost predicate Untouched(s: D.State, s': D.State, v: nat) {
    && v < |s.pool.workers| == |s'.pool.workers| && s'.pool.workers[v] == s.pool.workers[v]
    && |s'.got| == |s.got| && |s'.tries| == |s.tries|
    && (s.pool.workers[v].Running? && s.pool.workers[v].chunk < |s.got| == |s.tries| ==>
          var i := s.pool.workers[v].chunk;
          s'.got[i] == s.got[i] && s'.tries[i] == s.tries[i])
  }

  lemma OthersUntouched(c: D.Setup, s: D.State, s': D.State, w: nat)
    requires D.Inv(c, s) && w < |s.pool.workers| && s.pool.workers[w].Running? && OnlyWorker(s, s', w)
    ensures |s'.pool.workers| == |s.pool.workers|
    ensures forall v :: 0 <= v < |s.pool.workers| && v != w && s'.pool.workers[v].Running? ==>
              s.pool.workers[v].Running? && Untouched(s, s', v)
  {
    forall v | 0 <= v < |s.pool.workers| && v != w && s.pool.workers[v].Running?
      ensures s.pool.workers[v].chunk != s.pool.workers[w].chunk
    {
      if s.pool.workers[v].chunk == s.pool.workers[w].chunk {
        OneWorkerPerChunk(|c.chunks|, s.pool, v, w);
      }
    }
  }

  lemma StillDoing(c: D.Setup, s: D.State, s': D.State, v: nat, op: Operation)
    requires Doing(c, s, v, op) && Untouched(s, s', v)
    ensures Doing(c, s', v, op)
  {
  }

  /** What the abstract download makes of an action of the pool itself. */
  function AfterControl(numChunks: nat, s: D.State, a: Action): D.State
    requires Enabled(numChunks, s.pool, a)
    requires a.Take? ==> s.pool.queue[0] < |s.got| == |s.tries|
  {
    var p' := Apply(numChunks, s.pool, a);
    if a.Take? then D.State(p', s.got[s.pool.queue[0] := 0], s.tries[s.pool.queue[0] := 0], s.b)
    else D.State(p', s.got, s.tries, s.b)
  }

  lemma ControlAdvances(c: D.Setup, s: D.State, a: Action) returns (s': D.State)
    requires D.SetupOk(c) && D.Inv(c, s) && Enabled(|c.chunks|, s.pool, a) && !a.Work? && !a.Finish?
    ensures D.Next(c, s, D.Control(a), s') && D.Inv(c, s')
    ensures s'.b == s.b && s'.pool == Apply(|c.chunks|, s.pool, a) && |s'.pool.workers| == |s.pool.workers|
    ensures forall v :: 0 <= v < |s.pool.workers| && s'.pool.workers[v].Running? && !(a.Take? && v == a.w) ==>
              s.pool.workers[v].Running? && Untouched(s, s', v)
    ensures a.Take? ==>
              && D.RunningOn(c, s', a.w) && s'.pool.workers[a.w].chunk == s.pool.queue[0]
              && s'.got[s.pool.queue[0]] == 0 && s'.tries[s.pool.queue[0]] == 0
  {
    if a.Take? {
      D.QueuedNotBegun(|c.chunks|, s.pool, 0);
    }
    s' := AfterControl(|c.chunks|, s, a);
    assert s'.got == s.got && s'.tries == s.tries && |s.got| == |s.tries| == |c.chunks|;
    D.StepKeepsInv(c, s, D.Control(a), s');
    hide D.Inv;
  }

  /** Any goroutine that can move may do so next. */
  method Choose(ghost c: D.Setup, ghost s: D.State, numChunks: nat, p: Pool, ghost b: array<byte>)
    returns (a: Action)
    requires Mirrors(c, s, p, b) && numChunks == |c.chunks| && |p.workers| >= 1 && !p.caller.Returned?
    ensures Enabled(numChunks, p, a) && !a.Finish? && (a.Work? ==> a.w < |p.workers| && p.workers[a.w].Running?)
  {
    ghost var possible := NeverStuck(numChunks, p);
    hide D.Inv, Inv;
    if {
      case p.caller.Submitting? && p.next < numChunks && |p.queue| < |p.workers| => a := Submit;
      case p.caller.Submitting? && p.next == numChunks => a := Close;
      case w: nat :| w < |p.workers| && p.workers[w].Idle? && p.queue != [] => a := Take(w);
      case w: nat :| w < |p.workers| && p.workers[w].Running? => a := Action.Work(w);
      case w: nat :| w < |p.workers| && p.workers[w].Sending? && |p.replies| < numChunks => a := Send(w);
      case w: nat :| w < |p.workers| && p.workers[w].Idle? && p.queue == [] && !p.caller.Submitting? => a := Exit(w);
      case p.caller.Collecting? && |p.collected| < numChunks && p.replies != [] => a := Collect;
      case p.caller.Collecting? && |p.collected| == numChunks => a := ReturnNil;
    }
  }

  /** Make the operation of the chunk that worker w has just taken. */
  method Begin(ghost c: D.Setup, ghost s: D.State, ghost w: nat, chunk: Chunk, content: seq<byte>, maxRetries: nat)
    returns (op: Operation)
    requires D.SetupOk(c) && D.Inv(c, s) && D.RunningOn(c, s, w) && |content| <= MAX_INT64
    requires var i := s.pool.workers[w].chunk; chunk == c.chunks[i] && s.got[i] == 0 && s.tries[i] == 0
    requires content == c.content && maxRetries == c.maxRetries
    ensures op in op.Repr && fresh(op.Repr) && Doing(c, s, w, op)
  {
    ChunkInside(c, s, w);
    hide D.Inv, D.SetupOk, Operation.Valid;
    op := new Operation(content, chunk.offset, chunk.count, maxRetries);
  }

  ghost predicate MadeBy(c: D.Setup, s: D.State, read: Option<BodyRead>, step: D.Step) {
    match read case None => step.Control? case Some(r) => Makes(c, s, r, step)
  }

  /** A step of the system in Download, made by this read if by any, which brings it closer to its end. */
  ghost predicate Advances(c: D.Setup, s: D.State, read: Option<BodyRead>, step: D.Step, s': D.State) {
    && D.Next(c, s, step, s') && MadeBy(c, s, read, step)
    && |s.got| == |s.tries| == |c.chunks| == |s'.got| == |s'.tries|
    && 0 <= D.Distance(c, s') < D.Distance(c, s)
  }

  lemma Nearer(c: D.Setup, s: D.State, step: D.Step, s': D.State)
    requires D.SetupOk(c) && D.Inv(c, s) && D.Next(c, s, step, s')
    ensures |s.got| == |s.tries| == |c.chunks| == |s'.got| == |s'.tries|
    ensures 0 <= D.Distance(c, s') < D.Distance(c, s)
  {
    D.StepKeepsInv(c, s, step, s');
    D.BudgetsBounds(c, s', |c.chunks|);
    D.DistanceFalls(c, s, step, s');
    assert |s.got| == |s.tries| == |c.chunks|;
    hide D.Inv, D.Next, D.Budgets, Measure;
  }

  /** Every worker that executes a chunk has its own operation, standing where the abstract download
      says; `repr` holds all their objects. */
  ghost predicate Crew(c: D.Setup, s: D.State, ops: seq<Operation?>, repr: set<object>)
    reads repr
  {
    && |ops| == |s.pool.workers|
    && (forall w :: 0 <= w < |ops| && s.pool.workers[w].Running? ==>
          ops[w] in repr && ops[w] in ops[w].Repr && ops[w].Repr <= repr && Doing(c, s, w, ops[w]))
    && (forall v, w :: 0 <= v < |ops| && 0 <= w < |ops| && v != w
                       && s.pool.workers[v].Running? && s.pool.workers[w].Running? ==>
          ops[v].Repr !! ops[w].Repr)
  }

  /** An action of the pool; a Take makes an operation. */
  method PoolTurn(ghost c: D.Setup, ghost s: D.State, chunks: seq<Chunk>, content: seq<byte>, maxRetries: nat,
                  p: Pool, a: Action, ops: seq<Operation?>, ghost b: array<byte>, ghost repr: set<object>)
    returns (p': Pool, ops': seq<Operation?>, ghost s': D.State, ghost repr': set<object>)
    requires Mirrors(c, s, p, b) && Crew(c, s, ops, repr)
    requires Enabled(|chunks|, p, a) && !a.Work? && !a.Finish?
    requires chunks == c.chunks && content == c.content && maxRetries == c.maxRetries
    requires |s.got| == |s.tries| == |chunks|
    ensures Mirrors(c, s', p', b) && Crew(c, s', ops', repr') && |ops'| == |ops| == |p'.workers|
    ensures Advances(c, s, None, D.Control(a), s')
    ensures fresh(repr' - repr)
  {
    hide D.Inv, D.SetupOk, D.Next, Doing, Inv;
    s' := ControlAdvances(c, s, a);
    forall v | 0 <= v < |ops| && s'.pool.workers[v].Running? && !(a.Take? && v == a.w)
      ensures Doing(c, s', v, ops[v])
    {
      StillDoing(c, s, s', v, ops[v]);
    }
    ops', repr' := ops, repr;
    if a.Take? {
      var op := Begin(c, s', a.w, chunks[p.queue[0]], content, maxRetries);
      ops', repr' := ops[a.w := op], repr + op.Repr;
    }
    p' := Apply(|chunks|, p, a);
    Nearer(c, s, D.Control(a), s');
  }

  /** A body read of the operation of worker w; what it came back with is what the network said. */
  method WorkTurn(ghost c: D.Setup, ghost s: D.State, numChunks: nat, p: Pool, ops: seq<Operation?>, w: nat,
                  b: array<byte>, ghost repr: set<object>)
    returns (p': Pool, ghost read: BodyRead, ghost step: D.Step, ghost s': D.State, ghost repr': set<object>)
    requires Mirrors(c, s, p, b) && Crew(c, s, ops, repr) && b !in repr && numChunks == |c.chunks|
    requires w < |ops| && p.workers[w].Running? && |s.got| == |s.tries| == numChunks
    modifies repr, b
    ensures Mirrors(c, s', p', b) && Crew(c, s', ops, repr') && |ops| == |p'.workers|
    ensures Advances(c, s, Some(read), step, s') && CameBack(old(ops[w].Said()), ops[w].Said(), read.err)
    ensures fresh(repr' - repr)
  {
    hide D.Inv, D.SetupOk, D.Next, Doing, Inv, OnlyWorker, Untouched, Makes, CameBack;
    p', read, step, s' := Work(c, s, numChunks, p, ops[w], w, b);
    repr' := repr + ops[w].Repr;
    OthersUntouched(c, s, s', w);
    Nearer(c, s, step, s');
    forall v | 0 <= v < |ops| && v != w && p'.workers[v].Running?
      ensures Doing(c, s', v, ops[v])
    {
      StillDoing(c, s, s', v, ops[v]);
    }
  }

  lemma MirrorIsCorrect(c: D.Setup, s: D.State, p: Pool, b: array<byte>)
    requires Mirrors(c, s, p, b)
    ensures b.Length == |c.buffer| && |c.content| <= b.Length && b[|c.content|..] == c.buffer[|c.content|..]
    ensures p.caller == Returned(None) ==> b[..|c.content|] == c.content
  {
    D.InvIsCorrect(c, s);
    assert b[..][..|c.content|] == b[..|c.content|] && b[..][|c.content|..] == b[|c.content|..];
  }

  lemma AtFirst(c: D.Setup, p: Pool, ops: seq<Operation?>, b: array<byte>)
    requires D.SetupOk(c) && |c.content| <= MAX_INT64 && c.buffer == b[..]
    requires p == TransferPool.Init(c.parallelism) && |ops| == c.parallelism
    ensures var s := D.Init(c);
            && Mirrors(c, s, p, b) && Crew(c, s, ops, {}) && |s.got| == |s.tries| == |c.chunks|
            && |p.workers| == |ops| && D.Distance(c, s) >= 0
  {
    D.InitInv(c);
    D.BudgetsBounds(c, D.Init(c), |c.chunks|);
    hide D.Inv, D.Budgets, Measure;
  }

  /** A run of the system in Download, with the body reads that made its steps; None is a step of the
      pool. */
  datatype Run = Run(setup: D.Setup, states: seq<D.State>, steps: seq<D.Step>, bodyReads: seq<Option<BodyRead>>)

  ghost predicate IsRun(run: Run) {
    && D.IsRun(run.setup, run.states, run.steps) && |run.bodyReads| == |run.steps|
    && forall j :: 0 <= j < |run.steps| ==> MadeBy(run.setup, run.states[j], run.bodyReads[j], run.steps[j])
  }

  /** The body read that made step j ended its chunk short, with this error, of the network or another. */
  ghost predicate EndsShort(run: Run, j: nat, text: Text)
    requires IsRun(run)
  {
    j < |run.bodyReads| && run.bodyReads[j].Some? &&
    var (s, read) := (run.states[j], run.bodyReads[j].value);
    && read.done && (read.err == Some(NetError(text)) || read.err == Some(OtherError(text)))
    && D.RunningOn(run.setup, s, read.w)
    && var i := s.pool.workers[read.w].chunk; s.got[i] + read.n < run.setup.chunks[i].count
  }

  lemma ReadEndsShort(run: Run, j: nat, text: Text)
    requires IsRun(run) && j < |run.steps|
    ensures EndsShort(run, j, text) <==> exists i :: D.EndsShort(run.setup, run.states[j], run.steps[j], i, text)
  {
    assert MadeBy(run.setup, run.states[j], run.bodyReads[j], run.steps[j]);
    hide D.IsRun;
    if EndsShort(run, j, text) {
      var s, read := run.states[j], run.bodyReads[j].value;
      assert D.EndsShort(run.setup, s, run.steps[j], s.pool.workers[read.w].chunk, text);
    }
  }

  /** An error is returned only if it is that of a body read that ended its chunk short, and nil only if
      none did. */
  lemma ResultMeans(run: Run)
    requires IsRun(run) && D.SetupOk(run.setup) && run.states[|run.steps|].pool.caller.Returned?
    ensures var result := run.states[|run.steps|].pool.caller.result;
            if result.Some? then exists j :: EndsShort(run, j, result.value)
            else forall j, text :: !EndsShort(run, j, text)
  {
    var (c, k) := (run.setup, |run.steps|);
    var result := run.states[k].pool.caller.result;
    D.ErrorMeans(c, run.states, run.steps, k);
    hide D.IsRun, D.EndsShort, MadeBy;
    if result.Some? {
      var i :| D.EndedShort(c, run.states, run.steps, k, i, result.value);
      var j :| 0 <= j < k && D.EndsShort(c, run.states[j], run.steps[j], i, result.value);
      ReadEndsShort(run, j, result.value);
    } else {
      forall j: nat, text | j < k
        ensures !EndsShort(run, j, text)
      {
        ReadEndsShort(run, j, text);
        forall i: nat
          ensures !D.EndsShort(c, run.states[j], run.steps[j], i, text)
        {
          assert !D.EndedShort(c, run.states, run.steps, k, i, text);
        }
      }
    }
  }

  /** The run has come to s. */
  ghost predicate RunsTo(run: Run, s: D.State) {
    IsRun(run) && run.states[|run.steps|] == s
  }

  lemma RunGrows(run: Run, s: D.State, read: Option<BodyRead>, step: D.Step, s': D.State) returns (run': Run)
    requires RunsTo(run, s) && Advances(run.setup, s, read, step, s')
    ensures RunsTo(run', s') && run'.setup == run.setup
    ensures |s.got| == |s.tries| == |run.setup.chunks| == |s'.got| == |s'.tries|
    ensures 0 <= D.Distance(run.setup, s') < D.Distance(run.setup, s)
  {
    hide D.Next, D.Init, D.Distance, MadeBy;
    run' := Run(run.setup, run.states + [s'], run.steps + [step], run.bodyReads + [read]);
  }

  lemma NoStepsYet(c: D.Setup)
    ensures RunsTo(Run(c, [D.Init(c)], [], []), D.Init(c))
  {
  }

  /** The goroutines in the middle of a run: the abstract download mirrors them, and `left` is how far it
      is from its end. */
  ghost predicate UnderWay(run: Run, s: D.State, left: nat, chunks: seq<Chunk>, p: Pool, ops: seq<Operation?>,
                           b: array<byte>, repr: set<object>)
    reads b, repr
  {
    && Mirrors(run.setup, s, p, b) && Crew(run.setup, s, ops, repr) && RunsTo(run, s)
    && |ops| == |p.workers| >= 1 && chunks == run.setup.chunks
    && |s.got| == |s.tries| == |chunks| && D.Distance(run.setup, s) == left
  }

  /** A goroutine that can move does, by an action of the pool or by one body read. */
  method Turn(ghost run: Run, ghost s: D.State, ghost left: nat, chunks: seq<Chunk>, content: seq<byte>,
              maxRetries: nat, p: Pool, ops: seq<Operation?>, b: array<byte>, ghost repr: set<object>)
    returns (ghost run': Run, ghost s': D.State, ghost left': nat, p': Pool, ops': seq<Operation?>,
             ghost repr': set<object>)
    requires UnderWay(run, s, left, chunks, p, ops, b, repr) && b !in repr && !p.caller.Returned?
    requires content == run.setup.content && maxRetries == run.setup.maxRetries
    modifies repr, b
    ensures UnderWay(run', s', left', chunks, p', ops', b, repr') && left' < left && fresh(repr' - repr)
    ensures run'.setup == run.setup
  {
    ghost var c := run.setup;
    hide Mirrors, Crew, RunsTo, Advances, CameBack, D.Distance, Apply, Enabled;
    var a := Choose(c, s, |chunks|, p, b);
    ghost var step, came := D.Control(a), None;
    if a.Work? {
      ghost var read;
      p', read, step, s', repr' := WorkTurn(c, s, |chunks|, p, ops, a.w, b, repr);
      ops', came := ops, Some(read);
    } else {
      p', ops', s', repr' := PoolTurn(c, s, chunks, content, maxRetries, p, a, ops, b, repr);
    }
    run' := RunGrows(run, s, came, step, s');
    left' := D.Distance(c, s');
  }

  /** doBatchTransfer's goroutines, until the caller is back. The run is one of the system in Download. */
  method RunPool(ghost c: D.Setup, chunks: seq<Chunk>, content: seq<byte>, b: array<byte>, workers: nat,
                 maxRetries: nat)
    returns (p: Pool, ghost s: D.State, ghost run: Run)
    requires D.SetupOk(c) && |content| <= MAX_INT64 && workers >= 1
    requires c == D.Setup.Setup(content, chunks, c.chunkSize, maxRetries, workers, b[..])
    modifies b
    ensures Mirrors(c, s, p, b) && p.caller.Returned? && run.setup == c && RunsTo(run, s)
  {
    var ops: seq<Operation?> := seq(workers, _ => null);
    p, s := TransferPool.Init(workers), D.Init(c);
    AtFirst(c, p, ops, b);
    NoStepsYet(c);
    run := Run(c, [s], [], []);
    ghost var repr, left: nat := {}, D.Distance(c, s);
    assert UnderWay(run, s, left, chunks, p, ops, b, repr);
    hide Mirrors, Crew, RunsTo, UnderWay, D.SetupOk, D.Distance;
    while !p.caller.Returned?
      invariant UnderWay(run, s, left, chunks, p, ops, b, repr) && fresh(repr) && run.setup == c
      decreases left
    {
      run, s, left, p, ops, repr := Turn(run, s, left, chunks, content, maxRetries, p, ops, b, repr);
    }
    RunIsOver(run, s, left, chunks, p, ops, b, repr);
  }

  lemma RunIsOver(run: Run, s: D.State, left: nat, chunks: seq<Chunk>, p: Pool, ops: seq<Operation?>, b: array<byte>,
                  repr: set<object>)
    requires UnderWay(run, s, left, chunks, p, ops, b, repr)
    ensures Mirrors(run.setup, s, p, b) && RunsTo(run, s)
  {
  }

  /** doBatchTransfer on the download operation. */
  method Transfer(chunks: seq<Chunk>, content: seq<byte>, ghost chunkSize: nat, b: array<byte>, workers: nat,
                  maxRetries: nat)
    returns (result: Option<Text>, ghost run: Run)
    requires Tiles(chunks, |content|, chunkSize) && |content| <= b.Length && |content| <= MAX_INT64 && workers >= 1
    modifies b
    ensures result.None? ==> b[..|content|] == content
    ensures b[|content|..] == old(b[|content|..])
    ensures IsRun(run)
    ensures run.setup == D.Setup.Setup(content, chunks, chunkSize, maxRetries, workers, old(b[..]))
    ensures if result.Some? then exists j :: EndsShort(run, j, result.value)
            else forall j, text :: !EndsShort(run, j, text)
  {
    ghost var c := D.Setup.Setup(content, chunks, chunkSize, maxRetries, workers, b[..]);
    ghost var s;
    var p;
    p, s, run := RunPool(c, chunks, content, b, workers, maxRetries);
    MirrorIsCorrect(c, s, p, b);
    ResultMeans(run);
    result := p.caller.result;
    hide IsRun, EndsShort, D.Inv;
  }

  /** downloadAzureFileToBuffer. None stands for no transfer at all. */
  method DownloadToBuffer(content: seq<byte>, b: array<byte>, rangeSize: int64, parallelism: nat, maxRetries: nat)
    returns (outcome: Outcome, ghost run: Option<Run>)
    requires |content| <= MAX_INT64
    modifies b
    ensures outcome.Done? ==> |content| <= b.Length && b[..|content|] == content
    ensures |content| <= b.Length ==> b[|content|..] == old(b[|content|..])
    ensures outcome.Panicked? <==> rangeSize >= 0 && b.Length < |content|
    ensures run.None? <==> rangeSize < 0 || |content| == 0 || b.Length < |content|
    ensures run.None? ==> b[..] == old(b[..]) && (outcome.Failed? <==> rangeSize < 0)
    ensures rangeSize < 0 ==> outcome == Failed("invalid argument, o.RangeSize must be >= 0")
    ensures run.Some? ==>
              && IsRun(run.value)
              && IsSetup(run.value.setup, content, old(b[..]), rangeSize as int, parallelism, maxRetries)
              && match outcome
                 case Done => forall j, text :: !EndsShort(run.value, j, text)
                 case Failed(error) => exists j :: EndsShort(run.value, j, error)
                 case Panicked => false
  {
    run := None;
    if rangeSize < 0 {
      outcome := Failed("invalid argument, o.RangeSize must be >= 0");
      return;
    }
    var chunkSize := if rangeSize == 0 then FILE_MAX_UPLOAD_RANGE_BYTES else rangeSize;
    if |content| == 0 {
      outcome := Done;
      return;
    }
    if b.Length < |content| {
      outcome := Panicked;
      return;
    }
    var workers := if parallelism == 0 then DEFAULT_PARALLEL_COUNT else parallelism;
    var chunks := PlanChunks(|content| as int64, chunkSize);
    hide Tiles, IsRun, EndsShort;
    ghost var made;
    var result;
    result, made := Transfer(chunks, content, chunkSize as int, b, workers, maxRetries);
    run := Some(made);
    outcome := if result.None? then Done else Failed(result.value);
  }

  /** The options as the transfer runs with them: four megabytes a range and five goroutines, unless the
      caller says otherwise; all chunks but the last are full. */
  ghost predicate IsSetup(c: D.Setup, content: seq<byte>, b: seq<byte>, rangeSize: nat, parallelism: nat,
                          maxRetries: nat) {
    && c == D.Setup.Setup(content, c.chunks, if rangeSize == 0 then 4194304 else rangeSize, maxRetries,
                          if parallelism == 0 then 5 else parallelism, b)
    && Tiles(c.chunks, |content|, c.chunkSize)
    && forall i :: 0 <= i < |c.chunks| - 1 ==> c.chunks[i].count == c.chunkSize
  }
}
