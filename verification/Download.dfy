/** downloadAzureFileToBuffer (azfile/highlevel.go): the transfer pool, each of its operations
    filling one chunk of the buffer through a retrying reader. */
module Download {
  import opened Text
  import opened Ranges
  import opened RetryReader
  import opened TransferPool

  /** One download: the remote file, its chunks, and the buffer as the caller passed it. */
  datatype Setup = Setup(content: seq<byte>, chunks: seq<Chunk>, chunkSize: nat, maxRetries: nat,
                         parallelism: nat, buffer: seq<byte>)

  ghost predicate SetupOk(c: Setup) {
    Tiles(c.chunks, |c.content|, c.chunkSize) && |c.content| <= |c.buffer|
  }

  /** `got` is how much of each chunk io.ReadFull has so far, `tries` how many body reads have
      failed in the reader's current Read. */
  datatype State = State(pool: Pool, got: seq<nat>, tries: seq<nat>, b: seq<byte>)

  /** A step of the pool; or a step of the operation that worker w executes: a body read that
      fails and is retried, a Read that delivers n bytes and leaves io.ReadFull wanting more, or
      the Read on which io.ReadFull stops. */
  datatype Step = Control(a: Action) | Retry(w: nat) | Deliver(w: nat, n: nat) | Last(w: nat, n: nat, err: Option<Text>)

  function Init(c: Setup): State {
    var n := |c.chunks|;
    State(TransferPool.Init(c.parallelism), seq(n, _ => 0), seq(n, _ => 0), c.buffer)
  }

  predicate RunningOn(c: Setup, s: State, w: nat) {
    && w < |s.pool.workers| && s.pool.workers[w].Running?
    && s.pool.workers[w].chunk < |c.chunks| == |s.got| == |s.tries|
  }

  /** A Read of chunk i, which returned n bytes, took the buffer from `before` to `after`. */
  ghost predicate ChunkRead(c: Setup, i: nat, got: nat, before: seq<byte>, after: seq<byte>, n: nat)
    requires i < |c.chunks|
  {
    var at := c.chunks[i].offset + got;
    ReadOutcome(c.content, before, after, at, c.chunks[i].End(), at, n)
  }

  ghost predicate Next(c: Setup, s: State, step: Step, s': State) {
    match step
    case Control(a) =>
      && !a.Work? && !a.Finish?
      && Leads(|c.chunks|, s.pool, a, s'.pool)
      && s'.b == s.b
      && (if a.Take? then
            var i := s.pool.queue[0];
            i < |s.got| == |s.tries| && s'.got == s.got[i := 0] && s'.tries == s.tries[i := 0]
          else s'.got == s.got && s'.tries == s.tries)
    case Retry(w) =>
      && RunningOn(c, s, w)
      && var i := s.pool.workers[w].chunk;
         && s.tries[i] < c.maxRetries
         && ChunkRead(c, i, s.got[i], s.b, s'.b, 0)
         && s' == State(s.pool, s.got, s.tries[i := s.tries[i] + 1], s'.b)
    case Deliver(w, n) =>
      && RunningOn(c, s, w)
      && var i := s.pool.workers[w].chunk;
         && 0 < n && s.got[i] + n < c.chunks[i].count
         && ChunkRead(c, i, s.got[i], s.b, s'.b, n)
         && s' == State(s.pool, s.got[i := s.got[i] + n], s.tries[i := 0], s'.b)
    case Last(w, n, err) =>
      && RunningOn(c, s, w)
      && var i := s.pool.workers[w].chunk;
         var full := s.got[i] + n >= c.chunks[i].count;
         && (full || err.Some?)
         && ChunkRead(c, i, s.got[i], s.b, s'.b, n)
         && Leads(|c.chunks|, s.pool, Finish(w, if full then None else err), s'.pool)
         && s' == State(s'.pool, s.got[i := s.got[i] + n], s.tries, s'.b)
  }

  /** The error io.ReadFull stops with, `got` bytes into the chunk: an EOF there is unexpected. */
  function ErrorText(got: nat, err: Option<ReadError>): Option<Text> {
    match err
    case None => None
    case Some(EOF) => Some(if got > 0 then "unexpected EOF" else "EOF")
    case Some(NetError(m)) => Some(m)
    case Some(OtherError(m)) => Some(m)
  }

  lemma FewerBytes(content: seq<byte>, before: seq<byte>, after: seq<byte>, lo: nat, hi: nat, offset: nat, n: nat)
    requires ReadOutcome(content, before, after, lo, hi, offset, n)
    ensures ReadOutcome(content, before, after, lo, hi, offset, 0)
  {
  }

  /** What a read of the rest of chunk i, on its try number s.tries[i], may come back with: done is
      false when it failed and is made again. */
  ghost predicate ReadBack(c: Setup, s: State, i: nat, b': seq<byte>, n: nat, err: Option<ReadError>, done: bool)
    requires i < |c.chunks| == |s.got| == |s.tries|
  {
    && ChunkRead(c, i, s.got[i], s.b, b', n)
    && (err.None? ==> n > 0)
    && (!done ==> err.Some? && s.tries[i] < c.maxRetries)
  }

  /** A failure that is made good is a Retry, whatever it wrote; bytes that leave the chunk unfinished
      are a Deliver; and anything else ends the operation. */
  function StepOf(c: Setup, s: State, w: nat, n: nat, err: Option<ReadError>, done: bool): Step
    requires RunningOn(c, s, w)
  {
    var i := s.pool.workers[w].chunk;
    if !done then Retry(w)
    else if err.None? && s.got[i] + n < c.chunks[i].count then Deliver(w, n)
    else Last(w, n, ErrorText(s.got[i] + n, err))
  }

  function AfterRead(c: Setup, s: State, w: nat, b': seq<byte>, n: nat, err: Option<ReadError>, done: bool): State
    requires RunningOn(c, s, w)
  {
    var i := s.pool.workers[w].chunk;
    if !done then State(s.pool, s.got, s.tries[i := s.tries[i] + 1], b')
    else if err.None? && s.got[i] + n < c.chunks[i].count then
      State(s.pool, s.got[i := s.got[i] + n], s.tries[i := 0], b')
    else
      var result := if s.got[i] + n >= c.chunks[i].count then None else ErrorText(s.got[i] + n, err);
      State(Apply(|c.chunks|, s.pool, Finish(w, result)), s.got[i := s.got[i] + n], s.tries, b')
  }

  lemma ReadIsStep(c: Setup, s: State, w: nat, b': seq<byte>, n: nat, err: Option<ReadError>, done: bool)
    requires RunningOn(c, s, w) && ReadBack(c, s, s.pool.workers[w].chunk, b', n, err, done)
    ensures Next(c, s, StepOf(c, s, w, n, err, done), AfterRead(c, s, w, b', n, err, done))
  {
    var i := s.pool.workers[w].chunk;
    if !done {
      var at := c.chunks[i].offset + s.got[i];
      FewerBytes(c.content, s.b, b', at, c.chunks[i].End(), at, n);
    }
  }

  /** The steps inside an operation are those a reader makes: what one turn of Read's loop ensures,
      on the rest of the chunk that worker w executes, is a step of this system. */
  lemma TurnIsStep(c: Setup, s: State, w: nat, o: Options, before: Log, after: Log, info: HttpGetterInfo,
                   spent: bool, noResponse: bool, b': seq<byte>, n: nat, err: Option<ReadError>, done: bool,
                   bytes: seq<byte>)
    requires RunningOn(c, s, w) && o.maxRetryRequests == c.maxRetries
    requires var i := s.pool.workers[w].chunk;
             && info.offset == c.chunks[i].offset + s.got[i]
             && ReadOutcome(c.content, s.b, b', info.offset, c.chunks[i].End(), info.offset, n)
             && TurnLogged(before, after, info, spent, noResponse, s.tries[i], err, done, bytes, o)
    requires err.None? ==> n > 0
    ensures ReadBack(c, s, s.pool.workers[w].chunk, b', n, err, done)
    ensures Next(c, s, StepOf(c, s, w, n, err, done), AfterRead(c, s, w, b', n, err, done))
  {
    ReadIsStep(c, s, w, b', n, err, done);
  }

  // ----- The invariant -----

  /** The first g bytes of chunk i of the buffer are the file's. */
  ghost predicate Filled(c: Setup, b: seq<byte>, i: nat, g: nat)
    requires i < |c.chunks|
  {
    var o := c.chunks[i].offset;
    g <= c.chunks[i].count && o + g <= |b| && o + g <= |c.content| && b[o..o + g] == c.content[o..o + g]
  }

  ghost predicate Complete(c: Setup, got: seq<nat>, i: nat, result: Option<Text>) {
    result.None? ==> i < |got| == |c.chunks| && got[i] == c.chunks[i].count
  }

  ghost predicate BufferInv(c: Setup, s: State) {
    && |s.got| == |s.tries| == |c.chunks|
    && |s.b| == |c.buffer| && |c.content| <= |s.b| && s.b[|c.content|..] == c.buffer[|c.content|..]
    && forall i :: 0 <= i < |c.chunks| ==> Filled(c, s.b, i, s.got[i]) && s.tries[i] <= c.maxRetries
  }

  ghost predicate Inv(c: Setup, s: State) {
    && TransferPool.Inv(|c.chunks|, s.pool) && |s.pool.workers| == c.parallelism
    && BufferInv(c, s)
    && (forall i :: 0 <= i < |c.chunks| && Begun(s.pool, i) == 0 ==> s.got[i] == 0 && s.tries[i] == 0)
    && (forall w :: 0 <= w < |s.pool.workers| && s.pool.workers[w].Sending? ==>
          Complete(c, s.got, s.pool.workers[w].chunk, s.pool.workers[w].result))
    && (forall r :: r in s.pool.replies ==> Complete(c, s.got, r.chunk, r.result))
    && (forall r :: r in s.pool.collected ==> Complete(c, s.got, r.chunk, r.result))
  }

  lemma InitInv(c: Setup)
    requires SetupOk(c)
    ensures Inv(c, Init(c))
  {
    TransferPool.InitInv(|c.chunks|, c.parallelism);
    forall i | 0 <= i < |c.chunks|
      ensures Filled(c, c.buffer, i, 0)
    {
      TilesDisjoint(c.chunks, |c.content|, c.chunkSize, i, i);
    }
  }

  /** A part of the buffer outside the window of a Read keeps its bytes. */
  lemma OutsideKept(content: seq<byte>, before: seq<byte>, after: seq<byte>, lo: nat, hi: nat, offset: nat, n: nat,
                    x: nat, y: nat)
    requires ReadOutcome(content, before, after, lo, hi, offset, n)
    requires x <= y <= |before| && (y <= lo || hi <= x)
    ensures after[x..y] == before[x..y]
  {
    forall i | x <= i < y
      ensures after[i] == before[i]
    {
      assert if y <= lo then after[..lo][i] == before[..lo][i] else after[hi..][i - hi] == before[hi..][i - hi];
    }
    assert after[x..y] == before[x..y];
  }

  lemma PastFileKept(c: Setup, i: nat, g: nat, before: seq<byte>, after: seq<byte>, n: nat)
    requires SetupOk(c) && i < |c.chunks| && ChunkRead(c, i, g, before, after, n) && |before| == |c.buffer|
    ensures |c.content| <= |after| == |before| && after[|c.content|..] == before[|c.content|..]
  {
    TilesDisjoint(c.chunks, |c.content|, c.chunkSize, i, i);
    hide Tiles;
    var at := c.chunks[i].offset + g;
    OutsideKept(c.content, before, after, at, c.chunks[i].End(), at, n, |c.content|, |before|);
    assert after[|c.content|..] == after[|c.content|..|before|];
  }

  lemma OwnChunkGrows(c: Setup, i: nat, g: nat, before: seq<byte>, after: seq<byte>, n: nat)
    requires i < |c.chunks| && ChunkRead(c, i, g, before, after, n) && Filled(c, before, i, g)
    ensures Filled(c, after, i, g + n)
  {
    var o, at := c.chunks[i].offset, c.chunks[i].offset + g;
    if n > 0 {
      OutsideKept(c.content, before, after, at, c.chunks[i].End(), at, n, o, at);
      assert after[o..o + g + n] == after[o..at] + after[at..at + n];
      assert c.content[o..o + g + n] == c.content[o..at] + c.content[at..at + n];
    } else {
      OutsideKept(c.content, before, after, at, c.chunks[i].End(), at, n, o, at);
    }
  }

  /** Reading into one chunk leaves every other chunk, and everything past the file, as it was. */
  lemma OtherChunksKeep(c: Setup, i: nat, g: nat, before: seq<byte>, after: seq<byte>, n: nat, j: nat, gj: nat)
    requires SetupOk(c) && i < |c.chunks| && j < |c.chunks|
    requires ChunkRead(c, i, g, before, after, n)
    requires |before| == |c.buffer|
    ensures |c.content| <= |after| == |before| && after[|c.content|..] == before[|c.content|..]
    ensures i != j && Filled(c, before, j, gj) ==> Filled(c, after, j, gj)
    ensures i == j && Filled(c, before, i, g) ==> Filled(c, after, i, g + n)
  {
    PastFileKept(c, i, g, before, after, n);
    if i == j && Filled(c, before, i, g) {
      OwnChunkGrows(c, i, g, before, after, n);
    }
    if i != j && Filled(c, before, j, gj) {
      TilesDisjoint(c.chunks, |c.content|, c.chunkSize, i, j);
      hide Tiles;
      var at, o := c.chunks[i].offset + g, c.chunks[j].offset;
      OutsideKept(c.content, before, after, at, c.chunks[i].End(), at, n, o, o + gj);
    }
  }

  lemma ReadKeeps(c: Setup, s: State, i: nat, b': seq<byte>, n: nat, tries': nat)
    requires SetupOk(c) && BufferInv(c, s) && i < |c.chunks| && tries' <= c.maxRetries
    requires ChunkRead(c, i, s.got[i], s.b, b', n)
    ensures BufferInv(c, State(s.pool, s.got[i := s.got[i] + n], s.tries[i := tries'], b'))
  {
    OtherChunksKeep(c, i, s.got[i], s.b, b', n, i, s.got[i]);
    forall j | 0 <= j < |c.chunks|
      ensures Filled(c, b', j, if j == i then s.got[i] + n else s.got[j])
    {
      OtherChunksKeep(c, i, s.got[i], s.b, b', n, j, s.got[j]);
    }
  }

  /** The chunk a worker is executing or sending is nobody else's: resetting or advancing its
      counters disturbs no result that is under way. */
  lemma StepKeepsInv(c: Setup, s: State, step: Step, s': State)
    requires SetupOk(c) && Inv(c, s) && Next(c, s, step, s')
    ensures Inv(c, s')
  {
    hide SetupOk, Inv, ReadOutcome, Leads;
    match step
    case Control(a) =>
      ControlKeepsInv(c, s, a, s');
    case Retry(w) =>
      var i := s.pool.workers[w].chunk;
      assert s.got[i := s.got[i] + 0] == s.got;
      OnlyReadKeepsInv(c, s, w, 0, s.tries[i] + 1, s'.b);
    case Deliver(w, n) =>
      OnlyReadKeepsInv(c, s, w, n, 0, s'.b);
    case Last(w, n, err) =>
      LastKeepsInv(c, s, w, n, err, s');
  }

  /** A read after which the operation goes on. */
  lemma OnlyReadKeepsInv(c: Setup, s: State, w: nat, n: nat, tries': nat, b': seq<byte>)
    requires SetupOk(c) && Inv(c, s) && RunningOn(c, s, w) && tries' <= c.maxRetries
    requires ChunkRead(c, s.pool.workers[w].chunk, s.got[s.pool.workers[w].chunk], s.b, b', n)
    ensures var i := s.pool.workers[w].chunk;
            Inv(c, State(s.pool, s.got[i := s.got[i] + n], s.tries[i := tries'], b'))
  {
    var i := s.pool.workers[w].chunk;
    ReadKeeps(c, s, i, b', n, tries');
    var got, tries := s.got[i := s.got[i] + n], s.tries[i := tries'];
    OwnChunk(c, s, w, got);
    assert |s.got| == |s.tries| == |c.chunks|;
    hide TransferPool.Inv, BufferInv, SetupOk, ChunkRead, Complete, Begun, RunningOn;
    forall j | 0 <= j < |c.chunks| && Begun(s.pool, j) == 0
      ensures got[j] == 0 && tries[j] == 0
    {
      assert j != i && s.got[j] == 0 && s.tries[j] == 0;
    }
  }

  lemma BusyHasBegun(p: Pool, w: nat)
    requires w < |p.workers| && Busy(p.workers[w])
    ensures Begun(p, p.workers[w].chunk) >= 1
  {
    HeldUpdate(p.workers, w, Idle, p.workers[w].chunk);
  }

  /** While worker w executes its chunk, the counters of that chunk matter to no one else. */
  lemma OwnChunk(c: Setup, s: State, w: nat, got': seq<nat>)
    requires Inv(c, s) && w < |s.pool.workers| && s.pool.workers[w].Running?
    requires |got'| == |s.got|
    requires forall j :: 0 <= j < |s.got| && j != s.pool.workers[w].chunk ==> got'[j] == s.got[j]
    ensures forall v :: 0 <= v < |s.pool.workers| && s.pool.workers[v].Sending? ==>
              Complete(c, got', s.pool.workers[v].chunk, s.pool.workers[v].result)
    ensures forall r :: r in s.pool.replies ==> Complete(c, got', r.chunk, r.result)
    ensures forall r :: r in s.pool.collected ==> Complete(c, got', r.chunk, r.result)
    ensures Begun(s.pool, s.pool.workers[w].chunk) >= 1
  {
    BusyHasBegun(s.pool, w);
    OneWorkerPerChunk(|c.chunks|, s.pool, w, w);
    forall v | 0 <= v < |s.pool.workers| && s.pool.workers[v].Sending?
      ensures s.pool.workers[v].chunk != s.pool.workers[w].chunk
    {
      if s.pool.workers[v].chunk == s.pool.workers[w].chunk {
        OneWorkerPerChunk(|c.chunks|, s.pool, v, w);
      }
    }
    assert forall r :: r in s.pool.replies ==> r in s.pool.replies + s.pool.collected;
    assert forall r :: r in s.pool.collected ==> r in s.pool.replies + s.pool.collected;
  }

  lemma LastKeepsInv(c: Setup, s: State, w: nat, n: nat, err: Option<Text>, s': State)
    requires SetupOk(c) && Inv(c, s) && Next(c, s, Last(w, n, err), s')
    ensures Inv(c, s')
  {
    var i := s.pool.workers[w].chunk;
    ReadKeeps(c, s, i, s'.b, n, s.tries[i]);
    assert s.tries[i := s.tries[i]] == s.tries;
    OwnChunk(c, s, w, s'.got);
    var result := if s.got[i] + n >= c.chunks[i].count then None else err;
    var a := Finish(w, result);
    StepInv(|c.chunks|, s.pool, a);
    forall j: nat
      ensures Begun(s'.pool, j) == Begun(s.pool, j)
    {
      StepMoves(|c.chunks|, s.pool, a, j);
    }
    assert Complete(c, s'.got, i, result);
  }

  lemma ControlKeepsInv(c: Setup, s: State, a: Action, s': State)
    requires SetupOk(c) && Inv(c, s) && Next(c, s, Control(a), s')
    ensures Inv(c, s')
  {
    StepInv(|c.chunks|, s.pool, a);
    forall j: nat
      ensures Begun(s'.pool, j) == Begun(s.pool, j) + (if a.Take? && s.pool.queue[0] == j then 1 else 0)
    {
      StepMoves(|c.chunks|, s.pool, a, j);
    }
    if a.Take? {
      var i := s.pool.queue[0];
      QueuedNotBegun(|c.chunks|, s.pool, 0);
      assert s'.got == s.got && s'.tries == s.tries;
    }
  }

  lemma QueuedNotBegun(numChunks: nat, p: Pool, k: nat)
    requires TransferPool.Inv(numChunks, p) && k < |p.queue|
    ensures p.queue[k] < numChunks && Begun(p, p.queue[k]) == 0
  {
    CountIn(p.queue, k);
    assert Places(p, p.queue[k]) >= 1;
  }

  // ----- Whole downloads -----

  ghost predicate IsRun(c: Setup, states: seq<State>, steps: seq<Step>) {
    && |states| == |steps| + 1
    && states[0] == Init(c)
    && forall i :: 0 <= i < |steps| ==> Next(c, states[i], steps[i], states[i + 1])
  }

  lemma {:induction false} RunInv(c: Setup, states: seq<State>, steps: seq<Step>, k: nat)
    requires SetupOk(c) && IsRun(c, states, steps) && k < |states|
    ensures Inv(c, states[k])
  {
    if k == 0 {
      InitInv(c);
    } else {
      RunInv(c, states, steps, k - 1);
      assert Next(c, states[k - 1], steps[k - 1], states[k - 1 + 1]);
      StepKeepsInv(c, states[k - 1], steps[k - 1], states[k]);
      hide Inv;
    }
  }

  lemma CollectedComplete(c: Setup, s: State, i: nat)
    requires Inv(c, s) && s.pool.caller == Returned(None) && i < |c.chunks|
    ensures s.got[i] == c.chunks[i].count
  {
    ReturnMeans(|c.chunks|, s.pool);
    assert Count(ChunksOf(s.pool.collected), i) == 1;
    var k := CountWitness(ChunksOf(s.pool.collected), i);
    var r := s.pool.collected[k];
    assert r in s.pool.collected;
    assert Complete(c, s.got, r.chunk, r.result);
  }

  lemma InvIsCorrect(c: Setup, s: State)
    requires SetupOk(c) && Inv(c, s)
    ensures |s.b| == |c.buffer| && s.b[|c.content|..] == c.buffer[|c.content|..]
    ensures s.pool.caller == Returned(None) ==> s.b[..|c.content|] == c.content
  {
    forall x | 0 <= x < |c.content| && s.pool.caller == Returned(None)
      ensures s.b[x] == c.content[x]
    {
      var i := TilesCover(c.chunks, |c.content|, c.chunkSize, x);
      CollectedComplete(c, s, i);
      var o := c.chunks[i].offset;
      assert s.b[o..o + s.got[i]][x - o] == s.b[x];
      assert c.content[o..o + s.got[i]][x - o] == c.content[x];
    }
  }

  /** For every interleaving of the workers and every schedule of failing reads: once nil has been
      returned the buffer holds the remote file, and what lies beyond it is untouched. */
  lemma DownloadIsCorrect(c: Setup, states: seq<State>, steps: seq<Step>, k: nat)
    requires SetupOk(c) && IsRun(c, states, steps) && k < |states|
    requires states[k].pool.caller == Returned(None)
    ensures |states[k].b| == |c.buffer|
    ensures states[k].b[..|c.content|] == c.content
    ensures states[k].b[|c.content|..] == c.buffer[|c.content|..]
  {
    RunInv(c, states, steps, k);
    InvIsCorrect(c, states[k]);
  }

  // ----- Where an error comes from -----

  /** This step ends the operation of chunk i short, with an error of this text. */
  ghost predicate EndsShort(c: Setup, s: State, step: Step, i: nat, text: Text) {
    && step.Last? && RunningOn(c, s, step.w) && s.pool.workers[step.w].chunk == i
    && s.got[i] + step.n < c.chunks[i].count && step.err == Some(text)
  }

  ghost predicate EndedShort(c: Setup, states: seq<State>, steps: seq<Step>, k: nat, i: nat, text: Text)
    requires k <= |steps| < |states|
  {
    exists j :: 0 <= j < k && EndsShort(c, states[j], steps[j], i, text)
  }

  lemma StepErrors(c: Setup, s: State, step: Step, s': State, i: nat, text: Text)
    requires Next(c, s, step, s')
    ensures HasError(s'.pool, i, text) <==> HasError(s.pool, i, text) || EndsShort(c, s, step, i, text)
  {
    hide HasError, ReadOutcome;
    match step
    case Control(a) => ErrorsMove(|c.chunks|, s.pool, a, i, text);
    case Retry(_) =>
    case Deliver(_, _) =>
    case Last(w, n, err) =>
      var j := s.pool.workers[w].chunk;
      ErrorsMove(|c.chunks|, s.pool, Finish(w, if s.got[j] + n >= c.chunks[j].count then None else err), i, text);
  }

  lemma {:induction false} ErrorsAreEnds(c: Setup, states: seq<State>, steps: seq<Step>, k: nat, i: nat, text: Text)
    requires IsRun(c, states, steps) && k <= |steps|
    ensures HasError(states[k].pool, i, text) <==> EndedShort(c, states, steps, k, i, text)
  {
    if k > 0 {
      ErrorsAreEnds(c, states, steps, k - 1, i, text);
      assert Next(c, states[k - 1], steps[k - 1], states[k - 1 + 1]);
      StepErrors(c, states[k - 1], steps[k - 1], states[k], i, text);
      hide HasError, EndsShort, Next;
    }
  }

  /** An error is returned only if it is that of an operation that ended its chunk short; and nil only
      if no operation did. */
  lemma ErrorMeans(c: Setup, states: seq<State>, steps: seq<Step>, k: nat)
    requires SetupOk(c) && IsRun(c, states, steps) && k <= |steps| && states[k].pool.caller.Returned?
    ensures var result := states[k].pool.caller.result;
            if result.Some? then exists i :: EndedShort(c, states, steps, k, i, result.value)
            else forall i, text :: !EndedShort(c, states, steps, k, i, text)
  {
    RunInv(c, states, steps, k);
    var p := states[k].pool;
    hide IsRun, EndedShort, HasError;
    ReturnHasError(|c.chunks|, p);
    forall i: nat, text
      ensures HasError(p, i, text) <==> EndedShort(c, states, steps, k, i, text)
    {
      ErrorsAreEnds(c, states, steps, k, i, text);
    }
  }

  // ----- Every download ends -----

  /** Body reads chunk i may still make. */
  function Budget(c: Setup, s: State, i: nat): int
    requires i < |c.chunks| == |s.got| == |s.tries|
  {
    (c.chunks[i].count - s.got[i]) * (c.maxRetries + 1) + c.maxRetries - s.tries[i]
  }

  function Budgets(c: Setup, s: State, k: nat): int
    requires k <= |c.chunks| == |s.got| == |s.tries|
  {
    if k == 0 then 0 else Budgets(c, s, k - 1) + Budget(c, s, k - 1)
  }

  lemma {:induction false} BudgetsChange(c: Setup, s: State, s': State, k: nat, i: nat)
    requires k <= |c.chunks| == |s.got| == |s.tries| == |s'.got| == |s'.tries| && i < |c.chunks|
    requires forall j :: 0 <= j < |c.chunks| && j != i ==> s'.got[j] == s.got[j] && s'.tries[j] == s.tries[j]
    ensures Budgets(c, s', k) == Budgets(c, s, k) + (if i < k then Budget(c, s', i) - Budget(c, s, i) else 0)
  {
    if k > 0 {
      BudgetsChange(c, s, s', k - 1, i);
    }
  }

  /** How far a download is from its end: pool steps and body reads together. */
  function Distance(c: Setup, s: State): int
    requires |c.chunks| == |s.got| == |s.tries|
  {
    Measure(|c.chunks|, s.pool) + Budgets(c, s, |c.chunks|)
  }

  lemma BudgetFalls(count: int, got: int, n: int, retries: int, t: int, t': int)
    requires 0 <= t <= retries && 0 <= t' && retries >= 0 && n >= 0
    requires n > 0 || t' > t
    ensures (count - got - n) * (retries + 1) + retries - t' < (count - got) * (retries + 1) + retries - t
  {
    Distribute(count - got - n, n, retries + 1);
    if n > 0 {
      Distribute(n - 1, 1, retries + 1);
    }
  }

  lemma ControlFalls(c: Setup, s: State, a: Action, s': State)
    requires SetupOk(c) && Inv(c, s) && Next(c, s, Control(a), s')
    ensures |c.chunks| == |s'.got| == |s'.tries|
    ensures Distance(c, s') < Distance(c, s)
  {
    MeasureFalls(|c.chunks|, s.pool, a);
    if a.Take? {
      QueuedNotBegun(|c.chunks|, s.pool, 0);
    }
    assert s'.got == s.got && s'.tries == s.tries;
    BudgetsChange(c, s, s', |c.chunks|, 0);
  }

  /** A step of the operation on chunk i that reads n bytes, or else fails once more. */
  lemma ReadFalls(c: Setup, s: State, s': State, i: nat, n: nat, t: nat)
    requires BufferInv(c, s) && i < |c.chunks|
    requires s'.got == s.got[i := s.got[i] + n] && s'.tries == s.tries[i := t]
    requires n > 0 || t >= s.tries[i]
    ensures Budgets(c, s', |c.chunks|) <= Budgets(c, s, |c.chunks|)
    ensures n > 0 || t > s.tries[i] ==> Budgets(c, s', |c.chunks|) < Budgets(c, s, |c.chunks|)
  {
    BudgetsChange(c, s, s', |c.chunks|, i);
    if n > 0 || t > s.tries[i] {
      BudgetFalls(c.chunks[i].count, s.got[i], n, c.maxRetries, s.tries[i], t);
    }
  }

  /** Every step brings the download closer to its end. */
  lemma DistanceFalls(c: Setup, s: State, step: Step, s': State)
    requires SetupOk(c) && Inv(c, s) && Next(c, s, step, s')
    ensures |c.chunks| == |s'.got| == |s'.tries|
    ensures Distance(c, s') < Distance(c, s)
  {
    hide TransferPool.Inv, Measure, Budgets, ReadOutcome, Filled;
    match step
    case Control(a) =>
      ControlFalls(c, s, a, s');
    case Retry(w) =>
      var i := s.pool.workers[w].chunk;
      assert s.got == s.got[i := s.got[i] + 0];
      ReadFalls(c, s, s', i, 0, s.tries[i] + 1);
    case Deliver(w, n) =>
      ReadFalls(c, s, s', s.pool.workers[w].chunk, n, 0);
    case Last(w, n, err) =>
      var i := s.pool.workers[w].chunk;
      assert s.tries == s.tries[i := s.tries[i]];
      ReadFalls(c, s, s', i, n, s.tries[i]);
      MeasureFalls(|c.chunks|, s.pool, Finish(w, if s.got[i] + n >= c.chunks[i].count then None else err));
  }

  lemma {:induction false} BudgetsBounds(c: Setup, s: State, k: nat)
    requires BufferInv(c, s) && k <= |c.chunks|
    ensures Budgets(c, s, k) >= 0
  {
    if k > 0 {
      BudgetsBounds(c, s, k - 1);
      assert Filled(c, s.b, k - 1, s.got[k - 1]);
      Distribute(c.chunks[k - 1].count - s.got[k - 1], 0, c.maxRetries + 1);
    }
  }

  lemma {:induction false} InitBudgets(c: Setup, k: nat)
    requires SetupOk(c) && 1 <= k <= |c.chunks|
    ensures Budgets(c, Init(c), k) == c.chunks[k - 1].End() * (c.maxRetries + 1) + k * c.maxRetries
  {
    var s := Init(c);
    if k == 1 {
      assert Budgets(c, s, 0) == 0;
      assert c.chunks[0].End() == c.chunks[0].count;
    } else {
      InitBudgets(c, k - 1);
      assert c.chunks[k - 2].End() == c.chunks[k - 2 + 1].offset;
      Distribute(c.chunks[k - 1].offset, c.chunks[k - 1].count, c.maxRetries + 1);
      Distribute(k - 1, 1, c.maxRetries);
    }
  }

  /** However its workers interleave and its reads fail, a download makes at most five steps a
      chunk, one a worker and two, besides maxRetries body reads a chunk and 1 + maxRetries a byte. */
  lemma DownloadsEnd(c: Setup, states: seq<State>, steps: seq<Step>, k: nat)
    requires SetupOk(c) && IsRun(c, states, steps) && k < |states|
    ensures var n := |c.chunks|;
            k <= 5 * n + c.parallelism + 2 + |c.content| * (c.maxRetries + 1) + n * c.maxRetries
  {
    FallsFrom(c, states, steps, k);
    RunInv(c, states, steps, k);
    BudgetsBounds(c, states[k], |c.chunks|);
    InitBudgets(c, |c.chunks|);
    AllIdle(c.parallelism, 0);
  }

  lemma {:induction false} FallsFrom(c: Setup, states: seq<State>, steps: seq<Step>, k: nat)
    requires SetupOk(c) && IsRun(c, states, steps) && k < |states|
    ensures |c.chunks| == |states[k].got| == |states[k].tries|
    ensures k + Distance(c, states[k]) <= Distance(c, Init(c))
  {
    if k > 0 {
      FallsFrom(c, states, steps, k - 1);
      RunInv(c, states, steps, k - 1);
      assert Next(c, states[k - 1], steps[k - 1], states[k - 1 + 1]);
      DistanceFalls(c, states[k - 1], steps[k - 1], states[k]);
      hide Distance, Inv;
    }
  }

  /** A download in which nothing more can happen has returned and left no goroutine behind. */
  lemma DownloadNeverStuck(c: Setup, s: State) returns (step: Step, s': State)
    requires SetupOk(c) && Inv(c, s) && c.parallelism >= 1 && !Terminated(s.pool)
    ensures Next(c, s, step, s')
  {
    var a := NeverStuck(|c.chunks|, s.pool);
    var n := |c.chunks|;
    if a.Finish? {
      var w := a.w;
      OneWorkerPerChunk(n, s.pool, w, w);
      var i := s.pool.workers[w].chunk;
      assert Filled(c, s.b, i, s.got[i]);
      TilesDisjoint(c.chunks, |c.content|, c.chunkSize, i, i);
      var full := s.got[i] >= c.chunks[i].count;
      var fin := Finish(w, if full then None else Some("reset"));
      step := Last(w, 0, Some("reset"));
      s' := State(Apply(n, s.pool, fin), s.got[i := s.got[i] + 0], s.tries, s.b);
    } else {
      step := Control(a);
      if a.Take? {
        QueuedNotBegun(n, s.pool, 0);
        var i := s.pool.queue[0];
        s' := State(Apply(n, s.pool, a), s.got[i := 0], s.tries[i := 0], s.b);
      } else {
        s' := s.(pool := Apply(n, s.pool, a));
      }
    }
  }
}
