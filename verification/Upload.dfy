/** UploadBufferToAzureFile (azfile/highlevel.go): the transfer pool, each of its operations
    writing one chunk of the buffer to a range of the remote file. */
module Upload {
  import opened Text
  import opened Ranges
  import opened TransferPool

  /** One upload: the buffer, its chunks, and the file as Create left it. */
  datatype Setup = Setup(b: seq<byte>, chunks: seq<Chunk>, chunkSize: nat, parallelism: nat, created: seq<byte>)

  ghost predicate SetupOk(u: Setup) {
    && Tiles(u.chunks, |u.b|, u.chunkSize)
    && |u.b| <= MAX_INT64
    && |u.created| == |u.b|
  }

  /** The checks and defaults of UploadBufferToAzureFile. None means there is nothing to transfer. */
  method Start(b: seq<byte>, created: seq<byte>, rangeSize: int64, parallelism: nat)
    returns (r: Result<Option<Setup>, Text>)
    requires |b| <= MAX_INT64 && |created| == |b|
    ensures r.Err? <==> rangeSize < 0 || rangeSize > 4194304
    ensures r.Ok? ==> (r.value.None? <==> b == [])
    ensures r.Ok? && r.value.Some? ==>
              var u := r.value.value;
              && SetupOk(u) && (forall i :: 0 <= i < |u.chunks| - 1 ==> u.chunks[i].count == u.chunkSize)
              && u == Setup(b, u.chunks, if rangeSize == 0 then 4194304 else rangeSize as int,
                            if parallelism == 0 then 5 else parallelism, created)
  {
    if rangeSize < 0 || rangeSize > FILE_MAX_UPLOAD_RANGE_BYTES {
      return Err("invalid argument, o.RangeSize");
    }
    var chunkSize := if rangeSize == 0 then FILE_MAX_UPLOAD_RANGE_BYTES else rangeSize;
    var workers := if parallelism == 0 then DEFAULT_PARALLEL_COUNT else parallelism;
    if |b| == 0 {
      return Ok(None);
    }
    var chunks := PlanChunks(|b| as int64, chunkSize);
    r := Ok(Some(Setup(b, chunks, chunkSize as int, workers, created)));
  }

  // ----- The service -----

  /** Put Range: the server writes the body to the range the header names; None is a refusal. */
  function PutRange(file: seq<byte>, header: Text, body: seq<byte>): Option<seq<byte>> {
    match ParseByteRange(header)
    case Some(FromTo(first, last)) =>
      if first <= last < |file| && |body| == last - first + 1 then Some(file[..first] + body + file[last + 1..])
        else None
    case _ => None
  }

  /** The request of chunk i, as UploadRange builds it. */
  function Header(ch: Chunk): Text
    requires ch.End() <= MAX_INT64
  {
    ToRange(ch.offset as int64, ch.count as int64)
  }

  lemma HeaderNames(ch: Chunk)
    requires 1 <= ch.count && ch.End() <= MAX_INT64
    ensures ParseByteRange(Header(ch)) == Some(FromTo(ch.offset, ch.End() - 1))
  {
    hide ParseByteRange, ToRange;
    var offset, count := ch.offset as int64, ch.count as int64;
    assert Header(ch) == ToRange(offset, count);
    hide Header;
    ToRangeRoundTrip(offset, count);
  }

  lemma PutAt(file: seq<byte>, header: Text, first: nat, end: nat, body: seq<byte>)
    requires first < end <= |file| && |body| == end - first && ParseByteRange(header) == Some(FromTo(first, end - 1))
    ensures PutRange(file, header, body) == Some(file[..first] + body + file[end..])
  {
    hide ParseByteRange;
  }

  lemma PutRangeWrites(file: seq<byte>, ch: Chunk, body: seq<byte>)
    requires 1 <= ch.count && ch.End() <= |file| && ch.End() <= MAX_INT64 && |body| == ch.count
    ensures PutRange(file, Header(ch), body) == Some(file[..ch.offset] + body + file[ch.End()..])
  {
    HeaderNames(ch);
    hide ParseByteRange, Header, PutRange;
    PutAt(file, Header(ch), ch.offset, ch.End(), body);
  }

  // ----- The system -----

  /** For each chunk, whether a request was ever sent and whether the server ever executed one. */
  datatype State = State(pool: Pool, sent: seq<bool>, applied: seq<bool>, file: seq<byte>)

  /** A step of the pool; worker w's operation sending its request, once or again; the server
      executing some request of chunk i that was sent at some time, even when the operation has
      long given up on it; or the operation of worker w ending. */
  datatype Step = Control(a: Action) | Request(w: nat) | Execute(i: nat) | Last(w: nat, result: Option<Text>)

  function Init(u: Setup): State {
    var n := |u.chunks|;
    State(TransferPool.Init(u.parallelism), seq(n, _ => false), seq(n, _ => false), u.created)
  }

  predicate RunningOn(u: Setup, s: State, w: nat) {
    && w < |s.pool.workers| && s.pool.workers[w].Running?
    && s.pool.workers[w].chunk < |u.chunks| == |s.sent| == |s.applied|
  }

  ghost predicate Next(u: Setup, s: State, step: Step, s': State) {
    match step
    case Control(a) =>
      !a.Work? && !a.Finish? && Leads(|u.chunks|, s.pool, a, s'.pool) && s' == s.(pool := s'.pool)
    case Request(w) =>
      RunningOn(u, s, w) && s' == s.(sent := s.sent[s.pool.workers[w].chunk := true])
    case Execute(i) =>
      && i < |u.chunks| == |s.sent| == |s.applied| && s.sent[i]
      && u.chunks[i].End() <= |u.b| <= MAX_INT64
      && PutRange(s.file, Header(u.chunks[i]), u.b[u.chunks[i].offset..u.chunks[i].End()]) == Some(s'.file)
      && s' == State(s.pool, s.sent, s.applied[i := true], s'.file)
    case Last(w, result) =>
      && RunningOn(u, s, w)
      && (result.None? ==> s.applied[s.pool.workers[w].chunk])
      && Leads(|u.chunks|, s.pool, Finish(w, result), s'.pool)
      && s' == s.(pool := s'.pool)
  }

  ghost predicate Written(u: Setup, file: seq<byte>, i: nat)
    requires i < |u.chunks|
  {
    var (o, e) := (u.chunks[i].offset, u.chunks[i].End());
    e <= |file| && e <= |u.b| && file[o..e] == u.b[o..e]
  }

  ghost predicate Honest(s: State, i: nat, result: Option<Text>) {
    result.None? ==> i < |s.applied| && s.applied[i]
  }

  ghost predicate Inv(u: Setup, s: State) {
    && TransferPool.Inv(|u.chunks|, s.pool)
    && |s.sent| == |s.applied| == |u.chunks| && |s.file| == |u.b|
    && (forall i :: 0 <= i < |u.chunks| && s.applied[i] ==> Written(u, s.file, i))
    && (forall w :: 0 <= w < |s.pool.workers| && s.pool.workers[w].Sending? ==>
          Honest(s, s.pool.workers[w].chunk, s.pool.workers[w].result))
    && (forall r :: r in s.pool.replies || r in s.pool.collected ==> Honest(s, r.chunk, r.result))
  }

  /** Replacing one part of a file leaves what lies before and behind it. */
  lemma SpliceKeeps(file: seq<byte>, body: seq<byte>, o: nat, e: nat, x: nat, y: nat)
    requires o <= e <= |file| && |body| == e - o
    requires x <= y <= |file|
    ensures var spliced := file[..o] + body + file[e..];
            && |spliced| == |file| && spliced[o..e] == body
            && (y <= o || e <= x ==> spliced[x..y] == file[x..y])
  {
  }

  /** Executing a write of one chunk, for the first time or again, completes that chunk and keeps
      every other one. */
  lemma ExecuteKeeps(u: Setup, s: State, i: nat, s': State, j: nat)
    requires SetupOk(u) && |s.file| == |u.b| && Next(u, s, Execute(i), s') && j < |u.chunks|
    ensures |s'.file| == |u.b| && Written(u, s'.file, i)
    ensures Written(u, s.file, j) ==> Written(u, s'.file, j)
  {
    var ch := u.chunks[i];
    TilesDisjoint(u.chunks, |u.b|, u.chunkSize, i, j);
    TilesDisjoint(u.chunks, |u.b|, u.chunkSize, j, i);
    PutRangeWrites(s.file, ch, u.b[ch.offset..ch.End()]);
    SpliceKeeps(s.file, u.b[ch.offset..ch.End()], ch.offset, ch.End(), u.chunks[j].offset, u.chunks[j].End());
    hide Tiles, PutRange, Header;
  }

  lemma StepKeepsInv(u: Setup, s: State, step: Step, s': State)
    requires SetupOk(u) && Inv(u, s) && Next(u, s, step, s')
    ensures Inv(u, s')
  {
    hide SetupOk, PutRange, Header, Written, TransferPool.Inv;
    match step
    case Control(a) => StepInv(|u.chunks|, s.pool, a);
    case Request(w) =>
    case Execute(i) =>
      ExecuteKeeps(u, s, i, s', i);
      forall j | 0 <= j < |u.chunks| && Written(u, s.file, j)
        ensures Written(u, s'.file, j)
      {
        ExecuteKeeps(u, s, i, s', j);
      }
    case Last(w, result) => StepInv(|u.chunks|, s.pool, Finish(w, result));
  }

  ghost predicate IsRun(u: Setup, states: seq<State>, steps: seq<Step>) {
    && |states| == |steps| + 1
    && states[0] == Init(u)
    && forall i :: 0 <= i < |steps| ==> Next(u, states[i], steps[i], states[i + 1])
  }

  lemma {:induction false} RunInv(u: Setup, states: seq<State>, steps: seq<Step>, k: nat)
    requires SetupOk(u) && IsRun(u, states, steps) && k < |states|
    ensures Inv(u, states[k])
  {
    if k == 0 {
      TransferPool.InitInv(|u.chunks|, u.parallelism);
    } else {
      RunInv(u, states, steps, k - 1);
      assert Next(u, states[k - 1], steps[k - 1], states[k - 1 + 1]);
      StepKeepsInv(u, states[k - 1], steps[k - 1], states[k]);
      hide Inv;
    }
  }

  /** Whatever the order of the range writes, and however often the server executed each of them:
      once nil has been returned the remote file is the buffer, and it stays so. */
  lemma UploadIsCorrect(u: Setup, states: seq<State>, steps: seq<Step>, k: nat)
    requires SetupOk(u) && IsRun(u, states, steps) && k < |states|
    requires states[k].pool.caller == Returned(None)
    ensures states[k].file == u.b
  {
    RunInv(u, states, steps, k);
    var s := states[k];
    ReturnMeans(|u.chunks|, s.pool);
    forall x | 0 <= x < |u.b|
      ensures s.file[x] == u.b[x]
    {
      var i := TilesCover(u.chunks, |u.b|, u.chunkSize, x);
      assert Count(ChunksOf(s.pool.collected), i) == 1;
      var c := CountWitness(ChunksOf(s.pool.collected), i);
      assert s.pool.collected[c] in s.pool.collected;
      assert Written(u, s.file, i);
      var o, e := u.chunks[i].offset, u.chunks[i].End();
      assert o <= x < e <= |s.file|;
      assert s.file[o..e][x - o] == s.file[x] && u.b[o..e][x - o] == u.b[x];
    }
  }

  // ----- Where an error comes from -----

  /** The operation of chunk i ends with this error. */
  ghost predicate Fails(u: Setup, s: State, step: Step, i: nat, text: Text) {
    step.Last? && RunningOn(u, s, step.w) && s.pool.workers[step.w].chunk == i && step.result == Some(text)
  }

  ghost predicate Failed(u: Setup, states: seq<State>, steps: seq<Step>, k: nat, i: nat, text: Text)
    requires k <= |steps| < |states|
  {
    exists j :: 0 <= j < k && Fails(u, states[j], steps[j], i, text)
  }

  lemma StepErrors(u: Setup, s: State, step: Step, s': State, i: nat, text: Text)
    requires Next(u, s, step, s')
    ensures HasError(s'.pool, i, text) <==> HasError(s.pool, i, text) || Fails(u, s, step, i, text)
  {
    hide HasError, PutRange, Header;
    match step
    case Control(a) => ErrorsMove(|u.chunks|, s.pool, a, i, text);
    case Request(_) =>
    case Execute(_) =>
    case Last(w, result) => ErrorsMove(|u.chunks|, s.pool, Finish(w, result), i, text);
  }

  lemma {:induction false} ErrorsAreFailures(u: Setup, states: seq<State>, steps: seq<Step>, k: nat, i: nat, text: Text)
    requires IsRun(u, states, steps) && k <= |steps|
    ensures HasError(states[k].pool, i, text) <==> Failed(u, states, steps, k, i, text)
  {
    if k > 0 {
      ErrorsAreFailures(u, states, steps, k - 1, i, text);
      assert Next(u, states[k - 1], steps[k - 1], states[k - 1 + 1]);
      StepErrors(u, states[k - 1], steps[k - 1], states[k], i, text);
      hide HasError, Fails, Next;
    }
  }

  /** An error is returned only if some operation ended with it, and nil only if all ended without. */
  lemma ErrorMeans(u: Setup, states: seq<State>, steps: seq<Step>, k: nat)
    requires SetupOk(u) && IsRun(u, states, steps) && k <= |steps| && states[k].pool.caller.Returned?
    ensures var result := states[k].pool.caller.result;
            if result.Some? then exists i :: Failed(u, states, steps, k, i, result.value)
            else forall i, text :: !Failed(u, states, steps, k, i, text)
  {
    RunInv(u, states, steps, k);
    hide IsRun, Failed, HasError;
    ReturnHasError(|u.chunks|, states[k].pool);
    forall i: nat, text
      ensures HasError(states[k].pool, i, text) <==> Failed(u, states, steps, k, i, text)
    {
      ErrorsAreFailures(u, states, steps, k, i, text);
    }
  }

  lemma CanExecute(u: Setup, s: State, i: nat) returns (s': State)
    requires SetupOk(u) && i < |u.chunks| == |s.sent| == |s.applied| && s.sent[i] && |s.file| == |u.b|
    ensures Next(u, s, Execute(i), s') && s'.pool == s.pool
    ensures s'.sent == s.sent && s'.applied == s.applied[i := true]
  {
    TilesDisjoint(u.chunks, |u.b|, u.chunkSize, i, i);
    hide Tiles, PutRange, Header;
    var ch := u.chunks[i];
    PutRangeWrites(s.file, ch, u.b[ch.offset..ch.End()]);
    s' := State(s.pool, s.sent, s.applied[i := true], PutRange(s.file, Header(ch), u.b[ch.offset..ch.End()]).value);
  }

  lemma CanRequest(u: Setup, s: State, w: nat) returns (s': State)
    requires RunningOn(u, s, w)
    ensures Next(u, s, Request(w), s') && s'.pool == s.pool && s'.file == s.file
    ensures |s'.sent| == |s'.applied| == |u.chunks| && s'.sent[s.pool.workers[w].chunk]
  {
    s' := s.(sent := s.sent[s.pool.workers[w].chunk := true]);
  }

  lemma CanEnd(u: Setup, s: State, w: nat) returns (s': State)
    requires RunningOn(u, s, w) && s.applied[s.pool.workers[w].chunk]
    ensures Next(u, s, Last(w, None), s')
  {
    s' := s.(pool := Apply(|u.chunks|, s.pool, Finish(w, None)));
  }

  /** An operation can always succeed: its request can be sent, executed, and answered. */
  lemma CanSucceed(u: Setup, s: State, w: nat) returns (sent: State, executed: State, ended: State)
    requires SetupOk(u) && Inv(u, s) && w < |s.pool.workers| && s.pool.workers[w].Running?
    ensures Next(u, s, Request(w), sent) && Next(u, sent, Execute(s.pool.workers[w].chunk), executed)
    ensures Next(u, executed, Last(w, None), ended)
  {
    OneWorkerPerChunk(|u.chunks|, s.pool, w, w);
    assert RunningOn(u, s, w) && |s.file| == |u.b|;
    hide SetupOk, Inv, Next;
    sent := CanRequest(u, s, w);
    executed := CanExecute(u, sent, s.pool.workers[w].chunk);
    ended := CanEnd(u, executed, w);
  }

  /** An upload in which nothing more can happen has returned and left no goroutine behind. */
  lemma UploadNeverStuck(u: Setup, s: State) returns (step: Step, s': State)
    requires SetupOk(u) && Inv(u, s) && u.parallelism >= 1 && |s.pool.workers| == u.parallelism
    requires !Terminated(s.pool)
    ensures Next(u, s, step, s')
  {
    var a := NeverStuck(|u.chunks|, s.pool);
    if a.Finish? {
      OneWorkerPerChunk(|u.chunks|, s.pool, a.w, a.w);
      a := Finish(a.w, Some("reset"));
      step := Last(a.w, a.result);
    } else {
      step := Control(a);
    }
    s' := s.(pool := Apply(|u.chunks|, s.pool, a));
    hide TransferPool.Inv;
  }
}
