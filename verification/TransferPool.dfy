/** doBatchTransfer's channels, workers and collector (azfile/highlevel.go) as a transition
    system. Goroutines interleave freely; what an operation does is left to the users of the pool. */
module TransferPool {
  import opened Text

  /** A goroutine of the pool: waiting on the operation channel, executing the operation of a
      chunk, sending its result, or gone. */
  datatype Worker = Idle | Running(chunk: nat) | Sending(chunk: nat, result: Option<Text>) | Exited

  datatype Reply = Reply(chunk: nat, result: Option<Text>)

  /** The calling goroutine: in its submission loop, in its collection loop, or back at its caller. */
  datatype Caller = Submitting | Collecting | Returned(result: Option<Text>)

  /** `queue` is the operation channel, of capacity |workers|; `replies` the response channel, of
      capacity numChunks; `next` the number of chunks submitted. */
  datatype Pool = Pool(next: nat, queue: seq<nat>, workers: seq<Worker>, replies: seq<Reply>,
                       collected: seq<Reply>, caller: Caller)

  /** Work is a step inside an operation; it leaves the pool alone. */
  datatype Action =
    | Submit | Close | Collect | ReturnNil
    | Take(w: nat) | Work(w: nat) | Finish(w: nat, result: Option<Text>) | Send(w: nat) | Exit(w: nat)

  function Init(parallelism: nat): Pool {
    Pool(0, [], seq(parallelism, _ => Idle), [], [], Submitting)
  }

  predicate Enabled(numChunks: nat, p: Pool, a: Action) {
    match a
    case Submit => p.caller.Submitting? && p.next < numChunks && |p.queue| < |p.workers|
    case Close => p.caller.Submitting? && p.next == numChunks
    case Collect => p.caller.Collecting? && |p.collected| < numChunks && p.replies != []
    case ReturnNil => p.caller.Collecting? && |p.collected| == numChunks
    case Take(w) => w < |p.workers| && p.workers[w].Idle? && p.queue != []
    case Work(w) => w < |p.workers| && p.workers[w].Running?
    case Finish(w, _) => w < |p.workers| && p.workers[w].Running?
    case Send(w) => w < |p.workers| && p.workers[w].Sending? && |p.replies| < numChunks
    case Exit(w) => w < |p.workers| && p.workers[w].Idle? && p.queue == [] && !p.caller.Submitting?
  }

  function Apply(numChunks: nat, p: Pool, a: Action): Pool
    requires Enabled(numChunks, p, a)
  {
    match a
    case Submit => p.(next := p.next + 1, queue := p.queue + [p.next])
    case Close => p.(caller := Collecting)
    case Collect =>
      var r := p.replies[0];
      p.(replies := p.replies[1..], collected := p.collected + [r],
         caller := if r.result.Some? then Returned(r.result) else Collecting)
    case ReturnNil => p.(caller := Returned(None))
    case Take(w) => p.(queue := p.queue[1..], workers := p.workers[w := Running(p.queue[0])])
    case Work(w) => p
    case Finish(w, result) => p.(workers := p.workers[w := Sending(p.workers[w].chunk, result)])
    case Send(w) =>
      p.(replies := p.replies + [Reply(p.workers[w].chunk, p.workers[w].result)], workers := p.workers[w := Idle])
    case Exit(w) => p.(workers := p.workers[w := Exited])
  }

  // ----- Where the chunks are -----

  predicate Busy(w: Worker) {
    w.Running? || w.Sending?
  }

  function Has(w: Worker, c: nat): nat {
    if Busy(w) && w.chunk == c then 1 else 0
  }

  function Held(ws: seq<Worker>, c: nat): nat {
    if ws == [] then 0 else Has(ws[0], c) + Held(ws[1..], c)
  }

  function NumBusy(ws: seq<Worker>): nat {
    if ws == [] then 0 else (if Busy(ws[0]) then 1 else 0) + NumBusy(ws[1..])
  }

  function Count(chunks: seq<nat>, c: nat): nat {
    if chunks == [] then 0 else (if chunks[0] == c then 1 else 0) + Count(chunks[1..], c)
  }

  function ChunksOf(rs: seq<Reply>): seq<nat> {
    seq(|rs|, i requires 0 <= i < |rs| => rs[i].chunk)
  }

  /** How often a chunk has been begun: it is executing, being sent, buffered or collected. */
  function Begun(p: Pool, c: nat): nat {
    Held(p.workers, c) + Count(ChunksOf(p.replies), c) + Count(ChunksOf(p.collected), c)
  }

  function Places(p: Pool, c: nat): nat {
    Count(p.queue, c) + Begun(p, c)
  }

  function Total(p: Pool): nat {
    |p.queue| + NumBusy(p.workers) + |p.replies| + |p.collected|
  }

  ghost predicate AllNil(rs: seq<Reply>) {
    forall i :: 0 <= i < |rs| ==> rs[i].result.None?
  }

  /** Every submitted chunk is in exactly one place, and no other chunk is anywhere. */
  ghost predicate Conserved(p: Pool) {
    && Total(p) == p.next
    && forall c: nat :: Places(p, c) == if c < p.next then 1 else 0
  }

  /** What holds in every reachable state. */
  ghost predicate Inv(numChunks: nat, p: Pool) {
    && Conserved(p)
    && p.next <= numChunks
    && (!p.caller.Submitting? ==> p.next == numChunks)
    && (forall w :: 0 <= w < |p.workers| && p.workers[w].Exited? ==> !p.caller.Submitting? && p.queue == [])
    && match p.caller
       case Submitting => p.collected == []
       case Collecting => AllNil(p.collected)
       case Returned(None) => AllNil(p.collected) && |p.collected| == numChunks
       case Returned(e) => p.collected != [] && p.collected[|p.collected| - 1].result == e
  }

  lemma {:induction false} HeldUpdate(ws: seq<Worker>, w: nat, x: Worker, c: nat)
    requires w < |ws|
    ensures Held(ws[w := x], c) == Held(ws, c) - Has(ws[w], c) + Has(x, c)
    ensures Has(ws[w], c) <= Held(ws, c)
  {
    assert ws[w := x][1..] == if w == 0 then ws[1..] else ws[1..][w - 1 := x];
    if w > 0 {
      HeldUpdate(ws[1..], w - 1, x, c);
    }
  }

  lemma {:induction false} NumBusyUpdate(ws: seq<Worker>, w: nat, x: Worker)
    requires w < |ws|
    ensures NumBusy(ws[w := x]) == NumBusy(ws) - (if Busy(ws[w]) then 1 else 0) + (if Busy(x) then 1 else 0)
    ensures Busy(ws[w]) ==> NumBusy(ws) >= 1
  {
    assert ws[w := x][1..] == if w == 0 then ws[1..] else ws[1..][w - 1 := x];
    if w > 0 {
      NumBusyUpdate(ws[1..], w - 1, x);
    }
  }

  lemma {:induction false} CountAppend(s: seq<nat>, x: nat, c: nat)
    ensures Count(s + [x], c) == Count(s, c) + if x == c then 1 else 0
  {
    if s != [] {
      assert (s + [x])[1..] == s[1..] + [x];
      CountAppend(s[1..], x, c);
    }
  }

  lemma {:induction false} CountIn(s: seq<nat>, i: nat)
    requires i < |s|
    ensures Count(s, s[i]) >= 1
  {
    if i > 0 {
      CountIn(s[1..], i - 1);
    }
  }

  lemma {:induction false} CountWitness(s: seq<nat>, c: nat) returns (i: nat)
    requires Count(s, c) >= 1
    ensures i < |s| && s[i] == c
  {
    if s[0] == c {
      i := 0;
    } else {
      i := CountWitness(s[1..], c);
      i := i + 1;
    }
  }

  lemma ChunksOfEnds(rs: seq<Reply>, r: Reply)
    ensures ChunksOf(rs + [r]) == ChunksOf(rs) + [r.chunk]
    ensures rs != [] ==> ChunksOf(rs) == [rs[0].chunk] + ChunksOf(rs[1..])
  {
  }

  /** What one action does to the whereabouts of a chunk: only a submission adds it, and only a
      Take begins it. */
  lemma StepMoves(numChunks: nat, p: Pool, a: Action, c: nat)
    requires Enabled(numChunks, p, a)
    ensures var p' := Apply(numChunks, p, a);
            && Places(p', c) == Places(p, c) + (if a.Submit? && p.next == c then 1 else 0)
            && Begun(p', c) == Begun(p, c) + (if a.Take? && p.queue[0] == c then 1 else 0)
            && Total(p') == Total(p) + (if a.Submit? then 1 else 0)
  {
    var p' := Apply(numChunks, p, a);
    if a.Submit? {
      CountAppend(p.queue, p.next, c);
    } else if a.Collect? {
      ChunksOfEnds(p.replies, p.replies[0]);
      ChunksOfEnds(p.collected, p.replies[0]);
      CountAppend(ChunksOf(p.collected), p.replies[0].chunk, c);
    } else if a.Take? || a.Finish? || a.Send? || a.Exit? {
      HeldUpdate(p.workers, a.w, p'.workers[a.w], c);
      NumBusyUpdate(p.workers, a.w, p'.workers[a.w]);
      if a.Send? {
        var r := p'.replies[|p.replies|];
        ChunksOfEnds(p.replies, r);
        CountAppend(ChunksOf(p.replies), r.chunk, c);
      }
    }
  }

  lemma StepConserves(numChunks: nat, p: Pool, a: Action)
    requires Enabled(numChunks, p, a) && Conserved(p)
    ensures Conserved(Apply(numChunks, p, a))
  {
    var p' := Apply(numChunks, p, a);
    StepMoves(numChunks, p, a, 0);
    forall c: nat
      ensures Places(p', c) == if c < p'.next then 1 else 0
    {
      StepMoves(numChunks, p, a, c);
    }
  }

  lemma {:induction false} AllIdle(k: nat, c: nat)
    ensures Held(seq(k, _ => Idle), c) == 0 && NumBusy(seq(k, _ => Idle)) == 0 && TotalLoad(seq(k, _ => Idle)) == k
  {
    if k > 0 {
      assert seq(k, _ => Idle)[1..] == seq(k - 1, _ => Idle);
      AllIdle(k - 1, c);
    }
  }

  lemma InitInv(numChunks: nat, parallelism: nat)
    ensures Inv(numChunks, Init(parallelism))
  {
    AllIdle(parallelism, 0);
    forall c: nat
      ensures Places(Init(parallelism), c) == 0
    {
      AllIdle(parallelism, c);
    }
  }

  lemma StepInv(numChunks: nat, p: Pool, a: Action)
    requires Inv(numChunks, p) && Enabled(numChunks, p, a)
    ensures Inv(numChunks, Apply(numChunks, p, a))
  {
    StepConserves(numChunks, p, a);
    hide Conserved;
  }

  // ----- Conservation -----

  lemma {:induction false} HeldTwice(ws: seq<Worker>, v: nat, w: nat, c: nat)
    requires v < w < |ws|
    ensures Has(ws[v], c) + Has(ws[w], c) <= Held(ws, c)
  {
    if v == 0 {
      HeldUpdate(ws[1..], w - 1, Idle, c);
    } else {
      HeldTwice(ws[1..], v - 1, w - 1, c);
    }
  }

  /** No two workers ever have the same chunk, and a chunk in the channel has not been begun. */
  lemma OneWorkerPerChunk(numChunks: nat, p: Pool, v: nat, w: nat)
    requires Inv(numChunks, p) && v < |p.workers| && w < |p.workers|
    requires Busy(p.workers[v]) && Busy(p.workers[w]) && p.workers[v].chunk == p.workers[w].chunk
    ensures v == w
    ensures p.workers[v].chunk < p.next
    ensures p.workers[v].chunk !in p.queue && forall r :: r in p.replies + p.collected ==> r.chunk != p.workers[v].chunk
  {
    var c := p.workers[v].chunk;
    assert Places(p, c) <= 1;
    HeldUpdate(p.workers, v, Idle, c);
    if v != w {
      HeldTwice(p.workers, if v < w then v else w, if v < w then w else v, c);
    }
    Elsewhere(p, c);
  }

  lemma Elsewhere(p: Pool, c: nat)
    ensures c in p.queue ==> Count(p.queue, c) >= 1
    ensures forall r :: r in p.replies && r.chunk == c ==> Count(ChunksOf(p.replies), c) >= 1
    ensures forall r :: r in p.collected && r.chunk == c ==> Count(ChunksOf(p.collected), c) >= 1
  {
    if i :| 0 <= i < |p.queue| && p.queue[i] == c {
      CountIn(p.queue, i);
    }
    forall r | r in p.replies && r.chunk == c
      ensures Count(ChunksOf(p.replies), c) >= 1
    {
      var i :| 0 <= i < |p.replies| && p.replies[i] == r;
      CountIn(ChunksOf(p.replies), i);
    }
    forall r | r in p.collected && r.chunk == c
      ensures Count(ChunksOf(p.collected), c) >= 1
    {
      var i :| 0 <= i < |p.collected| && p.collected[i] == r;
      CountIn(ChunksOf(p.collected), i);
    }
  }

  /** A worker with a result never waits: the response channel has room for every result. */
  lemma SendNeverBlocks(numChunks: nat, p: Pool, w: nat)
    requires Inv(numChunks, p)
    requires w < |p.workers| && p.workers[w].Sending?
    ensures Enabled(numChunks, p, Send(w))
  {
    NumBusyUpdate(p.workers, w, Idle);
  }

  // ----- Progress -----

  function Load(w: Worker): nat {
    match w
    case Idle => 1
    case Running(_) => 4
    case Sending(_, _) => 3
    case Exited => 0
  }

  function TotalLoad(ws: seq<Worker>): nat {
    if ws == [] then 0 else Load(ws[0]) + TotalLoad(ws[1..])
  }

  lemma {:induction false} TotalLoadUpdate(ws: seq<Worker>, w: nat, x: Worker)
    requires w < |ws|
    ensures TotalLoad(ws[w := x]) == TotalLoad(ws) - Load(ws[w]) + Load(x)
  {
    if w > 0 {
      assert ws[w := x][1..] == ws[1..][w - 1 := x];
      TotalLoadUpdate(ws[1..], w - 1, x);
    } else {
      assert ws[w := x][1..] == ws[1..];
    }
  }

  /** The steps still to be made, each chunk counted by how far it has to go. */
  function Measure(numChunks: nat, p: Pool): nat {
    5 * (if p.next <= numChunks then numChunks - p.next else 0) + 4 * |p.queue| + TotalLoad(p.workers) + |p.replies|
    + (match p.caller case Submitting => 2 case Collecting => 1 case Returned(_) => 0)
  }

  /** Every action but a step inside an operation brings the pool closer to its end. */
  lemma MeasureFalls(numChunks: nat, p: Pool, a: Action)
    requires Enabled(numChunks, p, a)
    ensures a.Work? ==> Apply(numChunks, p, a) == p
    ensures !a.Work? ==> Measure(numChunks, Apply(numChunks, p, a)) < Measure(numChunks, p)
  {
    var p' := Apply(numChunks, p, a);
    if a.Take? || a.Finish? || a.Send? || a.Exit? {
      TotalLoadUpdate(p.workers, a.w, p'.workers[a.w]);
    }
  }

  /** The caller is back and every goroutine has ended. */
  ghost predicate Terminated(p: Pool) {
    p.caller.Returned? && forall w :: 0 <= w < |p.workers| ==> p.workers[w].Exited?
  }

  lemma {:induction false} NothingHeld(ws: seq<Worker>, c: nat)
    requires forall w :: 0 <= w < |ws| ==> !Busy(ws[w])
    ensures NumBusy(ws) == 0 && Held(ws, c) == 0
  {
    if ws != [] {
      NothingHeld(ws[1..], c);
    }
  }

  /** No deadlock and no leak: with at least one worker, as long as the caller is not back or
      some goroutine has not ended, something can happen, also after an early error return. */
  lemma NeverStuck(numChunks: nat, p: Pool) returns (a: Action)
    requires Inv(numChunks, p) && |p.workers| >= 1 && !Terminated(p)
    ensures Enabled(numChunks, p, a) && !a.Work?
  {
    if w :| 0 <= w < |p.workers| && p.workers[w].Running? {
      a := Finish(w, None);
    } else if w :| 0 <= w < |p.workers| && p.workers[w].Sending? {
      SendNeverBlocks(numChunks, p, w);
      a := Send(w);
    } else if p.queue != [] {
      assert !p.workers[0].Exited?;
      a := Take(0);
    } else if p.caller.Submitting? {
      a := if p.next < numChunks then Submit else Close;
    } else if w :| 0 <= w < |p.workers| && p.workers[w].Idle? {
      a := Exit(w);
    } else {
      NothingHeld(p.workers, 0);
      a := if p.replies != [] then Collect else ReturnNil;
    }
  }

  /** Without a worker the first submission waits for ever: the pool can start exactly when
      there is parallelism. */
  lemma StartsIffParallel(numChunks: nat, parallelism: nat)
    requires numChunks >= 1
    ensures (exists a :: Enabled(numChunks, Init(parallelism), a)) <==> parallelism >= 1
  {
    if parallelism >= 1 {
      assert Enabled(numChunks, Init(parallelism), Submit);
    }
  }

  // ----- Whole runs -----

  ghost predicate IsRun(numChunks: nat, parallelism: nat, states: seq<Pool>, actions: seq<Action>) {
    && |states| == |actions| + 1
    && states[0] == Init(parallelism)
    && forall i :: 0 <= i < |actions| ==> Leads(numChunks, states[i], actions[i], states[i + 1])
  }

  ghost predicate Leads(numChunks: nat, p: Pool, a: Action, p': Pool) {
    Enabled(numChunks, p, a) && p' == Apply(numChunks, p, a)
  }

  lemma {:induction false} RunInv(numChunks: nat, parallelism: nat, states: seq<Pool>, actions: seq<Action>, i: nat)
    requires IsRun(numChunks, parallelism, states, actions) && i < |states|
    ensures Inv(numChunks, states[i]) && |states[i].workers| == parallelism
  {
    if i == 0 {
      InitInv(numChunks, parallelism);
    } else {
      RunInv(numChunks, parallelism, states, actions, i - 1);
      assert Leads(numChunks, states[i - 1], actions[i - 1], states[i - 1 + 1]);
      StepInv(numChunks, states[i - 1], actions[i - 1]);
      hide Inv;
    }
  }

  /** How many of the first k actions are not steps inside an operation. */
  function PoolSteps(actions: seq<Action>, k: nat): nat
    requires k <= |actions|
  {
    if k == 0 then 0 else PoolSteps(actions, k - 1) + (if actions[k - 1].Work? then 0 else 1)
  }

  /** No schedule goes on for ever: apart from the steps inside operations a run has at most
      five steps a chunk, one a worker, and two. */
  lemma {:induction false} RunsEnd(numChunks: nat, parallelism: nat, states: seq<Pool>, actions: seq<Action>, k: nat)
    requires IsRun(numChunks, parallelism, states, actions) && k <= |actions|
    ensures PoolSteps(actions, k) + Measure(numChunks, states[k]) <= 5 * numChunks + parallelism + 2
  {
    if k == 0 {
      AllIdle(parallelism, 0);
    } else {
      RunsEnd(numChunks, parallelism, states, actions, k - 1);
      assert Leads(numChunks, states[k - 1], actions[k - 1], states[k - 1 + 1]);
      MeasureFalls(numChunks, states[k - 1], actions[k - 1]);
      hide Measure;
    }
  }

  /** How many of the first k actions begin chunk c. */
  function Takes(states: seq<Pool>, actions: seq<Action>, k: nat, c: nat): nat
    requires k <= |actions| <= |states|
  {
    if k == 0 then 0 else
    Takes(states, actions, k - 1, c)
    + (if actions[k - 1].Take? && states[k - 1].queue != [] && states[k - 1].queue[0] == c then 1 else 0)
  }

  /** No chunk is executed twice: it was begun as often as it is now running or done, at most once. */
  lemma {:induction false} ExecutedAtMostOnce(numChunks: nat, parallelism: nat, states: seq<Pool>, actions: seq<Action>,
                                              k: nat, c: nat)
    requires IsRun(numChunks, parallelism, states, actions) && k <= |actions|
    ensures Takes(states, actions, k, c) == Begun(states[k], c) <= 1
  {
    RunInv(numChunks, parallelism, states, actions, k);
    assert Places(states[k], c) <= 1;
    if k == 0 {
      AllIdle(parallelism, c);
    } else {
      ExecutedAtMostOnce(numChunks, parallelism, states, actions, k - 1, c);
      assert Leads(numChunks, states[k - 1], actions[k - 1], states[k - 1 + 1]);
      StepMoves(numChunks, states[k - 1], actions[k - 1], c);
      hide Inv, Begun;
    }
  }

  /** Every chunk was collected with a nil error, each exactly once. */
  ghost predicate AllSucceeded(numChunks: nat, p: Pool) {
    && AllNil(p.collected)
    && forall c :: 0 <= c < numChunks ==> Count(ChunksOf(p.collected), c) == 1
  }

  /** A nil return means that every chunk was executed once and succeeded, and only then is nil
      returned; an error return hands on the result of a chunk that was executed. */
  lemma ReturnMeans(numChunks: nat, p: Pool)
    requires Inv(numChunks, p) && p.caller.Returned?
    ensures p.caller.result.None? <==> AllSucceeded(numChunks, p)
    ensures p.caller.result.Some? ==> exists r :: r in p.collected && r.result == p.caller.result && r.chunk < numChunks
  {
    if p.caller.result.None? {
      assert NumBusy(p.workers) == 0 && p.queue == [] && p.replies == [];
      forall c | 0 <= c < numChunks
        ensures Count(ChunksOf(p.collected), c) == 1
      {
        assert Places(p, c) == 1;
        NoneBusy(p.workers, c);
      }
    } else {
      var r := p.collected[|p.collected| - 1];
      CountIn(ChunksOf(p.collected), |p.collected| - 1);
      assert Places(p, r.chunk) >= 1;
    }
  }

  lemma {:induction false} NoneBusy(ws: seq<Worker>, c: nat)
    requires NumBusy(ws) == 0
    ensures Held(ws, c) == 0
  {
    if ws != [] {
      NoneBusy(ws[1..], c);
    }
  }

  // ----- Where an error comes from -----

  /** Some worker is sending this error of chunk i, or it is on its way to the caller, or collected. */
  ghost predicate HasError(p: Pool, i: nat, text: Text) {
    || (exists w :: 0 <= w < |p.workers| && p.workers[w] == Sending(i, Some(text)))
    || Reply(i, Some(text)) in p.replies || Reply(i, Some(text)) in p.collected
  }

  /** Only the end of an operation makes an error, and none is lost. */
  lemma ErrorsMove(numChunks: nat, p: Pool, a: Action, i: nat, text: Text)
    requires Enabled(numChunks, p, a)
    ensures HasError(Apply(numChunks, p, a), i, text) <==>
            HasError(p, i, text) || (a.Finish? && p.workers[a.w].chunk == i && a.result == Some(text))
  {
    var p', r := Apply(numChunks, p, a), Reply(i, Some(text));
    if w :| 0 <= w < |p.workers| && p.workers[w] == Sending(i, Some(text)) {
      if a.Send? && a.w == w {
        assert r in p'.replies;
      } else {
        assert p'.workers[w] == p.workers[w];
      }
    }
    if a.Finish? && p.workers[a.w].chunk == i && a.result == Some(text) {
      assert p'.workers[a.w] == Sending(i, Some(text));
    }
    if a.Collect? {
      assert p.replies == [p.replies[0]] + p'.replies;
    }
    if w :| 0 <= w < |p'.workers| && p'.workers[w] == Sending(i, Some(text)) {
      assert p.workers[w] == p'.workers[w] || (a.Finish? && a.w == w);
    }
  }

  /** The caller returns an error that some operation ended with, and nil only if none did. */
  lemma ReturnHasError(numChunks: nat, p: Pool)
    requires Inv(numChunks, p) && p.caller.Returned?
    ensures if p.caller.result.Some? then exists i :: HasError(p, i, p.caller.result.value)
            else forall i, text :: !HasError(p, i, text)
  {
    ReturnMeans(numChunks, p);
    if p.caller.result.Some? {
      var r :| r in p.collected && r.result == p.caller.result;
      assert HasError(p, r.chunk, r.result.value);
    } else {
      forall i: nat, text
        ensures !HasError(p, i, text)
      {
        if w :| 0 <= w < |p.workers| && p.workers[w] == Sending(i, Some(text)) {
          NumBusyUpdate(p.workers, w, Idle);
        }
      }
    }
  }
}
