/** The progress closures of uploads and downloads (azfile/highlevel.go): every range counts its own
    bytes and adds what changed to a total that the ranges share under a lock. */
module Progress {
  import opened Text
  import opened Ranges

  /** Where the closure of a range stands: not called; its difference computed and waiting for the
      lock; holding the lock before and after reading the total; calling the receiver. */
  datatype Phase = Idle | Waiting(diff: int) | Locked(diff: int) | Loaded(diff: int, total: int) | Reporting

  datatype Range = Range(count: nat, progress: int, phase: Phase) {
    /** What the range has still to add to the total. */
    function Pending(): int {
      match phase
      case Waiting(diff) => diff
      case Locked(diff) => diff
      case Loaded(diff, _) => diff
      case _ => 0
    }

    function Applied(): int {
      progress - Pending()
    }

    predicate HoldsLock() {
      phase.Locked? || phase.Loaded? || phase.Reporting?
    }
  }

  datatype State = State(ranges: seq<Range>, fileProgress: int, lock: Option<nat>, reported: seq<int>)

  datatype Step = Call(r: nat, bytesTransferred: int) | Acquire(r: nat) | Load(r: nat) | Store(r: nat) | Release(r: nat)

  function Init(chunks: seq<Chunk>): State {
    State(seq(|chunks|, i requires 0 <= i < |chunks| => Range(chunks[i].count, 0, Idle)), 0, None, [])
  }

  /** A range reports any number of its bytes, also fewer than before when it was rewound. */
  predicate Enabled(s: State, step: Step) {
    && step.r < |s.ranges|
    && var range := s.ranges[step.r];
       match step
       case Call(_, n) => range.phase.Idle? && 0 <= n <= range.count
       case Acquire(_) => range.phase.Waiting? && s.lock.None?
       case Load(_) => range.phase.Locked?
       case Store(_) => range.phase.Loaded?
       case Release(_) => range.phase.Reporting?
  }

  function Apply(s: State, step: Step): State
    requires Enabled(s, step)
  {
    var range := s.ranges[step.r];
    match step
    case Call(r, n) => s.(ranges := s.ranges[r := range.(progress := n, phase := Waiting(n - range.progress))])
    case Acquire(r) => s.(ranges := s.ranges[r := range.(phase := Locked(range.phase.diff))], lock := Some(r))
    case Load(r) => s.(ranges := s.ranges[r := range.(phase := Loaded(range.phase.diff, s.fileProgress))])
    case Store(r) =>
      var total := range.phase.total + range.phase.diff;
      State(s.ranges[r := range.(phase := Reporting)], total, s.lock, s.reported + [total])
    case Release(r) => s.(ranges := s.ranges[r := range.(phase := Idle)], lock := None)
  }

  function SumProgress(ranges: seq<Range>): int {
    if ranges == [] then 0 else ranges[0].progress + SumProgress(ranges[1..])
  }

  function SumPending(ranges: seq<Range>): int {
    if ranges == [] then 0 else ranges[0].Pending() + SumPending(ranges[1..])
  }

  function SumCounts(ranges: seq<Range>): nat {
    if ranges == [] then 0 else ranges[0].count + SumCounts(ranges[1..])
  }

  lemma {:induction false} SumsUpdate(ranges: seq<Range>, r: nat, x: Range)
    requires r < |ranges|
    ensures SumProgress(ranges[r := x]) == SumProgress(ranges) - ranges[r].progress + x.progress
    ensures SumPending(ranges[r := x]) == SumPending(ranges) - ranges[r].Pending() + x.Pending()
    ensures SumCounts(ranges[r := x]) == SumCounts(ranges) - ranges[r].count + x.count
  {
    assert ranges[r := x][1..] == if r == 0 then ranges[1..] else ranges[1..][r - 1 := x];
    if r > 0 {
      SumsUpdate(ranges[1..], r - 1, x);
    }
  }

  ghost predicate InBounds(ranges: seq<Range>) {
    forall r :: 0 <= r < |ranges| ==>
      0 <= ranges[r].progress <= ranges[r].count && 0 <= ranges[r].Applied() <= ranges[r].count
  }

  lemma {:induction false} SumsBound(ranges: seq<Range>)
    requires InBounds(ranges)
    ensures 0 <= SumProgress(ranges) - SumPending(ranges) <= SumCounts(ranges)
  {
    if ranges != [] {
      SumsBound(ranges[1..]);
    }
  }

  /** The total and the differences not yet added make up the sum of all ranges. */
  ghost predicate Sums(size: nat, s: State) {
    && s.fileProgress + SumPending(s.ranges) == SumProgress(s.ranges)
    && SumCounts(s.ranges) == size
    && InBounds(s.ranges)
  }

  /** A closure past the lock has it, and sees the total as it is. */
  ghost predicate Locking(s: State) {
    && (forall r :: 0 <= r < |s.ranges| ==> (s.ranges[r].HoldsLock() <==> s.lock == Some(r)))
    && (forall r :: 0 <= r < |s.ranges| && s.ranges[r].phase.Loaded? ==> s.ranges[r].phase.total == s.fileProgress)
  }

  ghost predicate Reports(size: nat, s: State) {
    && (forall k :: 0 <= k < |s.reported| ==> 0 <= s.reported[k] <= size)
    && s.fileProgress == if s.reported == [] then 0 else s.reported[|s.reported| - 1]
  }

  ghost predicate Inv(size: nat, s: State) {
    Sums(size, s) && Locking(s) && Reports(size, s)
  }

  lemma {:induction false} ChunksSum(chunks: seq<Chunk>, n: nat)
    requires n <= |chunks|
    ensures SumProgress(Init(chunks).ranges[n..]) == 0 && SumPending(Init(chunks).ranges[n..]) == 0
    ensures n < |chunks| && (forall i :: 0 <= i < |chunks| - 1 ==> chunks[i].End() == chunks[i + 1].offset) ==>
              SumCounts(Init(chunks).ranges[n..]) == chunks[|chunks| - 1].End() - chunks[n].offset
    decreases |chunks| - n
  {
    var ranges := Init(chunks).ranges;
    if n < |chunks| {
      assert ranges[n..][1..] == ranges[n + 1..];
      ChunksSum(chunks, n + 1);
    }
  }

  lemma InitInv(chunks: seq<Chunk>, size: nat, chunkSize: nat)
    requires Tiles(chunks, size, chunkSize)
    ensures Inv(size, Init(chunks))
  {
    ChunksSum(chunks, 0);
    assert Init(chunks).ranges[0..] == Init(chunks).ranges;
  }

  lemma StepKeepsSums(size: nat, s: State, step: Step)
    requires Sums(size, s) && Locking(s) && Enabled(s, step)
    ensures Sums(size, Apply(s, step))
  {
    var s' := Apply(s, step);
    SumsUpdate(s.ranges, step.r, s'.ranges[step.r]);
  }

  lemma StepKeepsLocking(s: State, step: Step)
    requires Locking(s) && Enabled(s, step)
    ensures Locking(Apply(s, step))
  {
  }

  lemma StepKeepsInv(size: nat, s: State, step: Step)
    requires Inv(size, s) && Enabled(s, step)
    ensures Inv(size, Apply(s, step))
  {
    var s' := Apply(s, step);
    StepKeepsSums(size, s, step);
    StepKeepsLocking(s, step);
    SumsBound(s'.ranges);
    hide Locking, InBounds;
  }

  ghost predicate IsRun(chunks: seq<Chunk>, states: seq<State>, steps: seq<Step>) {
    && |states| == |steps| + 1
    && states[0] == Init(chunks)
    && forall i :: 0 <= i < |steps| ==> Enabled(states[i], steps[i]) && states[i + 1] == Apply(states[i], steps[i])
  }

  lemma {:induction false} RunInv(chunks: seq<Chunk>, size: nat, chunkSize: nat, states: seq<State>, steps: seq<Step>,
                                  k: nat)
    requires Tiles(chunks, size, chunkSize) && IsRun(chunks, states, steps) && k < |states|
    ensures Inv(size, states[k]) && |states[k].ranges| == |chunks|
  {
    if k == 0 {
      InitInv(chunks, size, chunkSize);
    } else {
      RunInv(chunks, size, chunkSize, states, steps, k - 1);
      assert states[k - 1 + 1] == Apply(states[k - 1], steps[k - 1]);
      StepKeepsInv(size, states[k - 1], steps[k - 1]);
    }
  }

  /** In every interleaving: the total plus what is pending is the sum of the ranges, nothing ever
      reported lies outside the transfer, at most one closure is past the lock, and when every range
      has reported all its bytes and is out of the lock the total is the size. */
  lemma ProgressIsConserved(chunks: seq<Chunk>, size: nat, chunkSize: nat, states: seq<State>, steps: seq<Step>, k: nat)
    requires Tiles(chunks, size, chunkSize) && IsRun(chunks, states, steps) && k < |states|
    ensures var s := states[k];
            && s.fileProgress + SumPending(s.ranges) == SumProgress(s.ranges)
            && (forall j :: 0 <= j < |s.reported| ==> 0 <= s.reported[j] <= size)
            && (forall q, r :: 0 <= q < |s.ranges| && 0 <= r < |s.ranges| ==>
                  s.ranges[q].HoldsLock() && s.ranges[r].HoldsLock() ==> q == r)
            && ((forall r :: 0 <= r < |s.ranges| ==>
                 s.ranges[r].phase.Idle? && s.ranges[r].progress == s.ranges[r].count) ==>
                  s.fileProgress == size)
  {
    RunInv(chunks, size, chunkSize, states, steps, k);
    var s := states[k];
    if forall r :: 0 <= r < |s.ranges| ==> s.ranges[r].phase.Idle? && s.ranges[r].progress == s.ranges[r].count {
      AllDone(s.ranges);
    }
  }

  /** A report is made in one kind of step only, which adds what its range had pending, and it is the
      total just after: what all ranges have added until then. */
  lemma ReportIsTotal(chunks: seq<Chunk>, size: nat, chunkSize: nat, states: seq<State>, steps: seq<Step>, k: nat)
    requires Tiles(chunks, size, chunkSize) && IsRun(chunks, states, steps) && k < |steps|
    ensures var (s, s', step) := (states[k], states[k + 1], steps[k]);
            if step.Store? then
              && step.r < |s.ranges| && s'.fileProgress == s.fileProgress + s.ranges[step.r].Pending()
              && s'.reported == s.reported + [s'.fileProgress]
              && s'.fileProgress == SumProgress(s'.ranges) - SumPending(s'.ranges)
            else s'.reported == s.reported && s'.fileProgress == s.fileProgress
  {
    RunInv(chunks, size, chunkSize, states, steps, k);
    RunInv(chunks, size, chunkSize, states, steps, k + 1);
  }

  /** What a closure adds, when it reports, is what its range has more, or less, than at its last call. */
  lemma PendingIsChange(s: State, n: int, r: nat)
    requires Enabled(s, Call(r, n))
    ensures var s' := Apply(s, Call(r, n));
            && s'.ranges[r].progress == n && s'.ranges[r].Pending() == n - s.ranges[r].progress
            && s'.reported == s.reported && forall q :: 0 <= q < |s.ranges| && q != r ==> s'.ranges[q] == s.ranges[q]
  {
  }

  /** When every range has reported all its bytes and is out of the lock, the last report was the size. */
  lemma LastReportIsSize(chunks: seq<Chunk>, size: nat, chunkSize: nat, states: seq<State>, steps: seq<Step>, k: nat)
    requires Tiles(chunks, size, chunkSize) && IsRun(chunks, states, steps) && k < |states|
    requires forall range :: range in states[k].ranges ==> range.phase.Idle? && range.progress == range.count
    ensures states[k].reported != [] && states[k].reported[|states[k].reported| - 1] == size
  {
    ProgressIsConserved(chunks, size, chunkSize, states, steps, k);
    RunInv(chunks, size, chunkSize, states, steps, k);
    TilesDisjoint(chunks, size, chunkSize, 0, 0);
    hide Tiles;
  }

  lemma {:induction false} AllDone(ranges: seq<Range>)
    requires forall r :: 0 <= r < |ranges| ==> ranges[r].phase.Idle? && ranges[r].progress == ranges[r].count
    ensures SumPending(ranges) == 0 && SumProgress(ranges) == SumCounts(ranges)
  {
    if ranges != [] {
      AllDone(ranges[1..]);
    }
  }
}
