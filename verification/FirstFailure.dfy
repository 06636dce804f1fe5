/** A parallel map that keeps the lowest failure, as a protocol of workers over one relaxed
    atomic: a hint that only falls, read as stale as it may be. */
module FirstFailure {
  import opened Bytes

  /** Where the work on one index stands. A worker loads the hint, then skips or works; a failure
      is reported to the hint before its slot is filled. */
  datatype Task<+T, +E> =
    | Waiting
    | Working
    | Failing(error: E)
    | Reported(error: E)
    | Done(slot: Option<Result<T, E>>)

  /** The values the hint has held, the last its value now, and the tasks of the indices from
      `first` on. */
  datatype Pool<+T, +E> = Pool(first: nat, hint: seq<nat>, tasks: seq<Task<T, E>>)

  type Work<T, E> = nat -> Result<T, E>

  ghost predicate Starts<T, E>(p: Pool<T, E>) {
    p.hint == [USIZE_MAX] && forall i :: 0 <= i < |p.tasks| ==> p.tasks[i].Waiting?
  }

  /** The worker on task `i` can step; a load of the hint sees the value it held at `seen`. */
  predicate CanStep<T, E>(p: Pool<T, E>, i: nat, seen: nat) {
    i < |p.tasks| && !p.tasks[i].Done? && seen < |p.hint|
  }

  /** One step of the worker on task `i`. Its load of the hint, relaxed, sees any value the hint
      has held. */
  function Next<T, E>(work: Work<T, E>, p: Pool<T, E>, i: nat, seen: nat): (q: Pool<T, E>)
    requires CanStep(p, i, seen)
    ensures q.first == p.first && |q.tasks| == |p.tasks|
  {
    match p.tasks[i]
    case Waiting =>
      p.(tasks := p.tasks[i := if p.first + i > p.hint[seen] then Done(None) else Working])
    case Working =>
      p.(tasks := p.tasks[i := match work(p.first + i)
                               case Ok(value) => Done(Some(Ok(value)))
                               case Err(error) => Failing(error)])
    case Failing(error) =>
      Pool(p.first, p.hint + [Min(p.hint[|p.hint| - 1], p.first + i)], p.tasks[i := Reported(error)])
    case Reported(error) =>
      p.(tasks := p.tasks[i := Done(Some(Err(error)))])
  }

  ghost predicate Step<T, E>(work: Work<T, E>, p: Pool<T, E>, q: Pool<T, E>, i: nat, seen: nat) {
    CanStep(p, i, seen) && q == Next(work, p, i, seen)
  }

  // ---- What every schedule keeps ----

  /** A failure the hint has been told of: its slot is filled with it, or about to be. */
  ghost predicate IsKnown<T, E>(work: Work<T, E>, p: Pool<T, E>, j: nat) {
    && j < |p.tasks| && work(p.first + j).Err?
    && (p.tasks[j] == Reported(work(p.first + j).error) || p.tasks[j] == Done(Some(work(p.first + j))))
  }

  /** A task holds what its work gives, or it skipped past a known failure. */
  ghost predicate IsSound<T, E>(work: Work<T, E>, p: Pool<T, E>, i: nat)
    requires i < |p.tasks|
  {
    match p.tasks[i]
    case Failing(error) => work(p.first + i) == Err(error)
    case Reported(error) => work(p.first + i) == Err(error)
    case Done(Some(result)) => work(p.first + i) == result
    case Done(None) => exists j: nat :: j < i && IsKnown(work, p, j)
    case _ => true
  }

  /** Every value the hint has held is its start or a known failure's index. */
  ghost predicate IsHint<T, E>(work: Work<T, E>, p: Pool<T, E>, value: nat) {
    value == USIZE_MAX || (p.first <= value && IsKnown(work, p, value - p.first))
  }

  ghost predicate Invariant<T, E>(work: Work<T, E>, p: Pool<T, E>) {
    && p.hint != [] && p.first + |p.tasks| <= USIZE_MAX
    && (forall k :: 0 <= k < |p.hint| ==> IsHint(work, p, p.hint[k]))
    && forall i :: 0 <= i < |p.tasks| ==> IsSound(work, p, i)
  }

  lemma StartKeeps<T, E>(work: Work<T, E>, p: Pool<T, E>)
    requires Starts(p) && p.first + |p.tasks| <= USIZE_MAX
    ensures Invariant(work, p)
  {
  }

  /** A known failure stays known. */
  lemma KnownStays<T, E>(work: Work<T, E>, p: Pool<T, E>, q: Pool<T, E>, i: nat, seen: nat, j: nat)
    requires Step(work, p, q, i, seen) && Invariant(work, p) && IsKnown(work, p, j)
    ensures IsKnown(work, q, j)
  {
    assert IsSound(work, p, i);
  }

  lemma HintStays<T, E>(work: Work<T, E>, p: Pool<T, E>, q: Pool<T, E>, i: nat, seen: nat, value: nat)
    requires Step(work, p, q, i, seen) && Invariant(work, p) && IsHint(work, p, value)
    ensures IsHint(work, q, value)
  {
    if value != USIZE_MAX {
      KnownStays(work, p, q, i, seen, value - p.first);
    }
  }

  lemma SoundStays<T, E>(work: Work<T, E>, p: Pool<T, E>, q: Pool<T, E>, i: nat, seen: nat, k: nat)
    requires Step(work, p, q, i, seen) && Invariant(work, p) && k < |p.tasks| && k != i
    ensures IsSound(work, q, k)
  {
    assert IsSound(work, p, k) && q.tasks[k] == p.tasks[k];
    if p.tasks[k].Done? && p.tasks[k].slot == None {
      var j: nat :| j < k && IsKnown(work, p, j);
      KnownStays(work, p, q, i, seen, j);
    }
  }

  /** The task that steps stays sound: it skips only past a failure the hint was told of. */
  lemma StepIsSound<T, E>(work: Work<T, E>, p: Pool<T, E>, q: Pool<T, E>, i: nat, seen: nat)
    requires Step(work, p, q, i, seen) && Invariant(work, p)
    ensures IsSound(work, q, i)
  {
    assert IsSound(work, p, i);
    if p.tasks[i].Waiting? && p.first + i > p.hint[seen] {
      var j := p.hint[seen] - p.first;
      assert IsHint(work, p, p.hint[seen]);
      KnownStays(work, p, q, i, seen, j);
    }
  }

  /** Every step of every worker keeps the invariant, whatever it saw of the hint. */
  lemma StepKeeps<T, E>(work: Work<T, E>, p: Pool<T, E>, q: Pool<T, E>, i: nat, seen: nat)
    requires Step(work, p, q, i, seen) && Invariant(work, p)
    ensures Invariant(work, q)
  {
    forall k | 0 <= k < |q.tasks| ensures IsSound(work, q, k) {
      if k == i {
        StepIsSound(work, p, q, i, seen);
      } else {
        SoundStays(work, p, q, i, seen, k);
      }
    }
    forall k | 0 <= k < |q.hint| ensures IsHint(work, q, q.hint[k]) {
      if k < |p.hint| {
        HintStays(work, p, q, i, seen, p.hint[k]);
      } else {
        HintStays(work, p, q, i, seen, p.hint[k - 1]);
        assert IsSound(work, p, i) && IsKnown(work, q, i);
      }
    }
  }

  // ---- Every schedule ends ----

  function Left<T, E>(task: Task<T, E>): nat {
    match task
    case Waiting => 4
    case Working => 3
    case Failing(_) => 2
    case Reported(_) => 1
    case Done(_) => 0
  }

  /** The steps a pool has left, at most. */
  function StepsLeft<T, E>(tasks: seq<Task<T, E>>): nat {
    if tasks == [] then 0 else Left(tasks[0]) + StepsLeft(tasks[1..])
  }

  lemma {:induction false} UpdateLowers<T, E>(tasks: seq<Task<T, E>>, i: nat, task: Task<T, E>)
    requires i < |tasks| && Left(task) < Left(tasks[i])
    ensures StepsLeft(tasks[i := task]) < StepsLeft(tasks)
  {
    if i > 0 {
      UpdateLowers(tasks[1..], i - 1, task);
      assert tasks[i := task][1..] == tasks[1..][i - 1 := task];
    } else {
      assert tasks[i := task][1..] == tasks[1..];
    }
  }

  /** Every step is one of finitely many. */
  lemma StepLowers<T, E>(work: Work<T, E>, p: Pool<T, E>, q: Pool<T, E>, i: nat, seen: nat)
    requires Step(work, p, q, i, seen)
    ensures StepsLeft(q.tasks) < StepsLeft(p.tasks)
  {
    UpdateLowers(p.tasks, i, q.tasks[i]);
  }

  predicate IsComplete<T, E>(p: Pool<T, E>) {
    forall i :: 0 <= i < |p.tasks| ==> p.tasks[i].Done?
  }

  // ---- What is collected ----

  predicate Succeeds<T, E>(work: Work<T, E>, first: nat, i: nat) {
    work(first + i).Ok?
  }

  /** What working the indices one after another gives: the first failure, or every value. */
  function InOrder<T, E>(work: Work<T, E>, first: nat, n: nat): Result<seq<T>, E> {
    if n == 0 then Ok([])
    else
      match InOrder(work, first, n - 1)
      case Err(error) => Err(error)
      case Ok(values) =>
        match work(first + n - 1)
        case Err(error) => Err(error)
        case Ok(value) => Ok(values + [value])
  }

  /** In order, a failure is that of the lowest index that fails; with none, every value. */
  lemma {:induction false} InOrderIs<T, E>(work: Work<T, E>, first: nat, n: nat)
    ensures var r := InOrder(work, first, n);
            && (r.Ok? <==> forall i: nat :: i < n ==> Succeeds(work, first, i))
            && (r.Ok? ==> |r.value| == n && forall i: nat :: i < n ==> work(first + i) == Ok(r.value[i]))
            && (r.Err? ==> exists i: nat :: i < n && !Succeeds(work, first, i) && work(first + i) == Err(r.error)
                                            && forall j: nat :: j < i ==> Succeeds(work, first, j))
  {
    if n > 0 {
      InOrderIs(work, first, n - 1);
      var r := InOrder(work, first, n - 1);
      assert first + n - 1 == first + (n - 1);
      if r.Ok? && work(first + n - 1).Err? {
        assert !Succeeds(work, first, n - 1);
      }
    }
  }

  lemma {:induction false} FailureStays<T, E>(work: Work<T, E>, first: nat, k: nat, n: nat)
    requires k <= n && InOrder(work, first, k).Err?
    ensures InOrder(work, first, n) == InOrder(work, first, k)
  {
    if k < n {
      FailureStays(work, first, k, n - 1);
    }
  }

  /** The slots of the first `n` tasks, collected; nothing once an empty one is met. */
  function Collected<T, E>(tasks: seq<Task<T, E>>, n: nat): Option<Result<seq<T>, E>>
    requires n <= |tasks| && forall i :: 0 <= i < n ==> tasks[i].Done?
  {
    if n == 0 then Some(Ok([]))
    else
      match Collected(tasks, n - 1)
      case Some(Ok(values)) =>
        (match tasks[n - 1].slot
         case Some(Ok(value)) => Some(Ok(values + [value]))
         case Some(Err(error)) => Some(Err(error))
         case None => None)
      case stopped => stopped
  }

  /** No slot is empty before the first failure: the collect never meets a skipped one. */
  lemma SlotIsFilled<T, E>(work: Work<T, E>, p: Pool<T, E>, i: nat)
    requires Invariant(work, p) && IsComplete(p) && i < |p.tasks|
    requires forall j: nat :: j < i ==> Succeeds(work, p.first, j)
    ensures p.tasks[i].slot == Some(work(p.first + i))
  {
    assert IsSound(work, p, i);
    forall j: nat | j < i ensures !IsKnown(work, p, j) {
      assert Succeeds(work, p.first, j);
    }
  }

  lemma {:induction false} CollectedIs<T, E>(work: Work<T, E>, p: Pool<T, E>, n: nat)
    requires Invariant(work, p) && IsComplete(p) && n <= |p.tasks|
    ensures Collected(p.tasks, n) == Some(InOrder(work, p.first, n))
  {
    if n > 0 {
      CollectedIs(work, p, n - 1);
      InOrderIs(work, p.first, n - 1);
      if InOrder(work, p.first, n - 1).Ok? {
        SlotIsFilled(work, p, n - 1);
      }
    }
  }

  // ---- Every schedule ----

  ghost predicate Follows<T, E>(work: Work<T, E>, p: Pool<T, E>, q: Pool<T, E>) {
    exists i: nat, seen: nat :: Step(work, p, q, i, seen)
  }

  /** A schedule: the pools it passes through. */
  ghost predicate IsSchedule<T, E>(work: Work<T, E>, run: seq<Pool<T, E>>) {
    && run != [] && Starts(run[0])
    && forall k :: 1 <= k < |run| ==> Follows(work, run[k - 1], run[k])
  }

  lemma {:induction false} ScheduleKeeps<T, E>(work: Work<T, E>, run: seq<Pool<T, E>>, k: nat)
    requires IsSchedule(work, run) && run[0].first + |run[0].tasks| <= USIZE_MAX && k < |run|
    ensures Invariant(work, run[k]) && run[k].first == run[0].first && |run[k].tasks| == |run[0].tasks|
    ensures StepsLeft(run[k].tasks) + k <= StepsLeft(run[0].tasks)
  {
    if k == 0 {
      StartKeeps(work, run[0]);
    } else {
      ScheduleKeeps(work, run, k - 1);
      assert Follows(work, run[k - 1], run[k]);
      var i: nat, seen: nat :| Step(work, run[k - 1], run[k], i, seen);
      StepKeeps(work, run[k - 1], run[k], i, seen);
      StepLowers(work, run[k - 1], run[k], i, seen);
    }
  }

  /** Whatever the schedule, and however stale each load, a finished run collects what working in
      order gives and meets no empty slot first; a run that is not finished can step; and no run
      is longer than its tasks' steps. */
  lemma EveryScheduleAgrees<T, E>(work: Work<T, E>, run: seq<Pool<T, E>>)
    requires IsSchedule(work, run) && run[0].first + |run[0].tasks| <= USIZE_MAX
    ensures |run| <= StepsLeft(run[0].tasks) + 1
    ensures var last := run[|run| - 1];
            if IsComplete(last) then Collected(last.tasks, |last.tasks|) == Some(InOrder(work, last.first, |last.tasks|))
            else exists i: nat :: CanStep(last, i, 0)
  {
    ScheduleKeeps(work, run, |run| - 1);
    var last := run[|run| - 1];
    if IsComplete(last) {
      CollectedIs(work, last, |last.tasks|);
    } else {
      var i :| 0 <= i < |last.tasks| && !last.tasks[i].Done?;
      assert CanStep(last, i, 0);
    }
  }

  // ---- The map ----

  /** Run `work` on the `n` indices from `first` on, its tasks stepping in any order, and collect
      their slots. */
  method TryMapInit<T, E>(first: nat, n: nat, work: Work<T, E>) returns (r: Result<seq<T>, E>)
    requires first + n <= USIZE_MAX
    ensures r == InOrder(work, first, n)
  {
    var p: Pool<T, E> := Pool(first, [USIZE_MAX], seq(n, _ => Waiting));
    StartKeeps(work, p);
    while !IsComplete(p)
      invariant Invariant(work, p) && p.first == first && |p.tasks| == n
      decreases StepsLeft(p.tasks)
    {
      ghost var k :| 0 <= k < |p.tasks| && !p.tasks[k].Done?;
      assert CanStep(p, k, 0);
      var i: nat, seen: nat :| CanStep(p, i, seen);
      StepKeeps(work, p, Next(work, p, i, seen), i, seen);
      StepLowers(work, p, Next(work, p, i, seen), i, seen);
      p := Next(work, p, i, seen);
    }
    r := Collect(p, work);
  }

  /** Collect the slots in order: the first failure, or every value. */
  method Collect<T, E>(p: Pool<T, E>, ghost work: Work<T, E>) returns (r: Result<seq<T>, E>)
    requires Invariant(work, p) && IsComplete(p)
    ensures r == InOrder(work, p.first, |p.tasks|)
  {
    var values := [];
    for i := 0 to |p.tasks|
      invariant InOrder(work, p.first, i) == Ok(values)
    {
      InOrderIs(work, p.first, i);
      SlotIsFilled(work, p, i);
      match p.tasks[i].slot.value
      case Ok(value) =>
        values := values + [value];
      case Err(error) =>
        FailureStays(work, p.first, i + 1, |p.tasks|);
        return Err(error);
    }
    r := Ok(values);
  }
}
