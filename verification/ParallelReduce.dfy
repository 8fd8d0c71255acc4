/** Chunked loops and reductions over a thread pool (yasl/utils/parallel_native.h, parallel_native.cc). */
module ParallelReduce {
  import opened Wrappers
  import opened Numbers

  datatype Plan = Plan(numTasks: nat, chunkSize: nat)

  /** `calc_num_tasks_and_chunk_size`. */
  function CalcNumTasksAndChunkSize(begin: int, end: int, grainSize: int, numThreads: nat): Plan
    requires grainSize > 0 && numThreads > 0
  {
    if end - begin < grainSize then Plan(1, if end > begin then end - begin else 0)
    else
      var perThread := DivUp(end - begin, numThreads);
      var chunkSize := if grainSize > perThread then grainSize else perThread;
      Plan(DivUp(end - begin, chunkSize), chunkSize)
  }

  /** Where a task starts; it stops where the next one starts, or at the end of the range. */
  function TaskStart(begin: int, plan: Plan, task: nat): int {
    begin + task * plan.chunkSize
  }

  function TaskStop(begin: int, end: int, plan: Plan, task: nat): int {
    var stop := TaskStart(begin, plan, task) + plan.chunkSize;
    if end < stop then end else stop
  }

  lemma FewTasks(n: nat, chunkSize: nat, numThreads: nat)
    requires n > 0 && numThreads > 0 && chunkSize > 0 && chunkSize >= DivUp(n, numThreads)
    ensures DivUp(n, chunkSize) <= numThreads
  {
    DivUpMeaning(n, numThreads);
    DivUpMeaning(n, chunkSize);
    assert n <= numThreads * chunkSize by {
      MulMonotone(DivUp(n, numThreads), chunkSize, numThreads);
    }
    if DivUp(n, chunkSize) > numThreads {
      MulMonotone(numThreads, DivUp(n, chunkSize) - 1, chunkSize);
    }
  }

  /** For every range, grain and number of threads: at most one task a thread, none of them empty,
      each beginning where the one before stops, together the whole range; and all but the last
      at least a grain long. */
  lemma TasksPartition(begin: int, end: int, grainSize: int, numThreads: nat, task: nat)
    requires grainSize > 0 && numThreads > 0 && begin < end
    requires task < CalcNumTasksAndChunkSize(begin, end, grainSize, numThreads).numTasks
    ensures var plan := CalcNumTasksAndChunkSize(begin, end, grainSize, numThreads);
            && plan.numTasks <= numThreads
            && TaskStart(begin, plan, 0) == begin
            && begin <= TaskStart(begin, plan, task) < TaskStop(begin, end, plan, task) <= end
            && (if task == plan.numTasks - 1 then TaskStop(begin, end, plan, task) == end
                else
                  && TaskStop(begin, end, plan, task) == TaskStart(begin, plan, task + 1)
                  && TaskStop(begin, end, plan, task) - TaskStart(begin, plan, task) >= grainSize)
  {
    var plan := CalcNumTasksAndChunkSize(begin, end, grainSize, numThreads);
    var n: nat := end - begin;
    MulStep(task, plan.chunkSize);
    if n >= grainSize {
      FewTasks(n, plan.chunkSize, numThreads);
      DivUpMeaning(n, plan.chunkSize);
      MulMonotone(task, plan.numTasks - 1, plan.chunkSize);
      if task < plan.numTasks - 1 {
        MulMonotone(task + 1, plan.numTasks - 1, plan.chunkSize);
      }
    }
  }

  lemma OnePiece(n: nat)
    requires n > 0
    ensures DivUp(n, n) == 1
  {
    DivUpMeaning(n, n);
    if DivUp(n, n) >= 2 {
      MulMonotone(1, DivUp(n, n) - 1, n);
    }
  }

  lemma PlanPieces(begin: int, end: int, grainSize: int, numThreads: nat)
    requires grainSize > 0 && numThreads > 0 && begin < end
    ensures var plan := CalcNumTasksAndChunkSize(begin, end, grainSize, numThreads);
            plan.chunkSize > 0 && plan.numTasks == DivUp(end - begin, plan.chunkSize) && plan.numTasks > 0
  {
    DivUpMeaning(end - begin, CalcNumTasksAndChunkSize(begin, end, grainSize, numThreads).chunkSize);
    if end - begin < grainSize {
      OnePiece(end - begin);
    }
  }

  // ---- parallel_reduce ----

  /** The sequential loop a caller hands over: from x, element after element. */
  function Fold<T>(sf: (T, T) -> T, element: int -> T, lo: int, hi: int, x: T): T
    decreases hi - lo
  {
    if lo >= hi then x else sf(Fold(sf, element, lo, hi - 1, x), element(hi - 1))
  }

  ghost predicate Associative<T(!new)>(sf: (T, T) -> T) {
    forall x, y, z :: sf(sf(x, y), z) == sf(x, sf(y, z))
  }

  ghost predicate Identity<T(!new)>(sf: (T, T) -> T, ident: T) {
    forall x :: sf(ident, x) == x && sf(x, ident) == x
  }

  /** What the tasks 0 to k - 1 leave, combined in their order. */
  function Combine<T>(sf: (T, T) -> T, results: seq<T>, ident: T): T {
    if |results| == 0 then ident else sf(Combine(sf, results[..|results| - 1], ident), results[|results| - 1])
  }

  lemma FoldNothing<T>(sf: (T, T) -> T, element: int -> T, lo: int, hi: int, x: T)
    requires lo >= hi
    ensures Fold(sf, element, lo, hi, x) == x
  {
  }

  /** Two partial folds combine to the fold of the joined ranges. */
  lemma {:induction false} FoldSplit<T(!new)>(sf: (T, T) -> T, element: int -> T, ident: T, lo: int, mid: int, hi: int)
    requires Associative(sf) && Identity(sf, ident) && lo <= mid <= hi
    ensures sf(Fold(sf, element, lo, mid, ident), Fold(sf, element, mid, hi, ident)) == Fold(sf, element, lo, hi, ident)
    decreases hi - mid
  {
    if mid < hi {
      FoldSplit(sf, element, ident, lo, mid, hi - 1);
    }
  }

  /** `_parallel_run` as `parallel_reduce` uses it: the tasks run in any order, each leaving its
      result in its own place. */
  method ParallelRun<T(0)>(begin: int, end: int, grainSize: int, numThreads: nat, ident: T, f: (int, int, T) -> T)
    returns (results: array<T>)
    requires grainSize > 0 && numThreads > 0 && begin < end
    ensures var plan := CalcNumTasksAndChunkSize(begin, end, grainSize, numThreads);
            && fresh(results) && results.Length == plan.numTasks
            && forall t | 0 <= t < plan.numTasks ::
                 results[t] == f(TaskStart(begin, plan, t), TaskStop(begin, end, plan, t), ident)
  {
    var plan := CalcNumTasksAndChunkSize(begin, end, grainSize, numThreads);
    results := new T[plan.numTasks];
    var waiting: set<nat> := Upto(plan.numTasks);
    while waiting != {}
      invariant forall t | t in waiting :: t < plan.numTasks
      invariant forall t | 0 <= t < plan.numTasks && t !in waiting ::
                  results[t] == f(TaskStart(begin, plan, t), TaskStop(begin, end, plan, t), ident)
      decreases |waiting|
    {
      var task :| task in waiting;
      TasksPartition(begin, end, grainSize, numThreads, task);
      var localStart := TaskStart(begin, plan, task);
      if localStart < end {
        results[task] := f(localStart, TaskStop(begin, end, plan, task), ident);
      }
      waiting := waiting - {task};
    }
  }

  /** Combining what the tasks leave gives the fold over the range they cover. */
  lemma {:induction false} CombineTasks<T(!new)>(begin: int, end: int, grainSize: int, numThreads: nat,
                                                 sf: (T, T) -> T, element: int -> T, ident: T, results: seq<T>)
    requires grainSize > 0 && numThreads > 0 && begin < end && Associative(sf) && Identity(sf, ident)
    requires var plan := CalcNumTasksAndChunkSize(begin, end, grainSize, numThreads);
             && |results| <= plan.numTasks
             && forall t | 0 <= t < |results| ::
                  results[t] == Fold(sf, element, TaskStart(begin, plan, t), TaskStop(begin, end, plan, t), ident)
    ensures var plan := CalcNumTasksAndChunkSize(begin, end, grainSize, numThreads);
            Combine(sf, results, ident) ==
            Fold(sf, element, begin, if |results| == 0 then begin else TaskStop(begin, end, plan, |results| - 1), ident)
  {
    hide CalcNumTasksAndChunkSize, TaskStart, TaskStop, Fold, Associative, Identity;
    var plan := CalcNumTasksAndChunkSize(begin, end, grainSize, numThreads);
    var n := |results|;
    FoldNothing(sf, element, begin, begin, ident);
    if n > 0 {
      CombineTasks(begin, end, grainSize, numThreads, sf, element, ident, results[..n - 1]);
      TasksPartition(begin, end, grainSize, numThreads, n - 1);
      if n > 1 {
        TasksPartition(begin, end, grainSize, numThreads, n - 2);
      }
      FoldSplit(sf, element, ident, begin, TaskStart(begin, plan, n - 1), TaskStop(begin, end, plan, n - 1));
    }
  }

  /** `parallel_reduce`: throws on a grain that is not positive; otherwise, for every range, grain,
      number of threads and order of the tasks, the sequential fold. */
  method Reduce<T(0, !new)>(begin: int, end: int, grainSize: int, numThreads: nat, inParallelRegion: bool, ident: T,
                            f: (int, int, T) -> T, sf: (T, T) -> T, ghost element: int -> T)
    returns (r: Result<T>)
    requires numThreads > 0 && Associative(sf) && Identity(sf, ident)
    requires forall a, b :: f(a, b, ident) == Fold(sf, element, a, b, ident)
    ensures r == if grainSize > 0 then Ok(Fold(sf, element, begin, end, ident)) else Err
  {
    hide CalcNumTasksAndChunkSize, TaskStart, TaskStop, Fold, Associative, Identity;
    if grainSize <= 0 {
      return Err;
    }
    if begin >= end {
      FoldNothing(sf, element, begin, end, ident);
      return Ok(ident);
    }
    if end - begin < grainSize || inParallelRegion {
      return Ok(f(begin, end, ident));
    }
    var results := ParallelRun(begin, end, grainSize, numThreads, ident, f);
    var result := ident;
    for i := 0 to results.Length
      invariant result == Combine(sf, results[..i], ident)
    {
      result := sf(result, results[i]);
      assert results[..i + 1][..i] == results[..i];
    }
    assert results[..results.Length] == results[..];
    CombineTasks(begin, end, grainSize, numThreads, sf, element, ident, results[..]);
    PlanPieces(begin, end, grainSize, numThreads);
    TasksPartition(begin, end, grainSize, numThreads, results.Length - 1);
    r := Ok(result);
  }

  // ---- parallel_for ----

  predicate InTask(begin: int, end: int, plan: Plan, task: nat, i: int) {
    TaskStart(begin, plan, task) <= i < TaskStop(begin, end, plan, task)
  }

  /** Whether a task that has run handles index i. */
  predicate Handled(begin: int, end: int, plan: Plan, waiting: set<nat>, i: int) {
    exists t: nat :: t < plan.numTasks && t !in waiting && InTask(begin, end, plan, t, i)
  }

  lemma TasksDisjoint(begin: int, end: int, plan: Plan, t: nat, u: nat, i: int)
    requires InTask(begin, end, plan, t, i) && InTask(begin, end, plan, u, i)
    ensures t == u
  {
    MulStep(t, plan.chunkSize);
    MulStep(u, plan.chunkSize);
    if t < u {
      MulMonotone(t + 1, u, plan.chunkSize);
    } else if u < t {
      MulMonotone(u + 1, t, plan.chunkSize);
    }
  }

  /** The tasks handle the indices of the range and no others. */
  lemma TasksCover(begin: int, end: int, grainSize: int, numThreads: nat, i: int)
    requires grainSize > 0 && numThreads > 0 && begin < end
    ensures Handled(begin, end, CalcNumTasksAndChunkSize(begin, end, grainSize, numThreads), {}, i) <==> begin <= i < end
  {
    hide CalcNumTasksAndChunkSize;
    var plan := CalcNumTasksAndChunkSize(begin, end, grainSize, numThreads);
    if t: nat :| t < plan.numTasks && InTask(begin, end, plan, t, i) {
      TasksPartition(begin, end, grainSize, numThreads, t);
    }
    if begin <= i < end {
      PlanPieces(begin, end, grainSize, numThreads);
      var t := PieceOf(end - begin, plan.chunkSize, i - begin);
      assert InTask(begin, end, plan, t, i);
    }
  }

  /** `_parallel_run` as `parallel_for` uses it, recording the indices handled. */
  method RunTasks(begin: int, end: int, grainSize: int, numThreads: nat) returns (visits: multiset<int>)
    requires grainSize > 0 && numThreads > 0 && begin < end
    ensures forall i :: visits[i] == if begin <= i < end then 1 else 0
  {
    hide CalcNumTasksAndChunkSize, InTask;
    var plan := CalcNumTasksAndChunkSize(begin, end, grainSize, numThreads);
    visits := multiset{};
    var waiting: set<nat> := Upto(plan.numTasks);
    while waiting != {}
      invariant forall t | t in waiting :: t < plan.numTasks
      invariant forall i :: visits[i] == if Handled(begin, end, plan, waiting, i) then 1 else 0
      decreases |waiting|
    {
      var task :| task in waiting;
      TasksPartition(begin, end, grainSize, numThreads, task);
      HandleTask(begin, end, plan, waiting, task);
      visits := Visit(TaskStart(begin, plan, task), TaskStop(begin, end, plan, task), visits);
      waiting := waiting - {task};
    }
    forall i
      ensures Handled(begin, end, plan, {}, i) <==> begin <= i < end
    {
      TasksCover(begin, end, grainSize, numThreads, i);
    }
  }

  /** Running a task handles its indices, none of which was handled before. */
  lemma HandleTask(begin: int, end: int, plan: Plan, waiting: set<nat>, task: nat)
    requires task in waiting && task < plan.numTasks
    ensures forall i :: Handled(begin, end, plan, waiting - {task}, i) <==>
                        Handled(begin, end, plan, waiting, i) || TaskStart(begin, plan, task) <= i < TaskStop(begin, end, plan, task)
    ensures forall i :: !(Handled(begin, end, plan, waiting, i) && TaskStart(begin, plan, task) <= i < TaskStop(begin, end, plan, task))
  {
    forall i
      ensures Handled(begin, end, plan, waiting - {task}, i) <==>
              Handled(begin, end, plan, waiting, i) || InTask(begin, end, plan, task, i)
      ensures !(Handled(begin, end, plan, waiting, i) && InTask(begin, end, plan, task, i))
    {
      hide InTask;
      if t: nat :| t < plan.numTasks && t !in waiting && InTask(begin, end, plan, t, i) {
        assert t !in waiting - {task};
        if InTask(begin, end, plan, task, i) {
          TasksDisjoint(begin, end, plan, t, task, i);
        }
      }
    }
  }

  method Visit(lo: int, hi: int, visits: multiset<int>) returns (r: multiset<int>)
    requires lo <= hi
    ensures forall i :: r[i] == visits[i] + if lo <= i < hi then 1 else 0
  {
    r := visits;
    for i := lo to hi
      invariant forall j :: r[j] == visits[j] + if lo <= j < i then 1 else 0
    {
      r := r + multiset{i};
    }
  }

  /** `parallel_for` for a function that handles the indices of its range one by one: whatever the
      order of the tasks, every index of the range is handled exactly once and no other is. */
  method For(begin: int, end: int, grainSize: int, numThreads: nat, inParallelRegion: bool)
    returns (r: Result<multiset<int>>)
    requires numThreads > 0
    ensures r.Err? <==> grainSize <= 0
    ensures r.Ok? ==> forall i :: r.value[i] == if begin <= i < end then 1 else 0
  {
    if grainSize <= 0 {
      return Err;
    }
    if begin >= end {
      return Ok(multiset{});
    }
    var visits;
    if end - begin < grainSize || inParallelRegion {
      visits := Visit(begin, end, multiset{});
    } else {
      visits := RunTasks(begin, end, grainSize, numThreads);
    }
    r := Ok(visits);
  }
}
