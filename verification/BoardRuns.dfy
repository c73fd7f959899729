/**
 The board under handlers that interleave: between two awaits a handler runs undisturbed, and at
 every await any other handler may run.  One step is one such stretch of one handler.
 */
module BoardRuns {
  import opened Wrappers
  import opened Text
  import opened Seqs
  import opened Ranking
  import opened TodoBoard
  import opened BoardPriorities

  datatype Phase = Working | Reporting | Finished | Stopped

  /** A work_through_tasks call: the tasks open when it began, and how far it has come. */
  datatype Worker = Worker(
    queue: seq<string>,
    index: nat,
    phase: Phase,
    marked: seq<string>,
    progress: seq<nat>)

  datatype World = World(board: Board, deleted: set<string>, workers: seq<Worker>)

  datatype Step =
    | AddTask(task: NewTask)
    | AddIdeas(tasks: seq<NewTask>)
    | CompleteTask(query: string)
    | ClearDone
    | Prioritize(ranking: string)
    | StartWork(aborted: bool)
    | Advance(worker: nat, aborted: bool)

  function Init(): World {
    World(Board(1, map[], []), {}, [])
  }

  /** How many tasks of its queue a worker has finished. */
  function DoneSoFar(w: Worker): nat {
    if w.phase == Reporting then w.index + 1 else w.index
  }

  predicate Enabled(s: World, step: Step) {
    step.Advance? ==>
      && step.worker < |s.workers|
      && var w := s.workers[step.worker];
      && w.index < |w.queue|
      && (w.phase == Working || w.phase == Reporting)
  }

  /** The board after a step. */
  function NextBoard(s: World, step: Step, lower: Lower): Board
    requires Enabled(s, step)
  {
    match step
    case AddTask(task) => Add(s.board, task)
    case AddIdeas(tasks) => AddAll(s.board, tasks)
    case CompleteTask(query) => Complete(s.board, query, lower)
    case ClearDone => ClearedBoard(s.board)
    case Prioritize(ranking) => Prioritized(s.board, ranking, lower)
    case StartWork(_) => s.board
    case Advance(k, _) =>
      var w := s.workers[k];
      if w.phase == Working then MarkDone(s.board, w.queue[w.index]) else s.board
  }

  function StartedWorker(b: Board, aborted: bool): Worker {
    Worker(OpenIds(b), 0, if aborted then Stopped else Working, [], [])
  }

  function AdvancedWorker(w: Worker, aborted: bool): Worker
    requires w.index < |w.queue|
  {
    if w.phase == Working then
      w.(phase := Reporting, marked := w.marked + [w.queue[w.index]], progress := w.progress + [w.index + 1])
    else
      w.(index := w.index + 1,
         phase := if w.index + 1 == |w.queue| then Finished else if aborted then Stopped else Working)
  }

  function NextWorkers(s: World, step: Step): seq<Worker>
    requires Enabled(s, step)
  {
    match step
    case StartWork(aborted) =>
      if OpenIds(s.board) == [] then s.workers else s.workers + [StartedWorker(s.board, aborted)]
    case Advance(k, aborted) => s.workers[k := AdvancedWorker(s.workers[k], aborted)]
    case _ => s.workers
  }

  function Next(s: World, step: Step, lower: Lower): World
    requires Enabled(s, step)
  {
    var b := NextBoard(s, step, lower);
    World(b, s.deleted + (s.board.tasks.Keys - b.tasks.Keys), NextWorkers(s, step))
  }

  // ----- the invariant

  /** The issued ids are those on the board and those deleted, and no id is both. */
  ghost predicate IdsAccounted(b: Board, deleted: set<string>) {
    b.tasks.Keys + deleted == Issued(b.nextId) && b.tasks.Keys !! deleted
  }

  ghost predicate Settled(b: Board, deleted: set<string>, id: string) {
    id in deleted || (id in b.tasks && b.tasks[id].status == Done)
  }

  function UpTo(n: nat): (r: seq<nat>)
    ensures |r| == n
  {
    seq(n, i requires 0 <= i < n => i + 1)
  }

  /** A worker has marked exactly the first tasks of its queue, they are settled, and it reported 1, 2, ... for them. */
  ghost predicate WorkerOk(w: Worker, b: Board, deleted: set<string>) {
    && DoneSoFar(w) <= |w.queue|
    && w.marked == w.queue[..DoneSoFar(w)]
    && w.progress == UpTo(DoneSoFar(w))
    && (forall id :: id in w.marked ==> Settled(b, deleted, id))
    && (w.phase == Finished ==> w.marked == w.queue)
    && (w.phase == Working ==> w.index < |w.queue|)
    && (forall id :: id in w.queue ==> id in b.tasks || id in deleted)
  }

  ghost predicate Inv(s: World) {
    && WellFormed(s.board)
    && IdsAccounted(s.board, s.deleted)
    && forall k :: 0 <= k < |s.workers| ==> WorkerOk(s.workers[k], s.board, s.deleted)
  }

  lemma {:induction false} BoardStep(s: World, step: Step, lower: Lower)
    requires Inv(s) && Enabled(s, step)
    ensures var s' := Next(s, step, lower);
            WellFormed(s'.board) && Evolves(s.board, s'.board) && IdsAccounted(s'.board, s'.deleted)
  {
    hide TaskId, Issued, WorkerOk, WellFormed, Evolves, Stamp, Add, AddAll, MarkDone, ClearedBoard;
    var b := s.board;
    Unchanged(b);
    match step
    case AddTask(task) =>
      AddKeeps(b, task);
      NextIdIsNew(b.nextId);
    case AddIdeas(tasks) =>
      AddAllKeeps(b, tasks);
      AddAllEvolves(b, tasks);
      IssuedGrows(b.nextId, AddAll(b, tasks).nextId);
    case CompleteTask(query) =>
      var found := FindTask(b, b.order, query, lower);
      if found.Some? {
        MarkDoneKeeps(b, found.value);
      }
    case ClearDone =>
      ClearKeeps(b);
    case Prioritize(ranking) =>
      var ranked := Ranked(ranking, TasksOf(b, OpenIds(b)), lower);
      StampKeeps(b, ranked, |ranked|);
      StampEvolves(b, ranked, |ranked|);
    case StartWork(_) =>
    case Advance(k, _) =>
      if s.workers[k].phase == Working {
        MarkDoneKeeps(b, s.workers[k].queue[s.workers[k].index]);
      }
  }

  lemma Unchanged(b: Board)
    ensures Evolves(b, b)
  {
  }

  lemma {:induction false} AddAllEvolves(b: Board, ts: seq<NewTask>)
    requires WellFormed(b)
    ensures Evolves(b, AddAll(b, ts))
  {
    hide Issued, AddAll;
    AddAllKeeps(b, ts);
  }

  /** What a step of one handler leaves of another handler's worker. */
  lemma {:induction false} WorkerStable(w: Worker, b: Board, deleted: set<string>, b': Board, deleted': set<string>)
    requires WorkerOk(w, b, deleted) && Evolves(b, b')
    requires deleted' == deleted + (b.tasks.Keys - b'.tasks.Keys)
    ensures WorkerOk(w, b', deleted')
  {
    hide Issued, UpTo;
    forall id | id in w.marked ensures Settled(b', deleted', id) {
      assert Settled(b, deleted, id);
    }
  }

  lemma UpToSnoc(n: nat)
    ensures UpTo(n) + [n + 1] == UpTo(n + 1)
  {
  }

  lemma {:induction false} WorkerAdvances(w: Worker, b: Board, deleted: set<string>, aborted: bool)
    requires WellFormed(b) && WorkerOk(w, b, deleted) && w.index < |w.queue|
        && (w.phase == Working || w.phase == Reporting)
    ensures var b' := if w.phase == Working then MarkDone(b, w.queue[w.index]) else b;
            WorkerOk(AdvancedWorker(w, aborted), b', deleted)
  {
    hide Issued, TaskId, UpTo;
    if w.phase == Working {
      var id, b' := w.queue[w.index], MarkDone(b, w.queue[w.index]);
      UpToSnoc(w.index);
      assert w.queue[..w.index + 1] == w.queue[..w.index] + [id];
      forall x | x in w.marked + [id] ensures Settled(b', deleted, x) {
        if x != id {
          assert Settled(b, deleted, x);
        }
      }
      forall x | x in w.queue ensures x in b'.tasks || x in deleted {
      }
    }
  }

  lemma {:induction false} WorkerStarts(b: Board, deleted: set<string>, aborted: bool)
    requires WellFormed(b) && OpenIds(b) != []
    ensures WorkerOk(StartedWorker(b, aborted), b, deleted)
  {
    hide Issued, TaskId;
    SelectIs(b, b.order, Open);
    assert UpTo(0) == [];
  }

  lemma {:induction false} WorkersStep(s: World, step: Step, lower: Lower)
    requires Inv(s) && Enabled(s, step)
    ensures var s' := Next(s, step, lower);
            forall k :: 0 <= k < |s'.workers| ==> WorkerOk(s'.workers[k], s'.board, s'.deleted)
  {
    hide TaskId, Issued, WorkerOk, WellFormed, Evolves, AdvancedWorker, StartedWorker, Complete, Prioritized;
    var s' := Next(s, step, lower);
    BoardStep(s, step, lower);
    forall k | 0 <= k < |s'.workers| ensures WorkerOk(s'.workers[k], s'.board, s'.deleted) {
      if step.Advance? && step.worker == k {
        WorkerAdvances(s.workers[k], s.board, s.deleted, step.aborted);
        if s.workers[k].phase == Working {
          MarkDoneKeeps(s.board, s.workers[k].queue[s.workers[k].index]);
        }
        assert s'.deleted == s.deleted;
      } else if step.StartWork? && k == |s.workers| {
        WorkerStarts(s.board, s.deleted, step.aborted);
        assert s'.deleted == s.deleted;
      } else {
        WorkerStable(s.workers[k], s.board, s.deleted, s'.board, s'.deleted);
      }
    }
  }

  predicate AllEnabled(s: World, steps: seq<Step>, lower: Lower)
    decreases |steps|
  {
    steps != [] ==> Enabled(s, steps[0]) && AllEnabled(Next(s, steps[0], lower), steps[1..], lower)
  }

  /** The world after an interleaving. */
  function Run(s: World, steps: seq<Step>, lower: Lower): World
    requires AllEnabled(s, steps, lower)
    decreases |steps|
  {
    if steps == [] then s else Run(Next(s, steps[0], lower), steps[1..], lower)
  }

  /**
   Over every interleaving the invariant holds: keys are ids, issued ids are those on the board
   and those deleted, and every worker has finished exactly the first tasks of its queue, has
   reported 1, 2, ... for them, and has all of them when it ends undisturbed.
   */
  lemma {:induction false} EveryRunKeepsInv(s: World, steps: seq<Step>, lower: Lower)
    requires Inv(s) && AllEnabled(s, steps, lower)
    ensures Inv(Run(s, steps, lower))
    decreases |steps|
  {
    hide Next, Enabled, WorkerOk, WellFormed, IdsAccounted;
    if steps == [] {
    } else {
      BoardStep(s, steps[0], lower);
      WorkersStep(s, steps[0], lower);
      EveryRunKeepsInv(Next(s, steps[0], lower), steps[1..], lower);
    }
  }

  /** So it does from the empty board on. */
  lemma {:induction false} RunsFromStartKeepInv(steps: seq<Step>, lower: Lower)
    requires AllEnabled(Init(), steps, lower)
    ensures Inv(Run(Init(), steps, lower))
  {
    assert Issued(1) == {};
    EveryRunKeepsInv(Init(), steps, lower);
  }

  /**
   Over every interleaving a deleted id never comes back, a done task never reopens, and each
   step deletes done tasks only.
   */
  lemma {:induction false} IdsAreNeverReused(s: World, steps: seq<Step>, lower: Lower, id: string)
    requires Inv(s) && AllEnabled(s, steps, lower)
    requires Settled(s.board, s.deleted, id)
    ensures Settled(Run(s, steps, lower).board, Run(s, steps, lower).deleted, id)
    ensures id in s.deleted ==> id !in Run(s, steps, lower).board.tasks
    decreases |steps|
  {
    hide Enabled, WorkerOk, WellFormed, Issued, NextBoard, NextWorkers;
    if steps == [] {
    } else {
      var s' := Next(s, steps[0], lower);
      BoardStep(s, steps[0], lower);
      WorkersStep(s, steps[0], lower);
      assert Inv(s');
      IdsAreNeverReused(s', steps[1..], lower, id);
    }
  }

  // ----- how a worker goes on

  /** The next segments of a worker that is not aborted. */
  function Undisturbed(w: Worker, n: nat): Worker
    requires w.phase == Working && w.index + n <= |w.queue|
    decreases n
  {
    if n == 0 then w
    else
      var next := AdvancedWorker(AdvancedWorker(w, false), false);
      if n == 1 then next else Undisturbed(next, n - 1)
  }

  /**
   Behind a finished task an aborted worker stops unless that was its last one, and another one
   takes up the next task.
  */
  lemma SegmentEnds(w: Worker, aborted: bool)
    requires w.phase == Reporting && w.index < |w.queue|
    ensures var w' := AdvancedWorker(w, aborted);
            && w'.index == w.index + 1 && w'.marked == w.marked && w'.progress == w.progress && w'.queue == w.queue
            && (w'.phase == Stopped <==> aborted && w.index + 1 < |w.queue|)
            && (w'.phase == Finished <==> w.index + 1 == |w.queue|)
            && (w'.phase == Working <==> !aborted && w.index + 1 < |w.queue|)
  {
  }

  /** A worker starts on the open tasks in the order of the board, and does not start at all when aborted before. */
  lemma {:induction false} StartedWorkerIs(b: Board, aborted: bool)
    ensures var w := StartedWorker(b, aborted);
            && Subsequence(w.queue, b.order)
            && (forall id :: id in w.queue <==> id in b.order && id in b.tasks && b.tasks[id].status == Open)
            && w.index == 0 && w.marked == [] && w.progress == []
            && (w.phase == Stopped <==> aborted) && (w.phase == Working <==> !aborted)
  {
    SelectIs(b, b.order, Open);
    SelectKeepsOrder(b, b.order, Open);
  }

  /** A worker that nobody aborts finishes its whole queue. */
  lemma {:induction false} UndisturbedFinishes(w: Worker, b: Board, deleted: set<string>)
    requires WorkerOk(w, b, deleted) && w.phase == Working
    ensures Undisturbed(w, |w.queue| - w.index).phase == Finished
    ensures Undisturbed(w, |w.queue| - w.index).marked == w.queue
    ensures Undisturbed(w, |w.queue| - w.index).progress == UpTo(|w.queue|)
  {
    hide Settled;
    UndisturbedFrom(w);
  }

  lemma {:induction false} UndisturbedFrom(w: Worker)
    requires w.phase == Working && w.index < |w.queue|
    requires w.marked == w.queue[..w.index] && w.progress == UpTo(w.index)
    ensures var w' := Undisturbed(w, |w.queue| - w.index);
            w'.phase == Finished && w'.marked == w.queue && w'.progress == UpTo(|w.queue|)
    decreases |w.queue| - w.index
  {
    hide UpTo;
    UpToSnoc(w.index);
    assert w.queue[..w.index + 1] == w.queue[..w.index] + [w.queue[w.index]];
    assert w.queue[..|w.queue|] == w.queue;
    if w.index + 1 < |w.queue| {
      UndisturbedFrom(AdvancedWorker(AdvancedWorker(w, false), false));
    }
  }

  // ----- what the steps do to the workers

  /** A worker starts when tasks are open, behind those at work. */
  lemma {:induction false} StartStepIs(s: World, aborted: bool, lower: Lower)
    ensures var s' := Next(s, StartWork(aborted), lower);
            && s'.board == s.board
            && if exists id :: id in s.board.order && id in s.board.tasks && s.board.tasks[id].status == Open then
                 |s'.workers| == |s.workers| + 1 && s'.workers[..|s.workers|] == s.workers
                 && s'.workers[|s.workers|] == StartedWorker(s.board, aborted)
               else s'.workers == s.workers
  {
    SelectIs(s.board, s.board.order, Open);
    assert OpenIds(s.board) != [] ==> OpenIds(s.board)[0] in OpenIds(s.board);
  }

  /** A worker's segment finishes its next task, or goes on from one just finished; the other workers stay. */
  lemma AdvanceStepIs(s: World, k: nat, aborted: bool, lower: Lower)
    requires Enabled(s, Advance(k, aborted))
    ensures var (w, workers) := (s.workers[k], Next(s, Advance(k, aborted), lower).workers);
            && |workers| == |s.workers| && (forall j :: 0 <= j < |workers| && j != k ==> workers[j] == s.workers[j])
            && (w.phase == Reporting ==> workers[k].index == w.index + 1 && workers[k].marked == w.marked)
            && (w.phase == Working ==>
                  && workers[k].index == w.index && workers[k].phase == Reporting
                  && workers[k].marked == w.marked + [w.queue[w.index]]
                  && workers[k].progress == w.progress + [w.index + 1])
  {
  }

  // ----- what the steps do to the board

  /** An added task stands on the board under the next id, as it was given. */
  lemma {:induction false} AddStepIs(s: World, task: NewTask, lower: Lower)
    requires WellFormed(s.board)
    ensures var (b, id) := (Next(s, AddTask(task), lower).board, "t" + Decimal(s.board.nextId));
            && b.order == s.board.order + [id]
            && id in b.tasks && b.tasks[id]
              == Task(id, task.title, task.project, task.priority, task.due, task.notes, Open)
            && forall k :: k in s.board.tasks ==> k in b.tasks && b.tasks[k] == s.board.tasks[k]
  {
    hide Issued;
    OrderAfterAdd(s.board, task);
    AddKeeps(s.board, task);
  }

  /** Several ideas stand behind the others in their order. */
  lemma {:induction false} IdeasStepIs(s: World, tasks: seq<NewTask>, lower: Lower, i: nat)
    requires WellFormed(s.board) && i < |tasks|
    ensures var (b, id) := (Next(s, AddIdeas(tasks), lower).board, TaskId(s.board.nextId + i));
            && id in b.tasks && b.tasks[id].title == tasks[i].title && b.tasks[id].project == tasks[i].project
            && |b.order| == |s.board.order| + |tasks| && b.order[|s.board.order| + i] == id
  {
    hide TaskId, Issued;
    AddAllAre(s.board, tasks, i);
  }

  /** A query marks the task it names done, and a worker's segment the next task of its queue; nothing else changes. */
  lemma {:induction false} DoneStepsAre(s: World, lower: Lower, query: string, id: string, k: nat)
    ensures Names(s.board, query, lower, id) ==> Next(s, CompleteTask(query), lower).board == MarkDone(s.board, id)
    ensures k < |s.workers| && s.workers[k].index < |s.workers[k].queue| && s.workers[k].phase == Working ==>
              Next(s, Advance(k, false), lower).board == MarkDone(s.board, s.workers[k].queue[s.workers[k].index])
  {
    hide Names, MarkDone;
    CompleteIs(s.board, query, lower, id);
  }

  /** Clearing keeps just the tasks that are not done, as they were and in their order. */
  lemma {:induction false} ClearStepIs(s: World, lower: Lower)
    requires WellFormed(s.board)
    ensures var b := Next(s, ClearDone, lower).board;
            && Subsequence(b.order, s.board.order)
            && (forall id :: id in b.tasks <==> id in s.board.tasks && s.board.tasks[id].status != Done)
            && forall id :: id in b.tasks ==> b.tasks[id] == s.board.tasks[id]
  {
    hide WellFormed, TaskId;
    ClearKeeps(s.board);
    ClearedIs(s.board);
  }

  /** Prioritising gives each open task the priority of its rank. */
  lemma {:induction false} PrioritizeStepIs(s: World, ranking: string, lower: Lower, i: nat)
    requires WellFormed(s.board) && i < |RankedOpen(s.board, ranking, lower)|
    ensures var (ranked, b) := (RankedOpen(s.board, ranking, lower), Next(s, Prioritize(ranking), lower).board);
            && ranked[i].id in b.tasks
            && b.tasks[ranked[i].id] == ranked[i].(priority := Some(PriorityForRank(i, |ranked|)))
  {
    hide WellFormed, Ranked, PriorityForRank;
    OpenTasksGetTheirRank(s.board, ranking, lower, i);
  }
}
