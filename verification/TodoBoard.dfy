/** The shared todo board: the task map, the id counter, and what each handler does to them. */
module TodoBoard {
  import opened Wrappers
  import opened Text
  import opened Seqs
  import opened Ranking

  datatype NewTask = NewTask(
    title: string,
    project: string,
    priority: Option<Priority>,
    due: Option<string>,
    notes: Option<string>)

  /** The task map with its keys in insertion order, and the number of the next id. */
  datatype Board = Board(nextId: nat, tasks: map<string, Task>, order: seq<string>)

  function TaskId(n: nat): string {
    "t" + Decimal(n)
  }

  lemma {:induction false} TaskIdInjective(m: nat, n: nat)
    requires TaskId(m) == TaskId(n)
    ensures m == n
  {
    assert Decimal(m) == TaskId(m)[1..] && Decimal(n) == TaskId(n)[1..];
    DecimalInjective(m, n);
  }

  /** The ids handed out before the counter reached `nextId`. */
  function Issued(nextId: nat): set<string> {
    set n: nat | 1 <= n < nextId :: TaskId(n)
  }

  lemma {:induction false} NextIdIsNew(nextId: nat)
    ensures TaskId(nextId) !in Issued(nextId)
    ensures nextId >= 1 ==> Issued(nextId + 1) == Issued(nextId) + {TaskId(nextId)}
  {
    if TaskId(nextId) in Issued(nextId) {
      var n: nat :| 1 <= n < nextId && TaskId(n) == TaskId(nextId);
      TaskIdInjective(n, nextId);
    }
  }

  ghost predicate Distinct(ids: seq<string>) {
    forall i, j :: 0 <= i < j < |ids| ==> ids[i] != ids[j]
  }

  /** Every key is its task's id, was issued, and stands in the order once. */
  ghost predicate WellFormed(b: Board) {
    && b.nextId >= 1
    && Distinct(b.order)
    && (forall id :: id in b.order <==> id in b.tasks)
    && (forall id :: id in b.tasks ==> b.tasks[id].id == id)
    && b.tasks.Keys <= Issued(b.nextId)
  }

  /** Over one atomic step: ids only grow, done stays done, and only done tasks go. */
  ghost predicate Evolves(b: Board, b': Board) {
    && b.nextId <= b'.nextId
    && (forall id :: id in b.tasks && id !in b'.tasks ==> b.tasks[id].status == Done)
    && (forall id :: id in b.tasks && id in b'.tasks && b.tasks[id].status == Done ==> b'.tasks[id].status == Done)
    && (forall id :: id in b'.tasks && id !in b.tasks ==> id !in Issued(b.nextId))
  }

  // ----- the handlers' effects

  function Create(t: NewTask, id: string): Task {
    Task(id, t.title, t.project, t.priority, t.due, t.notes, Open)
  }

  function Add(b: Board, t: NewTask): Board {
    var id := TaskId(b.nextId);
    Board(b.nextId + 1, b.tasks[id := Create(t, id)], if id in b.tasks then b.order else b.order + [id])
  }

  function AddAll(b: Board, ts: seq<NewTask>): Board
    decreases |ts|
  {
    if ts == [] then b else AddAll(Add(b, ts[0]), ts[1..])
  }

  function MarkDone(b: Board, id: string): Board {
    if id in b.tasks then b.(tasks := b.tasks[id := b.tasks[id].(status := Done)]) else b
  }

  function Without(ids: seq<string>, gone: set<string>): seq<string> {
    if ids == [] then []
    else (if ids[0] in gone then [] else [ids[0]]) + Without(ids[1..], gone)
  }

  function Remove(b: Board, gone: set<string>): Board {
    Board(b.nextId, b.tasks - gone, Without(b.order, gone))
  }

  function WithStatus(b: Board, status: Status): set<string> {
    set id | id in b.tasks && b.tasks[id].status == status
  }

  function ClearedBoard(b: Board): Board {
    Remove(b, WithStatus(b, Done))
  }

  /** The ids of a list that have a status on the board. */
  function Select(b: Board, ids: seq<string>, status: Status): seq<string> {
    if ids == [] then []
    else (if ids[0] in b.tasks && b.tasks[ids[0]].status == status then [ids[0]] else []) + Select(b, ids[1..], status)
  }

  function OpenIds(b: Board): seq<string> {
    Select(b, b.order, Open)
  }

  function TasksOf(b: Board, ids: seq<string>): seq<Task> {
    if ids == [] then []
    else (if ids[0] in b.tasks then [b.tasks[ids[0]]] else []) + TasksOf(b, ids[1..])
  }

  /** The task a query names: the one with that id, or the first whose title contains it. */
  function FindTask(b: Board, ids: seq<string>, query: string, lower: Lower): Option<string> {
    if query in b.tasks then Some(query)
    else if ids == [] then None
    else if ids[0] in b.tasks && Includes(lower(b.tasks[ids[0]].title), lower(query)) then Some(ids[0])
    else FindTask(b, ids[1..], query, lower)
  }

  function Complete(b: Board, query: string, lower: Lower): Board {
    match FindTask(b, b.order, query, lower)
    case None => b
    case Some(id) => MarkDone(b, id)
  }

  function SetPriority(b: Board, id: string, p: Priority): Board {
    if id in b.tasks then b.(tasks := b.tasks[id := b.tasks[id].(priority := Some(p))]) else b
  }

  /** The first `k` ranked tasks stamped with the priority of their rank. */
  function Stamp(b: Board, ranked: seq<Task>, k: nat): Board
    requires k <= |ranked|
  {
    if k == 0 then b else SetPriority(Stamp(b, ranked, k - 1), ranked[k - 1].id, PriorityForRank(k - 1, |ranked|))
  }

  function Prioritized(b: Board, ranking: string, lower: Lower): Board {
    var ranked := Ranked(ranking, TasksOf(b, OpenIds(b)), lower);
    Stamp(b, ranked, |ranked|)
  }

  // ----- what every effect keeps

  lemma {:induction false} AddKeeps(b: Board, t: NewTask)
    requires WellFormed(b)
    ensures WellFormed(Add(b, t)) && Evolves(b, Add(b, t))
    ensures Add(b, t).tasks.Keys == b.tasks.Keys + {TaskId(b.nextId)} && TaskId(b.nextId) !in b.tasks
    ensures Issued(Add(b, t).nextId) == Issued(b.nextId) + {TaskId(b.nextId)}
  {
    hide TaskId, Issued;
    NextIdIsNew(b.nextId);
    var b' := Add(b, t);
    assert b'.order == b.order + [TaskId(b.nextId)];
  }

  lemma IssuedGrows(m: nat, n: nat)
    requires m <= n
    ensures Issued(m) <= Issued(n)
  {
  }

  /** Adding several tasks keeps the others as they are and puts exactly the newly issued ids on the board. */
  lemma {:induction false} AddAllKeeps(b: Board, ts: seq<NewTask>)
    requires WellFormed(b)
    ensures var b' := AddAll(b, ts);
            && WellFormed(b') && b'.nextId == b.nextId + |ts|
            && b'.tasks.Keys == b.tasks.Keys + (Issued(b'.nextId) - Issued(b.nextId))
            && forall id :: id in b.tasks ==> id in b'.tasks && b'.tasks[id] == b.tasks[id]
    decreases |ts|
  {
    hide TaskId, Issued;
    if ts == [] {
    } else {
      AddKeeps(b, ts[0]);
      var b1 := Add(b, ts[0]);
      AddAllKeeps(b1, ts[1..]);
      IssuedGrows(b.nextId, b1.nextId);
      IssuedGrows(b1.nextId, AddAll(b, ts).nextId);
      NextIdIsNew(b.nextId);
    }
  }

  lemma {:induction false} MarkDoneKeeps(b: Board, id: string)
    requires WellFormed(b)
    ensures WellFormed(MarkDone(b, id)) && Evolves(b, MarkDone(b, id))
    ensures MarkDone(b, id).tasks.Keys == b.tasks.Keys && MarkDone(b, id).nextId == b.nextId
  {
    hide TaskId, Issued;
  }

  lemma {:induction false} WithoutKeeps(ids: seq<string>, gone: set<string>)
    requires Distinct(ids)
    ensures Distinct(Without(ids, gone))
    ensures forall id :: id in Without(ids, gone) <==> id in ids && id !in gone
  {
    if ids == [] {
    } else {
      WithoutKeeps(ids[1..], gone);
      assert ids == [ids[0]] + ids[1..];
      assert ids[0] !in ids[1..];
    }
  }

  lemma {:induction false} ClearKeeps(b: Board)
    requires WellFormed(b)
    ensures WellFormed(ClearedBoard(b)) && Evolves(b, ClearedBoard(b))
    ensures ClearedBoard(b).tasks.Keys == b.tasks.Keys - WithStatus(b, Done) && ClearedBoard(b).nextId == b.nextId
  {
    hide TaskId, Issued;
    WithoutKeeps(b.order, WithStatus(b, Done));
  }

  lemma SetPriorityKeeps(b: Board, id: string, p: Priority)
    requires WellFormed(b)
    ensures var b' := SetPriority(b, id, p);
            && WellFormed(b') && b'.tasks.Keys == b.tasks.Keys && b'.nextId == b.nextId
            && forall k :: k in b.tasks ==> b'.tasks[k].(priority := b.tasks[k].priority) == b.tasks[k]
  {
  }

  /** Stamping changes priorities and nothing else. */
  lemma {:induction false} StampKeeps(b: Board, ranked: seq<Task>, k: nat)
    requires WellFormed(b) && k <= |ranked|
    ensures WellFormed(Stamp(b, ranked, k))
    ensures Stamp(b, ranked, k).tasks.Keys == b.tasks.Keys && Stamp(b, ranked, k).nextId == b.nextId
    ensures forall id :: id in b.tasks ==>
              Stamp(b, ranked, k).tasks[id].(priority := b.tasks[id].priority) == b.tasks[id]
  {
    hide WellFormed, SetPriority, PriorityForRank;
    if k == 0 {
    } else {
      StampKeeps(b, ranked, k - 1);
      SetPriorityKeeps(Stamp(b, ranked, k - 1), ranked[k - 1].id, PriorityForRank(k - 1, |ranked|));
    }
  }

  /** So the board evolves, as over every step. */
  lemma {:induction false} StampEvolves(b: Board, ranked: seq<Task>, k: nat)
    requires WellFormed(b) && k <= |ranked|
    ensures Evolves(b, Stamp(b, ranked, k))
  {
    hide WellFormed, Stamp, Issued;
    StampKeeps(b, ranked, k);
    var b' := Stamp(b, ranked, k);
    forall id | id in b.tasks ensures b'.tasks[id].status == b.tasks[id].status {
      assert b'.tasks[id].(priority := b.tasks[id].priority) == b.tasks[id];
    }
  }

  /** Each open task ends with the priority of its rank. */
  lemma {:induction false} StampSets(b: Board, ranked: seq<Task>, k: nat, i: nat)
    requires i < k <= |ranked| && ranked[i].id in b.tasks
    requires WellFormed(b)
    requires forall x, y :: 0 <= x < y < |ranked| ==> ranked[x].id != ranked[y].id
    ensures ranked[i].id in Stamp(b, ranked, k).tasks
    ensures Stamp(b, ranked, k).tasks[ranked[i].id].priority == Some(PriorityForRank(i, |ranked|))
  {
    hide PriorityForRank, WellFormed;
    StampKeeps(b, ranked, k);
    StampKeeps(b, ranked, k - 1);
    if i < k - 1 {
      StampSets(b, ranked, k - 1, i);
    }
  }

  // ----- what the effects do

  /** A new task holds what was given, under its id, open. */
  lemma CreatedIs(t: NewTask, id: string)
    ensures var created := Create(t, id);
            && created.id == id && created.status == Open
            && created.title == t.title && created.project == t.project
            && created.priority == t.priority && created.due == t.due && created.notes == t.notes
  {
  }

  /** Adding several tasks puts them behind the others, in order, each under the next id. */
  lemma {:induction false} AddAllAre(b: Board, ts: seq<NewTask>, i: nat)
    requires WellFormed(b) && i < |ts|
    ensures var (b', id) := (AddAll(b, ts), TaskId(b.nextId + i));
            && |b'.order| == |b.order| + |ts| && b'.order[..|b.order|] == b.order && b'.order[|b.order| + i] == id
            && id in b'.tasks && b'.tasks[id] == Create(ts[i], id)
    decreases |ts|
  {
    hide WellFormed, Issued, TaskId, Create, Add, Evolves;
    var b1, rest := Add(b, ts[0]), ts[1..];
    AddKeeps(b, ts[0]);
    OrderAfterAdd(b, ts[0]);
    if i > 0 {
      assert rest[i - 1] == ts[i];
      AddAllAre(b1, rest, i - 1);
    } else {
      AddAllKeeps(b1, rest);
      AddAllOrder(b1, rest);
    }
  }

  lemma {:induction false} OrderAfterAdd(b: Board, t: NewTask)
    requires WellFormed(b)
    ensures Add(b, t).order == b.order + [TaskId(b.nextId)] && Add(b, t).nextId == b.nextId + 1
    ensures TaskId(b.nextId) in Add(b, t).tasks
    ensures Add(b, t).tasks[TaskId(b.nextId)] == Create(t, TaskId(b.nextId))
  {
    hide Issued, TaskId, Create;
    NextIdIsNew(b.nextId);
  }

  lemma {:induction false} AddAllOrder(b: Board, ts: seq<NewTask>)
    requires WellFormed(b)
    ensures |AddAll(b, ts).order| == |b.order| + |ts| && AddAll(b, ts).order[..|b.order|] == b.order
    decreases |ts|
  {
    hide WellFormed, Issued, TaskId, Create, Add;
    if ts == [] {
    } else {
      AddKeeps(b, ts[0]);
      OrderAfterAdd(b, ts[0]);
      AddAllOrder(Add(b, ts[0]), ts[1..]);
      var order := AddAll(b, ts).order;
      assert order[..|b.order|] == order[..|b.order| + 1][..|b.order|];
    }
  }

  /** Marking done changes the status of one task and nothing else. */
  lemma MarkDoneIs(b: Board, id: string)
    ensures var b' := MarkDone(b, id);
            && b'.order == b.order && b'.nextId == b.nextId && b'.tasks.Keys == b.tasks.Keys
            && forall k :: k in b.tasks ==>
                 b'.tasks[k] == if k == id then b.tasks[k].(status := Done) else b.tasks[k]
  {
  }

  /** Clearing leaves the tasks that are not done as they are, in their order. */
  lemma {:induction false} ClearedIs(b: Board)
    ensures var b' := ClearedBoard(b);
            && Subsequence(b'.order, b.order)
            && forall k :: k in b'.tasks ==> k in b.tasks && b'.tasks[k] == b.tasks[k] && b.tasks[k].status != Done
  {
    WithoutKeepsOrder(b.order, WithStatus(b, Done));
  }

  lemma {:induction false} WithoutKeepsOrder(ids: seq<string>, gone: set<string>)
    ensures Subsequence(Without(ids, gone), ids)
  {
    if ids == [] {
    } else {
      WithoutKeepsOrder(ids[1..], gone);
      var rest := Without(ids[1..], gone);
      assert ([ids[0]] + rest)[1..] == rest;
      assert [] + rest == rest;
    }
  }

  /** The open tasks stand in the order of the board. */
  lemma {:induction false} SelectKeepsOrder(b: Board, ids: seq<string>, status: Status)
    ensures Subsequence(Select(b, ids, status), ids)
  {
    if ids == [] {
    } else {
      SelectKeepsOrder(b, ids[1..], status);
      var rest := Select(b, ids[1..], status);
      assert ([ids[0]] + rest)[1..] == rest;
      assert [] + rest == rest;
    }
  }

  // ----- which task a query names

  /** The lowered query stands somewhere in the lowered title. */
  ghost predicate TitleHolds(b: Board, id: string, query: string, lower: Lower) {
    id in b.tasks && exists left, right :: lower(b.tasks[id].title) == left + lower(query) + right
  }

  /** The first task in the order whose title holds the query. */
  ghost predicate FirstByTitle(b: Board, ids: seq<string>, query: string, lower: Lower, i: nat) {
    && i < |ids|
    && TitleHolds(b, ids[i], query, lower)
    && forall j :: 0 <= j < i ==> !TitleHolds(b, ids[j], query, lower)
  }

  lemma {:induction false} IncludedIff(b: Board, id: string, query: string, lower: Lower)
    requires id in b.tasks
    ensures Includes(lower(b.tasks[id].title), lower(query)) <==> TitleHolds(b, id, query, lower)
  {
    IncludesIff(lower(b.tasks[id].title), lower(query));
  }

  lemma {:induction false} FindInOrder(b: Board, ids: seq<string>, query: string, lower: Lower)
    requires query !in b.tasks
    ensures match FindTask(b, ids, query, lower)
            case None => forall i :: 0 <= i < |ids| ==> !TitleHolds(b, ids[i], query, lower)
            case Some(id) => exists i: nat :: FirstByTitle(b, ids, query, lower, i) && ids[i] == id
  {
    hide TitleHolds, Includes;
    if ids == [] {
    } else {
      if ids[0] in b.tasks {
        IncludedIff(b, ids[0], query, lower);
      } else {
        NoTaskNoTitle(b, ids[0], query, lower);
      }
      if TitleHolds(b, ids[0], query, lower) {
        assert FirstByTitle(b, ids, query, lower, 0);
      } else {
        FindInOrder(b, ids[1..], query, lower);
        forall i | 0 < i < |ids| ensures ids[i] == ids[1..][i - 1] {
        }
        var found := FindTask(b, ids[1..], query, lower);
        if found.Some? {
          var i: nat :| FirstByTitle(b, ids[1..], query, lower, i) && ids[1..][i] == found.value;
          assert FirstByTitle(b, ids, query, lower, i + 1);
        }
      }
    }
  }

  lemma NoTaskNoTitle(b: Board, id: string, query: string, lower: Lower)
    requires id !in b.tasks
    ensures !TitleHolds(b, id, query, lower)
  {
  }

  /** A query names the task with that id, or else the first one on the board whose title holds it. */
  ghost predicate Names(b: Board, query: string, lower: Lower, id: string) {
    if query in b.tasks then id == query
    else exists i: nat :: FirstByTitle(b, b.order, query, lower, i) && b.order[i] == id
  }

  lemma {:induction false} FindTaskIff(b: Board, query: string, lower: Lower, id: string)
    ensures FindTask(b, b.order, query, lower) == Some(id) <==> Names(b, query, lower, id)
    ensures FindTask(b, b.order, query, lower) == None
       <==> query !in b.tasks && forall i :: 0 <= i < |b.order| ==> !TitleHolds(b, b.order[i], query, lower)
  {
    hide TitleHolds, Includes;
    if query !in b.tasks {
      FindInOrder(b, b.order, query, lower);
    }
  }

  /** Completing marks the task that the query names, and nothing else changes; without such a task nothing does. */
  lemma {:induction false} CompleteIs(b: Board, query: string, lower: Lower, id: string)
    ensures Names(b, query, lower, id) ==> Complete(b, query, lower) == MarkDone(b, id)
    ensures FindTask(b, b.order, query, lower) == None ==> Complete(b, query, lower) == b
  {
    hide Names, MarkDone, FindTask;
    FindTaskIff(b, query, lower, id);
  }

  // ----- the board as the process keeps it

  class TodoBoard {
    var nextId: nat
    var tasks: map<string, Task>
    /** The keys of the map in insertion order. */
    var order: seq<string>

    function State(): Board
      reads this
    {
      Board(nextId, tasks, order)
    }

    constructor ()
      ensures State() == Board(1, map[], []) && WellFormed(State())
    {
      nextId, tasks, order := 1, map[], [];
    }

    method AddTask(task: NewTask) returns (created: Task)
      requires WellFormed(State())
      modifies this
      ensures State() == Add(old(State()), task) && WellFormed(State()) && Evolves(old(State()), State())
      ensures created.id == TaskId(old(nextId)) && created.id !in old(tasks)
      ensures tasks == old(tasks)[created.id := created] && created == Create(task, created.id)
      ensures created.title == task.title && created.project == task.project && created.status == Open
    {
      AddKeeps(State(), task);
      var id := TaskId(nextId);
      nextId := nextId + 1;
      created := Create(task, id);
      if id !in tasks {
        order := order + [id];
      }
      tasks := tasks[id := created];
    }

    method CompleteTask(query: string, lower: Lower) returns (found: Option<string>)
      requires WellFormed(State())
      modifies this`tasks
      ensures State() == Complete(old(State()), query, lower) && WellFormed(State()) && Evolves(old(State()), State())
      ensures found == FindTask(old(State()), order, query, lower)
      ensures forall id :: found == Some(id) <==> Names(old(State()), query, lower, id)
      ensures tasks.Keys == old(tasks).Keys
      ensures forall k :: k in tasks ==>
                tasks[k] == if found == Some(k) then old(tasks)[k].(status := Done) else old(tasks)[k]
    {
      hide Names;
      forall id ensures FindTask(State(), order, query, lower) == Some(id) <==> Names(State(), query, lower, id) {
        FindTaskIff(State(), query, lower, id);
      }
      found := FindTask(State(), order, query, lower);
      if found.Some? {
        MarkDoneKeeps(State(), found.value);
        if found.value in tasks {
          tasks := tasks[found.value := tasks[found.value].(status := Done)];
        }
      }
    }

    /** The confirmed second call of clear_done: nothing else runs between listing and deleting. */
    method ClearDone() returns (deleted: nat)
      requires WellFormed(State())
      modifies this`tasks, this`order
      ensures State() == ClearedBoard(old(State())) && WellFormed(State()) && Evolves(old(State()), State())
      ensures deleted == |old(tasks)| - |tasks|
    {
      hide WellFormed, Evolves, Remove, Select, Issued;
      ghost var before := State();
      ClearKeeps(before);
      var done := Select(State(), order, Done);
      DeleteTasks(done);
      AllDone(before, done);
      DeletedCount(before, done);
      deleted := |done|;
    }

    method DeleteTasks(done: seq<string>)
      modifies this`tasks, this`order
      ensures State() == Remove(old(State()), set k | 0 <= k < |done| :: done[k])
    {
      hide Remove, Without;
      ghost var before := State();
      ghost var gone: set<string> := {};
      RemoveNone(before);
      for i := 0 to |done|
        invariant gone == set k | 0 <= k < i :: done[k]
        invariant State() == Remove(before, gone)
      {
        RemoveMore(before, gone, done[i]);
        RemoveOne(State(), done[i]);
        tasks := tasks - {done[i]};
        order := Without(order, {done[i]});
        gone := gone + {done[i]};
      }
    }

    method Prioritize(rankingText: string, lower: Lower) returns (ranked: seq<Task>)
      requires WellFormed(State())
      modifies this`tasks
      ensures State() == Prioritized(old(State()), rankingText, lower) && WellFormed(State())
          && Evolves(old(State()), State())
      ensures ranked == Ranked(rankingText, TasksOf(old(State()), OpenIds(old(State()))), lower)
    {
      hide WellFormed, Evolves, PriorityForRank;
      ghost var before := State();
      var candidates := TasksOf(State(), OpenIds(State()));
      ranked := ApplyRanking(rankingText, candidates, lower);
      StampKeeps(before, ranked, |ranked|);
      StampEvolves(before, ranked, |ranked|);
      for index := 0 to |ranked|
        invariant State() == Stamp(before, ranked, index)
      {
        var id := ranked[index].id;
        if id in tasks {
          tasks := tasks[id := tasks[id].(priority := Some(PriorityForRank(index, |ranked|)))];
        }
      }
    }
  }

  lemma {:induction false} SelectIs(b: Board, ids: seq<string>, status: Status)
    ensures forall id :: id in Select(b, ids, status) <==> id in ids && id in b.tasks && b.tasks[id].status == status
  {
    if ids == [] {
    } else {
      SelectIs(b, ids[1..], status);
      assert ids == [ids[0]] + ids[1..];
    }
  }

  lemma {:induction false} WithoutNone(ids: seq<string>)
    ensures Without(ids, {}) == ids
  {
    if ids == [] {
    } else {
      WithoutNone(ids[1..]);
    }
  }

  lemma {:induction false} RemoveNone(b: Board)
    ensures Remove(b, {}) == b
  {
    WithoutNone(b.order);
    assert b.tasks - {} == b.tasks;
  }

  lemma RemoveOne(b: Board, id: string)
    ensures Remove(b, {id}) == Board(b.nextId, b.tasks - {id}, Without(b.order, {id}))
  {
  }

  lemma {:induction false} WithoutMore(ids: seq<string>, gone: set<string>, id: string)
    ensures Without(Without(ids, gone), {id}) == Without(ids, gone + {id})
  {
    if ids == [] {
    } else {
      WithoutMore(ids[1..], gone, id);
      var rest := Without(ids[1..], gone);
      assert ([ids[0]] + rest)[1..] == rest;
      assert [] + rest == rest;
    }
  }

  lemma {:induction false} RemoveMore(b: Board, gone: set<string>, id: string)
    ensures Remove(Remove(b, gone), {id}) == Remove(b, gone + {id})
  {
    WithoutMore(b.order, gone, id);
    assert b.tasks - gone - {id} == b.tasks - (gone + {id});
  }

  lemma {:induction false} AllDone(b: Board, done: seq<string>)
    requires WellFormed(b) && done == Select(b, b.order, Done)
    ensures (set k | 0 <= k < |done| :: done[k]) == WithStatus(b, Done)
  {
    hide Issued, TaskId;
    SelectIs(b, b.order, Done);
  }

  lemma {:induction false} SelectDistinct(b: Board, ids: seq<string>, status: Status)
    requires Distinct(ids)
    ensures Distinct(Select(b, ids, status))
  {
    if ids == [] {
    } else {
      SelectDistinct(b, ids[1..], status);
      SelectIs(b, ids[1..], status);
      assert ids[0] !in ids[1..];
    }
  }

  lemma {:induction false} DistinctSize(ids: seq<string>)
    requires Distinct(ids)
    ensures |set k | 0 <= k < |ids| :: ids[k]| == |ids|
  {
    var members := set k | 0 <= k < |ids| :: ids[k];
    if ids == [] {
      assert members == {};
    } else {
      var rest := set k | 0 <= k < |ids[1..]| :: ids[1..][k];
      DistinctSize(ids[1..]);
      assert ids[0] !in rest;
      assert members == {ids[0]} + rest by {
        forall k | 0 <= k < |ids| ensures ids[k] in {ids[0]} + rest {
          if k > 0 {
            assert ids[k] == ids[1..][k - 1];
          }
        }
        forall k | 0 <= k < |ids[1..]| ensures ids[1..][k] in members {
          assert ids[1..][k] == ids[k + 1];
        }
      }
    }
  }

  lemma {:induction false} DeletedCount(b: Board, done: seq<string>)
    requires WellFormed(b) && done == Select(b, b.order, Done)
    ensures |b.tasks| - |ClearedBoard(b).tasks| == |done|
  {
    hide Issued, TaskId;
    SelectDistinct(b, b.order, Done);
    DistinctSize(done);
    AllDone(b, done);
    var gone := WithStatus(b, Done);
    assert gone <= b.tasks.Keys;
    assert (b.tasks - gone).Keys == b.tasks.Keys - gone;
    assert |b.tasks - gone| == |(b.tasks - gone).Keys|;
    assert |b.tasks| == |b.tasks.Keys|;
  }
}
