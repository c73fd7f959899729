/**
 What prioritising does to the board: every open task gets the priority of its rank, and the
 priorities come out even.
*/
module BoardPriorities {
  import opened Wrappers
  import opened Ranking
  import opened TodoBoard

  /** The open tasks in the order of the ranking. */
  function RankedOpen(b: Board, ranking: string, lower: Lower): seq<Task> {
    Ranked(ranking, TasksOf(b, OpenIds(b)), lower)
  }

  ghost predicate DistinctIds(tasks: seq<Task>) {
    forall x, y :: 0 <= x < y < |tasks| ==> tasks[x].id != tasks[y].id
  }

  // ----- the open tasks, each once

  lemma {:induction false} TasksOfIds(b: Board, ids: seq<string>)
    requires forall id :: id in ids ==> id in b.tasks
    ensures |TasksOf(b, ids)| == |ids|
    ensures forall i :: 0 <= i < |ids| ==> TasksOf(b, ids)[i] == b.tasks[ids[i]]
  {
    if ids == [] {
    } else {
      TasksOfIds(b, ids[1..]);
    }
  }

  lemma {:induction false} OpenTasks(b: Board)
    requires WellFormed(b)
    ensures var open := TasksOf(b, OpenIds(b));
            && DistinctIds(open)
            && (forall t :: t in open ==> t.id in WithStatus(b, Open) && b.tasks[t.id] == t)
            && (forall id :: id in WithStatus(b, Open) ==> b.tasks[id] in open)
  {
    hide Issued, Select, TasksOf;
    var ids := OpenIds(b);
    SelectIs(b, b.order, Open);
    SelectDistinct(b, b.order, Open);
    TasksOfIds(b, ids);
    forall id | id in WithStatus(b, Open) ensures b.tasks[id] in TasksOf(b, ids) {
      assert id in ids;
      var i :| 0 <= i < |ids| && ids[i] == id;
      assert TasksOf(b, ids)[i] == b.tasks[id];
    }
  }

  lemma {:induction false} OncePerTask(tasks: seq<Task>, t: Task)
    requires DistinctIds(tasks)
    ensures multiset(tasks)[t] <= 1
  {
    if tasks == [] {
    } else {
      var rest := tasks[1..];
      assert tasks == [tasks[0]] + rest;
      OncePerTask(rest, t);
      if t == tasks[0] {
        assert t !in rest;
      }
    }
  }

  lemma {:induction false} TwiceCounted(tasks: seq<Task>, x: nat, y: nat)
    requires x < y < |tasks| && tasks[x] == tasks[y]
    ensures multiset(tasks)[tasks[x]] >= 2
  {
    var (front, back) := (tasks[..y], tasks[y..]);
    assert tasks == front + back;
    assert front[x] == tasks[x] && back[0] == tasks[y];
    assert tasks[x] in multiset(front) && tasks[x] in multiset(back);
  }

  /** Reordering keeps ids distinct. */
  lemma {:induction false} PermutedDistinct(tasks: seq<Task>, permuted: seq<Task>)
    requires DistinctIds(tasks) && multiset(permuted) == multiset(tasks)
    ensures DistinctIds(permuted) && |permuted| == |tasks|
  {
    assert |multiset(permuted)| == |multiset(tasks)|;
    forall x, y | 0 <= x < y < |permuted| ensures permuted[x].id != permuted[y].id {
      if permuted[x].id == permuted[y].id {
        assert permuted[x] in multiset(tasks) && permuted[y] in multiset(tasks);
        OncePerTask(tasks, permuted[x]);
        TwiceCounted(permuted, x, y);
        assert false;
      }
    }
  }

  /** The ranking holds each open task once, and nothing else. */
  lemma {:induction false} RankedOpenIs(b: Board, ranking: string, lower: Lower)
    requires WellFormed(b)
    ensures var ranked := RankedOpen(b, ranking, lower);
            && DistinctIds(ranked)
            && (forall t :: t in ranked ==> t.id in WithStatus(b, Open) && b.tasks[t.id] == t)
            && (forall id :: id in WithStatus(b, Open) ==> b.tasks[id] in ranked)
  {
    hide Ranked, WellFormed, DistinctIds, OpenIds, TasksOf;
    var open := TasksOf(b, OpenIds(b));
    var ranked := RankedOpen(b, ranking, lower);
    OpenTasks(b);
    RankingReorders(ranking, open, lower);
    PermutedDistinct(open, ranked);
    forall t ensures t in ranked <==> t in open {
      assert t in multiset(ranked) <==> t in multiset(open);
    }
  }

  // ----- each task the priority of its rank

  /** After prioritising, each open task has the priority of its rank. */
  lemma {:induction false} OpenTasksGetTheirRank(b: Board, ranking: string, lower: Lower, i: nat)
    requires WellFormed(b) && i < |RankedOpen(b, ranking, lower)|
    ensures var ranked := RankedOpen(b, ranking, lower);
            var b' := Prioritized(b, ranking, lower);
            && ranked[i].id in WithStatus(b, Open)
            && ranked[i].id in b'.tasks
            && b'.tasks[ranked[i].id] == ranked[i].(priority := Some(PriorityForRank(i, |ranked|)))
  {
    hide PriorityForRank, Ranked, WellFormed;
    var ranked := RankedOpen(b, ranking, lower);
    RankedOpenIs(b, ranking, lower);
    StampKeeps(b, ranked, |ranked|);
    StampSets(b, ranked, |ranked|, i);
    assert ranked[i] in ranked;
  }

  // ----- how many of each

  /** The open tasks of a priority. */
  function WithPriority(b: Board, p: Priority): set<string> {
    set id | id in b.tasks && b.tasks[id].status == Open && b.tasks[id].priority == Some(p)
  }

  /** The ids among the first `k` ranks that get a priority. */
  function RankedWith(ranked: seq<Task>, k: nat, p: Priority): set<string>
    requires k <= |ranked|
  {
    set i | 0 <= i < k && PriorityForRank(i, |ranked|) == p :: ranked[i].id
  }

  lemma {:induction false} RankedWithCount(ranked: seq<Task>, k: nat, p: Priority)
    requires k <= |ranked| && DistinctIds(ranked)
    ensures |RankedWith(ranked, k, p)| == CountRanks(|ranked|, k, p)
  {
    hide PriorityForRank, RankedWith, DistinctIds;
    if k == 0 {
      NoneRankedWith(ranked, p);
    } else {
      RankedWithCount(ranked, k - 1, p);
      OneMoreRanked(ranked, k, p);
    }
  }

  lemma NoneRankedWith(ranked: seq<Task>, p: Priority)
    ensures RankedWith(ranked, 0, p) == {}
  {
  }

  lemma {:induction false} OneMoreRanked(ranked: seq<Task>, k: nat, p: Priority)
    requires 0 < k <= |ranked| && DistinctIds(ranked)
    ensures ranked[k - 1].id !in RankedWith(ranked, k - 1, p)
    ensures RankedWith(ranked, k, p)
         == RankedWith(ranked, k - 1, p) + if PriorityForRank(k - 1, |ranked|) == p then {ranked[k - 1].id} else {}
  {
    hide PriorityForRank;
  }

  lemma {:induction false} RankedWithIs(b: Board, ranking: string, lower: Lower, p: Priority)
    requires WellFormed(b)
    ensures var ranked := RankedOpen(b, ranking, lower);
            WithPriority(Prioritized(b, ranking, lower), p) == RankedWith(ranked, |ranked|, p)
  {
    hide PriorityForRank, Ranked, WellFormed, DistinctIds, Stamp;
    var ranked := RankedOpen(b, ranking, lower);
    var b' := Prioritized(b, ranking, lower);
    RankedOpenIs(b, ranking, lower);
    StampKeeps(b, ranked, |ranked|);
    forall i | 0 <= i < |ranked|
      ensures ranked[i].id in b'.tasks && b'.tasks[ranked[i].id].status == Open
      ensures b'.tasks[ranked[i].id].priority == Some(PriorityForRank(i, |ranked|))
    {
      OpenTasksGetTheirRank(b, ranking, lower, i);
    }
    forall id | id in WithPriority(b', p) ensures id in RankedWith(ranked, |ranked|, p) {
      assert b'.tasks[id].(priority := b.tasks[id].priority) == b.tasks[id];
      assert id in WithStatus(b, Open);
      var i :| 0 <= i < |ranked| && ranked[i] == b.tasks[id];
      IdOf(b, id);
      assert ranked[i].id == id;
    }
  }

  lemma IdOf(b: Board, id: string)
    requires WellFormed(b) && id in b.tasks
    ensures b.tasks[id].id == id
  {
  }

  /** The ids of the first `k` tasks. */
  function IdsUpTo(tasks: seq<Task>, k: nat): set<string>
    requires k <= |tasks|
  {
    set i | 0 <= i < k :: tasks[i].id
  }

  lemma {:induction false} IdCount(tasks: seq<Task>, k: nat)
    requires k <= |tasks| && DistinctIds(tasks)
    ensures |IdsUpTo(tasks, k)| == k
  {
    hide IdsUpTo, DistinctIds;
    if k == 0 {
      NoIds(tasks);
    } else {
      IdCount(tasks, k - 1);
      OneMoreId(tasks, k);
    }
  }

  lemma NoIds(tasks: seq<Task>)
    ensures IdsUpTo(tasks, 0) == {}
  {
  }

  lemma OneMoreId(tasks: seq<Task>, k: nat)
    requires 0 < k <= |tasks| && DistinctIds(tasks)
    ensures tasks[k - 1].id !in IdsUpTo(tasks, k - 1)
    ensures IdsUpTo(tasks, k) == IdsUpTo(tasks, k - 1) + {tasks[k - 1].id}
  {
  }

  /** As many ranks as open tasks. */
  lemma {:induction false} RankedOpenCount(b: Board, ranking: string, lower: Lower)
    requires WellFormed(b)
    ensures |RankedOpen(b, ranking, lower)| == |WithStatus(b, Open)|
  {
    hide Ranked, WellFormed;
    var ranked := RankedOpen(b, ranking, lower);
    RankedOpenIs(b, ranking, lower);
    IdCount(ranked, |ranked|);
    var ids := IdsUpTo(ranked, |ranked|);
    forall id ensures id in ids <==> id in WithStatus(b, Open) {
      if id in WithStatus(b, Open) {
        var i :| 0 <= i < |ranked| && ranked[i] == b.tasks[id];
        IdOf(b, id);
      }
      if id in ids {
        var i :| 0 <= i < |ranked| && ranked[i].id == id;
        assert ranked[i] in ranked;
      }
    }
    assert ids == WithStatus(b, Open);
  }

  /**
   After prioritising, the open tasks are split over the three priorities as evenly as can be,
   the better ones never fewer.
   */
  lemma {:induction false} BoardPrioritiesAreEven(b: Board, ranking: string, lower: Lower)
    requires WellFormed(b)
    ensures var b' := Prioritized(b, ranking, lower);
            var (high, medium, low) := (|WithPriority(b', High)|, |WithPriority(b', Medium)|, |WithPriority(b', Low)|);
            && high >= medium >= low && high - low <= 1
            && high + medium + low == |WithStatus(b, Open)| == |WithStatus(b', Open)|
  {
    hide WellFormed, Ranked, WithPriority, RankedWith, CountRanks, Stamp;
    var ranked := RankedOpen(b, ranking, lower);
    RankedOpenIs(b, ranking, lower);
    RankedOpenCount(b, ranking, lower);
    RankedWithCount(ranked, |ranked|, High);
    RankedWithCount(ranked, |ranked|, Medium);
    RankedWithCount(ranked, |ranked|, Low);
    RankedWithIs(b, ranking, lower, High);
    RankedWithIs(b, ranking, lower, Medium);
    RankedWithIs(b, ranking, lower, Low);
    PrioritiesAreEven(|ranked|);
    OpenStays(b, ranked);
  }

  lemma {:induction false} OpenStays(b: Board, ranked: seq<Task>)
    requires WellFormed(b)
    ensures WithStatus(Stamp(b, ranked, |ranked|), Open) == WithStatus(b, Open)
  {
    hide Stamp, WellFormed;
    StampKeeps(b, ranked, |ranked|);
    var b' := Stamp(b, ranked, |ranked|);
    forall id | id in b.tasks ensures b'.tasks[id].status == b.tasks[id].status {
      assert b'.tasks[id].(priority := b.tasks[id].priority) == b.tasks[id];
    }
  }
}
