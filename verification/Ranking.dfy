/** Ordering the open tasks by the model's ranking, and the priorities the ranks are given. */
module Ranking {
  import opened Wrappers
  import opened Text
  import opened Seqs

  datatype Priority = High | Medium | Low

  datatype Status = Open | Done

  datatype Task = Task(
    id: string,
    title: string,
    project: string,
    priority: Option<Priority>,
    due: Option<string>,
    notes: Option<string>,
    status: Status)

  /** `toLowerCase`, which the ranking takes as given. */
  type Lower = string -> string

  predicate Mentions(line: string, task: Task, lower: Lower) {
    Includes(lower(line), lower(task.title))
  }

  /** A line mentions a task whose title stands somewhere in it, whatever the case. */
  lemma {:induction false} MentionsIff(line: string, task: Task, lower: Lower)
    ensures Mentions(line, task, lower) <==> exists a, b :: lower(line) == a + lower(task.title) + b
  {
    IncludesIff(lower(line), lower(task.title));
  }

  /** The first task a line mentions. */
  function FindMentioned(line: string, tasks: seq<Task>, lower: Lower, i: nat): (r: Option<nat>)
    requires i <= |tasks|
    ensures r.Some? ==> i <= r.value < |tasks| && Mentions(line, tasks[r.value], lower)
    decreases |tasks| - i
  {
    if i == |tasks| then None
    else if Mentions(line, tasks[i], lower) then Some(i)
    else FindMentioned(line, tasks, lower, i + 1)
  }

  function RemoveAt<T>(s: seq<T>, i: nat): seq<T>
    requires i < |s|
  {
    s[..i] + s[i + 1..]
  }

  /** What each line picks in turn, and what is left. */
  function Pick(lines: seq<string>, remaining: seq<Task>, lower: Lower): (seq<Task>, seq<Task>) {
    if lines == [] then ([], remaining)
    else
      match FindMentioned(lines[0], remaining, lower, 0)
      case None => Pick(lines[1..], remaining, lower)
      case Some(i) =>
        var (picked, rest) := Pick(lines[1..], RemoveAt(remaining, i), lower);
        ([remaining[i]] + picked, rest)
  }

  function Ranked(ranking: string, candidates: seq<Task>, lower: Lower): seq<Task> {
    var (picked, rest) := Pick(Split(ranking, NL), candidates, lower);
    picked + rest
  }

  method ApplyRanking(rankingText: string, candidates: seq<Task>, lower: Lower) returns (r: seq<Task>)
    ensures r == Ranked(rankingText, candidates, lower)
  {
    var remaining := candidates;
    var ranked: seq<Task> := [];
    var lines := Split(rankingText, NL);
    ghost var all := Pick(lines, candidates, lower);
    for k := 0 to |lines|
      invariant var (picked, rest) := Pick(lines[k..], remaining, lower); ranked + picked == all.0 && rest == all.1
    {
      assert lines[k..][1..] == lines[k + 1..];
      var index := FindMentioned(lines[k], remaining, lower, 0);
      if index.Some? {
        ghost var picked := Pick(lines[k + 1..], RemoveAt(remaining, index.value), lower).0;
        Assoc(ranked, [remaining[index.value]], picked);
        ranked := ranked + [remaining[index.value]];
        remaining := RemoveAt(remaining, index.value);
      }
    }
    return ranked + remaining;
  }

  lemma {:induction false} SubsequenceRemove<T>(a: seq<T>, b: seq<T>, i: nat)
    requires i < |b| && Subsequence(a, RemoveAt(b, i))
    ensures Subsequence(a, b)
  {
    if a == [] {
    } else {
      if i == 0 {
        assert RemoveAt(b, 0) == b[1..];
      } else {
        assert RemoveAt(b, i)[1..] == RemoveAt(b[1..], i - 1);
        if a[0] == b[0] && Subsequence(a[1..], RemoveAt(b, i)[1..]) {
          SubsequenceRemove(a[1..], b[1..], i - 1);
        } else {
          SubsequenceRemove(a, b[1..], i - 1);
        }
      }
    }
  }

  predicate MentionedIn(lines: seq<string>, task: Task, lower: Lower) {
    exists k :: 0 <= k < |lines| && Mentions(lines[k], task, lower)
  }

  lemma {:induction false} RemoveAtCounts<T>(s: seq<T>, i: nat)
    requires i < |s|
    ensures multiset(s) == multiset{s[i]} + multiset(RemoveAt(s, i))
  {
    assert s == s[..i] + [s[i]] + s[i + 1..];
  }

  /** Picked and left over tasks together are the candidates. */
  lemma {:induction false} PickKeepsTasks(lines: seq<string>, remaining: seq<Task>, lower: Lower)
    ensures var (picked, rest) := Pick(lines, remaining, lower);
            multiset(picked) + multiset(rest) == multiset(remaining)
  {
    if lines == [] {
    } else {
      match FindMentioned(lines[0], remaining, lower, 0)
      case None =>
        PickKeepsTasks(lines[1..], remaining, lower);
      case Some(i) =>
        var picked := Pick(lines[1..], RemoveAt(remaining, i), lower).0;
        PickKeepsTasks(lines[1..], RemoveAt(remaining, i), lower);
        RemoveAtCounts(remaining, i);
        assert multiset([remaining[i]] + picked) == multiset{remaining[i]} + multiset(picked);
    }
  }

  /** The tasks left over keep their order. */
  lemma {:induction false} PickKeepsOrder(lines: seq<string>, remaining: seq<Task>, lower: Lower)
    ensures Subsequence(Pick(lines, remaining, lower).1, remaining)
  {
    if lines == [] {
      SubsequenceSelf(remaining);
    } else {
      match FindMentioned(lines[0], remaining, lower, 0)
      case None =>
        PickKeepsOrder(lines[1..], remaining, lower);
      case Some(i) =>
        PickKeepsOrder(lines[1..], RemoveAt(remaining, i), lower);
        SubsequenceRemove(Pick(lines, remaining, lower).1, remaining, i);
    }
  }

  /** Only mentioned tasks are picked. */
  lemma {:induction false} PickedAreMentioned(lines: seq<string>, remaining: seq<Task>, lower: Lower)
    ensures forall t :: t in Pick(lines, remaining, lower).0 ==> MentionedIn(lines, t, lower)
  {
    hide Mentions;
    if lines == [] {
    } else {
      match FindMentioned(lines[0], remaining, lower, 0)
      case None =>
        PickedAreMentioned(lines[1..], remaining, lower);
        MentionedLater(lines, Pick(lines[1..], remaining, lower).0, lower);
      case Some(i) =>
        PickedAreMentioned(lines[1..], RemoveAt(remaining, i), lower);
        MentionedLater(lines, Pick(lines[1..], RemoveAt(remaining, i), lower).0, lower);
        assert Mentions(lines[0], remaining[i], lower);
    }
  }

  lemma {:induction false} MentionedLater(lines: seq<string>, tasks: seq<Task>, lower: Lower)
    requires lines != [] && forall t :: t in tasks ==> MentionedIn(lines[1..], t, lower)
    ensures forall t :: t in tasks ==> MentionedIn(lines, t, lower)
  {
    forall t | t in tasks ensures MentionedIn(lines, t, lower) {
      var k :| 0 <= k < |lines[1..]| && Mentions(lines[1..][k], t, lower);
      assert Mentions(lines[k + 1], t, lower);
    }
  }

  /** Every task in `picked` has a mentioning line of its own, and the lines come in order. */
  ghost predicate FollowsLines(picked: seq<Task>, lines: seq<string>, lower: Lower) {
    picked == []
    || (lines != [] && ((Mentions(lines[0], picked[0], lower) && FollowsLines(picked[1..], lines[1..], lower))
                        || FollowsLines(picked, lines[1..], lower)))
  }

  /** The picked tasks stand in the order of the lines that mention them. */
  lemma {:induction false} PickFollowsLines(lines: seq<string>, remaining: seq<Task>, lower: Lower)
    ensures FollowsLines(Pick(lines, remaining, lower).0, lines, lower)
  {
    hide Mentions;
    if lines == [] {
    } else {
      match FindMentioned(lines[0], remaining, lower, 0)
      case None => PickFollowsLines(lines[1..], remaining, lower);
      case Some(i) =>
        PickFollowsLines(lines[1..], RemoveAt(remaining, i), lower);
        assert Pick(lines, remaining, lower).0[1..] == Pick(lines[1..], RemoveAt(remaining, i), lower).0;
    }
  }

  // ----- which line picks which task

  /** The candidates that choices have taken, by their positions. */
  function Taken(choices: seq<Option<nat>>): set<nat> {
    if choices == [] then {}
    else
      var last := choices[|choices| - 1];
      Taken(choices[..|choices| - 1]) + if last.Some? then {last.value} else {}
  }

  /** A line chooses the first candidate it mentions that is not taken, and none only when all it mentions are taken. */
  ghost predicate ChoiceOk(line: string, candidates: seq<Task>, lower: Lower, taken: set<nat>, choice: Option<nat>) {
    var end := if choice.Some? then choice.value else |candidates|;
    && (choice.Some? ==> end < |candidates| && Mentions(line, candidates[end], lower) && end !in taken)
    && forall i :: 0 <= i < end && i < |candidates| && Mentions(line, candidates[i], lower) ==> i in taken
  }

  /** One choice a line, made in the order of the lines. */
  ghost predicate ChoicesOk(lines: seq<string>, candidates: seq<Task>, lower: Lower, choices: seq<Option<nat>>) {
    && |choices| == |lines|
    && forall j :: 0 <= j < |lines| ==> ChoiceOk(lines[j], candidates, lower, Taken(choices[..j]), choices[j])
  }

  /** The chosen tasks, in the order of the lines. */
  function Chosen(candidates: seq<Task>, choices: seq<Option<nat>>): seq<Task> {
    if choices == [] then []
    else
      (if choices[0].Some? && choices[0].value < |candidates| then [candidates[choices[0].value]] else [])
      + Chosen(candidates, choices[1..])
  }

  /** The first `n` candidates but for those taken, in their order. */
  function LeftOver(candidates: seq<Task>, taken: set<nat>, n: nat): seq<Task>
    requires n <= |candidates|
  {
    if n == 0 then []
    else LeftOver(candidates, taken, n - 1) + if n - 1 in taken then [] else [candidates[n - 1]]
  }

  lemma {:induction false} NothingTaken(candidates: seq<Task>, n: nat)
    requires n <= |candidates|
    ensures LeftOver(candidates, {}, n) == candidates[..n]
  {
    if n == 0 {
    } else {
      NothingTaken(candidates, n - 1);
    }
  }

  lemma {:induction false} LeftOverGrows(candidates: seq<Task>, taken: set<nat>, m: nat, n: nat)
    requires m <= n <= |candidates|
    ensures LeftOver(candidates, taken, m) <= LeftOver(candidates, taken, n)
    ensures m < n && m !in taken ==>
              |LeftOver(candidates, taken, m)| < |LeftOver(candidates, taken, n)|
              && LeftOver(candidates, taken, n)[|LeftOver(candidates, taken, m)|] == candidates[m]
  {
    if m == n {
    } else {
      LeftOverGrows(candidates, taken, m, n - 1);
    }
  }

  /** What is left over stands at some position that is not taken. */
  lemma {:induction false} LeftOverAt(candidates: seq<Task>, taken: set<nat>, n: nat, p: nat) returns (i: nat)
    requires n <= |candidates| && p < |LeftOver(candidates, taken, n)|
    ensures i < n && i !in taken && LeftOver(candidates, taken, n)[p] == candidates[i]
  {
    if p < |LeftOver(candidates, taken, n - 1)| {
      i := LeftOverAt(candidates, taken, n - 1, p);
    } else {
      i := n - 1;
    }
  }

  /** Taking one more candidate removes it from what is left over. */
  lemma {:induction false} TakeOne(candidates: seq<Task>, taken: set<nat>, i: nat, n: nat)
    requires i < n <= |candidates| && i !in taken
    ensures |LeftOver(candidates, taken, i)| < |LeftOver(candidates, taken, n)|
    ensures LeftOver(candidates, taken + {i}, n)
         == RemoveAt(LeftOver(candidates, taken, n), |LeftOver(candidates, taken, i)|)
  {
    var p, whole := |LeftOver(candidates, taken, i)|, LeftOver(candidates, taken, n);
    LeftOverGrows(candidates, taken, i, n);
    if n == i + 1 {
      SameBelow(candidates, taken, i, i);
      assert whole == LeftOver(candidates, taken, i) + [candidates[i]];
    } else {
      TakeOne(candidates, taken, i, n - 1);
      var init, last := LeftOver(candidates, taken, n - 1), if n - 1 in taken then [] else [candidates[n - 1]];
      assert whole == init + last;
      assert RemoveAt(whole, p) == RemoveAt(init, p) + last;
    }
  }

  lemma {:induction false} SameBelow(candidates: seq<Task>, taken: set<nat>, i: nat, n: nat)
    requires n <= i && n <= |candidates|
    ensures LeftOver(candidates, taken + {i}, n) == LeftOver(candidates, taken, n)
  {
    if n == 0 {
    } else {
      SameBelow(candidates, taken, i, n - 1);
    }
  }

  lemma {:induction false} FirstMentioned(line: string, tasks: seq<Task>, lower: Lower, i: nat, p: nat)
    requires i <= p < |tasks| && Mentions(line, tasks[p], lower)
    requires forall q :: i <= q < p ==> !Mentions(line, tasks[q], lower)
    ensures FindMentioned(line, tasks, lower, i) == Some(p)
    decreases p - i
  {
    hide Mentions;
    if i == p {
    } else {
      FirstMentioned(line, tasks, lower, i + 1, p);
    }
  }

  lemma {:induction false} NotMentioned(line: string, tasks: seq<Task>, lower: Lower, i: nat)
    requires i <= |tasks| && forall q :: i <= q < |tasks| ==> !Mentions(line, tasks[q], lower)
    ensures FindMentioned(line, tasks, lower, i) == None
    decreases |tasks| - i
  {
    hide Mentions;
    if i == |tasks| {
    } else {
      NotMentioned(line, tasks, lower, i + 1);
    }
  }

  /** Among what is left over a line finds the candidate it chooses. */
  lemma {:induction false} FindIsChoice(line: string, candidates: seq<Task>, lower: Lower, taken: set<nat>,
                                        choice: Option<nat>)
    requires ChoiceOk(line, candidates, lower, taken, choice)
    ensures var left := LeftOver(candidates, taken, |candidates|);
            match choice
            case None => FindMentioned(line, left, lower, 0) == None
            case Some(i) =>
              && FindMentioned(line, left, lower, 0) == Some(|LeftOver(candidates, taken, i)|)
              && |LeftOver(candidates, taken, i)| < |left| && left[|LeftOver(candidates, taken, i)|] == candidates[i]
  {
    hide Mentions, LeftOver, FindMentioned;
    var n := |candidates|;
    var left := LeftOver(candidates, taken, n);
    var below := if choice.Some? then choice.value else n;
    var before := LeftOver(candidates, taken, below);
    LeftOverGrows(candidates, taken, below, n);
    forall q | 0 <= q < |before| ensures !Mentions(line, left[q], lower) {
      var i := LeftOverAt(candidates, taken, below, q);
      assert left[q] == before[q] == candidates[i];
    }
    if choice.Some? {
      FirstMentioned(line, left, lower, 0, |before|);
    } else {
      NotMentioned(line, left, lower, 0);
    }
  }

  lemma {:induction false} TakenNext(choices: seq<Option<nat>>, n: nat)
    requires n < |choices|
    ensures Taken(choices[..n + 1]) == Taken(choices[..n]) + if choices[n].Some? then {choices[n].value} else {}
  {
    assert choices[..n + 1][..n] == choices[..n];
  }

  /** From line `n` on, picking follows the choices. */
  lemma {:induction false} PickFollowsChoices(lines: seq<string>, candidates: seq<Task>, lower: Lower,
                                              choices: seq<Option<nat>>, n: nat)
    requires ChoicesOk(lines, candidates, lower, choices) && n <= |lines|
    ensures Pick(lines[n..], LeftOver(candidates, Taken(choices[..n]), |candidates|), lower)
         == (Chosen(candidates, choices[n..]), LeftOver(candidates, Taken(choices), |candidates|))
    decreases |lines| - n
  {
    hide LeftOver, FindMentioned, Taken, RemoveAt;
    if n == |lines| {
      assert choices[..n] == choices;
    } else {
      var taken := Taken(choices[..n]);
      PickFollowsChoices(lines, candidates, lower, choices, n + 1);
      FindIsChoice(lines[n], candidates, lower, taken, choices[n]);
      TakenNext(choices, n);
      assert lines[n..][1..] == lines[n + 1..] && choices[n..][1..] == choices[n + 1..];
      if choices[n].Some? {
        TakeOne(candidates, taken, choices[n].value, |candidates|);
      } else {
        assert Taken(choices[..n + 1]) == taken + {} == taken;
        var rest := Chosen(candidates, choices[n + 1..]);
        assert Chosen(candidates, choices[n..]) == [] + rest == rest;
      }
    }
  }

  /** The candidate a line chooses. */
  function Choose(line: string, candidates: seq<Task>, lower: Lower, taken: set<nat>, i: nat): (choice: Option<nat>)
    requires i <= |candidates|
    decreases |candidates| - i
  {
    if i == |candidates| then None
    else if Mentions(line, candidates[i], lower) && i !in taken then Some(i)
    else Choose(line, candidates, lower, taken, i + 1)
  }

  lemma {:induction false} ChooseIsOk(line: string, candidates: seq<Task>, lower: Lower, taken: set<nat>, i: nat)
    requires i <= |candidates|
    requires forall k :: 0 <= k < i && Mentions(line, candidates[k], lower) ==> k in taken
    ensures ChoiceOk(line, candidates, lower, taken, Choose(line, candidates, lower, taken, i))
    decreases |candidates| - i
  {
    hide Mentions;
    if i < |candidates| && !(Mentions(line, candidates[i], lower) && i !in taken) {
      ChooseIsOk(line, candidates, lower, taken, i + 1);
    }
  }

  /** For every ranking there are such choices. */
  lemma {:induction false} ChoicesExist(lines: seq<string>, candidates: seq<Task>, lower: Lower)
    returns (choices: seq<Option<nat>>)
    ensures ChoicesOk(lines, candidates, lower, choices)
  {
    hide ChoiceOk, Choose;
    if lines == [] {
      choices := [];
    } else {
      var n := |lines| - 1;
      var init := ChoicesExist(lines[..n], candidates, lower);
      ChooseIsOk(lines[n], candidates, lower, Taken(init), 0);
      choices := init + [Choose(lines[n], candidates, lower, Taken(init), 0)];
      forall j | 0 <= j < |lines| ensures ChoiceOk(lines[j], candidates, lower, Taken(choices[..j]), choices[j]) {
        if j == n {
          assert choices[..j] == init;
        } else {
          assert choices[..j] == init[..j] && lines[..n][j] == lines[j];
        }
      }
    }
  }

  /** The chosen tasks, then the others as they stood. */
  ghost predicate RankedBy(r: seq<Task>, lines: seq<string>, candidates: seq<Task>, lower: Lower,
                           choices: seq<Option<nat>>) {
    && ChoicesOk(lines, candidates, lower, choices)
    && r == Chosen(candidates, choices) + LeftOver(candidates, Taken(choices), |candidates|)
  }

  /**
   The ranking, line by line: it is the one order in which each line in turn chooses the first
   candidate it mentions that no earlier line chose, and the candidates that no line chose follow
   in their original order.
   */
  lemma {:induction false} RankedIff(ranking: string, candidates: seq<Task>, lower: Lower, r: seq<Task>)
    ensures r == Ranked(ranking, candidates, lower)
       <==> exists choices :: RankedBy(r, Split(ranking, NL), candidates, lower, choices)
  {
    hide Pick, LeftOver, Taken, Chosen, ChoicesOk, Split;
    var lines := Split(ranking, NL);
    if r == Ranked(ranking, candidates, lower) {
      var choices := ChoicesExist(lines, candidates, lower);
      PickIs(lines, candidates, lower, choices);
      assert RankedBy(r, lines, candidates, lower, choices);
    }
    if choices :| RankedBy(r, lines, candidates, lower, choices) {
      PickIs(lines, candidates, lower, choices);
      assert Ranked(ranking, candidates, lower) == r;
      assert RankedBy(r, Split(ranking, NL), candidates, lower, choices);
    }
  }

  lemma {:induction false} PickIs(lines: seq<string>, candidates: seq<Task>, lower: Lower, choices: seq<Option<nat>>)
    requires ChoicesOk(lines, candidates, lower, choices)
    ensures Pick(lines, candidates, lower)
         == (Chosen(candidates, choices), LeftOver(candidates, Taken(choices), |candidates|))
  {
    hide Pick, LeftOver, Chosen, ChoicesOk;
    PickFollowsChoices(lines, candidates, lower, choices, 0);
    NothingTaken(candidates, |candidates|);
    assert lines[0..] == lines && choices[0..] == choices && candidates[..|candidates|] == candidates;
    assert choices[..0] == [];
  }

  lemma {:induction false} TakenBefore(choices: seq<Option<nat>>, j: nat)
    requires j <= |choices|
    ensures Taken(choices[..j]) <= Taken(choices)
    ensures j < |choices| && choices[j].Some? ==> choices[j].value in Taken(choices)
    decreases |choices| - j
  {
    if j == |choices| {
      assert choices[..j] == choices;
    } else {
      TakenBefore(choices, j + 1);
      TakenNext(choices, j);
    }
  }

  /** A candidate is left over only when every line that mentions it chose one that stands before it. */
  lemma {:induction false} LeftOverWasPassedOver(lines: seq<string>, candidates: seq<Task>, lower: Lower,
                                                 choices: seq<Option<nat>>, i: nat, j: nat)
    requires ChoicesOk(lines, candidates, lower, choices)
    requires i < |candidates| && i !in Taken(choices) && j < |lines| && Mentions(lines[j], candidates[i], lower)
    ensures choices[j].Some? && choices[j].value < i && Mentions(lines[j], candidates[choices[j].value], lower)
  {
    hide Mentions, Taken;
    TakenBefore(choices, j);
    assert ChoiceOk(lines[j], candidates, lower, Taken(choices[..j]), choices[j]);
  }

  /** Ranking loses and invents no task: first the tasks the lines choose, then the others as they stood. */
  lemma {:induction false} RankingReorders(ranking: string, candidates: seq<Task>, lower: Lower)
    ensures multiset(Ranked(ranking, candidates, lower)) == multiset(candidates)
    ensures exists choices ::
              RankedBy(Ranked(ranking, candidates, lower), Split(ranking, NL), candidates, lower, choices)
  {
    hide Pick, RankedBy;
    PickKeepsTasks(Split(ranking, NL), candidates, lower);
    RankedIff(ranking, candidates, lower, Ranked(ranking, candidates, lower));
  }

  // ----- priorities

  function CeilThird(n: nat): nat {
    (n + 2) / 3
  }

  function PriorityForRank(rank: nat, total: nat): Priority {
    if rank < CeilThird(total) then High
    else if rank < CeilThird(2 * total) then Medium
    else Low
  }

  /** How many of the first `k` ranks get a priority. */
  function CountRanks(total: nat, k: nat, p: Priority): nat {
    if k == 0 then 0 else CountRanks(total, k - 1, p) + if PriorityForRank(k - 1, total) == p then 1 else 0
  }

  lemma {:induction false} CountsUpTo(total: nat, k: nat)
    requires k <= total
    ensures CountRanks(total, k, High) == if k < CeilThird(total) then k else CeilThird(total)
    ensures CountRanks(total, k, Medium)
         == if k < CeilThird(total) then 0
            else if k < CeilThird(2 * total) then k - CeilThird(total)
            else CeilThird(2 * total) - CeilThird(total)
    ensures CountRanks(total, k, Low) == if k < CeilThird(2 * total) then 0 else k - CeilThird(2 * total)
  {
    if k == 0 {
    } else {
      CountsUpTo(total, k - 1);
    }
  }

  /** The three priorities split the ranks as evenly as can be, the better ones never fewer. */
  lemma {:induction false} PrioritiesAreEven(total: nat)
    ensures var high := CountRanks(total, total, High);
            var medium := CountRanks(total, total, Medium);
            var low := CountRanks(total, total, Low);
            high >= medium >= low && high + medium + low == total && high - low <= 1
  {
    CountsUpTo(total, total);
  }
}
