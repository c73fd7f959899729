/** The host-side cache of discovery verdicts with a fixed freshness horizon. */
module VerdictCache {
  import opened Wrappers

  datatype Verdict = Modern(discover: string) | Legacy

  datatype Entry = Entry(verdict: Verdict, storedAt: int)

  const HORIZON_MS: int := 24 * 60 * 60 * 1000

  predicate Fresh(entry: Entry, now: int) {
    now - entry.storedAt < HORIZON_MS
  }

  /**
   One connect: the key, the clock when the entry is read and when a new one would be dated, and
   whether the connection came up, with the verdict it then found.
   */
  datatype Connect = Connect(key: string, readAt: int, storeAt: int, outcome: Option<Verdict>)

  /** The verdict supplied to the connection, when there is a fresh one. */
  function Prior(verdicts: map<string, Entry>, c: Connect): Option<Verdict> {
    if c.key in verdicts && Fresh(verdicts[c.key], c.readAt) then Some(verdicts[c.key].verdict) else None
  }

  /** The connection was not supplied a verdict and found one: it fills the cache. */
  predicate Fills(verdicts: map<string, Entry>, c: Connect) {
    Prior(verdicts, c).None? && c.outcome.Some?
  }

  function Next(verdicts: map<string, Entry>, c: Connect): map<string, Entry> {
    if Fills(verdicts, c) then verdicts[c.key := Entry(c.outcome.value, c.storeAt)] else verdicts
  }

  class Gateway {
    var verdicts: map<string, Entry>

    constructor ()
      ensures verdicts == map[]
    {
      verdicts := map[];
    }

    method ConnectCached(c: Connect) returns (prior: Option<Verdict>)
      modifies this
      ensures prior == Prior(old(verdicts), c) && verdicts == Next(old(verdicts), c)
    {
      prior := None;
      if c.key in verdicts {
        var entry := verdicts[c.key];
        if Fresh(entry, c.readAt) {
          prior := Some(entry.verdict);
        }
      }
      if c.outcome.None? {
        return;
      }
      if prior.None? {
        verdicts := verdicts[c.key := Entry(c.outcome.value, c.storeAt)];
      }
    }
  }

  /** Sequential connects under a clock that never runs back, from `clock` on. */
  predicate Monotone(run: seq<Connect>, clock: int) {
    run != [] ==> clock <= run[0].readAt <= run[0].storeAt && Monotone(run[1..], run[0].storeAt)
  }

  /** When the entry of a key is filled over a run. */
  function FillTimes(verdicts: map<string, Entry>, run: seq<Connect>, key: string): seq<int>
    decreases |run|
  {
    if run == [] then []
    else
      (if run[0].key == key && Fills(verdicts, run[0]) then [run[0].storeAt] else [])
      + FillTimes(Next(verdicts, run[0]), run[1..], key)
  }

  /** Any two fills in a row lie at least a horizon apart, and so does the first from the entry found. */
  lemma {:induction false} FillsAreSpaced(verdicts: map<string, Entry>, run: seq<Connect>, key: string, clock: int)
    requires Monotone(run, clock)
    ensures var times := FillTimes(verdicts, run, key);
            && (key in verdicts && times != [] ==> times[0] - verdicts[key].storedAt >= HORIZON_MS)
            && forall i :: 0 <= i < |times| - 1 ==> times[i + 1] - times[i] >= HORIZON_MS
    decreases |run|
  {
    if run == [] {
    } else {
      FillsAreSpaced(Next(verdicts, run[0]), run[1..], key, run[0].storeAt);
    }
  }

  lemma {:induction false} SpacedSpan(times: seq<int>)
    requires times != [] && forall i :: 0 <= i < |times| - 1 ==> times[i + 1] - times[i] >= HORIZON_MS
    ensures times[|times| - 1] - times[0] >= (|times| - 1) * HORIZON_MS
  {
    if |times| > 1 {
      var init := times[..|times| - 1];
      SpacedSpan(init);
      assert times[|times| - 1] - times[|times| - 2] >= HORIZON_MS by {
        assert times[(|times| - 2) + 1] - times[|times| - 2] >= HORIZON_MS;
      }
    }
  }

  /** k fills of one key need a span of at least k - 1 horizons. */
  lemma {:induction false} FillsNeedTime(run: seq<Connect>, key: string, clock: int)
    requires Monotone(run, clock) && FillTimes(map[], run, key) != []
    ensures var times := FillTimes(map[], run, key);
            times[|times| - 1] - times[0] >= (|times| - 1) * 86_400_000
  {
    FillsAreSpaced(map[], run, key, clock);
    SpacedSpan(FillTimes(map[], run, key));
  }

  /** The cache after a run of connects. */
  function After(verdicts: map<string, Entry>, run: seq<Connect>): map<string, Entry>
    decreases |run|
  {
    if run == [] then verdicts else After(Next(verdicts, run[0]), run[1..])
  }

  /** An entry that is fresh for a later connect of a run is still there when it comes. */
  lemma {:induction false} FreshEntryStays(verdicts: map<string, Entry>, run: seq<Connect>, i: nat, key: string,
                                           clock: int)
    requires Monotone(run, clock) && i < |run| && run[i].key == key
    requires key in verdicts && Fresh(verdicts[key], run[i].readAt)
    ensures run[0].readAt <= run[i].readAt
    ensures var later := After(verdicts, run[..i]); key in later && later[key] == verdicts[key]
    decreases |run|
  {
    if i == 0 {
    } else {
      MonotoneTo(run, i, clock);
      FreshEntryStays(Next(verdicts, run[0]), run[1..], i - 1, key, run[0].storeAt);
      assert run[..i][1..] == run[1..][..i - 1];
    }
  }

  lemma {:induction false} MonotoneTo(run: seq<Connect>, i: nat, clock: int)
    requires Monotone(run, clock) && i < |run|
    ensures clock <= run[0].readAt <= run[i].readAt
    decreases |run|
  {
    if i == 0 {
    } else {
      MonotoneTo(run[1..], i - 1, run[0].storeAt);
    }
  }

  /**
   Under a monotone clock, within the horizon of a fill every connect with that key is supplied
   the verdict of the fill, whatever connects come between.
   */
  lemma {:induction false} FreshEntryIsSupplied(verdicts: map<string, Entry>, c: Connect, run: seq<Connect>, i: nat)
    requires Fills(verdicts, c) && Monotone(run, c.storeAt) && i < |run|
    requires run[i].key == c.key && run[i].readAt - c.storeAt < HORIZON_MS
    ensures Prior(After(Next(verdicts, c), run[..i]), run[i]) == c.outcome
  {
    FreshEntryStays(Next(verdicts, c), run, i, c.key, c.storeAt);
  }

  // ----- what is supplied

  /** A verdict is supplied exactly when it is stored and less than 24 hours old. */
  lemma PriorIff(verdicts: map<string, Entry>, c: Connect, verdict: Verdict)
    ensures Prior(verdicts, c) == Some(verdict)
       <==> && c.key in verdicts && verdicts[c.key].verdict == verdict
            && c.readAt - verdicts[c.key].storedAt < 86_400_000
  {
  }

  /** Every entry was found by an earlier connect of the run, with its key and at its clock. */
  ghost predicate Filled(run: seq<Connect>, key: string, entry: Entry) {
    exists j :: 0 <= j < |run| && run[j].key == key && run[j].outcome == Some(entry.verdict)
      && run[j].storeAt == entry.storedAt
  }

  lemma {:induction false} EntriesWereFilled(run: seq<Connect>, n: nat, key: string)
    requires n <= |run| && key in After(map[], run[..n])
    ensures Filled(run[..n], key, After(map[], run[..n])[key])
  {
    if n > 0 {
      var before, c := After(map[], run[..n - 1]), run[n - 1];
      AfterSnoc(map[], run[..n - 1], c);
      assert run[..n] == run[..n - 1] + [c];
      if key == c.key && Fills(before, c) {
        assert run[..n][n - 1] == c;
      } else {
        EntriesWereFilled(run, n - 1, key);
        var entry := before[key];
        var j :| 0 <= j < |run[..n - 1]| && run[..n - 1][j].key == key && run[..n - 1][j].outcome == Some(entry.verdict)
                 && run[..n - 1][j].storeAt == entry.storedAt;
        assert run[..n][j] == run[..n - 1][j];
      }
    }
  }

  lemma {:induction false} AfterSnoc(verdicts: map<string, Entry>, run: seq<Connect>, c: Connect)
    ensures After(verdicts, run + [c]) == Next(After(verdicts, run), c)
    decreases |run|
  {
    if run == [] {
      assert run + [c] == [c] && [c][1..] == [];
      assert After(verdicts, [c]) == After(Next(verdicts, c), []);
    } else {
      assert (run + [c])[1..] == run[1..] + [c];
      AfterSnoc(Next(verdicts, run[0]), run[1..], c);
    }
  }

  /**
   Over any run, a verdict that is supplied was found by an earlier connect with that key less than
   24 hours before.
  */
  lemma {:induction false} SuppliedWasFound(run: seq<Connect>, i: nat)
    requires i < |run| && Prior(After(map[], run[..i]), run[i]).Some?
    ensures exists j: nat ::
              && j < i && run[j].key == run[i].key && run[j].outcome == Prior(After(map[], run[..i]), run[i])
              && run[i].readAt - run[j].storeAt < 86_400_000
  {
    EntriesWereFilled(run, i, run[i].key);
    var entry := After(map[], run[..i])[run[i].key];
    var j :| 0 <= j < |run[..i]| && run[..i][j].key == run[i].key && run[..i][j].outcome == Some(entry.verdict)
             && run[..i][j].storeAt == entry.storedAt;
    assert run[j] == run[..i][j];
  }
}
