/**
 The in-memory event store: ids that carry their stream, replay by sorted id, and when replay
 is the stream's own log.
 */
module EventStore {
  import opened Text
  import opened Seqs

  /** A stored entry: the id it was stored under, its stream and its message. */
  datatype Event = Event(id: string, streamId: string, message: Message)

  /** A JSON-RPC message, which the store carries unread. */
  datatype Message = Message(json: string)

  /** `${streamId}_${now}_${random}`. */
  function EventId(streamId: string, now: nat, random: string): string {
    streamId + "_" + Decimal(now) + "_" + random
  }

  /** What precedes the first underscore: `split('_')[0]`. */
  function StreamIdOf(eventId: string): string {
    Split(eventId, '_')[0]
  }

  lemma {:induction false} StreamIdRecovered(streamId: string, now: nat, random: string)
    ensures StreamIdOf(EventId(streamId, now, random)) == streamId <==> '_' !in streamId
  {
    var rest := Decimal(now) + "_" + random;
    assert EventId(streamId, now, random) == streamId + ['_'] + rest;
    if '_' !in streamId {
      SplitCons(streamId, rest, '_');
    } else {
      SplitIsSeparated(EventId(streamId, now, random), '_');
    }
  }

  // ----- the order of ids

  /** Strictly smaller, comparing characters from the left. */
  predicate Less(a: string, b: string) {
    if b == "" then false
    else if a == "" then true
    else a[0] < b[0] || (a[0] == b[0] && Less(a[1..], b[1..]))
  }

  lemma {:induction false} LessIsTotal(a: string, b: string)
    ensures Less(a, b) || a == b || Less(b, a)
    ensures !(Less(a, b) && Less(b, a)) && !Less(a, a)
  {
    if a != "" && b != "" {
      LessIsTotal(a[1..], b[1..]);
      assert a == [a[0]] + a[1..] && b == [b[0]] + b[1..];
    }
    LessIrreflexive(a);
  }

  lemma {:induction false} LessIrreflexive(a: string)
    ensures !Less(a, a)
  {
    if a == "" {
    } else {
      LessIrreflexive(a[1..]);
    }
  }

  lemma {:induction false} LessTransitive(a: string, b: string, c: string)
    requires Less(a, b) && Less(b, c)
    ensures Less(a, c)
  {
    if a == "" {
    } else {
      if a[0] == b[0] == c[0] {
        LessTransitive(a[1..], b[1..], c[1..]);
      }
    }
  }

  /** An entry put in its place among entries sorted by id. */
  function Insert(e: Event, sorted: seq<Event>): seq<Event> {
    if sorted == [] then [e]
    else if Less(e.id, sorted[0].id) then [e] + sorted
    else [sorted[0]] + Insert(e, sorted[1..])
  }

  /** The entries sorted by id. */
  function Sort(events: seq<Event>): seq<Event> {
    if events == [] then [] else Insert(events[0], Sort(events[1..]))
  }

  /** Each id is smaller than all that follow it. */
  ghost predicate Ascending(events: seq<Event>) {
    events != [] ==> Below(events[0], events[1..]) && Ascending(events[1..])
  }

  ghost predicate Below(e: Event, events: seq<Event>) {
    forall x :: x in events ==> Less(e.id, x.id)
  }

  ghost predicate DistinctIds(events: seq<Event>) {
    events != [] ==> (forall x :: x in events[1..] ==> x.id != events[0].id) && DistinctIds(events[1..])
  }

  lemma {:induction false} InsertKeeps(e: Event, sorted: seq<Event>)
    requires Ascending(sorted) && forall x :: x in sorted ==> x.id != e.id
    ensures Ascending(Insert(e, sorted))
    ensures |Insert(e, sorted)| == |sorted| + 1
    ensures forall x :: x in Insert(e, sorted) <==> x == e || x in sorted
  {
    if sorted == [] {
    } else {
      var head, rest := sorted[0], sorted[1..];
      assert sorted == [head] + rest;
      if Less(e.id, head.id) {
        forall x | x in sorted ensures Less(e.id, x.id) {
          if x != head {
            LessTransitive(e.id, head.id, x.id);
          }
        }
        assert ([e] + sorted)[1..] == sorted;
      } else {
        LessIsTotal(e.id, head.id);
        InsertKeeps(e, rest);
        assert ([head] + Insert(e, rest))[1..] == Insert(e, rest);
      }
    }
  }

  lemma {:induction false} SortKeeps(events: seq<Event>)
    requires DistinctIds(events)
    ensures Ascending(Sort(events))
    ensures |Sort(events)| == |events|
    ensures forall x :: x in Sort(events) <==> x in events
  {
    if events == [] {
    } else {
      SortKeeps(events[1..]);
      InsertKeeps(events[0], Sort(events[1..]));
      assert events == [events[0]] + events[1..];
    }
  }

  lemma {:induction false} SortOfAscending(events: seq<Event>)
    requires Ascending(events)
    ensures Sort(events) == events
  {
    if events == [] {
    } else {
      SortOfAscending(events[1..]);
      if |events| > 1 {
        assert events[1] in events[1..];
      }
      assert events == [events[0]] + events[1..];
    }
  }

  // ----- one stream's entries

  /** The entries of one stream, in the order given: of the store, the stream's plain log. */
  function Log(events: seq<Event>, streamId: string): seq<Event> {
    if events == [] then []
    else if events[0].streamId == streamId then [events[0]] + Log(events[1..], streamId)
    else Log(events[1..], streamId)
  }

  lemma {:induction false} LogAppend(a: seq<Event>, b: seq<Event>, streamId: string)
    ensures Log(a + b, streamId) == Log(a, streamId) + Log(b, streamId)
  {
    if a == [] {
      assert a + b == b;
    } else {
      assert (a + b)[1..] == a[1..] + b;
      LogAppend(a[1..], b, streamId);
    }
  }

  lemma {:induction false} LogMembers(events: seq<Event>, streamId: string)
    ensures forall x :: x in Log(events, streamId) <==> x in events && x.streamId == streamId
  {
    if events == [] {
    } else {
      LogMembers(events[1..], streamId);
      assert events == [events[0]] + events[1..];
    }
  }

  lemma {:induction false} LogDistinct(events: seq<Event>, streamId: string)
    requires DistinctIds(events)
    ensures DistinctIds(Log(events, streamId))
  {
    if events == [] {
    } else {
      LogDistinct(events[1..], streamId);
      LogMembers(events[1..], streamId);
      var rest := Log(events[1..], streamId);
      assert ([events[0]] + rest)[1..] == rest;
    }
  }

  lemma {:induction false} LogOfInsert(e: Event, sorted: seq<Event>, streamId: string)
    requires Ascending(sorted)
    ensures Log(Insert(e, sorted), streamId)
         == if e.streamId == streamId then Insert(e, Log(sorted, streamId)) else Log(sorted, streamId)
  {
    if sorted == [] {
      assert [e][1..] == [];
    } else {
      var head, rest := sorted[0], sorted[1..];
      if Less(e.id, head.id) {
        assert ([e] + sorted)[1..] == sorted;
        LogMembers(sorted, streamId);
        var log := Log(sorted, streamId);
        if log != [] && log[0] != head {
          assert log[0] in log && log[0] in sorted && sorted == [head] + rest;
          LessTransitive(e.id, head.id, log[0].id);
        }
      } else {
        LogOfInsert(e, rest, streamId);
        assert ([head] + Insert(e, rest))[1..] == Insert(e, rest);
        var log := Log(rest, streamId);
        assert head.streamId == streamId ==> ([head] + log)[1..] == log;
      }
    }
  }

  /** Sorting the store and picking a stream is sorting the stream's log. */
  lemma {:induction false} LogOfSort(events: seq<Event>, streamId: string)
    requires DistinctIds(events)
    ensures Log(Sort(events), streamId) == Sort(Log(events, streamId))
  {
    if events == [] {
    } else {
      var rest := events[1..];
      LogOfSort(rest, streamId);
      SortKeeps(rest);
      LogOfInsert(events[0], Sort(rest), streamId);
      var log := Log(rest, streamId);
      assert ([events[0]] + log)[1..] == log;
    }
  }

  // ----- replay

  /** What follows the entry with id `last`; nothing when there is none. */
  function After(events: seq<Event>, last: string): seq<Event> {
    if events == [] then []
    else if events[0].id == last then events[1..]
    else After(events[1..], last)
  }

  predicate Stored(events: seq<Event>, id: string) {
    exists i :: 0 <= i < |events| && events[i].id == id
  }

  /** The entries a replay after `last` sends, in order. */
  function Replayed(events: seq<Event>, last: string): seq<Event> {
    if last == "" || !Stored(events, last) || StreamIdOf(last) == "" then []
    else After(Log(Sort(events), StreamIdOf(last)), last)
  }

  lemma {:induction false} AfterAt(events: seq<Event>, k: nat)
    requires DistinctIds(events) && k < |events|
    ensures After(events, events[k].id) == events[k + 1..]
  {
    if k == 0 {
    } else {
      assert events[1..][k - 1] == events[k];
      AfterAt(events[1..], k - 1);
    }
  }

  lemma {:induction false} AfterIsSuffix(events: seq<Event>, last: string)
    ensures |After(events, last)| <= |events| && After(events, last) == events[|events| - |After(events, last)|..]
  {
    if events != [] && events[0].id != last {
      AfterIsSuffix(events[1..], last);
    }
  }

  /** Replay after the k-th entry of a stream sends exactly the entries that follow it in the log. */
  ghost predicate ReplayIsLog(events: seq<Event>, streamId: string, k: nat)
    requires k < |Log(events, streamId)|
  {
    var log := Log(events, streamId);
    Replayed(events, log[k].id) == log[k + 1..]
  }

  /** The ids of a stream's entries carry its name. */
  ghost predicate Tagged(events: seq<Event>, streamId: string) {
    forall x :: x in events && x.streamId == streamId ==> StreamIdOf(x.id) == streamId
  }

  lemma {:induction false} ReplayedInStream(events: seq<Event>, streamId: string, k: nat)
    requires DistinctIds(events) && Tagged(events, streamId) && streamId != ""
    requires k < |Log(events, streamId)|
    ensures var log := Log(events, streamId);
            Replayed(events, log[k].id) == After(Sort(log), log[k].id)
  {
    var log := Log(events, streamId);
    assert log[k] in log;
    LogMembers(events, streamId);
    LogOfSort(events, streamId);
    NoEmptyId(log[k].id);
  }

  lemma NoEmptyId(id: string)
    requires StreamIdOf(id) != ""
    ensures id != ""
  {
  }

  /**
   Replay is the plain log exactly when the ids of the stream ascend in store order: every
   replay point is right if they do, and the first one is already wrong if they do not.
   */
  lemma {:induction false} ReplayIsLogIff(events: seq<Event>, streamId: string)
    requires DistinctIds(events) && Tagged(events, streamId) && streamId != ""
    requires Log(events, streamId) != []
    ensures Ascending(Log(events, streamId)) <==> ReplayIsLog(events, streamId, 0)
    ensures Ascending(Log(events, streamId)) ==>
              forall k :: 0 <= k < |Log(events, streamId)| ==> ReplayIsLog(events, streamId, k)
  {
    var log := Log(events, streamId);
    LogDistinct(events, streamId);
    ReplayedInStream(events, streamId, 0);
    if Ascending(log) {
      SortOfAscending(log);
      forall k | 0 <= k < |log| ensures ReplayIsLog(events, streamId, k) {
        ReplayedInStream(events, streamId, k);
        AfterAt(log, k);
      }
    }
    if ReplayIsLog(events, streamId, 0) {
      FirstReplayFixesOrder(log);
    }
  }

  lemma {:induction false} FirstReplayFixesOrder(log: seq<Event>)
    requires DistinctIds(log) && log != [] && After(Sort(log), log[0].id) == log[1..]
    ensures Ascending(log)
  {
    var sorted := Sort(log);
    SortKeeps(log);
    AfterIsSuffix(sorted, log[0].id);
    assert sorted[1..] == log[1..];
    assert log[0] in sorted;
    var i :| 0 <= i < |sorted| && sorted[i] == log[0];
    assert i == 0;
    assert sorted == [sorted[0]] + sorted[1..];
  }

  /** A stream whose name holds an underscore is never replayed: the id names another stream. */
  lemma {:induction false} UnderscoreStreamNotReplayed(events: seq<Event>, e: Event, now: nat, random: string)
    requires e in events && '_' in e.streamId && e.id == EventId(e.streamId, now, random) && DistinctIds(events)
    ensures Replayed(events, e.id) == []
  {
    StreamIdRecovered(e.streamId, now, random);
    SortKeeps(events);
    LogMembers(Sort(events), StreamIdOf(e.id));
    var log := Log(Sort(events), StreamIdOf(e.id));
    forall x | x in log ensures x.id != e.id {
      if x.id == e.id {
        SameEntry(events, x, e);
      }
    }
    AfterNone(log, e.id);
  }

  lemma {:induction false} SameEntry(events: seq<Event>, x: Event, y: Event)
    requires DistinctIds(events) && x in events && y in events && x.id == y.id
    ensures x == y
  {
    assert events == [events[0]] + events[1..];
    if x != events[0] && y != events[0] {
      SameEntry(events[1..], x, y);
    }
  }

  lemma {:induction false} AfterNone(events: seq<Event>, last: string)
    requires forall x :: x in events ==> x.id != last
    ensures After(events, last) == []
  {
    if events == [] {
    } else {
      AfterNone(events[1..], last);
    }
  }

  // ----- ids by the clock

  lemma {:induction false} LessPrefix(p: string, a: string, b: string)
    ensures Less(p + a, p + b) <==> Less(a, b)
  {
    if p == "" {
      assert p + a == a && p + b == b;
    } else {
      assert (p + a)[1..] == p[1..] + a && (p + b)[1..] == p[1..] + b;
      LessPrefix(p[1..], a, b);
    }
  }

  lemma {:induction false} DecimalLess(m: nat, n: nat, x: string, y: string)
    requires |Decimal(m)| == |Decimal(n)| && m < n
    ensures Less(Decimal(m) + x, Decimal(n) + y)
  {
    if n < 10 {
      assert (Decimal(m) + x)[0] < (Decimal(n) + y)[0];
    } else {
      var p, q := Decimal(m / 10), Decimal(n / 10);
      var x', y' := [Digit(m % 10)] + x, [Digit(n % 10)] + y;
      Assoc(p, [Digit(m % 10)], x);
      Assoc(q, [Digit(n % 10)], y);
      if m / 10 < n / 10 {
        DecimalLess(m / 10, n / 10, x', y');
      } else {
        LessPrefix(p, x', y');
      }
    }
  }

  /** Within a stream, ids of later clock readings of the same width are greater. */
  lemma {:induction false} LaterIdIsGreater(streamId: string, now: nat, random: string, now': nat, random': string)
    requires |Decimal(now)| == |Decimal(now')| && now < now'
    ensures Less(EventId(streamId, now, random), EventId(streamId, now', random'))
  {
    var head, x, y := streamId + "_", "_" + random, "_" + random';
    Assoc(head, Decimal(now), x);
    Assoc(head, Decimal(now'), y);
    Assoc(head + Decimal(now), "_", random);
    Assoc(head + Decimal(now'), "_", random');
    DecimalLess(now, now', x, y);
    LessPrefix(head, Decimal(now) + x, Decimal(now') + y);
  }

  /** Within one clock reading the random parts alone decide the order of ids. */
  lemma {:induction false} SameReadingIsRandom(streamId: string, now: nat, random: string, random': string)
    ensures Less(EventId(streamId, now, random), EventId(streamId, now, random')) <==> Less(random, random')
  {
    LessPrefix(streamId + "_" + Decimal(now) + "_", random, random');
  }

  /** Two events of one clock reading whose random parts fall the wrong way: replay misses the second. */
  lemma {:induction false} SameReadingLosesEvent(streamId: string, now: nat, random: string, random': string,
                                                 m: Message, m': Message)
    requires '_' !in streamId && streamId != "" && Less(random', random)
    ensures var first := Event(EventId(streamId, now, random), streamId, m);
            var second := Event(EventId(streamId, now, random'), streamId, m');
            var events := Put(Put([], first), second);
            Log(events, streamId) == [first, second] && !ReplayIsLog(events, streamId, 0)
  {
    var first := Event(EventId(streamId, now, random), streamId, m);
    var second := Event(EventId(streamId, now, random'), streamId, m');
    SameReadingIsRandom(streamId, now, random', random);
    LessIsTotal(first.id, second.id);
    StreamIdRecovered(streamId, now, random);
    StreamIdRecovered(streamId, now, random');
    var events := [first, second];
    assert [first][1..] == [] && events[1..] == [second] && [second][1..] == [];
    assert Put([first], second) == [first] + Put([first][1..], second);
    assert Log([second], streamId) == [second];
    assert Log(events, streamId) == events;
    assert second in events[1..];
    ReplayIsLogIff(events, streamId);
  }

  // ----- the store

  /** `events.set`: a new id goes last, a known one is overwritten in place. */
  function Put(events: seq<Event>, e: Event): seq<Event> {
    if events == [] then [e]
    else if events[0].id == e.id then [e] + events[1..]
    else [events[0]] + Put(events[1..], e)
  }

  class InMemoryEventStore {
    /** The map's entries in insertion order. */
    var events: seq<Event>

    ghost predicate Valid()
      reads this
    {
      DistinctIds(events)
    }

    constructor ()
      ensures Valid() && events == []
    {
      events := [];
    }

    method StoreEvent(streamId: string, message: Message, now: nat, random: string) returns (eventId: string)
      requires Valid()
      modifies this
      ensures Valid()
      ensures eventId == EventId(streamId, now, random)
      ensures events == Put(old(events), Event(eventId, streamId, message))
    {
      eventId := EventId(streamId, now, random);
      var e := Event(eventId, streamId, message);
      PutKeeps(events, e);
      events := Put(events, e);
    }

    method ReplayEventsAfter(lastEventId: string) returns (streamId: string, sent: seq<Event>)
      requires Valid()
      ensures sent == Replayed(events, lastEventId)
      ensures streamId == if lastEventId == "" || !Stored(events, lastEventId) then "" else StreamIdOf(lastEventId)
    {
      hide Log, After, Sort, Ascending, DistinctIds, StreamIdOf, Stored, Ids;
      sent := [];
      if lastEventId == "" || !Stored(events, lastEventId) {
        return "", [];
      }
      streamId := StreamIdOf(lastEventId);
      if streamId == "" {
        return "", [];
      }
      var foundLastEvent := false;
      var sortedEvents := Sort(events);
      ghost var whole := After(Log(sortedEvents, streamId), lastEventId);
      SortKeeps(events);
      assert sortedEvents[0..] == sortedEvents;
      for i := 0 to |sortedEvents|
        invariant if foundLastEvent then
                    sent + Log(sortedEvents[i..], streamId) == whole && lastEventId !in Ids(sortedEvents[i..])
                  else
                    sent == [] && After(Log(sortedEvents[i..], streamId), lastEventId) == whole
        invariant Ascending(sortedEvents[i..])
      {
        var event := sortedEvents[i];
        LogStep(sortedEvents, i, streamId, lastEventId);
        Assoc(sent, [event], Log(sortedEvents[i + 1..], streamId));
        if event.streamId != streamId {
          continue;
        }
        if event.id == lastEventId {
          foundLastEvent := true;
          continue;
        }
        if foundLastEvent {
          sent := sent + [event];
        }
      }
      LogEnd(sortedEvents, streamId, lastEventId);
    }
  }

  function Ids(events: seq<Event>): set<string> {
    set x | x in events :: x.id
  }

  lemma {:induction false} LogEnd(events: seq<Event>, streamId: string, last: string)
    ensures Log(events[|events|..], streamId) == [] && After(Log(events[|events|..], streamId), last) == []
  {
    assert events[|events|..] == [];
  }

  /** One more entry of an ascending list, unfolded. */
  lemma {:induction false} LogStep(events: seq<Event>, i: nat, streamId: string, last: string)
    requires i < |events| && Ascending(events[i..])
    ensures Ascending(events[i + 1..]) && events[i].id !in Ids(events[i + 1..])
    ensures last !in Ids(events[i..]) ==> last !in Ids(events[i + 1..]) && events[i].id != last
    ensures events[i].streamId != streamId ==> Log(events[i..], streamId) == Log(events[i + 1..], streamId)
    ensures events[i].streamId == streamId ==>
        Log(events[i..], streamId) == [events[i]] + Log(events[i + 1..], streamId)
    ensures events[i].streamId == streamId ==>
              After(Log(events[i..], streamId), last)
                == if events[i].id == last then Log(events[i + 1..], streamId)
                   else After(Log(events[i + 1..], streamId), last)
  {
    hide Less;
    var rest := events[i + 1..];
    assert events[i..] == [events[i]] + rest && events[i..][1..] == rest;
    BelowIsDistinct(events[i], rest);
    assert ([events[i]] + Log(rest, streamId))[1..] == Log(rest, streamId);
  }

  lemma {:induction false} BelowIsDistinct(e: Event, events: seq<Event>)
    requires Below(e, events)
    ensures e.id !in Ids(events)
  {
    forall x | x in events ensures x.id != e.id {
      LessIrreflexive(e.id);
    }
  }

  lemma {:induction false} PutMembers(events: seq<Event>, e: Event)
    ensures forall x :: x in Put(events, e) ==> x == e || x in events
    ensures e in Put(events, e)
  {
    if events == [] {
    } else {
      PutMembers(events[1..], e);
      assert events == [events[0]] + events[1..];
    }
  }

  lemma {:induction false} PutKeeps(events: seq<Event>, e: Event)
    requires DistinctIds(events)
    ensures DistinctIds(Put(events, e))
  {
    if events != [] && events[0].id != e.id {
      PutKeeps(events[1..], e);
      PutMembers(events[1..], e);
      var rest := Put(events[1..], e);
      assert ([events[0]] + rest)[1..] == rest;
    } else if events == [] {
      assert [e][1..] == [];
    } else {
      assert ([e] + events[1..])[1..] == events[1..];
    }
  }

  /** Storing under a new id appends to the stream's log and leaves the others alone. */
  lemma {:induction false} PutNew(events: seq<Event>, e: Event, streamId: string)
    requires forall x :: x in events ==> x.id != e.id
    ensures Log(Put(events, e), streamId) == Log(events, streamId) + if e.streamId == streamId then [e] else []
  {
    if events == [] {
      assert [e][1..] == [];
    } else {
      PutNew(events[1..], e, streamId);
      var rest := Put(events[1..], e);
      assert ([events[0]] + rest)[1..] == rest;
    }
  }

  lemma {:induction false} PutOther(events: seq<Event>, e: Event, streamId: string)
    requires e.streamId != streamId && forall x :: x in events && x.id == e.id ==> x.streamId != streamId
    ensures Log(Put(events, e), streamId) == Log(events, streamId)
  {
    if events == [] {
      assert [e][1..] == [];
    } else if events[0].id == e.id {
      assert ([e] + events[1..])[1..] == events[1..];
    } else {
      PutOther(events[1..], e, streamId);
      var rest := Put(events[1..], e);
      assert ([events[0]] + rest)[1..] == rest;
    }
  }
}
