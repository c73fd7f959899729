/**
 A client that follows one stream over connections that drop: whatever is published while it is
 away is replayed when it comes back with the last id it saw.
 */
module Delivery {
  import opened Text
  import opened EventStore

  /** The store, the reading of its last event on the followed stream, and the client. */
  datatype State = State(events: seq<Event>, clock: nat, connected: bool, received: seq<Event>)

  datatype Step =
    | Publish(streamId: string, message: Message, now: nat, random: string)
    | Disconnect
    /** The client resumes after the last id it received; the connection carries `carried` events. */
    | Resume(carried: nat)

  /** Milliseconds since 1970 have 13 digits from 2001 to 2286. */
  const CLOCK_DIGITS: nat := 13

  function Init(): State {
    State([], 0, true, [])
  }

  /**
   The followed stream's name holds no underscore and its clock readings rise; random parts, written
   in base 36, hold none either.  Other streams may have any name.
   */
  predicate Allowed(s: State, step: Step, stream: string) {
    match step
    case Publish(streamId, _, now, random) =>
      && '_' !in random
      && (streamId == stream ==> '_' !in stream && s.clock < now && |Decimal(now)| == CLOCK_DIGITS)
    case Disconnect => s.connected
    case Resume(_) => !s.connected && s.received != []
  }

  function Next(s: State, step: Step, stream: string): State
    requires Allowed(s, step, stream)
  {
    match step
    case Publish(streamId, message, now, random) =>
      var e := Event(EventId(streamId, now, random), streamId, message);
      State(
        Put(s.events, e),
        if streamId == stream then now else s.clock,
        s.connected,
        if s.connected && streamId == stream then s.received + [e] else s.received)
    case Disconnect => s.(connected := false)
    case Resume(carried) =>
      var sent := Replayed(s.events, s.received[|s.received| - 1].id);
      if carried < |sent| then s.(received := s.received + sent[..carried])
      else s.(received := s.received + sent, connected := true)
  }

  /** The client holds a prefix of the stream's log, and all of it while connected. */
  ghost predicate Delivered(s: State, stream: string) {
    && s.received <= Log(s.events, stream)
    && (s.connected ==> s.received == Log(s.events, stream))
  }

  /** What every step keeps. */
  ghost predicate Inv(s: State, stream: string) {
    && DistinctIds(s.events)
    && Tagged(s.events, stream)
    && Stamped(s.events)
    && Ascending(Log(s.events, stream))
    && Clocked(Log(s.events, stream), s.clock)
    && Delivered(s, stream)
  }

  /** Every id was made for its entry's stream. */
  ghost predicate Stamped(events: seq<Event>) {
    forall x :: x in events ==> StampedOne(x)
  }

  ghost predicate StampedOne(x: Event) {
    exists now: nat, random: string :: '_' !in random && x.id == EventId(x.streamId, now, random)
  }

  /** No underscore stands behind the last one. */
  lemma {:induction false} NotBehindLast(a: string, b: string, k: nat)
    requires '_' !in b && k < |a + "_" + b| && (a + "_" + b)[k] == '_'
    ensures k <= |a|
  {
    var s := a + "_" + b;
    forall i | |a| < i < |s| ensures s[i] != '_' {
      assert s[i] == b[i - |a| - 1];
    }
  }

  /** What stands before the last underscore, and behind it. */
  lemma {:induction false} LastUnderscore(a: string, b: string, a': string, b': string)
    requires a + "_" + b == a' + "_" + b' && '_' !in b && '_' !in b'
    ensures a == a' && b == b'
  {
    var s := a + "_" + b;
    assert s[|a|] == '_' && s[|a'|] == '_';
    NotBehindLast(a, b, |a'|);
    NotBehindLast(a', b', |a|);
    assert a == s[..|a|] && a' == s[..|a|] && b == s[|a| + 1..] && b' == s[|a| + 1..];
  }

  /** An id names one stream only, whatever the streams are called. */
  lemma {:induction false} IdNamesStream(x: Event, y: Event)
    requires StampedOne(x) && StampedOne(y) && x.id == y.id
    ensures x.streamId == y.streamId
  {
    var now: nat, random: string :| '_' !in random && x.id == EventId(x.streamId, now, random);
    var now': nat, random': string :| '_' !in random' && y.id == EventId(y.streamId, now', random');
    LastUnderscore(x.streamId + "_" + Decimal(now), random, y.streamId + "_" + Decimal(now'), random');
    LastUnderscore(x.streamId, Decimal(now), y.streamId, Decimal(now'));
  }

  /** Every entry was stored at a reading of full width no later than `clock`. */
  ghost predicate Clocked(log: seq<Event>, clock: nat) {
    forall x :: x in log ==> ClockedAt(x, clock)
  }

  ghost predicate ClockedAt(x: Event, clock: nat) {
    exists now: nat, random: string :: now <= clock && |Decimal(now)| == CLOCK_DIGITS
      && x.id == EventId(x.streamId, now, random)
  }

  lemma {:induction false} AscendingSnoc(log: seq<Event>, e: Event)
    requires Ascending(log) && forall x :: x in log ==> Less(x.id, e.id)
    ensures Ascending(log + [e])
  {
    if log == [] {
      assert [e][1..] == [];
    } else {
      AscendingSnoc(log[1..], e);
      assert (log + [e])[1..] == log[1..] + [e];
    }
  }

  lemma {:induction false} NewIdIsGreater(s: State, stream: string, now: nat, random: string)
    requires Clocked(Log(s.events, stream), s.clock) && s.clock < now && |Decimal(now)| == CLOCK_DIGITS
    ensures forall x :: x in Log(s.events, stream) ==> Less(x.id, EventId(stream, now, random))
  {
    LogMembers(s.events, stream);
    forall x | x in Log(s.events, stream) ensures Less(x.id, EventId(stream, now, random)) {
      assert ClockedAt(x, s.clock);
      var now': nat, random': string :|
        now' <= s.clock && |Decimal(now')| == CLOCK_DIGITS && x.id == EventId(x.streamId, now', random');
      LaterIdIsGreater(stream, now', random', now, random);
    }
  }

  /** What a publication adds to a stream. */
  function Published(step: Step, stream: string): seq<Event>
    requires step.Publish?
  {
    if step.streamId == stream then [Event(EventId(stream, step.now, step.random), stream, step.message)] else []
  }

  /** A publication goes last in its stream's log, reaches a connected client, and changes no other stream's log. */
  lemma {:induction false} PublishIs(s: State, step: Step, stream: string)
    requires Inv(s, stream) && step.Publish? && Allowed(s, step, stream)
    ensures var s' := Next(s, step, stream);
            && Log(s'.events, stream) == Log(s.events, stream) + Published(step, stream)
            && s'.received == s.received + (if s.connected then Published(step, stream) else [])
            && s'.connected == s.connected
  {
    var e := Event(EventId(step.streamId, step.now, step.random), step.streamId, step.message);
    assert StampedOne(e);
    forall x | x in s.events && x.id == e.id ensures x.streamId == step.streamId {
      assert StampedOne(x);
      IdNamesStream(x, e);
    }
    hide StampedOne, Ascending, Clocked, Less, EventId, StreamIdOf;
    if step.streamId == stream {
      NewIdIsGreater(s, stream, step.now, step.random);
      LogMembers(s.events, stream);
      forall x | x in s.events ensures x.id != e.id {
        LessIrreflexive(e.id);
      }
      PutNew(s.events, e, stream);
    } else {
      PutOther(s.events, e, stream);
    }
  }

  lemma {:induction false} PublishKeeps(s: State, step: Step, stream: string)
    requires Inv(s, stream) && step.Publish? && Allowed(s, step, stream)
    ensures Inv(Next(s, step, stream), stream)
  {
    var e := Event(EventId(step.streamId, step.now, step.random), step.streamId, step.message);
    var log := Log(s.events, stream);
    StreamIdRecovered(step.streamId, step.now, step.random);
    PutKeeps(s.events, e);
    PutMembers(s.events, e);
    PublishIs(s, step, stream);
    assert StampedOne(e);
    hide StampedOne, Ascending, Clocked, Less, EventId, StreamIdOf;
    if step.streamId == stream {
      NewIdIsGreater(s, stream, step.now, step.random);
      AscendingSnoc(log, e);
      ClockedSnoc(log, s.clock, e, step.now, step.random);
    } else {
      assert log + [] == log && s.received + [] == s.received;
    }
  }

  lemma {:induction false} ClockedSnoc(log: seq<Event>, clock: nat, e: Event, now: nat, random: string)
    requires Clocked(log, clock) && clock < now && |Decimal(now)| == CLOCK_DIGITS
    requires e.id == EventId(e.streamId, now, random)
    ensures Clocked(log + [e], now)
  {
    forall x | x in log + [e] ensures ClockedAt(x, now) {
      if x in log {
        assert ClockedAt(x, clock);
        var now': nat, random': string :|
          now' <= clock && |Decimal(now')| == CLOCK_DIGITS && x.id == EventId(x.streamId, now', random');
        assert now' <= now;
      }
    }
  }

  /** Replay after the last received entry sends what is missing of the log. */
  lemma {:induction false} ReplaySendsRest(s: State, stream: string)
    requires Inv(s, stream) && s.received != [] && stream != ""
    ensures s.received + Replayed(s.events, s.received[|s.received| - 1].id) == Log(s.events, stream)
  {
    hide Ascending, Clocked, Stamped, Tagged, DistinctIds, Replayed, Log;
    var log, k := Log(s.events, stream), |s.received| - 1;
    assert s.received[k] == log[k] && s.received == log[..k + 1];
    ReplayIsLogIff(s.events, stream);
    assert ReplayIsLog(s.events, stream, k);
  }

  lemma {:induction false} ResumeKeeps(s: State, step: Step, stream: string)
    requires Inv(s, stream) && step.Resume? && Allowed(s, step, stream) && stream != ""
    ensures Inv(Next(s, step, stream), stream)
  {
    hide Ascending, Clocked, Stamped, Tagged, DistinctIds, Replayed, Log;
    ReplaySendsRest(s, stream);
  }

  // ----- what each step does

  /** A client that goes away hears nothing until it comes back, and then all it missed that the connection carries. */
  lemma {:induction false} ConnectionIs(s: State, carried: nat, stream: string)
    requires Inv(s, stream) && stream != ""
    ensures s.connected ==> Next(s, Disconnect, stream) == s.(connected := false)
    ensures !s.connected && s.received != [] ==>
              var (s', log, n) := (Next(s, Resume(carried), stream), Log(s.events, stream), |s.received| + carried);
              && s'.events == s.events && s'.connected == (n >= |log|)
              && s'.received == if n >= |log| then log else log[..n]
  {
    hide Ascending, Clocked, Stamped, Tagged, DistinctIds, Replayed, Log;
    if s.received != [] {
      ReplaySendsRest(s, stream);
    }
  }

  /** The state after a run of steps. */
  function Run(s: State, steps: seq<Step>, stream: string): State
    requires AllAllowed(s, steps, stream)
    decreases |steps|
  {
    if steps == [] then s else Run(Next(s, steps[0], stream), steps[1..], stream)
  }

  predicate AllAllowed(s: State, steps: seq<Step>, stream: string)
    decreases |steps|
  {
    steps != [] ==> Allowed(s, steps[0], stream) && AllAllowed(Next(s, steps[0], stream), steps[1..], stream)
  }

  lemma {:induction false} RunKeeps(s: State, steps: seq<Step>, stream: string)
    requires Inv(s, stream) && stream != "" && AllAllowed(s, steps, stream)
    ensures Inv(Run(s, steps, stream), stream)
    decreases |steps|
  {
    hide Inv, Next, Allowed;
    if steps == [] {
    } else {
      StepKeeps(s, steps[0], stream);
      RunKeeps(Next(s, steps[0], stream), steps[1..], stream);
    }
  }

  lemma {:induction false} StepKeeps(s: State, step: Step, stream: string)
    requires Inv(s, stream) && stream != "" && Allowed(s, step, stream)
    ensures Inv(Next(s, step, stream), stream)
  {
    match step
    case Publish(_, _, _, _) => PublishKeeps(s, step, stream);
    case Disconnect =>
    case Resume(_) => ResumeKeeps(s, step, stream);
  }

  /**
   Over any run of publications, disconnects and resumes, also ones that break off half way, the
   client has received the stream's events in order and each once: always a prefix of the log,
   and exactly the log whenever it is connected.
   */
  lemma {:induction false} EveryRunDelivers(steps: seq<Step>, stream: string)
    requires stream != "" && AllAllowed(Init(), steps, stream)
    ensures Delivered(Run(Init(), steps, stream), stream)
    ensures DistinctIds(Run(Init(), steps, stream).received)
  {
    RunKeeps(Init(), steps, stream);
    var s := Run(Init(), steps, stream);
    LogDistinct(s.events, stream);
    PrefixDistinct(Log(s.events, stream), |s.received|);
    assert s.received == Log(s.events, stream)[..|s.received|];
  }

  lemma {:induction false} PrefixDistinct(log: seq<Event>, n: nat)
    requires DistinctIds(log) && n <= |log|
    ensures DistinctIds(log[..n])
  {
    if n == 0 {
    } else {
      PrefixDistinct(log[1..], n - 1);
      assert log[..n][1..] == log[1..][..n - 1];
    }
  }
}
