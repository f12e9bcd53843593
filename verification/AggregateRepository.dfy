/**
 * The aggregate repository: stores one aggregate, or a batch of aggregates in
 * one global chronological order, against a document session, then publishes
 * the stored events and flushes the aggregates.
 */
module Aggregates {
  import opened Common
  import opened Ordering

  /** One pending event paired with the position of its aggregate in the input. */
  datatype Entry = Entry(owner: nat, event: Event)

  function EntryInstant(e: Entry): int { e.event.instant }

  function Tagged(owner: nat, events: seq<Event>): seq<Entry>
  {
    seq(|events|, i requires 0 <= i < |events| => Entry(owner, events[i]))
  }

  /** Every aggregate's pending events paired with the aggregate, aggregate by aggregate. */
  function Flatten(aggs: seq<EventSource>): seq<Entry>
  {
    if aggs == [] then []
    else Flatten(aggs[..|aggs| - 1]) + Tagged(|aggs| - 1, aggs[|aggs| - 1].events)
  }

  function EventsOf(es: seq<Entry>): seq<Event>
  {
    seq(|es|, i requires 0 <= i < |es| => es[i].event)
  }

  ghost predicate Owned(aggs: seq<EventSource>, es: seq<Entry>)
  {
    forall k :: 0 <= k < |es| ==> es[k].owner < |aggs|
  }

  lemma {:induction false} FlattenMembers(aggs: seq<EventSource>)
    ensures forall e :: e in Flatten(aggs) <==> e.owner < |aggs| && e.event in aggs[e.owner].events
  {
    if aggs != [] {
      var n := |aggs| - 1;
      var init := aggs[..n];
      FlattenMembers(init);
      forall e ensures e in Flatten(aggs) <==> e.owner < |aggs| && e.event in aggs[e.owner].events {
        if e.owner < n {
          assert aggs[e.owner] == init[e.owner];
        }
        if e in Tagged(n, aggs[n].events) {
          var i :| 0 <= i < |aggs[n].events| && Tagged(n, aggs[n].events)[i] == e;
        }
        if e.owner == n && e.event in aggs[n].events {
          var i :| 0 <= i < |aggs[n].events| && aggs[n].events[i] == e.event;
          assert Tagged(n, aggs[n].events)[i] == e;
        }
      }
    }
  }

  lemma {:induction false} FlattenEvents(aggs: seq<EventSource>)
    ensures EventsOf(Flatten(aggs)) == AllEvents(aggs)
  {
    if aggs != [] {
      var n := |aggs| - 1;
      FlattenEvents(aggs[..n]);
      var a, b := Flatten(aggs[..n]), Tagged(n, aggs[n].events);
      assert EventsOf(a + b) == EventsOf(a) + EventsOf(b);
      assert EventsOf(b) == aggs[n].events;
    }
  }

  lemma {:induction false} EventsOfInsert(x: Entry, s: seq<Entry>)
    ensures EventsOf(Insert(x, s, EntryInstant)) == Insert(x.event, EventsOf(s), EventInstant)
  {
    if s == [] || EntryInstant(x) <= EntryInstant(s[0]) {
      assert EventsOf([x] + s) == [x.event] + EventsOf(s);
    } else {
      EventsOfInsert(x, s[1..]);
      assert EventsOf(s[1..]) == EventsOf(s)[1..];
      assert EventsOf([s[0]] + Insert(x, s[1..], EntryInstant))
          == [s[0].event] + EventsOf(Insert(x, s[1..], EntryInstant));
    }
  }

  /** Sorting the pairs and then dropping the aggregates is sorting the events. */
  lemma {:induction false} EventsOfSortBy(s: seq<Entry>)
    ensures EventsOf(SortBy(s, EntryInstant)) == SortBy(EventsOf(s), EventInstant)
  {
    if s != [] {
      EventsOfSortBy(s[1..]);
      EventsOfInsert(s[0], SortBy(s[1..], EntryInstant));
      assert EventsOf(s[1..]) == EventsOf(s)[1..];
    }
  }

  /**
   * The order in which the batch store processes pending events: all
   * (aggregate, event) pairs, stably sorted by initiation instant.
   */
  function Schedule(aggs: seq<EventSource>): (es: seq<Entry>)
    ensures Owned(aggs, es)
    ensures SortedBy(es, EntryInstant)
    ensures StableSortOf(es, Flatten(aggs), EntryInstant)
    ensures forall e :: e in es <==> e.owner < |aggs| && e.event in aggs[e.owner].events
    ensures |es| == |AllEvents(aggs)|
  {
    var es := SortBy(Flatten(aggs), EntryInstant);
    SortBySortedPermutation(Flatten(aggs), EntryInstant);
    SortByCharacterization(Flatten(aggs), es, EntryInstant);
    SortByMembers(Flatten(aggs), EntryInstant);
    FlattenMembers(aggs);
    FlattenEvents(aggs);
    assert |EventsOf(Flatten(aggs))| == |Flatten(aggs)|;
    es
  }

  /** No pair precedes position k with the same aggregate. */
  ghost predicate FirstOf(es: seq<Entry>, k: nat)
    requires k < |es|
  {
    forall j :: 0 <= j < k ==> es[j].owner != es[k].owner
  }

  /** Pair k starts its aggregate's stream: the aggregate is new and has not been started yet. */
  ghost predicate Starts(aggs: seq<EventSource>, es: seq<Entry>, k: nat)
    requires k < |es| && es[k].owner < |aggs|
  {
    aggs[es[k].owner].isNew && FirstOf(es, k)
  }

  /** The session call the batch store issues for pair k. */
  ghost function StepOp(aggs: seq<EventSource>, es: seq<Entry>, k: nat): Op
    requires k < |es| && Owned(aggs, es)
  {
    var e := es[k];
    var a := aggs[e.owner];
    if Starts(aggs, es, k) then StartStream(a.id, [e.event]) else Append(a.id, a.version, [e.event])
  }

  /** The session calls for the first n pairs. */
  ghost function StreamOps(aggs: seq<EventSource>, es: seq<Entry>, n: nat): seq<Op>
    requires n <= |es| && Owned(aggs, es)
  {
    seq(n, k requires 0 <= k < n => StepOp(aggs, es, k))
  }

  /** A batch has nothing to schedule exactly when no aggregate has pending events. */
  lemma EmptySchedule(aggs: seq<EventSource>)
    ensures Schedule(aggs) == [] <==> forall i :: 0 <= i < |aggs| ==> aggs[i].events == []
  {
    if exists i :: 0 <= i < |aggs| && aggs[i].events != [] {
      var i :| 0 <= i < |aggs| && aggs[i].events != [];
      assert Entry(i, aggs[i].events[0]) in Schedule(aggs);
    }
    if Schedule(aggs) != [] {
      var e := Schedule(aggs)[0];
      assert e in Schedule(aggs);
    }
  }

  /** The batch issues one stream call per pending event. */
  lemma OneOperationPerEvent(aggs: seq<EventSource>)
    ensures |StreamOps(aggs, Schedule(aggs), |Schedule(aggs)|)| == |AllEvents(aggs)|
  {
  }

  /** The batch publishes exactly the stable sort of all pending events by instant. */
  lemma PublishedEvents(aggs: seq<EventSource>)
    ensures EventsOf(Schedule(aggs)) == SortBy(AllEvents(aggs), EventInstant)
  {
    EventsOfSortBy(Flatten(aggs));
    FlattenEvents(aggs);
  }

  lemma {:induction false} FirstOccurrence(es: seq<Entry>, k: nat)
    requires k < |es|
    ensures exists f :: 0 <= f <= k && es[f].owner == es[k].owner && FirstOf(es, f)
  {
    if !FirstOf(es, k) {
      var j :| 0 <= j < k && es[j].owner == es[k].owner;
      FirstOccurrence(es, j);
    }
  }

  /**
   * Each aggregate receives a StartStream exactly when it is new and has
   * pending events, and never more than one.
   */
  lemma ExactlyOneStart(aggs: seq<EventSource>, a: nat)
    requires a < |aggs|
    ensures var es := Schedule(aggs);
      (exists k :: 0 <= k < |es| && es[k].owner == a && Starts(aggs, es, k))
      <==> aggs[a].isNew && aggs[a].events != []
    ensures var es := Schedule(aggs);
      forall k1, k2 ::
        (0 <= k1 < |es| && 0 <= k2 < |es| && es[k1].owner == a && es[k2].owner == a &&
         Starts(aggs, es, k1) && Starts(aggs, es, k2)) ==> k1 == k2
  {
    var es := Schedule(aggs);
    if aggs[a].isNew && aggs[a].events != [] {
      assert Entry(a, aggs[a].events[0]) in es;
      var k :| 0 <= k < |es| && es[k] == Entry(a, aggs[a].events[0]);
      FirstOccurrence(es, k);
    }
    if exists k :: 0 <= k < |es| && es[k].owner == a && Starts(aggs, es, k) {
      var k :| 0 <= k < |es| && es[k].owner == a && Starts(aggs, es, k);
      assert es[k] in es;
    }
  }

  /** The event a StartStream carries is the earliest of its aggregate's pending events. */
  lemma StartCarriesEarliest(aggs: seq<EventSource>, k: nat)
    requires k < |Schedule(aggs)| && Starts(aggs, Schedule(aggs), k)
    ensures var es := Schedule(aggs);
      es[k].event in aggs[es[k].owner].events &&
      forall e :: e in aggs[es[k].owner].events ==> es[k].event.instant <= e.instant
  {
    var es := Schedule(aggs);
    assert es[k] in es;
    forall e | e in aggs[es[k].owner].events ensures es[k].event.instant <= e.instant {
      assert Entry(es[k].owner, e) in es;
      var j :| 0 <= j < |es| && es[j] == Entry(es[k].owner, e);
      assert k <= j;
    }
  }

  /**
   * If some pending event of aggregate a is earlier than every pending event
   * of aggregate b, a call for a precedes every call for b.
   */
  lemma EarlierAggregateFirst(aggs: seq<EventSource>, a: nat, b: nat, first: Event)
    requires a < |aggs| && b < |aggs|
    requires first in aggs[a].events
    requires forall e :: e in aggs[b].events ==> first.instant < e.instant
    ensures var es := Schedule(aggs);
      forall kb :: 0 <= kb < |es| && es[kb].owner == b ==> exists ka :: 0 <= ka < kb && es[ka].owner == a
  {
    var es := Schedule(aggs);
    assert Entry(a, first) in es;
    var ka :| 0 <= ka < |es| && es[ka] == Entry(a, first);
    forall kb | 0 <= kb < |es| && es[kb].owner == b ensures exists ka :: 0 <= ka < kb && es[ka].owner == a {
      assert es[kb] in es;
      assert first.instant < es[kb].event.instant;
      assert ka < kb;
    }
  }

  class AggregateRepository {
    /** The document session and whether a publisher was supplied (the publisher is optional). */
    const session: Session
    const hasPublisher: bool
    /** Every call made to the session and the publisher, in order. */
    var log: seq<Op>
    var disposed: bool

    constructor (session: Session, hasPublisher: bool)
      ensures this.session == session && this.hasPublisher == hasPublisher
      ensures log == [] && !disposed
    {
      this.session := session;
      this.hasPublisher := hasPublisher;
      log := [];
      disposed := false;
    }

    /** The publish call, made only when a publisher is present. */
    function Published(events: seq<Event>): seq<Op>
    {
      if hasPublisher then [Publish(events)] else []
    }

    /**
     * Stages one stream call with all the aggregate's pending events,
     * commits once, and only if the commit succeeds publishes those events
     * and flushes the aggregate.
     */
    method Store(aggregate: EventSource) returns (r: Outcome)
      modifies this`log
      ensures var staged := old(log) + [StreamOp(aggregate)];
        r == session.commit(staged) &&
        log == staged + [SaveChanges] +
               (if r.Pass? then Published(aggregate.events) + [Flush(aggregate)] else [])
    {
      log := log + [StreamOp(aggregate)];
      r := session.commit(log);
      log := log + [SaveChanges];
      if r.Fail? {
        return;
      }
      if hasPublisher {
        log := log + [Publish(aggregate.events)];
      }
      log := log + [Flush(aggregate)];
    }

    /**
     * Stores a batch: one stream call per pending event in schedule order,
     * one commit, then one publish of the sorted events and a flush of every
     * aggregate. A batch without pending events makes no call at all.
     */
    method StoreBatch(aggregates: seq<EventSource>) returns (r: Outcome)
      modifies this`log
      ensures Schedule(aggregates) == [] ==> r == Pass && log == old(log)
      ensures Schedule(aggregates) != [] ==>
        var es := Schedule(aggregates);
        var staged := old(log) + StreamOps(aggregates, es, |es|);
        r == session.commit(staged) &&
        log == staged + [SaveChanges] +
               (if r.Pass? then Published(SortBy(AllEvents(aggregates), EventInstant)) + Flushes(aggregates)
                else [])
    {
      var entries := Schedule(aggregates);
      if |entries| == 0 {
        return Pass;
      }
      var unpublished := StageEntries(aggregates, entries);
      PublishedEvents(aggregates);
      r := session.commit(log);
      log := log + [SaveChanges];
      if r.Fail? {
        return;
      }
      if |unpublished| != 0 && hasPublisher {
        log := log + [Publish(unpublished)];
      }
      FlushAll(aggregates);
    }

    /**
     * The loop of the batch store: walks the scheduled pairs, starting the
     * stream of each new aggregate at its first pair and appending every
     * other pair, and collects the events in the order processed.
     */
    method StageEntries(aggregates: seq<EventSource>, entries: seq<Entry>) returns (unpublished: seq<Event>)
      requires Owned(aggregates, entries)
      modifies this`log
      ensures log == old(log) + StreamOps(aggregates, entries, |entries|)
      ensures unpublished == EventsOf(entries)
    {
      var started: set<nat> := {};
      unpublished := [];
      var i := 0;
      while i < |entries|
        invariant 0 <= i <= |entries|
        invariant log == old(log) + StreamOps(aggregates, entries, i)
        invariant unpublished == EventsOf(entries[..i])
        invariant forall a: nat :: a in started <==>
          a < |aggregates| && aggregates[a].isNew && exists j :: 0 <= j < i && entries[j].owner == a
      {
        var entry := entries[i];
        var aggregate := aggregates[entry.owner];
        if aggregate.isNew && entry.owner !in started {
          log := log + [StartStream(aggregate.id, [entry.event])];
          started := started + {entry.owner};
        } else {
          log := log + [Append(aggregate.id, aggregate.version, [entry.event])];
        }
        unpublished := unpublished + [entry.event];
        assert StreamOps(aggregates, entries, i + 1)
            == StreamOps(aggregates, entries, i) + [StepOp(aggregates, entries, i)];
        assert EventsOf(entries[..i + 1]) == EventsOf(entries[..i]) + [entry.event];
        i := i + 1;
      }
      assert entries[..i] == entries;
    }

    /** Flushes every aggregate of the batch, in input order. */
    method FlushAll(aggregates: seq<EventSource>)
      modifies this`log
      ensures log == old(log) + Flushes(aggregates)
    {
      var k := 0;
      while k < |aggregates|
        invariant 0 <= k <= |aggregates|
        invariant log == old(log) + Flushes(aggregates[..k])
      {
        log := log + [Flush(aggregates[k])];
        assert Flushes(aggregates[..k + 1]) == Flushes(aggregates[..k]) + [Flush(aggregates[k])];
        k := k + 1;
      }
      assert aggregates[..k] == aggregates;
    }

    /**
     * Releases the session on the first call made while disposing; any later
     * call does nothing.
     */
    method Dispose(disposing: bool)
      modifies this`log, this`disposed
      ensures disposed
      ensures log == if !old(disposed) && disposing then old(log) + [DisposeSession] else old(log)
    {
      if disposed {
        return;
      }
      if disposing {
        log := log + [DisposeSession];
      }
      disposed := true;
    }

    /** Asynchronous disposal: disposes the session unconditionally, then marks the repository disposed. */
    method DisposeAsync()
      modifies this`log, this`disposed
      ensures disposed
      ensures log == old(log) + [DisposeSessionAsync]
    {
      log := log + [DisposeSessionAsync];
      Dispose(false);
    }
  }
}
