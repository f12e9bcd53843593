/**
 * The event repository with its unit-of-work mode: while idle every store
 * commits, publishes and flushes at once; between BeginPersistence and
 * SaveChanges stores are only staged, and SaveChanges commits them together
 * and publishes all their events in instant order.
 */
module UnitOfWork {
  import opened Common
  import opened Ordering

  class EventRepository {
    const session: Session
    const hasPublisher: bool
    /** Every call made to the session and the publisher, in order. */
    var log: seq<Op>
    /** Idle (false) or deferring (true). */
    var deferring: bool
    /** The sources stored since BeginPersistence, in store order. */
    var deferred: seq<EventSource>
    var disposed: bool

    /** Only a deferring repository holds staged sources. */
    ghost predicate Valid()
      reads this
    {
      !deferring ==> deferred == []
    }

    constructor (session: Session, hasPublisher: bool)
      ensures this.session == session && this.hasPublisher == hasPublisher
      ensures Valid() && log == [] && !deferring && deferred == [] && !disposed
    {
      this.session := session;
      this.hasPublisher := hasPublisher;
      log := [];
      deferring := false;
      deferred := [];
      disposed := false;
    }

    /** Enters deferring mode; fails, changing nothing, if already deferring. */
    method BeginPersistence() returns (r: Outcome)
      requires Valid()
      modifies this`deferring
      ensures Valid()
      ensures old(deferring) ==> r == Fail(PersistenceAlreadyActive) && deferring
      ensures !old(deferring) ==> r == Pass && deferring
    {
      if deferring {
        return Fail(PersistenceAlreadyActive);
      }
      deferring := true;
      r := Pass;
    }

    /**
     * Stages the source's stream call in either mode. While deferring it
     * only remembers the source; while idle it commits and, if the commit
     * succeeds, publishes the source and flushes it.
     */
    method Store(source: EventSource) returns (r: Outcome)
      requires Valid()
      modifies this`log, this`deferred
      ensures Valid() && deferring == old(deferring)
      ensures deferring ==> r == Pass && log == old(log) + [StreamOp(source)] &&
                            deferred == old(deferred) + [source]
      ensures !deferring ==>
        var staged := old(log) + [StreamOp(source)];
        r == session.commit(staged) && deferred == old(deferred) &&
        log == staged + [Common.SaveChanges] +
               (if r.Pass? then (if hasPublisher then [PublishSource(source)] else []) + [Flush(source)]
                else [])
    {
      log := log + [StreamOp(source)];
      if deferring {
        deferred := deferred + [source];
        return Pass;
      }
      r := session.commit(log);
      log := log + [Common.SaveChanges];
      if r.Fail? {
        return;
      }
      if hasPublisher {
        log := log + [PublishSource(source)];
      }
      log := log + [Flush(source)];
    }

    /**
     * Completes deferred persistence. Fails while idle. With nothing staged
     * it returns to idle without any call. Otherwise it commits once and,
     * only if that succeeds, publishes every staged event in instant order,
     * flushes every staged source, clears the list and returns to idle.
     */
    method SaveChanges() returns (r: Outcome)
      requires Valid()
      modifies this`log, this`deferring, this`deferred
      ensures Valid()
      ensures !old(deferring) ==>
        r == Fail(PersistenceNotActive) && log == old(log) && !deferring && deferred == old(deferred)
      ensures old(deferring) && old(deferred) == [] ==>
        r == Pass && log == old(log) && !deferring && deferred == []
      ensures old(deferring) && old(deferred) != [] ==>
        var staged := old(log);
        r == session.commit(staged) &&
        (r.Fail? ==> log == staged + [Common.SaveChanges] && deferring && deferred == old(deferred)) &&
        (r.Pass? ==>
          log == staged + [Common.SaveChanges] +
                 (if hasPublisher then [Publish(SortBy(AllEvents(old(deferred)), EventInstant))] else []) +
                 Flushes(old(deferred)) &&
          !deferring && deferred == [])
    {
      if !deferring {
        return Fail(PersistenceNotActive);
      }
      if |deferred| == 0 {
        deferring := false;
        return Pass;
      }
      r := session.commit(log);
      log := log + [Common.SaveChanges];
      if r.Fail? {
        return;
      }
      var events := SortBy(AllEvents(deferred), EventInstant);
      if hasPublisher {
        log := log + [Publish(events)];
      }
      FlushAll(deferred);
      deferred := [];
      deferring := false;
    }

    /** Flushes every staged source, in store order. */
    method FlushAll(sources: seq<EventSource>)
      modifies this`log
      ensures log == old(log) + Flushes(sources)
    {
      var i := 0;
      while i < |sources|
        invariant 0 <= i <= |sources|
        invariant log == old(log) + Flushes(sources[..i])
      {
        log := log + [Flush(sources[i])];
        assert Flushes(sources[..i + 1]) == Flushes(sources[..i]) + [Flush(sources[i])];
        i := i + 1;
      }
      assert sources[..i] == sources;
    }

    /**
     * Releases the session on the first call made while disposing; any later
     * call does nothing.
     */
    method Dispose(disposing: bool)
      modifies this`log, this`disposed
      ensures disposed
      ensures log == if !old(disposed) && disposing then old(log) + [DisposeSession] else old(log)
    {
      if disposed {
        return;
      }
      if disposing {
        log := log + [DisposeSession];
      }
      disposed := true;
    }

    /** Asynchronous disposal: disposes the session unconditionally, then marks the repository disposed. */
    method DisposeAsync()
      modifies this`log, this`disposed
      ensures disposed
      ensures log == old(log) + [DisposeSessionAsync]
    {
      log := log + [DisposeSessionAsync];
      Dispose(false);
    }
  }
}
