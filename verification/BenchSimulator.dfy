/** The scheduler benchmark: a population of events, each of which reschedules itself until a total number of
    reschedulings has been reached, run by an event loop that always takes the least key. */
module BenchSimulator {

  // Events are ordered by time and, at equal times, by the order in which they were scheduled.
  datatype EventKey = EventKey(ts: nat, uid: nat)

  predicate Less(a: EventKey, b: EventKey) {
    a.ts < b.ts || (a.ts == b.ts && a.uid < b.uid)
  }

  predicate IsNext(events: set<EventKey>, e: EventKey) {
    e in events && forall x | x in events && x != e :: !Less(x, e)
  }

  lemma {:induction false} NextExists(events: set<EventKey>)
    requires events != {}
    ensures exists e :: IsNext(events, e)
    decreases |events|
  {
    var x :| x in events;
    var rest := events - {x};
    if rest == {} {
      assert events == {x};
      assert IsNext(events, x);
    } else {
      NextExists(rest);
      var e :| IsNext(rest, e);
      var least := if Less(x, e) then x else e;
      forall y | y in events && y != least
        ensures !Less(y, least)
      {
        assert y == x || y in rest;
        assert y == e || y == x || !Less(y, e);
      }
      assert IsNext(events, least);
    }
  }

  // Every event is later than the ones before it.
  predicate Ordered(events: seq<EventKey>) {
    forall i, j | 0 <= i < j < |events| :: Less(events[i], events[j])
  }

  lemma OrderedAppend(events: seq<EventKey>, e: EventKey)
    requires Ordered(events) && forall x | x in events :: Less(x, e)
    ensures Ordered(events + [e])
  {
    assert forall i | 0 <= i < |events| :: events[i] in events;
  }

  // The j-th event scheduled from s on was scheduled by the j-th event executed from x on, after the j-th
  // delay drawn from d on.
  predicate RescheduledAt(random: nat -> nat, scheduled: seq<EventKey>, executed: seq<EventKey>,
                          s: nat, x: nat, d: nat, j: nat) {
    s + j < |scheduled| && x + j < |executed| && scheduled[s + j].ts == executed[x + j].ts + random(d + j)
  }

  predicate Rescheduled(random: nat -> nat, scheduled: seq<EventKey>, executed: seq<EventKey>,
                        s: nat, x: nat, d: nat, n: nat) {
    forall j | 0 <= j < n :: RescheduledAt(random, scheduled, executed, s, x, d, j)
  }

  lemma StaysRescheduled(random: nat -> nat, scheduled: seq<EventKey>, executed: seq<EventKey>,
                         s: nat, x: nat, d: nat, n: nat, scheduled': seq<EventKey>, executed': seq<EventKey>)
    requires Rescheduled(random, scheduled, executed, s, x, d, n) && scheduled <= scheduled' && executed <= executed'
    ensures Rescheduled(random, scheduled', executed', s, x, d, n)
  {
    forall j | 0 <= j < n
      ensures RescheduledAt(random, scheduled', executed', s, x, d, j)
    {
      assert RescheduledAt(random, scheduled, executed, s, x, d, j);
    }
  }

  lemma RescheduledOneMore(random: nat -> nat, scheduled: seq<EventKey>, executed: seq<EventKey>,
                           s: nat, x: nat, d: nat, n: nat, e: EventKey)
    requires Rescheduled(random, scheduled, executed, s, x, d, n)
    requires RescheduledAt(random, scheduled + [e], executed, s, x, d, n)
    ensures Rescheduled(random, scheduled + [e], executed, s, x, d, n + 1)
  {
    StaysRescheduled(random, scheduled, executed, s, x, d, n, scheduled + [e], executed);
  }

  // The i-th event scheduled from s on was scheduled at time t, after the i-th delay drawn from d on.
  predicate PopulatedAt(random: nat -> nat, scheduled: seq<EventKey>, t: nat, s: nat, d: nat, i: nat) {
    s + i < |scheduled| && scheduled[s + i].ts == t + random(d + i)
  }

  predicate Populated(random: nat -> nat, scheduled: seq<EventKey>, t: nat, s: nat, d: nat, n: nat) {
    forall i | 0 <= i < n :: PopulatedAt(random, scheduled, t, s, d, i)
  }

  lemma StaysPopulated(random: nat -> nat, scheduled: seq<EventKey>, t: nat, s: nat, d: nat, n: nat,
                       scheduled': seq<EventKey>)
    requires Populated(random, scheduled, t, s, d, n) && scheduled <= scheduled'
    ensures Populated(random, scheduled', t, s, d, n)
  {
    forall i | 0 <= i < n
      ensures PopulatedAt(random, scheduled', t, s, d, i)
    {
      assert PopulatedAt(random, scheduled, t, s, d, i);
    }
  }

  // An event is numbered as it is scheduled; it waits on the list until it is executed, later than all those
  // executed before it.
  ghost predicate Ledger(now: nat, scheduled: seq<EventKey>, events: set<EventKey>, executed: seq<EventKey>) {
    && (forall k | 0 <= k < |scheduled| :: scheduled[k].uid == k)
    && (forall e :: e in scheduled <==> e in events || e in executed)
    && (forall e | e in events :: now <= e.ts && e !in executed)
    && Ordered(executed)
    && (forall x, e | x in executed && e in events :: Less(x, e))
    && (forall x | x in executed :: x.ts <= now)
  }

  lemma NewEvent(now: nat, scheduled: seq<EventKey>, events: set<EventKey>, executed: seq<EventKey>, e: EventKey)
    requires Ledger(now, scheduled, events, executed) && now <= e.ts && e.uid == |scheduled|
    ensures e !in events && Ledger(now, scheduled + [e], events + {e}, executed)
  {
    assert forall x :: x in scheduled + [e] <==> x in scheduled || x == e;
    assert forall x | x in scheduled :: x.uid < e.uid;
  }

  lemma ExecutedEvent(now: nat, scheduled: seq<EventKey>, events: set<EventKey>, executed: seq<EventKey>, e: EventKey)
    requires Ledger(now, scheduled, events, executed) && IsNext(events, e)
    ensures now <= e.ts && Ledger(e.ts, scheduled, events - {e}, executed + [e])
  {
    OrderedAppend(executed, e);
    forall x | x in events - {e}
      ensures Less(e, x)
    {
      assert !Less(x, e);
      var i :| 0 <= i < |scheduled| && scheduled[i] == e;
      var j :| 0 <= j < |scheduled| && scheduled[j] == x;
    }
  }

  class Bench {
    var population: nat
    var total: nat
    var count: nat

    // The random stream: what the next calls will return, by number.
    const random: nat -> nat
    var draws: nat

    // The simulator: its clock, its event list and its event counter.
    var now: nat
    var events: set<EventKey>
    var nextUid: nat

    // Every event scheduled, by its number, and the events executed, in order.
    ghost var scheduled: seq<EventKey>
    ghost var executed: seq<EventKey>

    ghost predicate Valid()
      reads this`nextUid, this`now, this`scheduled, this`events, this`executed
    {
      nextUid == |scheduled| && Ledger(now, scheduled, events, executed)
    }

    constructor (population: nat, total: nat, random: nat -> nat)
      ensures Valid() && events == {} && executed == [] && scheduled == []
      ensures this.population == population && this.total == total && this.random == random
    {
      this.population, this.total, count := population, total, 0;
      this.random, draws := random, 0;
      now, events, nextUid, scheduled, executed := 0, {}, 0, [], [];
    }

    method GetValue() returns (v: nat)
      modifies this`draws
      ensures v == random(old(draws)) && draws == old(draws) + 1
    {
      v := random(draws);
      draws := draws + 1;
    }

    // Schedule a callback after a delay; its key is new.
    method Schedule(delay: nat)
      requires Valid()
      modifies this`events, this`nextUid, this`scheduled
      ensures Valid() && events == old(events) + {EventKey(now + delay, old(nextUid))}
      ensures scheduled == old(scheduled) + [EventKey(now + delay, old(nextUid))]
      ensures |events| == |old(events)| + 1
    {
      ghost var e := EventKey(now + delay, nextUid);
      NewEvent(now, scheduled, events, executed, e);
      events := events + {EventKey(now + delay, nextUid)};
      scheduled := scheduled + [e];
      nextUid := nextUid + 1;
    }

    // Schedule a callback after the next random delay.
    method ScheduleNext()
      requires Valid()
      modifies this`draws, this`events, this`nextUid, this`scheduled
      ensures Valid() && draws == old(draws) + 1
      ensures events == old(events) + {EventKey(now + random(old(draws)), old(nextUid))}
      ensures scheduled == old(scheduled) + [EventKey(now + random(old(draws)), old(nextUid))]
      ensures |events| == |old(events)| + 1
    {
      var delay := GetValue();
      Schedule(delay);
    }

    // Take the least event off the list, move the clock to it and execute its callback.
    method RemoveNext() returns (next: EventKey)
      requires Valid() && events != {}
      modifies this`events, this`now, this`executed
      ensures Valid() && IsNext(old(events), next)
      ensures events == old(events) - {next} && |events| == |old(events)| - 1 && now == next.ts >= old(now)
      ensures executed == old(executed) + [next]
    {
      NextExists(events);
      next :| next in events && IsNext(events, next);
      ExecutedEvent(now, scheduled, events, executed, next);
      events := events - {next};
      now := next.ts;
      executed := executed + [next];
    }

    // The callback: reschedule itself, after the next random delay, unless the total has been reached.
    method Cb()
      requires Valid()
      modifies this
      ensures Valid() && population == old(population) && total == old(total) && now == old(now)
      ensures executed == old(executed)
      ensures old(count) >= total ==>
        count == old(count) && draws == old(draws) && events == old(events) && scheduled == old(scheduled)
      ensures old(count) < total ==>
        && count == old(count) + 1 && draws == old(draws) + 1
        && events == old(events) + {EventKey(now + random(old(draws)), old(nextUid))}
        && scheduled == old(scheduled) + [EventKey(now + random(old(draws)), old(nextUid))]
        && |events| == |old(events)| + 1
    {
      if count >= total {
        return;
      }
      ScheduleNext();
      count := count + 1;
    }

    // A run that began with s events scheduled, x executed and d numbers drawn is under way.
    ghost predicate InRun(s: nat, x: nat, d: nat)
      reads this
    {
      && |scheduled| == s + count && draws == d + count && count <= total && x + count <= |executed|
      && (count < total ==> |executed| == x + count)
      && Rescheduled(random, scheduled, executed, s, x, d, count)
    }

    // One turn of the event loop.
    method ExecuteNext(ghost s: nat, ghost x: nat, ghost d: nat)
      requires Valid() && events != {} && InRun(s, x, d)
      modifies this
      ensures Valid() && population == old(population) && total == old(total) && InRun(s, x, d)
      ensures count == if old(count) < total then old(count) + 1 else old(count)
      ensures |executed| == |old(executed)| + 1 && |events| + old(count) + 1 == |old(events)| + count
      ensures old(executed) <= executed && old(scheduled) <= scheduled
    {
      var next := RemoveNext();
      ghost var n, sofar, more := count, scheduled, EventKey(now + random(draws), nextUid);
      StaysRescheduled(random, sofar, old(executed), s, x, d, n, sofar, executed);
      if n < total {
        RescheduledOneMore(random, sofar, executed, s, x, d, n, more);
      }
      Cb();
      assert scheduled == if n < total then sofar + [more] else sofar;
      assert Rescheduled(random, scheduled, executed, s, x, d, count);
    }

    // The event loop of the simulator.
    method Run()
      requires Valid() && count == 0
      modifies this
      ensures Valid() && population == old(population) && total == old(total) && events == {}
      ensures count == if old(events) == {} then 0 else total
      ensures |executed| == |old(executed)| + |old(events)| + count
      ensures old(executed) <= executed && old(scheduled) <= scheduled
      ensures InRun(|old(scheduled)|, |old(executed)|, old(draws))
    {
      ghost var s, x, d := |scheduled|, |executed|, draws;
      while events != {}
        invariant Valid() && population == old(population) && total == old(total) && InRun(s, x, d)
        invariant old(events) == {} ==> events == {} && count == 0
        invariant events == {} && old(events) != {} ==> count == total
        invariant |executed| + |events| == x + |old(events)| + count
        invariant old(executed) <= executed && old(scheduled) <= scheduled
        decreases total - count + |events|
      {
        ExecuteNext(s, x, d);
      }
    }

    // Schedule one event of the population.
    method ScheduleFirst(ghost s: nat, ghost d: nat, ghost i: nat)
      requires Valid() && |scheduled| == s + i && draws == d + i && Populated(random, scheduled, now, s, d, i)
      modifies this`draws, this`events, this`nextUid, this`scheduled
      ensures Valid() && |scheduled| == s + i + 1 && draws == d + i + 1
      ensures Populated(random, scheduled, now, s, d, i + 1)
      ensures |events| == |old(events)| + 1 && old(scheduled) <= scheduled
    {
      ScheduleNext();
      StaysPopulated(random, old(scheduled), now, s, d, i, scheduled);
    }

    // Schedule the population.
    method Populate()
      requires Valid() && events == {}
      modifies this`draws, this`events, this`nextUid, this`scheduled
      ensures Valid() && |events| == population && old(scheduled) <= scheduled
      ensures |scheduled| == |old(scheduled)| + population && draws == old(draws) + population
      ensures Populated(random, scheduled, now, |old(scheduled)|, old(draws), population)
    {
      ghost var s, d := |scheduled|, draws;
      for i := 0 to population
        invariant Valid() && |events| == i && old(scheduled) <= scheduled
        invariant |scheduled| == s + i && draws == d + i && Populated(random, scheduled, now, s, d, i)
      {
        ScheduleFirst(s, d, i);
      }
    }

    /** One run: whatever the delays, it ends with an empty event list after exactly population plus total
        callbacks, with the counter at the total.  The events executed are those scheduled, each once and
        ordered by time and number; the delays of the population and then of the callbacks are the numbers
        of the random stream in turn. */
    method RunBench()
      requires Valid() && events == {}
      modifies this
      ensures Valid() && events == {} && population == old(population) && total == old(total)
      ensures count == if population > 0 then total else 0
      ensures |executed| == |old(executed)| + if population > 0 then population + total else 0
      ensures old(executed) <= executed && old(scheduled) <= scheduled
      ensures Ordered(executed) && (forall e :: e in executed <==> e in scheduled)
      ensures Populated(random, scheduled, old(now), |old(scheduled)|, old(draws), population)
      ensures Rescheduled(random, scheduled, executed, |old(scheduled)| + population, |old(executed)|,
                          old(draws) + population, count)
    {
      count := 0;
      Populate();
      ghost var populated := scheduled;
      Run();
      StaysPopulated(random, populated, old(now), |old(scheduled)|, old(draws), population, scheduled);
    }

    /** The priming run and the counted runs after it each do the same amount of work: the counter starts
        afresh although the clock and the random stream go on. */
    method RunAll(runs: nat)
      requires Valid() && events == {} && executed == []
      modifies this
      ensures Valid() && events == {} && population == old(population) && total == old(total)
      ensures population > 0 ==> |executed| == (runs + 1) * (population + total) && count == total
      ensures population == 0 ==> executed == [] && count == 0
      ensures Ordered(executed)
    {
      RunBench();
      for i := 0 to runs
        invariant Valid() && events == {} && population == old(population) && total == old(total)
        invariant count == if population > 0 then total else 0
        invariant |executed| == if population > 0 then (i + 1) * (population + total) else 0
      {
        RunBench();
        OneMoreRun(i + 1, population + total);
      }
    }
  }

  lemma OneMoreRun(n: nat, work: nat)
    ensures n * work + work == (n + 1) * work
  {
  }
}
