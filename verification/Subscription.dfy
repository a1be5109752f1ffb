/**
 The subscription loops: catchUp, listenAndTail and runSubscription of
 postgres/eventstore.go and pollLoop of mysql/eventstore.go, with appending transactions
 stepping in between. Every object of class Subscription is always in a reachable state of
 the machine in module Tailing.

 Failures, clock readings and waiting are nondeterministic. `left` bounds the reader's own
 steps until its context is cancelled, so every run covered is a finite one of any length.
 */
module Subscription {
  import opened Common
  import opened EventLog
  import opened Pages
  import opened Tailing

  ghost predicate Leads(s: Sys, steps: seq<Step>, s': Sys)
    decreases |steps|
  {
    if steps == [] then s == s'
    else CanStep(s, steps[0]) && Leads(Moved(s, steps[0]), steps[1..], s')
  }

  lemma {:induction false} LeadsConcat(s: Sys, steps: seq<Step>, s': Sys, more: seq<Step>, s'': Sys)
    requires Leads(s, steps, s') && Leads(s', more, s'')
    ensures Leads(s, steps + more, s'')
    decreases |steps|
  {
    if steps == [] {
      assert [] + more == more;
    } else {
      LeadsConcat(Moved(s, steps[0]), steps[1..], s', more, s'');
      assert (steps + more)[1..] == steps[1..] + more;
    }
  }

  lemma {:induction false} LeadsKeepsInv(s: Sys, steps: seq<Step>, s': Sys)
    requires SysInv(s) && Leads(s, steps, s')
    ensures SysInv(s') && s.store.log <= s'.store.log
    decreases |steps|
  {
    if steps != [] {
      StepKeepsSys(s, steps[0]);
      LeadsKeepsInv(Moved(s, steps[0]), steps[1..], s');
    }
  }

  ghost predicate OnlyDb(steps: seq<Step>) {
    forall i | 0 <= i < |steps| :: steps[i].Db?
  }

  /** Appending transactions only queue notifications; they leave the reader where it is. */
  lemma {:induction false} DbOnlyNotifies(s: Sys, steps: seq<Step>, s': Sys)
    requires Leads(s, steps, s') && OnlyDb(steps)
    ensures s'.reader == s.reader.(queued := s'.reader.queued)
    decreases |steps|
  {
    if steps != [] {
      assert steps[0].Db?;
      assert OnlyDb(steps[1..]);
      DbOnlyNotifies(Moved(s, steps[0]), steps[1..], s');
    }
  }

  /** Everything visible in log past the subscription's start has been sent. */
  ghost predicate Delivered(log: seq<Event>, r: Reader) {
    forall e | e in log && r.from < e.position :: e in r.sent
  }

  /** The same, counting the page in hand. */
  ghost predicate InHand(log: seq<Event>, r: Reader, page: seq<Event>) {
    forall e | e in log && r.cursor < e.position :: e in page
  }

  /** The log and what was sent only grow; the subscription's settings stay. */
  ghost predicate Ahead(s: Sys, s': Sys) {
    && s.store.log <= s'.store.log
    && s.reader.sent <= s'.reader.sent
    && s'.reader.from == s.reader.from && s'.reader.polling == s.reader.polling
  }

  lemma DeliveredStays(log: seq<Event>, r: Reader, r': Reader)
    requires Delivered(log, r) && r.sent <= r'.sent && r.from == r'.from
    ensures Delivered(log, r')
  {
    forall e | e in log && r'.from < e.position ensures e in r'.sent {
      var i :| 0 <= i < |r.sent| && r.sent[i] == e;
      assert r'.sent[i] == e;
    }
  }

  datatype Outcome = Done | Failed | Cancelled

  // ---- reconnecting ----

  const INITIAL_BACKOFF := 100 // milliseconds
  const MAX_BACKOFF := 5000
  const HEALTHY_AFTER := 30000

  function Pow2(n: nat): nat { if n == 0 then 1 else 2 * Pow2(n - 1) }

  /** What the wait before reconnect number n+1 of an outage should be. */
  function Backoff(n: nat): int { Min(INITIAL_BACKOFF * Pow2(n), MAX_BACKOFF) }

  /** Doubling and capping step by step is the same as doubling first and capping once. */
  lemma BackoffDoubles(n: nat)
    ensures Min(Backoff(n) * 2, MAX_BACKOFF) == Backoff(n + 1)
  {
    assert Pow2(n + 1) == 2 * Pow2(n);
  }

  /** Cycle i is the failed cycle that completes maxReconnects unhealthy reconnects in a row,
      counted from the last healthy cycle or from the first cycle. */
  ghost predicate Exhausts(healthy: seq<bool>, maxReconnects: nat, i: nat)
    requires i < |healthy|
  {
    && 0 < maxReconnects <= i
    && forall j | i - maxReconnects < j <= i :: !healthy[j]
  }

  /** Cycles since the last healthy one, or since the first one. */
  function Outage(healthy: seq<bool>, i: nat): nat
    requires i < |healthy|
  {
    if i == 0 || healthy[i] then 0 else Outage(healthy, i - 1) + 1
  }

  /** Counting up and resetting on a healthy cycle decides exactly the stated bound. */
  lemma {:induction false} OutageDecides(healthy: seq<bool>, maxReconnects: nat, i: nat)
    requires i < |healthy|
    ensures Outage(healthy, i) <= i
    ensures maxReconnects > 0 ==> (Exhausts(healthy, maxReconnects, i) <==> Outage(healthy, i) >= maxReconnects)
  {
    if i > 0 && !healthy[i] {
      OutageDecides(healthy, maxReconnects, i - 1);
      if maxReconnects > 1 {
        OutageDecides(healthy, maxReconnects - 1, i - 1);
      }
    }
  }

  lemma {:induction false} OutageSnoc(healthy: seq<bool>, h: bool, i: nat)
    requires i < |healthy|
    ensures Outage(healthy + [h], i) == Outage(healthy, i)
  {
    if i > 0 && !healthy[i] {
      OutageSnoc(healthy, h, i - 1);
    }
  }

  lemma HistorySnoc(healthy: seq<bool>, h: bool, maxReconnects: nat)
    requires forall i | 0 <= i < |healthy| :: !Exhausts(healthy, maxReconnects, i)
    ensures forall i | 0 <= i < |healthy| ::
              Outage(healthy + [h], i) == Outage(healthy, i) && !Exhausts(healthy + [h], maxReconnects, i)
    ensures Outage(healthy + [h], |healthy|) ==
              if h || healthy == [] then 0 else Outage(healthy, |healthy| - 1) + 1
    ensures maxReconnects > 0 ==>
              (Exhausts(healthy + [h], maxReconnects, |healthy|) <==>
               Outage(healthy + [h], |healthy|) >= maxReconnects)
  {
    var all := healthy + [h];
    OutageDecides(all, maxReconnects, |healthy|);
    forall i | 0 <= i < |healthy|
      ensures Outage(all, i) == Outage(healthy, i) && !Exhausts(all, maxReconnects, i)
    {
      OutageSnoc(healthy, h, i);
      OutageDecides(all, maxReconnects, i);
      OutageDecides(healthy, maxReconnects, i);
    }
  }

  /** The loop invariant of runSubscription: the counter and the backoff are those of the history. */
  ghost predicate Kept(healthy: seq<bool>, waits: seq<int>, maxReconnects: nat, reconnects: nat, backoff: int) {
    && |waits| == |healthy| && backoff == Backoff(reconnects)
    && reconnects == (if healthy == [] then 0 else Outage(healthy, |healthy| - 1) + 1)
    && forall i | 0 <= i < |waits| ::
         !Exhausts(healthy, maxReconnects, i) && waits[i] == Backoff(Outage(healthy, i))
  }

  lemma KeptAtStart(maxReconnects: nat)
    ensures Kept([], [], maxReconnects, 0, INITIAL_BACKOFF)
  {
    assert Backoff(0) == INITIAL_BACKOFF;
  }

  lemma KeptAfterFailure(healthy: seq<bool>, waits: seq<int>, maxReconnects: nat,
                         reconnects: nat, backoff: int, h: bool)
    requires Kept(healthy, waits, maxReconnects, reconnects, backoff)
    ensures var n, b := if h then 0 else reconnects, if h then INITIAL_BACKOFF else backoff;
            && (maxReconnects > 0 && n >= maxReconnects <==> Exhausts(healthy + [h], maxReconnects, |healthy|))
            && (!(maxReconnects > 0 && n >= maxReconnects) ==>
                  Kept(healthy + [h], waits + [b], maxReconnects, n + 1, Min(b * 2, MAX_BACKOFF)))
            && forall i | 0 <= i < |waits| ::
                 !Exhausts(healthy + [h], maxReconnects, i) && waits[i] == Backoff(Outage(healthy + [h], i))
  {
    HistorySnoc(healthy, h, maxReconnects);
    BackoffDoubles(if h then 0 else reconnects);
    assert Backoff(0) == INITIAL_BACKOFF;
  }

  lemma SendKeepsHand(s: Sys, log: seq<Event>)
    requires SysInv(s) && CanStep(s, Send)
    ensures InHand(log, s.reader, s.reader.phase.page)
        ==> InHand(log, Moved(s, Send).reader, Moved(s, Send).reader.phase.page)
  {
    var page := s.reader.phase.page;
    SendKeepsReader(s);
    forall e ensures e in page <==> e == page[0] || e in page[1..] { PageSplit(page, e); }
  }

  lemma HandEmpty(s: Sys, log: seq<Event>)
    requires SysInv(s) && log <= s.store.log
    ensures InHand(log, s.reader, []) ==> Delivered(log, s.reader)
  {
    forall e | e in log ensures e in s.store.log {
      var i :| 0 <= i < |log| && log[i] == e;
      assert s.store.log[i] == e;
    }
  }

  /** What the clock showed when a cycle established and when it failed, if it established. */
  type Cycle = Option<(int, int)>

  function Readings(cycles: seq<Cycle>): seq<int> {
    if cycles == [] then []
    else
      var c := cycles[|cycles| - 1];
      Readings(cycles[..|cycles| - 1]) + if c.Some? then [c.value.0, c.value.1] else []
  }

  /** A cycle is healthy exactly when it established and then stayed up for 30 s. */
  ghost predicate Timed(cycles: seq<Cycle>, healthy: seq<bool>) {
    && |cycles| == |healthy|
    && forall i | 0 <= i < |healthy| ::
         healthy[i] <==> cycles[i].Some? && cycles[i].value.1 - cycles[i].value.0 >= 30000
  }

  lemma ReadingsSnoc(cycles: seq<Cycle>, c: Cycle)
    ensures Readings(cycles + [c]) == Readings(cycles) + if c.Some? then [c.value.0, c.value.1] else []
  {
    assert (cycles + [c])[..|cycles|] == cycles;
  }

  lemma NoReadings(clock: seq<int>)
    ensures clock + Readings([]) == clock
  {
  }

  // ---- the code ----

  class Subscription {
    const start: Sys
    var sys: Sys
    ghost var did: seq<Step>
    /** Every reading of the clock, how many catch-ups came to their end, and how often the database failed. */
    ghost var clock: seq<int>
    ghost var drains: nat
    ghost var failures: nat
    /** How often the context was seen to be cancelled. */
    ghost var cancels: nat

    ghost predicate Valid()
      reads this
    {
      Start(start) && Leads(start, did, sys)
    }

    lemma Reachable()
      requires Valid()
      ensures SysInv(sys)
    {
      LeadsKeepsInv(start, did, sys);
    }

    constructor (polling: bool, batch: nat, from: int)
      ensures Valid() && sys == start && sys.reader.polling == polling && sys.reader.batch == batch
      ensures sys.reader.from == from && fresh(this)
    {
      var s := Sys(EMPTY, Reader(polling, batch, from, from, [],
                                 if polling then Loading else Disconnected, false, 0));
      start, sys, did, clock, drains, failures, cancels := s, s, [], [], 0, 0, 0;
    }

    method Perform(b: Step)
      requires Valid() && CanStep(sys, b)
      modifies this`sys, this`did
      ensures Valid() && sys == Moved(old(sys), b)
      ensures !b.Db? ==> Ahead(old(sys), sys)
    {
      ghost var s := Moved(sys, b);
      assert Leads(sys, [b], s);
      LeadsConcat(start, did, sys, [b], s);
      sys, did := Moved(sys, b), did + [b];
    }

    /** Any number of steps of appending transactions. Callers rely on the contract alone. */
    method Others() returns (ghost steps: seq<Step>)
      requires Valid()
      modifies this`sys, this`did
      ensures Valid() && OnlyDb(steps) && Leads(old(sys), steps, sys)
    {
      steps := [];
    }

    /** Others, seen from the reader. */
    method Interfere()
      requires Valid()
      modifies this`sys, this`did
      ensures Valid() && SysInv(sys) && Ahead(old(sys), sys)
      ensures sys.reader == old(sys.reader).(queued := sys.reader.queued)
    {
      ghost var s := sys;
      Reachable();
      ghost var steps := Others();
      LeadsKeepsInv(s, steps, sys);
      DbOnlyNotifies(s, steps, sys);
    }

    /** Whether a call to the database fails. */
    method Fails() returns (b: bool)
      modifies this`failures
      ensures failures == old(failures) + if b then 1 else 0
    {
      b := *;
      if b { failures := failures + 1; }
    }

    /** ctx.Done() */
    method ContextDone(left: nat) returns (b: bool)
      modifies this`cancels
      ensures b <==> left == 0
      ensures cancels == old(cancels) + if b then 1 else 0
    {
      b := left == 0;
      if b { cancels := cancels + 1; }
    }

    /** s.now() */
    method Now() returns (t: int)
      modifies this`clock
      ensures clock == old(clock) + [t]
    {
      t := *;
      clock := clock + [t];
    }

    /** WaitForNotification: it comes back with a notification, with the connection broken, or because the
        context is cancelled, after any number of steps of appending transactions. */
    method WaitForNotification(budget: nat) returns (r: Outcome, left: nat)
      requires Valid() && sys.reader.phase == Waiting && !sys.reader.polling
      modifies this`sys, this`did, this`failures, this`cancels
      ensures Valid() && Ahead(old(sys), sys) && left <= budget
      ensures if r == Cancelled then left == 0 else left < budget
      ensures failures == old(failures) + if r == Failed then 1 else 0
      ensures cancels == old(cancels) + if r == Cancelled then 1 else 0
      ensures sys.reader.phase == match r { case Done => Loading case Failed => Disconnected case Cancelled => Waiting }
    {
      Interfere();
      left := budget;
      var over := ContextDone(left);
      if over {
        return Cancelled, left;
      }
      left := left - 1;
      if sys.reader.queued > 0 {
        if * {
          Perform(Notified);
          return Done, left;
        }
      }
      failures := failures + 1;
      Perform(Break); // the connection died
      r := Failed;
    }

    /** One send; appending transactions step before it. */
    method SendOne(ghost log: seq<Event>)
      requires Valid() && sys.reader.phase.Sending? && sys.reader.phase.page != []
      requires !sys.reader.phase.full ==> InHand(log, sys.reader, sys.reader.phase.page)
      modifies this`sys, this`did
      ensures Valid() && Ahead(old(sys), sys) && sys.reader.listening == old(sys.reader.listening)
      ensures sys.reader.phase == Sending(old(sys.reader.phase.page)[1..], old(sys.reader.phase.full))
      ensures sys.reader.sent == old(sys.reader.sent) + [old(sys.reader.phase.page)[0]]
      ensures !sys.reader.phase.full ==> InHand(log, sys.reader, sys.reader.phase.page)
    {
      Interfere();
      SendKeepsHand(sys, log);
      Perform(Send);
    }

    /** The sends of a page, until it is through or the context is cancelled. */
    method SendAll(budget: nat, ghost log: seq<Event>) returns (r: Outcome, left: nat)
      requires Valid() && sys.reader.phase.Sending? && log <= sys.store.log
      requires !sys.reader.phase.full ==> InHand(log, sys.reader, sys.reader.phase.page)
      modifies this`sys, this`did, this`cancels
      ensures Valid() && left <= budget && Ahead(old(sys), sys)
      ensures r == Done || (r == Cancelled && left == 0)
      ensures cancels == old(cancels) + if r == Cancelled then 1 else 0
      ensures sys.reader.listening == old(sys.reader.listening)
      ensures !sys.reader.phase.Closed? && !sys.reader.phase.Disconnected?
      ensures r == Done ==> sys.reader.phase == if old(sys.reader.phase.full) then Loading else Waiting
      ensures r == Done && !old(sys.reader.phase.full) ==> Delivered(log, sys.reader)
    {
      left := budget;
      ghost var full := sys.reader.phase.full;
      while sys.reader.phase.page != []
        invariant Valid() && left <= budget && Ahead(old(sys), sys)
        invariant sys.reader.phase.Sending? && sys.reader.phase.full == full
        invariant sys.reader.listening == old(sys.reader.listening)
        invariant !full ==> InHand(log, sys.reader, sys.reader.phase.page)
        invariant log <= sys.store.log && cancels == old(cancels)
        decreases left
      {
        var over := ContextDone(left);
        if over {
          return Cancelled, left;
        }
        left := left - 1;
        SendOne(log);
      }
      Interfere();
      HandEmpty(sys, log);
      Perform(PageDone);
      r := Done;
    }

    /** One LoadAll and the sends of its page. log is what was committed when the page was read. */
    method SendPage(budget: nat) returns (r: Outcome, full: bool, left: nat, ghost log: seq<Event>)
      requires Valid() && sys.reader.phase.Loading?
      modifies this`sys, this`did, this`failures, this`cancels
      ensures Valid() && left <= budget && if r == Cancelled then left == 0 else left < budget
      ensures failures == old(failures) + if r == Failed then 1 else 0
      ensures cancels == old(cancels) + if r == Cancelled then 1 else 0
      ensures old(sys.store.log) <= log
      ensures Ahead(old(sys), sys)
      ensures sys.reader.listening == old(sys.reader.listening)
      ensures !sys.reader.phase.Closed? && !sys.reader.phase.Disconnected?
      ensures r == Failed ==> sys.reader == old(sys.reader).(queued := sys.reader.queued)
      ensures r == Done ==> sys.reader.phase == if full then Loading else Waiting
      ensures r == Done && !full ==> Delivered(log, sys.reader)
    {
      left, full := budget, false;
      Interfere();
      log := sys.store.log;
      var over := ContextDone(left);
      if over {
        return Cancelled, full, left, log;
      }
      left := left - 1;
      var failed := Fails();
      if failed {
        return Failed, full, left, log;
      }
      var page, _ := LoadAll(sys.store.log, sys.reader.cursor, sys.reader.batch);
      Perform(Load(page));
      full := sys.reader.phase.full;
      assert !full ==> InHand(log, sys.reader, page);
      r, left := SendAll(left, log);
    }

    /** catchUp: pages until a short one. When it returns normally, everything committed before
        the call has been sent. */
    method CatchUp(budget: nat) returns (r: Outcome, left: nat)
      requires Valid() && sys.reader.phase.Loading?
      modifies this`sys, this`did, this`drains, this`failures, this`cancels
      ensures Valid() && left <= budget && if r == Cancelled then left == 0 else left < budget
      ensures failures == old(failures) + if r == Failed then 1 else 0
      ensures cancels == old(cancels) + if r == Cancelled then 1 else 0
      ensures Ahead(old(sys), sys)
      ensures sys.reader.listening == old(sys.reader.listening)
      ensures !sys.reader.phase.Closed? && !sys.reader.phase.Disconnected?
      ensures r == Done ==> sys.reader.phase == Waiting && Delivered(old(sys.store.log), sys.reader)
      ensures r == Failed ==> sys.reader.phase == Loading
      ensures drains == old(drains) + if r == Done then 1 else 0
    {
      left := budget;
      ghost var committed := sys.store.log;
      while true
        invariant Valid() && left <= budget && sys.reader.phase.Loading?
        invariant Ahead(old(sys), sys) && drains == old(drains)
        invariant failures == old(failures) && cancels == old(cancels)
        invariant sys.reader.listening == old(sys.reader.listening)
        decreases left
      {
        var full;
        ghost var log;
        r, full, left, log := SendPage(left);
        if r != Done {
          return;
        }
        if !full {
          assert forall e | e in committed :: e in log;
          drains := drains + 1;
          return;
        }
      }
    }

    /** The tail loop of listenAndTail, on an established connection: every notification is followed by a
        catch-up before the next wait. */
    method Tail(budget: nat) returns (r: Outcome, left: nat)
      requires Valid() && sys.reader.phase == Waiting && !sys.reader.polling
      modifies this`sys, this`did, this`drains, this`failures, this`cancels
      ensures Valid() && Ahead(old(sys), sys) && left <= budget && drains >= old(drains)
      ensures r == Failed || (r == Cancelled && left == 0)
      ensures failures == old(failures) + if r == Failed then 1 else 0
      ensures cancels == old(cancels) + if r == Cancelled then 1 else 0
      ensures r == Failed ==> sys.reader.phase.Disconnected?
      ensures r == Cancelled ==> !sys.reader.phase.Closed?
    {
      left := budget;
      while true
        invariant Valid() && Ahead(old(sys), sys) && left <= budget && sys.reader.phase == Waiting
        invariant drains >= old(drains) && failures == old(failures) && cancels == old(cancels)
        decreases left
      {
        r, left := WaitForNotification(left);
        if r != Done {
          return;
        }
        r, left := CatchUp(left);
        if r == Failed { Perform(Break); }
        if r != Done {
          return;
        }
      }
    }

    /** Acquiring a connection and LISTENing on it; either can fail. */
    method Connect() returns (ok: bool)
      requires Valid() && sys.reader.phase.Disconnected? && !sys.reader.polling
      modifies this`sys, this`did, this`failures
      ensures Valid() && Ahead(old(sys), sys)
      ensures failures == old(failures) + if ok then 0 else 1
      ensures if ok then sys.reader.phase == Loading && sys.reader.listening else sys.reader.phase.Disconnected?
    {
      ok := false;
      var failed := Fails(); // acquire
      if failed {
        return;
      }
      Perform(Acquire);
      Interfere();
      failed := Fails(); // LISTEN
      if failed {
        Perform(Break);
        return;
      }
      Perform(Listen);
      ok := true;
    }

    /** listenAndTail: one connection. LISTEN comes before the catch-up; a cycle counts as
        established exactly when its catch-up is through, at what the clock shows then, and then everything
        committed before the cycle began has been sent. Unless cancelled, the connection is released. */
    method ListenAndTail(budget: nat) returns (r: Outcome, established: Option<int>, left: nat)
      requires Valid() && sys.reader.phase.Disconnected? && !sys.reader.polling
      modifies this
      ensures Valid() && Ahead(old(sys), sys)
      ensures left <= budget && (r == Failed ==> left < budget)
      ensures r == Failed || (r == Cancelled && left == 0)
      ensures failures == old(failures) + if r == Failed then 1 else 0
      ensures cancels == old(cancels) + if r == Cancelled then 1 else 0
      ensures r == Failed ==> sys.reader.phase.Disconnected?
      ensures r == Cancelled ==> !sys.reader.phase.Closed?
      ensures established.Some? <==> drains > old(drains)
      ensures established.Some? ==> Delivered(old(sys.store.log), sys.reader)
      ensures clock == old(clock) + if established.Some? then [established.value] else []
    {
      hide Leads, Start;
      left, established := budget, None;
      assert clock == clock + [];
      var over := ContextDone(left);
      if over {
        return Cancelled, established, left;
      }
      left := left - 1;
      var ok := Connect();
      if !ok {
        return Failed, established, left;
      }
      r, left := CatchUp(left);
      if r == Failed { Perform(Break); }
      if r != Done {
        return;
      }
      var t := Now();
      established := Some(t);
      ghost var s := sys;
      assert Delivered(old(sys.store.log), s.reader);
      r, left := Tail(left);
      DeliveredStays(old(sys.store.log), s.reader, sys.reader);
    }

    /** Whether a failed cycle counts as healthy. */
    method JudgeCycle(established: Option<int>) returns (healthy: bool, cycle: Cycle)
      modifies this`clock
      ensures established.None? ==> clock == old(clock) && cycle.None?
      ensures established.Some? ==>
                cycle.Some? && cycle.value.0 == established.value && clock == old(clock) + [cycle.value.1]
      ensures healthy <==> cycle.Some? && cycle.value.1 - cycle.value.0 >= 30000
    {
      healthy, cycle := false, None;
      if established.Some? {
        var t := Now();
        healthy, cycle := t - established.value >= HEALTHY_AFTER, Some((established.value, t));
      }
    }

    /** runSubscription: cycles until the context is cancelled or, with maxReconnects > 0, until the
        first cycle that exhausts it. cycles[i] is what the clock showed for failed cycle i; healthy[i] says
        that it established and then stayed up for 30 s; waits[i] is the wait after it, in milliseconds. How
        long a failure took plays no part, and nothing else ends the loop. */
    method RunSubscription(maxReconnects: nat, budget: nat)
      returns (exhausted: bool, cycles: seq<Cycle>, healthy: seq<bool>, waits: seq<int>)
      requires Valid() && sys.reader.phase.Disconnected? && !sys.reader.polling
      modifies this
      ensures Valid() && Ahead(old(sys), sys) && sys.reader.phase == Closed
      ensures old(clock) + Readings(cycles) <= clock && |clock| <= |old(clock) + Readings(cycles)| + 1
      ensures exhausted ==> clock == old(clock) + Readings(cycles)
      ensures |healthy| == failures - old(failures) && cancels == old(cancels) + if exhausted then 0 else 1
      ensures Timed(cycles, healthy)
      ensures |waits| == |healthy| - (if exhausted then 1 else 0)
      ensures exhausted ==> healthy != [] && Exhausts(healthy, maxReconnects, |healthy| - 1)
      ensures forall i | 0 <= i < |waits| :: !Exhausts(healthy, maxReconnects, i)
      ensures forall i | 0 <= i < |waits| :: waits[i] == Min(100 * Pow2(Outage(healthy, i)), 5000)
    {
      hide Leads, Start, Readings, Outage, Exhausts, Pow2;
      cycles, healthy, waits := [], [], [];
      var left, backoff, reconnects := budget, INITIAL_BACKOFF, 0;
      NoReadings(clock);
      KeptAtStart(maxReconnects);
      while true
        invariant Valid() && Ahead(old(sys), sys) && sys.reader.phase.Disconnected? && !sys.reader.polling
        invariant Kept(healthy, waits, maxReconnects, reconnects, backoff)
        invariant clock == old(clock) + Readings(cycles) && Timed(cycles, healthy)
        invariant failures == old(failures) + |healthy| && cancels == old(cancels)
        decreases left
      {
        var r, established;
        r, established, left := ListenAndTail(left);
        if r == Cancelled {
          Perform(Close);
          return false, cycles, healthy, waits;
        }
        var h, cycle := JudgeCycle(established);
        KeptAfterFailure(healthy, waits, maxReconnects, reconnects, backoff, h);
        ReadingsSnoc(cycles, cycle);
        if h {
          reconnects, backoff := 0, INITIAL_BACKOFF;
        }
        cycles, healthy := cycles + [cycle], healthy + [h];
        if maxReconnects > 0 && reconnects >= maxReconnects {
          Perform(Close);
          return true, cycles, healthy, waits;
        }
        waits := waits + [backoff];
        reconnects := reconnects + 1;
        backoff := Min(backoff * 2, MAX_BACKOFF);
      }
    }

    /** One turn of pollLoop: a failed poll changes nothing but is over; a successful one drains
        full pages, and then everything committed before the turn has been sent. */
    method Poll(budget: nat) returns (r: Outcome, left: nat)
      requires Valid() && sys.reader.phase.Loading? && sys.reader.polling
      modifies this`sys, this`did, this`drains, this`failures, this`cancels
      ensures Valid() && Ahead(old(sys), sys) && left <= budget
      ensures if r == Cancelled then left == 0 else left < budget
      ensures failures == old(failures) + if r == Failed then 1 else 0
      ensures cancels == old(cancels) + if r == Cancelled then 1 else 0
      ensures r == Cancelled ==> !sys.reader.phase.Closed?
      ensures r != Cancelled ==> sys.reader.phase == Waiting
      ensures r == Done ==> Delivered(old(sys.store.log), sys.reader)
    {
      r, left := CatchUp(budget);
      if r == Failed { Perform(PollFails); }
    }

    /** pollLoop: polls until the context is cancelled. */
    method PollLoop(budget: nat) returns (failedPolls: nat)
      requires Valid() && sys.reader.phase.Loading? && sys.reader.polling
      modifies this`sys, this`did, this`drains, this`failures, this`cancels
      ensures Valid() && Ahead(old(sys), sys) && sys.reader.phase == Closed
      ensures failedPolls == failures - old(failures) && cancels == old(cancels) + 1
      ensures Exactly(sys.reader.sent, sys.store.log, sys.reader.from, sys.reader.cursor)
    {
      var left := budget;
      failedPolls := 0;
      while true
        invariant Valid() && Ahead(old(sys), sys) && sys.reader.phase.Loading? && sys.reader.polling
        invariant failedPolls == failures - old(failures) && cancels == old(cancels)
        decreases left
      {
        var r;
        r, left := Poll(left);
        if r == Cancelled {
          Perform(Close);
          Reachable();
          return;
        }
        if r == Failed {
          failedPolls := failedPolls + 1;
        }
        Interfere();
        Perform(Tick);
      }
    }
  }
}
