/**
 A subscription tailing the event table while transactions append to it:
 postgres/eventstore.go runSubscription, listenAndTail and catchUp (LISTEN/NOTIFY),
 and mysql/eventstore.go pollLoop (polling). Every step of the reader interleaves
 freely with every step of the appending transactions.
 */
module Tailing {
  import opened Common
  import opened EventLog
  import opened Pages

  /** Sending: the rest of a loaded page; full: the page was as long as its LIMIT. */
  datatype Phase =
    | Disconnected
    | Acquired
    | Loading
    | Sending(page: seq<Event>, full: bool)
    | Waiting
    | Closed

  /** queued: notifications delivered to this connection and not yet consumed. */
  datatype Reader = Reader(
    polling: bool, batch: nat, from: int, cursor: int, sent: seq<Event>,
    phase: Phase, listening: bool, queued: nat)

  datatype Sys = Sys(store: Store, reader: Reader)

  datatype Step =
    | Db(a: Action)
    | Acquire
    | Listen
    | Load(page: seq<Event>)
    | Send
    | PageDone
    | Notified
    | Tick
    | PollFails
    | Break
    | Close

  ghost predicate CanStep(s: Sys, b: Step) {
    var r := s.reader;
    match b
    case Db(a) => Enabled(s.store, a)
    case Acquire => r.phase.Disconnected?
    case Listen => r.phase.Acquired?
    case Load(page) => r.phase.Loading? && IsPage(page, s.store.log, r.cursor, r.batch)
    case Send => r.phase.Sending? && r.phase.page != []
    case PageDone => r.phase.Sending? && r.phase.page == []
    case Notified => r.phase.Waiting? && r.listening && r.queued > 0
    case Tick => r.phase.Waiting? && r.polling
    case PollFails => r.phase.Loading? && r.polling
    case Break => !r.polling && !r.phase.Closed?
    case Close => !r.phase.Closed?
  }

  /** A commit of new rows queues one notification on a connection that is LISTENing. */
  function Notify(s: Store, a: Action, r: Reader): Reader
    requires Enabled(s, a)
  {
    if a.Commit? && s.txs[a.t].pending != [] && r.listening then r.(queued := r.queued + 1) else r
  }

  function Moved(s: Sys, b: Step): Sys
    requires CanStep(s, b)
  {
    var r := s.reader;
    match b
    case Db(a) => Sys(After(s.store, a), Notify(s.store, a, r))
    case Acquire => s.(reader := r.(phase := Acquired))
    case Listen => s.(reader := r.(phase := Loading, listening := true, queued := 0))
    case Load(page) => s.(reader := r.(phase := Sending(page, r.batch > 0 && |page| == r.batch)))
    case Send =>
      var e := r.phase.page[0];
      s.(reader := r.(sent := r.sent + [e], cursor := e.position, phase := r.phase.(page := r.phase.page[1..])))
    case PageDone => s.(reader := r.(phase := if r.phase.full then Loading else Waiting))
    case Notified => s.(reader := r.(queued := r.queued - 1, phase := Loading))
    case Tick => s.(reader := r.(phase := Loading))
    case PollFails => s.(reader := r.(phase := Waiting))
    case Break => s.(reader := r.(phase := Disconnected, listening := false, queued := 0))
    case Close => s.(reader := r.(phase := Closed, listening := false, queued := 0))
  }

  /** sent is exactly the rows with from < position <= cursor, in position order. */
  ghost predicate Exactly(sent: seq<Event>, log: seq<Event>, from: int, cursor: int) {
    && Increasing(sent)
    && (forall e :: e in sent <==> e in log && from < e.position <= cursor)
  }

  ghost predicate AtRow(log: seq<Event>, from: int, cursor: int) {
    from <= cursor && (cursor == from || exists e :: e in log && e.position == cursor)
  }

  /** What is left of a page is the next visible rows; rows it lacks come later, and are
      announced: the page was full, a notification is queued, or the next poll will see them. */
  ghost predicate PageOk(page: seq<Event>, announced: bool, log: seq<Event>, cursor: int) {
    && Increasing(page)
    && (forall e | e in page :: e in log && cursor < e.position)
    && (forall e, p | e in log && cursor < e.position && e !in page && p in page :: p.position < e.position)
    && (forall e | e in log && cursor < e.position && e !in page :: announced)
  }

  ghost predicate ReaderOk(log: seq<Event>, r: Reader) {
    && Exactly(r.sent, log, r.from, r.cursor)
    && AtRow(log, r.from, r.cursor)
    && (r.phase.Sending? ==> PageOk(r.phase.page, r.phase.full || r.queued > 0 || r.polling, log, r.cursor))
    && (!r.polling && (r.phase.Loading? || r.phase.Sending? || r.phase.Waiting?) ==> r.listening)
    && (!r.polling && r.phase.Waiting? && r.queued == 0 ==> forall e | e in log :: e.position <= r.cursor)
  }

  ghost predicate SysInv(s: Sys) {
    Inv(s.store) && 0 < s.store.next && ReaderOk(s.store.log, s.reader)
  }

  // ---- every step keeps the invariant ----

  /** Rows that become visible lie above every row already visible: commit order is position order. */
  lemma NewRowsLieAbove(s: Store, a: Action, e: Event, old_: Event)
    requires Inv(s) && 0 < s.next && Enabled(s, a)
    requires old_ in s.log && e in After(s, a).log && e !in s.log
    ensures old_.position < e.position
  {
    StepKeepsInv(s, a);
    var log' := After(s, a).log;
    var i :| 0 <= i < |s.log| && s.log[i] == old_;
    var j :| 0 <= j < |log'| && log'[j] == e;
    assert log'[i] == old_;
    if j < |s.log| { assert s.log[j] == e; }
  }

  ghost predicate GrowsAbove(log: seq<Event>, log': seq<Event>) {
    && (forall e | e in log :: e in log')
    && (forall e, o | e in log' && e !in log && o in log :: o.position < e.position)
  }

  lemma StepGrowsAbove(s: Store, a: Action)
    requires Inv(s) && 0 < s.next && Enabled(s, a)
    ensures GrowsAbove(s.log, After(s, a).log)
  {
    var log' := After(s, a).log;
    StepKeepsInv(s, a);
    forall e | e in s.log ensures e in log' {
      var i :| 0 <= i < |s.log| && s.log[i] == e;
      assert log'[i] == e;
    }
    forall e, o | e in log' && e !in s.log && o in s.log ensures o.position < e.position {
      NewRowsLieAbove(s, a, e, o);
    }
  }

  lemma GrowthKeepsExactly(sent: seq<Event>, log: seq<Event>, log': seq<Event>, from: int, cursor: int)
    requires GrowsAbove(log, log') && AtRow(log, from, cursor) && Exactly(sent, log, from, cursor)
    ensures AtRow(log', from, cursor) && Exactly(sent, log', from, cursor)
  {
    if cursor != from {
      var o :| o in log && o.position == cursor;
      assert o in log';
      forall e ensures e in sent <==> e in log' && from < e.position <= cursor {
        if e in log' && e !in log { assert o.position < e.position; }
      }
    }
  }

  lemma GrowthKeepsPage(page: seq<Event>, announced: bool, announced': bool,
                        log: seq<Event>, log': seq<Event>, cursor: int)
    requires GrowsAbove(log, log') && PageOk(page, announced, log, cursor)
    requires announced ==> announced'
    requires (exists e :: e in log' && e !in log) ==> announced'
    ensures PageOk(page, announced', log', cursor)
  {
  }

  lemma CommitKeepsReader(s: Sys, a: Action)
    requires SysInv(s) && Enabled(s.store, a)
    ensures ReaderOk(After(s.store, a).log, Notify(s.store, a, s.reader))
  {
    var log, log' := s.store.log, After(s.store, a).log;
    var r, r' := s.reader, Notify(s.store, a, s.reader);
    StepGrowsAbove(s.store, a);
    GrowthKeepsExactly(r.sent, log, log', r.from, r.cursor);
    if r.phase.Sending? {
      GrowthKeepsPage(r.phase.page, r.phase.full || r.queued > 0 || r.polling,
                      r.phase.full || r'.queued > 0 || r.polling, log, log', r.cursor);
    }
  }

  lemma PageSplit(page: seq<Event>, e: Event)
    requires page != []
    ensures e in page <==> e == page[0] || e in page[1..]
  {
    assert page == [page[0]] + page[1..];
  }

  lemma SendKeepsExactly(sent: seq<Event>, page: seq<Event>, announced: bool, log: seq<Event>, from: int, cursor: int)
    requires AtRow(log, from, cursor) && Exactly(sent, log, from, cursor)
    requires page != [] && PageOk(page, announced, log, cursor)
    requires Increasing(log)
    ensures cursor < page[0].position
    ensures AtRow(log, from, page[0].position)
    ensures Exactly(sent + [page[0]], log, from, page[0].position)
  {
    var e0 := page[0];
    assert e0 in page;
    forall e | e in page ensures e == e0 || e0.position < e.position {
      var i :| 0 <= i < |page| && page[i] == e;
    }
    forall i | 0 <= i < |sent| ensures sent[i].position < e0.position {
      assert sent[i] in sent;
    }
  }

  lemma SendKeepsPage(page: seq<Event>, announced: bool, log: seq<Event>, cursor: int)
    requires page != [] && PageOk(page, announced, log, cursor)
    ensures PageOk(page[1..], announced, log, page[0].position)
  {
    var e0 := page[0];
    forall e | e in page[1..] ensures e in log && e0.position < e.position {
      var i :| 0 <= i < |page| - 1 && page[1..][i] == e;
      assert page[i + 1] == e && e in page;
    }
    forall e | e in log && e0.position < e.position && e !in page[1..]
      ensures announced && forall p | p in page[1..] :: p.position < e.position
    {
      PageSplit(page, e);
      assert e0 in page;
      forall p | p in page[1..] ensures p.position < e.position { PageSplit(page, p); }
    }
  }

  lemma SendKeepsReader(s: Sys)
    requires SysInv(s) && CanStep(s, Send)
    ensures ReaderOk(s.store.log, Moved(s, Send).reader)
    ensures s.reader.cursor < Moved(s, Send).reader.cursor
  {
    var r := s.reader;
    var announced := r.phase.full || r.queued > 0 || r.polling;
    SendKeepsExactly(r.sent, r.phase.page, announced, s.store.log, r.from, r.cursor);
    SendKeepsPage(r.phase.page, announced, s.store.log, r.cursor);
  }

  lemma StepKeepsSys(s: Sys, b: Step)
    requires SysInv(s) && CanStep(s, b)
    ensures SysInv(Moved(s, b)) && s.store.log <= Moved(s, b).store.log
  {
    match b
    case Db(a) =>
      StepKeepsInv(s.store, a);
      CommitKeepsReader(s, a);
    case Send => SendKeepsReader(s);
    case _ =>
  }

  lemma StepOnlySends(s: Sys, b: Step)
    requires SysInv(s) && CanStep(s, b)
    ensures s.reader.sent <= Moved(s, b).reader.sent && s.reader.cursor <= Moved(s, b).reader.cursor
  {
    if b.Send? { SendKeepsReader(s); }
  }

  // ---- runs ----

  ghost predicate Start(s: Sys) {
    && s.store == EMPTY
    && s.reader.sent == [] && s.reader.cursor == s.reader.from
    && !s.reader.listening && s.reader.queued == 0
    && s.reader.phase == (if s.reader.polling then Loading else Disconnected)
  }

  /** steps lead from the first state of run to the last one. */
  ghost predicate IsRun(run: seq<Sys>, steps: seq<Step>) {
    && |run| == |steps| + 1
    && Start(run[0])
    && (forall i | 0 <= i < |steps| :: CanStep(run[i], steps[i]) && run[i + 1] == Moved(run[i], steps[i]))
  }

  lemma {:induction false} RunKeepsInv(run: seq<Sys>, steps: seq<Step>, i: nat)
    requires IsRun(run, steps) && i < |run|
    ensures SysInv(run[i])
  {
    if i > 0 {
      RunKeepsInv(run, steps, i - 1);
      StepKeepsSys(run[i - 1], steps[i - 1]);
    }
  }

  lemma {:induction false} LogOnlyGrows(run: seq<Sys>, steps: seq<Step>, i: nat, j: nat)
    requires IsRun(run, steps) && i <= j < |run|
    ensures run[i].store.log <= run[j].store.log
  {
    hide Moved, CanStep, SysInv, Start;
    if i < j {
      LogOnlyGrows(run, steps, i, j - 1);
      RunKeepsInv(run, steps, j - 1);
      StepKeepsSys(run[j - 1], steps[j - 1]);
    }
  }

  /** Over every run, an event that becomes visible later has a higher position than every
      event visible earlier. */
  lemma CommitOrderIsPositionOrder(run: seq<Sys>, steps: seq<Step>, i: nat, j: nat, old_: Event, e: Event)
    requires IsRun(run, steps) && i <= j < |run|
    requires old_ in run[i].store.log && e in run[j].store.log && e !in run[i].store.log
    ensures old_.position < e.position
  {
    LogOnlyGrows(run, steps, i, j);
    RunKeepsInv(run, steps, j);
    var a, b := run[i].store.log, run[j].store.log;
    forall m | 0 <= m < |a| ensures b[m] in a {
      assert b[m] == a[m];
    }
    var k :| 0 <= k < |a| && a[k] == old_;
    var l :| 0 <= l < |b| && b[l] == e;
    assert b[k] == old_;
  }

  /** Over every run, what a subscription has sent is exactly the committed events in its
      window, in order, without gap or duplicate. */
  lemma SubscriptionIsGapFree(run: seq<Sys>, steps: seq<Step>, i: nat)
    requires IsRun(run, steps) && i < |run|
    ensures Exactly(run[i].reader.sent, run[i].store.log, run[i].reader.from, run[i].reader.cursor)
  {
    RunKeepsInv(run, steps, i);
  }

  /** Whenever the LISTENing subscription waits, a notification is queued or every committed
      event past its start has been sent. */
  lemma WaitingMeansCaughtUp(run: seq<Sys>, steps: seq<Step>, i: nat)
    requires IsRun(run, steps) && i < |run|
    requires run[i].reader.phase.Waiting? && !run[i].reader.polling
    ensures run[i].reader.listening
    ensures run[i].reader.queued > 0
         || forall e | e in run[i].store.log && run[i].reader.from < e.position :: e in run[i].reader.sent
  {
    RunKeepsInv(run, steps, i);
  }

  /** The cursor never moves back and nothing sent is ever taken back, across any number of
      broken connections. */
  lemma {:induction false} SentOnlyGrows(run: seq<Sys>, steps: seq<Step>, i: nat, j: nat)
    requires IsRun(run, steps) && i <= j < |run|
    ensures run[i].reader.sent <= run[j].reader.sent
    ensures run[i].reader.cursor <= run[j].reader.cursor
  {
    if i < j {
      SentOnlyGrows(run, steps, i, j - 1);
      RunKeepsInv(run, steps, j - 1);
      StepOnlySends(run[j - 1], steps[j - 1]);
    }
  }

  // ---- the store's own guarantees over every run ----

  /** In every reachable state a stream's committed versions are exactly 1..n, stale COUNTs included. */
  lemma StreamVersionsAreOneToN(run: seq<Sys>, steps: seq<Step>, i: nat, stream: string, v: int)
    requires IsRun(run, steps) && i < |run|
    ensures VersionTaken(run[i].store.log, stream, v) <==> 1 <= v <= CountOf(run[i].store.log, stream)
  {
    RunKeepsInv(run, steps, i);
    VersionsAreOneToN(run[i].store.log, stream, v);
  }

  /** In every reachable state no event is committed twice, and no two contracts were created with the
      same idempotency key. */
  lemma EventsAndContractKeysAreUnique(run: seq<Sys>, steps: seq<Step>, i: nat, j: nat, k: nat)
    requires IsRun(run, steps) && i < |run|
    requires j < k < |run[i].store.log|
    ensures run[i].store.log[j].id != run[i].store.log[k].id
    ensures run[i].store.log[k].contractKey.Some? ==>
              run[i].store.log[j].contractKey != run[i].store.log[k].contractKey
  {
    RunKeepsInv(run, steps, i);
  }

  /** Of all the calls of Append with one stream and expected version, at most one is committed. */
  lemma OneWinnerPerExpectedVersion(run: seq<Sys>, steps: seq<Step>, i: nat, j: nat, k: nat)
    requires IsRun(run, steps) && i < |run|
    requires j < k < |run[i].store.calls|
    ensures (run[i].store.calls[j].stream, run[i].store.calls[j].expected)
         != (run[i].store.calls[k].stream, run[i].store.calls[k].expected)
  {
    RunKeepsInv(run, steps, i);
  }
}
