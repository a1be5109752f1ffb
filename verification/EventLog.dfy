/**
 The append-only event table and the transactions that append to it
 (mysql/eventstore.go, postgres/eventstore.go), as a state machine whose steps
 are single SQL statements of interleaved transactions.

 A row's global position is assigned when the row is inserted and becomes
 visible only when its transaction commits; a rollback burns positions.
 */
module EventLog {
  import opened Common

  /** contractKey: the generated column of migration 009, the idempotency key of a created contract. */
  datatype Event = Event(
    id: string, stream: string, kind: string, version: int,
    occurredAt: int, data: string, contractKey: Option<string>, position: int)

  /** One call of Append: the batch is non-empty (an empty one returns at once). */
  datatype Call = Call(stream: string, events: seq<Event>, expected: int)

  datatype Pc =
    | Idle
    | Locking(call: Call)
    | Counting(call: Call)
    | Inserting(call: Call, i: nat)

  /** snapshot: number of rows committed when the transaction began; a stale COUNT sees no fewer.
      accepted: calls of this transaction that returned without error. */
  datatype Tx = Tx(snapshot: nat, pending: seq<Event>, accepted: seq<Call>, pc: Pc)

  /** log: committed rows in commit order; calls: accepted calls of committed transactions. */
  datatype Store = Store(
    log: seq<Event>, next: int, lock: Option<nat>, txs: map<nat, Tx>, calls: seq<Call>)

  const EMPTY := Store([], 1, None, map[], [])

  // ---- what the statements read ----

  /** SELECT COUNT(*) FROM events WHERE stream_id = ? */
  function CountOf(rows: seq<Event>, stream: string): nat {
    if rows == [] then 0
    else CountOf(Init(rows), stream) + (if Last(rows).stream == stream then 1 else 0)
  }

  /** The batch is stamped expected+1, expected+2, ... */
  predicate Contiguous(c: Call) {
    forall i | 0 <= i < |c.events| :: c.events[i].version == c.expected + i + 1
  }

  predicate VersionTaken(rows: seq<Event>, stream: string, version: int) {
    exists i | 0 <= i < |rows| :: rows[i].stream == stream && rows[i].version == version
  }

  predicate IdTaken(rows: seq<Event>, id: string) {
    exists i | 0 <= i < |rows| :: rows[i].id == id
  }

  predicate ContractKeyTaken(rows: seq<Event>, key: Option<string>) {
    key.Some? && exists i | 0 <= i < |rows| :: rows[i].contractKey == key
  }

  datatype Index = EventId | StreamVersion | ContractKey

  /** The unique index an INSERT of the row would violate, in the order the indexes are looked at. */
  function ClashOf(rows: seq<Event>, row: Event): Option<Index> {
    if IdTaken(rows, row.id) then Some(EventId)
    else if VersionTaken(rows, row.stream, row.version) then Some(StreamVersion)
    else if ContractKeyTaken(rows, row.contractKey) then Some(ContractKey)
    else None
  }

  /** The row INSERTed for event i: stream and version come from the call, not from the event. */
  function RowOf(c: Call, i: nat, position: int): Event
    requires i < |c.events|
  {
    c.events[i].(stream := c.stream, version := c.expected + i + 1, position := position)
  }

  // ---- steps ----

  datatype Action =
    | Begin(t: nat)
    | StartAppend(t: nat, call: Call)
    | TakeLock(t: nat)
    | CountRows(t: nat, seen: nat)
    | InsertRow(t: nat)
    | EndAppend(t: nat)
    | GiveUp(t: nat)
    | Commit(t: nat)
    | Rollback(t: nat)
    | BurnPosition

  /** When a step can happen. A call can fail at any statement (GiveUp). A transaction commits
      only between calls of Append; it can be rolled back (or lose its connection) at any point. */
  predicate Enabled(s: Store, a: Action) {
    match a
    case Begin(t) => t !in s.txs
    case StartAppend(t, c) => t in s.txs && s.txs[t].pc.Idle? && c.events != []
    case TakeLock(t) => t in s.txs && s.txs[t].pc.Locking? && (s.lock == None || s.lock == Some(t))
    case CountRows(t, seen) => t in s.txs && s.txs[t].pc.Counting? && s.txs[t].snapshot <= seen <= |s.log|
    case InsertRow(t) => t in s.txs && s.txs[t].pc.Inserting? && s.txs[t].pc.i < |s.txs[t].pc.call.events|
    case EndAppend(t) => t in s.txs && s.txs[t].pc.Inserting? && s.txs[t].pc.i == |s.txs[t].pc.call.events|
    case GiveUp(t) => t in s.txs
    case Commit(t) => t in s.txs && s.txs[t].pc.Idle?
    case Rollback(t) => t in s.txs
    case BurnPosition => true
  }

  function Release(s: Store, t: nat): Option<nat> {
    if s.lock == Some(t) then None else s.lock
  }

  /** The transaction after an INSERT. A clash fails the statement, and the call, but still burns a position. */
  function InsertedTx(x: Tx, log: seq<Event>, next: int): Tx
    requires x.pc.Inserting? && x.pc.i < |x.pc.call.events|
  {
    var row := RowOf(x.pc.call, x.pc.i, next);
    if ClashOf(log + x.pending, row).Some? then x.(pc := Idle)
    else x.(pending := x.pending + [row], pc := Inserting(x.pc.call, x.pc.i + 1))
  }

  function After(s: Store, a: Action): Store
    requires Enabled(s, a)
  {
    match a
    case Begin(t) => s.(txs := s.txs[t := Tx(|s.log|, [], [], Idle)])
    case StartAppend(t, c) => s.(txs := s.txs[t := s.txs[t].(pc := Locking(c))])
    case TakeLock(t) =>
      s.(lock := Some(t), txs := s.txs[t := s.txs[t].(pc := Counting(s.txs[t].pc.call))])
    case CountRows(t, seen) =>
      // The COUNT sees a snapshot of the committed rows and the transaction's own rows.
      var x := s.txs[t];
      var c := x.pc.call;
      var count := CountOf(s.log[..seen], c.stream) + CountOf(x.pending, c.stream);
      var pc' := if count == c.expected && Contiguous(c) then Inserting(c, 0) else Idle;
      s.(txs := s.txs[t := x.(pc := pc')])
    case InsertRow(t) => s.(next := s.next + 1, txs := s.txs[t := InsertedTx(s.txs[t], s.log, s.next)])
    case EndAppend(t) =>
      var x := s.txs[t];
      s.(txs := s.txs[t := x.(accepted := x.accepted + [x.pc.call], pc := Idle)])
    case GiveUp(t) => s.(txs := s.txs[t := s.txs[t].(pc := Idle)])
    case Commit(t) =>
      var x := s.txs[t];
      Store(s.log + x.pending, s.next, Release(s, t), s.txs - {t}, s.calls + x.accepted)
    case Rollback(t) =>
      s.(lock := Release(s, t), txs := s.txs - {t})
    case BurnPosition => s.(next := s.next + 1)
  }

  // ---- the invariant ----

  ghost predicate Increasing(rows: seq<Event>) {
    forall i, j | 0 <= i < j < |rows| :: rows[i].position < rows[j].position
  }

  ghost predicate Below(rows: seq<Event>, p: int) {
    forall i | 0 <= i < |rows| :: 0 < rows[i].position < p
  }

  function Init(rows: seq<Event>): seq<Event>
    requires rows != []
  {
    rows[..|rows| - 1]
  }

  function Last(rows: seq<Event>): Event
    requires rows != []
  {
    rows[|rows| - 1]
  }

  /** Every row's version is one more than the number of earlier rows of its stream. */
  ghost predicate Numbered(rows: seq<Event>) {
    rows != [] ==>
      && Numbered(Init(rows))
      && Last(rows).version == CountOf(Init(rows), Last(rows).stream) + 1
  }

  /** Every call's first version is in the rows, and no two calls claim the same one. */
  ghost predicate CallsOk(calls: seq<Call>, rows: seq<Event>) {
    && (forall i | 0 <= i < |calls| :: calls[i].expected < CountOf(rows, calls[i].stream))
    && (forall i, j | 0 <= i < j < |calls| ::
          calls[i].stream == calls[j].stream ==> calls[i].expected != calls[j].expected)
  }

  /** No event id and no contract key twice. */
  ghost predicate Distinct(rows: seq<Event>) {
    forall i, j | 0 <= i < j < |rows| ::
      rows[i].id != rows[j].id && (rows[j].contractKey.Some? ==> rows[i].contractKey != rows[j].contractKey)
  }

  ghost predicate RowsOk(rows: seq<Event>, next: int, calls: seq<Call>) {
    Increasing(rows) && Below(rows, next) && Numbered(rows) && Distinct(rows) && CallsOk(calls, rows)
  }

  /** Where a call stands. Before the first INSERT the COUNT may have been stale (too low);
      after it, the count is exact and every earlier call of the stream claimed a lower version. */
  ghost predicate PcOk(pc: Pc, rows: seq<Event>, calls: seq<Call>) {
    && (pc.Idle? || pc.call.events != [])
    && (pc.Inserting? ==>
      && pc.i <= |pc.call.events| && Contiguous(pc.call)
      && 0 <= pc.call.expected <= CountOf(rows, pc.call.stream)
      && (pc.i > 0 ==>
            && CountOf(rows, pc.call.stream) == pc.call.expected + pc.i
            && (forall k | 0 <= k < |calls| ::
                  calls[k].stream == pc.call.stream ==> calls[k].expected < pc.call.expected)))
  }

  ghost predicate TxOk(s: Store, t: nat)
    requires t in s.txs
  {
    var x := s.txs[t];
    && x.snapshot <= |s.log|
    && (s.lock == Some(t) || (x.pending == [] && x.accepted == [] && (x.pc.Idle? || x.pc.Locking?)))
    && RowsOk(s.log + x.pending, s.next, s.calls + x.accepted)
    && PcOk(x.pc, s.log + x.pending, s.calls + x.accepted)
  }

  ghost predicate Inv(s: Store) {
    && RowsOk(s.log, s.next, s.calls)
    && (forall t | t in s.txs :: TxOk(s, t))
  }

  // ---- counting lemmas ----

  lemma CountSnoc(rows: seq<Event>, e: Event, stream: string)
    ensures CountOf(rows + [e], stream) == CountOf(rows, stream) + (if e.stream == stream then 1 else 0)
  {
    assert (rows + [e])[..|rows|] == rows;
  }

  lemma {:induction false} CountConcat(a: seq<Event>, b: seq<Event>, stream: string)
    ensures CountOf(a + b, stream) == CountOf(a, stream) + CountOf(b, stream)
  {
    if b == [] {
      assert a + b == a;
    } else {
      var b' := b[..|b| - 1];
      CountConcat(a, b', stream);
      assert a + b == (a + b') + [b[|b| - 1]];
      CountSnoc(a + b', b[|b| - 1], stream);
    }
  }

  lemma CountPrefix(rows: seq<Event>, k: nat, stream: string)
    requires k <= |rows|
    ensures CountOf(rows[..k], stream) <= CountOf(rows, stream)
  {
    CountConcat(rows[..k], rows[k..], stream);
    assert rows == rows[..k] + rows[k..];
  }

  lemma TakenSnoc(rows: seq<Event>, e: Event, stream: string, v: int)
    ensures VersionTaken(rows + [e], stream, v)
       <==> VersionTaken(rows, stream, v) || (e.stream == stream && e.version == v)
  {
    var rows' := rows + [e];
    if VersionTaken(rows, stream, v) {
      var i :| 0 <= i < |rows| && rows[i].stream == stream && rows[i].version == v;
      assert rows'[i] == rows[i];
    }
    if e.stream == stream && e.version == v {
      assert rows'[|rows|] == e;
    }
  }

  /** In numbered rows the versions of a stream are exactly 1..n. */
  lemma {:induction false} VersionsAreOneToN(rows: seq<Event>, stream: string, v: int)
    requires Numbered(rows)
    ensures VersionTaken(rows, stream, v) <==> 1 <= v <= CountOf(rows, stream)
  {
    if rows != [] {
      VersionsAreOneToN(Init(rows), stream, v);
      TakenSnoc(Init(rows), Last(rows), stream, v);
      assert rows == Init(rows) + [Last(rows)];
    }
  }

  // ---- every step keeps the invariant ----

  lemma PositionsSnoc(rows: seq<Event>, next: int, row: Event)
    requires Increasing(rows) && Below(rows, next) && row.position == next > 0
    ensures Increasing(rows + [row]) && Below(rows + [row], next + 1)
  {
  }

  lemma DistinctSnoc(rows: seq<Event>, row: Event)
    requires Distinct(rows) && !IdTaken(rows, row.id) && !ContractKeyTaken(rows, row.contractKey)
    ensures Distinct(rows + [row])
  {
    var rows' := rows + [row];
    forall i, j | 0 <= i < j < |rows'|
      ensures rows'[i].id != rows'[j].id
      ensures rows'[j].contractKey.Some? ==> rows'[i].contractKey != rows'[j].contractKey
    {
      assert rows'[i] == rows[i];
    }
  }

  lemma CallsSnoc(rows: seq<Event>, calls: seq<Call>, row: Event)
    requires CallsOk(calls, rows)
    ensures CallsOk(calls, rows + [row])
  {
    forall i | 0 <= i < |calls| ensures calls[i].expected < CountOf(rows + [row], calls[i].stream) {
      CountSnoc(rows, row, calls[i].stream);
    }
  }

  lemma RowsSnoc(rows: seq<Event>, next: int, calls: seq<Call>, row: Event)
    requires RowsOk(rows, next, calls) && row.position == next > 0
    requires row.version == CountOf(rows, row.stream) + 1 && ClashOf(rows, row).None?
    ensures RowsOk(rows + [row], next + 1, calls)
  {
    assert Init(rows + [row]) == rows;
    assert Numbered(rows + [row]);
    PositionsSnoc(rows, next, row);
    DistinctSnoc(rows, row);
    CallsSnoc(rows, calls, row);
  }

  /** A burnt position. */
  lemma RowsNext(rows: seq<Event>, next: int, calls: seq<Call>)
    requires RowsOk(rows, next, calls)
    ensures RowsOk(rows, next + 1, calls)
  {
  }

  /** A stale COUNT can only be too low, so the first INSERT hits UNIQUE(stream_id, version)
      exactly when the COUNT was stale, and a later INSERT of the batch never does. */
  lemma ClashOnlyWhenStale(rows: seq<Event>, calls: seq<Call>, pc: Pc)
    requires Numbered(rows) && pc.Inserting? && PcOk(pc, rows, calls) && pc.i < |pc.call.events|
    ensures VersionTaken(rows, pc.call.stream, pc.call.expected + pc.i + 1)
       <==> CountOf(rows, pc.call.stream) != pc.call.expected + pc.i
    ensures VersionTaken(rows, pc.call.stream, pc.call.expected + pc.i + 1) ==> pc.i == 0
  {
    VersionsAreOneToN(rows, pc.call.stream, pc.call.expected + pc.i + 1);
  }

  /** A row that clashes with nothing takes the call one step further. */
  lemma InsertAdvances(rows: seq<Event>, next: int, calls: seq<Call>, pc: Pc)
    requires RowsOk(rows, next, calls) && PcOk(pc, rows, calls) && 0 < next
    requires pc.Inserting? && pc.i < |pc.call.events|
    requires ClashOf(rows, RowOf(pc.call, pc.i, next)).None?
    ensures var row := RowOf(pc.call, pc.i, next);
            && RowsOk(rows + [row], next + 1, calls)
            && PcOk(Inserting(pc.call, pc.i + 1), rows + [row], calls)
  {
    var row := RowOf(pc.call, pc.i, next);
    ClashOnlyWhenStale(rows, calls, pc);
    RowsSnoc(rows, next, calls, row);
    CountSnoc(rows, row, pc.call.stream);
    forall k | 0 <= k < |calls| && calls[k].stream == pc.call.stream
      ensures calls[k].expected < pc.call.expected
    {
      assert calls[k].expected < CountOf(rows, calls[k].stream);
    }
  }

  lemma InsertKeepsTx(s: Store, t: nat)
    requires Inv(s) && 0 < s.next && Enabled(s, InsertRow(t))
    ensures TxOk(After(s, InsertRow(t)), t)
  {
    assert TxOk(s, t);
    hide RowsOk, PcOk, InsertedTx;
    InsertKeepsRows(s.txs[t], s.log, s.next, s.calls);
  }

  lemma InsertKeepsRows(x: Tx, log: seq<Event>, next: int, calls: seq<Call>)
    requires x.pc.Inserting? && x.pc.i < |x.pc.call.events| && 0 < next
    requires RowsOk(log + x.pending, next, calls + x.accepted) && PcOk(x.pc, log + x.pending, calls + x.accepted)
    ensures var x' := InsertedTx(x, log, next);
            && x'.snapshot == x.snapshot && x'.accepted == x.accepted
            && RowsOk(log + x'.pending, next + 1, calls + x'.accepted)
            && PcOk(x'.pc, log + x'.pending, calls + x'.accepted)
  {
    var rows, row := log + x.pending, RowOf(x.pc.call, x.pc.i, next);
    assert PcOk(Idle, rows, calls + x.accepted);
    hide RowsOk, PcOk, ClashOf;
    assert log + (x.pending + [row]) == rows + [row];
    RowsNext(rows, next, calls + x.accepted);
    if ClashOf(rows, row).None? {
      InsertAdvances(rows, next, calls + x.accepted, x.pc);
    }
  }

  lemma CountKeepsTx(s: Store, t: nat, seen: nat)
    requires Inv(s) && Enabled(s, CountRows(t, seen))
    ensures TxOk(After(s, CountRows(t, seen)), t)
  {
    var x := s.txs[t];
    CountPrefix(s.log, seen, x.pc.call.stream);
    CountConcat(s.log, x.pending, x.pc.call.stream);
    assert x.pc.Counting?;
  }

  lemma EndClaims(rows: seq<Event>, next: int, calls: seq<Call>, pc: Pc)
    requires RowsOk(rows, next, calls) && PcOk(pc, rows, calls)
    requires pc.Inserting? && pc.i == |pc.call.events|
    ensures RowsOk(rows, next, calls + [pc.call])
  {
    hide Increasing, Below, Numbered, Distinct, CountOf;
  }

  lemma EndKeepsTx(s: Store, t: nat)
    requires Inv(s) && Enabled(s, EndAppend(t))
    ensures TxOk(After(s, EndAppend(t)), t)
  {
    var x := s.txs[t];
    assert TxOk(s, t);
    assert s.calls + (x.accepted + [x.pc.call]) == (s.calls + x.accepted) + [x.pc.call];
    hide RowsOk;
    EndClaims(s.log + x.pending, s.next, s.calls + x.accepted, x.pc);
  }

  lemma OthersKeepTx(s: Store, a: Action, u: nat)
    requires Inv(s) && Enabled(s, a) && u in s.txs && u in After(s, a).txs
    requires After(s, a).txs[u] == s.txs[u]
    ensures TxOk(After(s, a), u)
  {
    assert TxOk(s, u);
    if a.Commit? {
      var x := s.txs[a.t];
      assert TxOk(s, a.t);
      if s.lock == Some(a.t) {
        assert s.txs[u].pending == [] && s.txs[u].accepted == [];
        assert s.log + x.pending + [] == s.log + x.pending;
        assert s.calls + x.accepted + [] == s.calls + x.accepted;
      } else {
        assert s.log + [] == s.log && s.calls + [] == s.calls;
      }
    }
  }

  /** The steps that only move a transaction from one place in the code to another. */
  lemma MoveKeepsTx(s: Store, a: Action)
    requires Inv(s) && Enabled(s, a) && (a.Begin? || a.StartAppend? || a.TakeLock? || a.GiveUp?)
    ensures TxOk(After(s, a), a.t)
  {
    if a.Begin? {
      BeginsOk(s, a.t);
    } else {
      assert TxOk(s, a.t);
      hide RowsOk;
    }
  }

  lemma BeginsOk(s: Store, t: nat)
    requires Inv(s) && Enabled(s, Begin(t))
    ensures TxOk(After(s, Begin(t)), t)
  {
    hide RowsOk;
    assert s.log + [] == s.log && s.calls + [] == s.calls;
  }

  lemma LogStaysOk(s: Store, a: Action)
    requires Inv(s) && 0 < s.next && Enabled(s, a)
    ensures var s' := After(s, a); RowsOk(s'.log, s'.next, s'.calls) && 0 < s'.next && s.log <= s'.log
  {
    if a.Commit? { assert TxOk(s, a.t); }
    RowsNext(s.log, s.next, s.calls);
    hide RowsOk;
  }

  lemma StepKeepsTx(s: Store, a: Action, u: nat)
    requires Inv(s) && 0 < s.next && Enabled(s, a) && u in After(s, a).txs
    ensures TxOk(After(s, a), u)
  {
    hide TxOk, RowsOk, InsertedTx, Contiguous, CountOf;
    if u in s.txs && After(s, a).txs[u] == s.txs[u] {
      OthersKeepTx(s, a, u);
    } else {
      match a
      case CountRows(t, seen) => CountKeepsTx(s, t, seen);
      case InsertRow(t) => InsertKeepsTx(s, t);
      case EndAppend(t) => EndKeepsTx(s, t);
      case _ => MoveKeepsTx(s, a);
    }
  }

  lemma StepKeepsInv(s: Store, a: Action)
    requires Inv(s) && 0 < s.next && Enabled(s, a)
    ensures Inv(After(s, a)) && 0 < After(s, a).next
    ensures s.log <= After(s, a).log
  {
    LogStaysOk(s, a);
    hide After, Enabled, TxOk, RowsOk;
    forall u | u in After(s, a).txs ensures TxOk(After(s, a), u) {
      StepKeepsTx(s, a, u);
    }
  }
}
