/**
 EventStore.Append (mysql/eventstore.go, postgres/eventstore.go): the statements of one
 append, with the steps of all other transactions in between. Every object of class Database
 is always in a reachable state of the machine in module EventLog.
 */
module Append {
  import opened Common
  import opened DuplicateKey
  import opened EventLog

  datatype AppendResult =
    | Appended
    | VersionConflict
    | ValidationError
    | DuplicateEventId(index: nat)
    | ContractKeyConflict(index: nat)
    | CommitFailed
    | Unavailable

  /** The actions lead from one state to the other. */
  ghost predicate Follows(s: Store, acts: seq<Action>, s': Store)
    decreases |acts|
  {
    if acts == [] then s == s'
    else Enabled(s, acts[0]) && Follows(After(s, acts[0]), acts[1..], s')
  }

  function Actor(a: Action): Option<nat> {
    if a.BurnPosition? then None else Some(a.t)
  }

  ghost predicate ByOthers(acts: seq<Action>, t: nat) {
    forall i | 0 <= i < |acts| :: Actor(acts[i]) != Some(t)
  }

  lemma {:induction false} FollowsSnoc(s: Store, acts: seq<Action>, s': Store, a: Action)
    requires Follows(s, acts, s') && Enabled(s', a)
    ensures Follows(s, acts + [a], After(s', a))
    decreases |acts|
  {
    if acts == [] {
      assert ([a])[1..] == [];
    } else {
      FollowsSnoc(After(s, acts[0]), acts[1..], s', a);
      assert (acts + [a])[1..] == acts[1..] + [a];
    }
  }

  lemma {:induction false} FollowsKeepsInv(s: Store, acts: seq<Action>, s': Store)
    requires Inv(s) && 0 < s.next && Follows(s, acts, s')
    ensures Inv(s') && 0 < s'.next && s.log <= s'.log
    decreases |acts|
  {
    if acts != [] {
      StepKeepsInv(s, acts[0]);
      FollowsKeepsInv(After(s, acts[0]), acts[1..], s');
    }
  }

  lemma OtherStepCannotInterfere(s: Store, a: Action, t: nat)
    requires Inv(s) && 0 < s.next && Enabled(s, a) && Actor(a) != Some(t) && t in s.txs
    ensures t in After(s, a).txs && After(s, a).txs[t] == s.txs[t]
    ensures s.lock == Some(t) ==>
              After(s, a).lock == Some(t) && After(s, a).log == s.log && After(s, a).calls == s.calls
  {
    if s.lock == Some(t) && a.Commit? {
      assert TxOk(s, a.t);
    }
  }

  /** Other transactions never touch this one, and while it holds the append lock they
      cannot make any row visible. */
  lemma {:induction false} OthersCannotInterfere(s: Store, acts: seq<Action>, s': Store, t: nat)
    requires Inv(s) && 0 < s.next && Follows(s, acts, s') && ByOthers(acts, t) && t in s.txs
    ensures t in s'.txs && s'.txs[t] == s.txs[t]
    ensures s.lock == Some(t) ==> s'.lock == Some(t) && s'.log == s.log && s'.calls == s.calls
    decreases |acts|
  {
    if acts != [] {
      assert Actor(acts[0]) != Some(t);
      assert ByOthers(acts[1..], t);
      StepKeepsInv(s, acts[0]);
      OtherStepCannotInterfere(s, acts[0], t);
      OthersCannotInterfere(After(s, acts[0]), acts[1..], s', t);
    }
  }

  /** rows are the first rows of the batch, wherever their positions fell. */
  ghost predicate Stamped(rows: seq<Event>, c: Call) {
    |rows| <= |c.events| && forall i | 0 <= i < |rows| :: StampedAs(rows[i], c, i)
  }

  /** The row of event i of the batch: the event's own columns, under the stream and version of the call. */
  predicate StampedAs(row: Event, c: Call, i: nat) {
    i < |c.events| &&
    var e := c.events[i];
    && row.id == e.id && row.kind == e.kind && row.occurredAt == e.occurredAt && row.data == e.data
    && row.contractKey == e.contractKey
    && row.stream == c.stream && row.version == c.expected + i + 1
  }

  // ---- which error a failed INSERT is taken for ----

  function Digits(n: nat): (s: string)
    ensures forall i | 0 <= i < |s| :: '0' <= s[i] <= '9'
  {
    if n < 10 then [('0' as int + n) as char] else Digits(n / 10) + [('0' as int + n % 10) as char]
  }

  function VersionText(v: int): string { if v < 0 then "-" + Digits(-v) else Digits(v) }

  function KeyText(row: Event): string { if row.contractKey.Some? then row.contractKey.value else "" }

  /** What MySQL says of a violated index of the events table. */
  function ClashMessage(x: Index, row: Event): string
  {
    match x
    case EventId => Message(row.id, "events.uq_event_id")
    case StreamVersion => Message(row.stream + ['-'] + VersionText(row.version), "events.uq_stream_version")
    case ContractKey => Message(KeyText(row), "events.ux_contract_idempotency_key")
  }

  /** The tests of mysql/eventstore.go on the message, in their order. */
  function Classified(message: string, k: nat): AppendResult {
    if DupEntryOnKey(message, "uq_event_id") then DuplicateEventId(k)
    else if DupEntryOnKey(message, "uq_stream_version") then VersionConflict
    else if DupEntryOnKey(message, "ux_contract_idempotency_key") then ContractKeyConflict(k)
    else Unavailable
  }

  /** What the adapter reports. PostgreSQL names the constraint in a field of its own (a duplicate event id
      is a plain error there); in MySQL a stream id or an idempotency key can pass for another index. */
  function Reported(mysql: bool, x: Index, row: Event, k: nat): (r: AppendResult)
    ensures r.DuplicateEventId? || r.VersionConflict? || r.ContractKeyConflict?
  {
    match x
    case EventId => DuplicateEventId(k)
    case StreamVersion =>
      if mysql && Contains(row.stream, "uq_event_id") then DuplicateEventId(k) else VersionConflict
    case ContractKey =>
      if mysql && Contains(KeyText(row), "uq_event_id") then DuplicateEventId(k)
      else if mysql && Contains(KeyText(row), "uq_stream_version") then VersionConflict
      else ContractKeyConflict(k)
  }

  /** PostgreSQL's constraint name is taken for what it says. */
  lemma ConstraintNameIsRight(row: Event, k: nat)
    ensures Reported(false, StreamVersion, row, k) == VersionConflict
    ensures Reported(false, ContractKey, row, k) == ContractKeyConflict(k)
    ensures Reported(false, EventId, row, k) == DuplicateEventId(k)
  {
  }

  lemma EventIndexNames()
    ensures Contains("events.uq_event_id", "uq_event_id")
    ensures Contains("events.uq_stream_version", "uq_stream_version")
    ensures Contains("events.ux_contract_idempotency_key", "ux_contract_idempotency_key")
  {
    hide Contains;
    assert "events." + "uq_event_id" == "events.uq_event_id";
    EndContains("events.", "uq_event_id");
    assert "events." + "uq_stream_version" == "events.uq_stream_version";
    EndContains("events.", "uq_stream_version");
    assert "events." + "ux_contract_idempotency_key" == "events.ux_contract_idempotency_key";
    EndContains("events.", "ux_contract_idempotency_key");
  }

  lemma OtherIndexNames()
    ensures !Contains("events.uq_stream_version", "uq_event_id")
    ensures !Contains("events.ux_contract_idempotency_key", "uq_event_id")
    ensures !Contains("events.ux_contract_idempotency_key", "uq_stream_version")
  {
    hide Contains;
    NoPairNoOccurrence("events.uq_stream_version", "uq_event_id", 3);
    NoPairNoOccurrence("events.ux_contract_idempotency_key", "uq_event_id", 0);
    NoPairNoOccurrence("events.ux_contract_idempotency_key", "uq_stream_version", 0);
  }

  /** In MySQL the index is read correctly, except exactly that a stream id containing uq_event_id turns a
      version conflict into a duplicate event id, and an idempotency key containing the name of another
      index turns its clash into that one's. */
  lemma ClashReadFromMessage(x: Index, row: Event, k: nat)
    ensures Classified(ClashMessage(x, row), k) == Reported(true, x, row, k)
  {
    hide Contains, DupEntryOnKey, Message;
    EventIndexNames();
    OtherIndexNames();
    match x
    case EventId =>
      ReadsValueToo(row.id, "events.uq_event_id", "uq_event_id");
    case StreamVersion =>
      var value := row.stream + ['-'] + VersionText(row.version);
      ReadsValueToo(value, "events.uq_stream_version", "uq_event_id");
      ReadsValueToo(value, "events.uq_stream_version", "uq_stream_version");
      ContainsAround(row.stream, '-', VersionText(row.version), "uq_event_id");
      NoFirstLetterNoOccurrence(VersionText(row.version), "uq_event_id");
    case ContractKey =>
      var value, index := KeyText(row), "events.ux_contract_idempotency_key";
      ReadsValueToo(value, index, "uq_event_id");
      ReadsValueToo(value, index, "uq_stream_version");
      ReadsValueToo(value, index, "ux_contract_idempotency_key");
  }

  /** What stopped a batch: nothing, or the violated index and the event. */
  datatype Clash = NoClash | ClashOn(x: Index, k: nat, row: Event)

  /** How many rows of the batch are left in the transaction. */
  function RowsLeft(r: AppendResult, clash: Clash, n: nat): nat {
    if r == Appended then n else if clash.ClashOn? then clash.k else 0
  }

  /** x is the first unique index that the row would violate. */
  predicate Violates(rows: seq<Event>, row: Event, x: Index) {
    match x
    case EventId => IdTaken(rows, row.id)
    case StreamVersion => !IdTaken(rows, row.id) && VersionTaken(rows, row.stream, row.version)
    case ContractKey =>
      && !IdTaken(rows, row.id) && !VersionTaken(rows, row.stream, row.version)
      && ContractKeyTaken(rows, row.contractKey)
  }

  predicate Free(rows: seq<Event>, row: Event) {
    !IdTaken(rows, row.id) && !VersionTaken(rows, row.stream, row.version) && !ContractKeyTaken(rows, row.contractKey)
  }

  /** The clash is a true one. The rows are the visible ones and the transaction's own. */
  ghost predicate ClashOk(clash: Clash, rows: seq<Event>, c: Call) {
    clash.ClashOn? ==>
      && clash.k < |c.events| && StampedAs(clash.row, c, clash.k) && Violates(rows, clash.row, clash.x)
      && (clash.x == StreamVersion ==> clash.k == 0 && CountOf(rows, c.stream) != c.expected)
  }

  /** What the COUNT of a transaction gives when it sees the first `seen` committed rows. */
  function CountSeen(log: seq<Event>, seen: nat, pending: seq<Event>, stream: string): nat
    requires seen <= |log|
  {
    CountOf(log[..seen], stream) + CountOf(pending, stream)
  }

  /** The stream was not at the expected version at some moment since the snapshot was taken. */
  ghost predicate NotAt(log: seq<Event>, snapshot: nat, pending: seq<Event>, stream: string, expected: int) {
    exists seen: nat | snapshot <= seen <= |log| :: CountSeen(log, seen, pending, stream) != expected
  }

  /** What an INSERT of the batch can clash with: the version index exactly when the stream is not where the
      call takes it to be, and then only at the first event. */
  lemma ClashFacts(s: Store, t: nat)
    requires EventLog.Inv(s) && Enabled(s, InsertRow(t))
    ensures var x := s.txs[t];
            var rows, row := s.log + x.pending, RowOf(x.pc.call, x.pc.i, s.next);
            var stale := CountOf(rows, x.pc.call.stream) != x.pc.call.expected + x.pc.i;
            && StampedAs(row, x.pc.call, x.pc.i)
            && (ClashOf(rows, row).None? ==> Free(rows, row) && !stale)
            && (ClashOf(rows, row).Some? ==>
                  && Violates(rows, row, ClashOf(rows, row).value)
                  && (ClashOf(rows, row) == Some(StreamVersion) ==> stale && x.pc.i == 0))
  {
    var x := s.txs[t];
    assert TxOk(s, t);
    ClashOnlyWhenStale(s.log + x.pending, s.calls + x.accepted, x.pc);
    hide CountOf, IdTaken, VersionTaken, ContractKeyTaken;
  }

  class Database {
    const mysql: bool
    var store: Store
    ghost var did: seq<Action>

    ghost predicate Valid()
      reads this
    {
      Follows(EMPTY, did, store)
    }

    /** A valid database is in a reachable state, so the invariant holds. */
    lemma Reachable()
      requires Valid()
      ensures Inv(store) && 0 < store.next
    {
      FollowsKeepsInv(EMPTY, did, store);
    }

    constructor (mysql: bool)
      ensures Valid() && store == EMPTY && this.mysql == mysql
    {
      this.mysql := mysql;
      store, did := EMPTY, [];
    }

    method Perform(a: Action)
      requires Valid() && Enabled(store, a)
      modifies this
      ensures Valid() && store == After(old(store), a) && did == old(did) + [a]
    {
      FollowsSnoc(EMPTY, did, store, a);
      store, did := After(store, a), did + [a];
    }

    /** Any number of steps of other transactions. Callers rely on the contract alone. */
    method Others(t: nat) returns (ghost acts: seq<Action>)
      requires Valid()
      modifies this
      ensures Valid() && did == old(did) + acts && ByOthers(acts, t) && Follows(old(store), acts, store)
    {
      acts := [];
    }

    /** Others, seen from a transaction t that is open. */
    method Interfere(t: nat)
      requires Valid() && t in store.txs
      modifies this
      ensures Valid() && multiset(did)[Commit(t)] == old(multiset(did)[Commit(t)])
      ensures t in store.txs && store.txs[t] == old(store.txs[t])
      ensures old(store.log) <= store.log
      ensures old(store.lock) == Some(t) ==> store.lock == Some(t) && store.log == old(store.log)
    {
      ghost var s := store;
      Reachable();
      ghost var acts := Others(t);
      OthersCannotInterfere(s, acts, store, t);
      FollowsKeepsInv(s, acts, store);
    }

    /** One INSERT of the loop in appendOn: the row is added unless it clashes with a unique index, and
        the error is what the adapter takes the clash for. */
    method InsertOne(t: nat) returns (r: AppendResult, ghost row: Event, ghost clash: Clash)
      requires Valid() && t in store.txs && store.lock == Some(t)
      requires store.txs[t].pc.Inserting? && store.txs[t].pc.i < |store.txs[t].pc.call.events|
      modifies this
      ensures Valid() && multiset(did)[Commit(t)] == old(multiset(did)[Commit(t)])
      ensures store.log == old(store.log) && store.lock == Some(t) && t in store.txs
      ensures var pc, pending := old(store.txs[t].pc), old(store.txs[t].pending);
              var stale := CountOf(store.log + pending, pc.call.stream) != pc.call.expected + pc.i;
              && StampedAs(row, pc.call, pc.i)
              && (clash.NoClash? ==>
                    && r == Appended && !stale && Free(store.log + pending, row)
                    && store.txs[t].pc == Inserting(pc.call, pc.i + 1) && store.txs[t].pending == pending + [row])
              && (clash.ClashOn? ==>
                    && Violates(store.log + pending, row, clash.x)
                    && clash.k == pc.i && clash.row == row && r == Reported(mysql, clash.x, row, pc.i)
                    && (clash.x == StreamVersion ==> stale && pc.i == 0)
                    && store.txs[t].pc == Idle && store.txs[t].pending == pending)
    {
      hide Inv, TxOk, Follows, Reported, Classified, ClashMessage, ClashOf, StampedAs, Violates, Free, RowOf;
      Interfere(t);
      Reachable();
      ClashFacts(store, t);
      var x := store.txs[t];
      var i := x.pc.i;
      var inserted := RowOf(x.pc.call, i, store.next);
      row := inserted;
      var violated := ClashOf(store.log + x.pending, inserted);
      Perform(InsertRow(t));
      if violated.None? {
        return Appended, row, NoClash;
      }
      if mysql {
        ClashReadFromMessage(violated.value, inserted, i);
        r := Classified(ClashMessage(violated.value, inserted), i);
      } else {
        r := Reported(false, violated.value, inserted, i);
      }
      clash := ClashOn(violated.value, i, row);
    }

    /** The INSERT loop of appendOn. rows is what the batch leaves in the transaction. */
    method InsertRows(t: nat, c: Call) returns (r: AppendResult, ghost rows: seq<Event>, ghost clash: Clash)
      requires Valid() && t in store.txs && store.txs[t].pc == Inserting(c, 0) && store.lock == Some(t)
      requires c.events != []
      modifies this
      ensures Valid() && multiset(did)[Commit(t)] == old(multiset(did)[Commit(t)])
      ensures store.log == old(store.log) && store.lock == Some(t) && t in store.txs
      ensures store.txs[t].pc == if clash.NoClash? then Inserting(c, |c.events|) else Idle
      ensures store.txs[t].pending == old(store.txs[t].pending) + rows
      ensures Stamped(rows, c) && |rows| == if clash.NoClash? then |c.events| else clash.k
      ensures ClashOk(clash, store.log + store.txs[t].pending, c)
      ensures clash.NoClash? ==> r == Appended && CountOf(store.log + old(store.txs[t].pending), c.stream) == c.expected
      ensures clash.ClashOn? ==> r == Reported(mysql, clash.x, clash.row, clash.k)
    {
      hide After, Enabled, Follows, Contiguous, Reported, StampedAs, Violates, Free, CountOf;
      ghost var before := store.txs[t].pending;
      rows := [];
      assert before + [] == before;
      var i := 0;
      while i < |c.events|
        invariant 0 <= i <= |c.events|
        invariant Valid() && multiset(did)[Commit(t)] == old(multiset(did)[Commit(t)])
        invariant store.log == old(store.log) && store.lock == Some(t)
        invariant t in store.txs && store.txs[t].pc == Inserting(c, i)
        invariant store.txs[t].pending == before + rows && |rows| == i && Stamped(rows, c)
        invariant i > 0 ==> CountOf(store.log + before, c.stream) == c.expected
      {
        ghost var row;
        r, row, clash := InsertOne(t);
        if r != Appended {
          return;
        }
        assert before + rows + [row] == before + (rows + [row]);
        rows := rows + [row];
        i := i + 1;
      }
      r, clash := Appended, NoClash;
    }

    /** The append lock; it can be refused (timeout, deadlock) while another transaction has it. */
    method AcquireLock(t: nat, c: Call) returns (ok: bool)
      requires Valid() && t in store.txs && store.txs[t].pc.Idle? && c.events != []
      modifies this
      ensures Valid() && multiset(did)[Commit(t)] == old(multiset(did)[Commit(t)])
      ensures t in store.txs && store.txs[t] == old(store.txs[t]).(pc := if ok then Counting(c) else Idle)
      ensures old(store.log) <= store.log
      ensures ok ==> store.lock == Some(t)
    {
      Perform(StartAppend(t, c));
      Interfere(t);
      ok := store.lock == None || store.lock == Some(t);
      if ok {
        Perform(TakeLock(t));
      } else {
        Perform(GiveUp(t));
      }
    }

    /** The optimistic check: the COUNT, from any snapshot the isolation level allows, and the
        stamps of the batch. r == Appended says that the checks pass. */
    method CheckVersions(t: nat, c: Call) returns (r: AppendResult, ghost seen: nat)
      requires Valid() && t in store.txs && store.txs[t].pc == Counting(c) && store.lock == Some(t)
      modifies this
      ensures Valid() && multiset(did)[Commit(t)] == old(multiset(did)[Commit(t)])
      ensures t in store.txs && store.log == old(store.log) && store.lock == Some(t)
      ensures store.txs[t] == old(store.txs[t]).(pc := if r == Appended then Inserting(c, 0) else Idle)
      ensures store.txs[t].snapshot <= seen <= |store.log|
      ensures var matches := CountSeen(store.log, seen, store.txs[t].pending, c.stream) == c.expected;
              r == if !matches then VersionConflict else if Contiguous(c) then Appended else ValidationError
    {
      hide Follows, RowsOk, PcOk, ClashOf, CountOf;
      Interfere(t);
      Reachable();
      assert TxOk(store, t);
      var n: nat :| store.txs[t].snapshot <= n <= |store.log|;
      seen := n;
      var current := CountSeen(store.log, n, store.txs[t].pending, c.stream);
      Perform(CountRows(t, n));
      if current != c.expected {
        return VersionConflict, seen;
      }
      for i := 0 to |c.events|
        invariant forall k | 0 <= k < i :: c.events[k].version == c.expected + k + 1
      {
        if c.events[i].version != c.expected + i + 1 {
          return ValidationError, seen;
        }
      }
      return Appended, seen;
    }

    /** appendOn / appendInTx. The batch is non-empty; its transaction t is open and idle. On
        success the rows are the transaction's own, numbered from expected+1 whatever the events'
        stream fields say. A version conflict found by the COUNT or a bad stamp adds no row at all; a clash
        at event k leaves the k rows before it, and a clash on the version is always at the first. */
    method AppendOn(t: nat, stream: string, events: seq<Event>, expected: int)
      returns (r: AppendResult, ghost rows: seq<Event>, ghost clash: Clash)
      requires Valid() && t in store.txs && store.txs[t].pc.Idle? && events != []
      modifies this
      ensures Valid() && multiset(did)[Commit(t)] == old(multiset(did)[Commit(t)])
      ensures t in store.txs && store.txs[t].pc.Idle? && old(store.log) <= store.log
      ensures store.txs[t].pending == old(store.txs[t].pending) + rows
      ensures Stamped(rows, Call(stream, events, expected)) && |rows| == RowsLeft(r, clash, |events|)
      ensures ClashOk(clash, store.log + store.txs[t].pending, Call(stream, events, expected))
      ensures clash.ClashOn? ==> r == Reported(mysql, clash.x, clash.row, clash.k)
      ensures clash.NoClash? ==> r == Appended || r == VersionConflict || r == ValidationError || r == Unavailable
      ensures r == Appended ==>
                && store.lock == Some(t) && (forall i | 0 <= i < |events| :: events[i].version == expected + i + 1)
                && CountOf(store.log + old(store.txs[t].pending), stream) == expected
      ensures r == ValidationError ==> exists i | 0 <= i < |events| :: events[i].version != expected + i + 1
      ensures (clash.NoClash? && r == VersionConflict) || (clash.ClashOn? && clash.x == StreamVersion) ==>
                NotAt(store.log, old(store.txs[t].snapshot), old(store.txs[t].pending), stream, expected)
    {
      hide Reported;
      var c := Call(stream, events, expected);
      rows, clash := [], NoClash;
      assert store.txs[t].pending + [] == store.txs[t].pending;
      var locked := AcquireLock(t, c);
      if !locked {
        return Unavailable, rows, clash;
      }
      ghost var seen;
      r, seen := CheckVersions(t, c);
      if r != Appended {
        return;
      }
      ghost var pending := store.txs[t].pending;
      r, rows, clash := InsertRows(t, c);
      if r == Appended {
        Perform(EndAppend(t));
      } else if clash.x == StreamVersion {
        CountConcat(store.log, pending, stream);
        assert rows == [] && pending + [] == pending == old(store.txs[t].pending);
        assert store.log[..|store.log|] == store.log;
        assert CountSeen(store.log, |store.log|, pending, stream) != expected;
      }
    }

    /** Append without an ambient transaction: begin, append, then commit or roll back. A rejected
        batch leaves no event behind; an accepted one is visible as a block of consecutive rows. After a
        failed COMMIT it is one or the other: the answer alone may have been lost. */
    method AppendInOwnTx(t: nat, stream: string, events: seq<Event>, expected: int)
      returns (r: AppendResult, ghost rows: seq<Event>, ghost clash: Clash, ghost committed: bool)
      requires Valid() && t !in store.txs
      modifies this
      ensures Valid() && t !in store.txs && old(store.log) <= store.log
      ensures (clash.NoClash? && r == VersionConflict) || (clash.ClashOn? && clash.x == StreamVersion) ==>
                NotAt(store.log, |old(store.log)|, [], stream, expected)
      ensures clash.ClashOn? ==> r == Reported(mysql, clash.x, clash.row, clash.k)
      ensures multiset(did)[Commit(t)] == old(multiset(did)[Commit(t)]) + if committed then 1 else 0
      ensures committed ==> r == Appended || r == CommitFailed
      ensures r == Appended ==> (committed <==> events != [])
      ensures committed || r == Appended ==>
                && Stamped(rows, Call(stream, events, expected)) && |rows| == |events|
                && (forall i | 0 <= i < |events| :: events[i].version == expected + i + 1)
                && exists before :: old(store.log) <= before && store.log == before + rows
                                    && (events != [] ==> CountOf(before, stream) == expected)
    {
      hide Reported, ClashOk, InsertedTx, RowOf, CountOf;
      rows, clash, committed := [], NoClash, false;
      if events == [] {
        assert store.log == store.log + rows;
        return Appended, rows, clash, committed;
      }
      Perform(Begin(t));
      assert store.txs[t].pending == [];
      r, rows, clash := AppendOn(t, stream, events, expected);
      if r != Appended {
        Perform(Rollback(t));
        return;
      }
      if * {
        Perform(Rollback(t)); // the commit failed
        return CommitFailed, rows, clash, committed;
      }
      ghost var before := store.log;
      assert before + [] == before && [] + rows == rows;
      Perform(Commit(t));
      assert store.log == before + rows;
      committed := true;
      if * {
        r := CommitFailed; // only its answer was lost
      }
    }
  }
}
