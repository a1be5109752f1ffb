/**
 Saving a payment: MySQLPaymentRepository.Save (mysql/payment_repo.go) and
 PostgresPaymentRepository.Save (postgres/payment_repo.go). The table has two unique keys, the id and
 the idempotency key; other writers may change it between the statements of one save.
 */
module PaymentRepo {
  import opened Common
  import opened DuplicateKey

  /** body stands for the columns no rule looks at. */
  datatype Row = Row(invoice: string, key: Option<string>, body: string, lockVersion: int)

  type Table = map<string, Row>

  /** What ToSnapshot gives; an empty key is stored as NULL. */
  datatype Snapshot = Snapshot(id: string, invoice: string, key: string, body: string, version: int)

  function KeyOf(s: Snapshot): Option<string> { if s.key == "" then None else Some(s.key) }

  function RowOf(s: Snapshot): Row { Row(s.invoice, KeyOf(s), s.body, s.version) }

  /** Another payment than id holds the key. */
  predicate KeyTaken(t: Table, id: string, key: Option<string>) {
    key.Some? && exists other | other in t :: other != id && t[other].key == key
  }

  ghost predicate KeysUnique(t: Table) {
    forall id | id in t :: !KeyTaken(t, id, t[id].key)
  }

  // ---- the table over every run of writers ----

  /** A statement that took effect: an INSERT, or an UPDATE that found the lock version it expected. */
  datatype Write = InsertRow(id: string, row: Row) | UpdateRow(id: string, row: Row, expected: int)

  ghost predicate Allowed(t: Table, w: Write) {
    && !KeyTaken(t, w.id, w.row.key)
    && match w
       case InsertRow(id, _) => id !in t
       case UpdateRow(id, _, expected) => id in t && t[id].lockVersion == expected
  }

  ghost predicate Follows(t: Table, ws: seq<Write>, t': Table)
    decreases |ws|
  {
    if ws == [] then t == t'
    else Allowed(t, ws[0]) && Follows(t[ws[0].id := ws[0].row], ws[1..], t')
  }

  lemma WriteKeepsKeysUnique(t: Table, w: Write)
    requires KeysUnique(t) && Allowed(t, w)
    ensures KeysUnique(t[w.id := w.row])
  {
    var t' := t[w.id := w.row];
    forall id | id in t' ensures !KeyTaken(t', id, t'[id].key) {
      if id != w.id && t[id].key.Some? {
        assert !KeyTaken(t, id, t[id].key);
        forall other | other in t' && other != id ensures t'[other].key != t[id].key {
          if other == w.id { assert id in t; }
        }
      }
    }
  }

  /** In every reachable table a non-empty idempotency key has at most one row, and a row once there stays. */
  lemma {:induction false} KeysStayUnique(t: Table, ws: seq<Write>, t': Table)
    requires KeysUnique(t) && Follows(t, ws, t')
    ensures KeysUnique(t') && t.Keys <= t'.Keys
    decreases |ws|
  {
    if ws != [] {
      WriteKeepsKeysUnique(t, ws[0]);
      KeysStayUnique(t[ws[0].id := ws[0].row], ws[1..], t');
    }
  }

  lemma {:induction false} FollowsSnoc(t: Table, ws: seq<Write>, t': Table, w: Write)
    requires Follows(t, ws, t') && Allowed(t', w)
    ensures Follows(t, ws + [w], t'[w.id := w.row])
    decreases |ws|
  {
    if ws == [] {
      assert ([w])[1..] == [];
    } else {
      FollowsSnoc(t[ws[0].id := ws[0].row], ws[1..], t', w);
      assert (ws + [w])[1..] == ws[1..] + [w];
    }
  }

  lemma {:induction false} FollowsConcat(t: Table, a: seq<Write>, t': Table, b: seq<Write>, t'': Table)
    requires Follows(t, a, t') && Follows(t', b, t'')
    ensures Follows(t, a + b, t'')
    decreases |a|
  {
    if a == [] {
      assert [] + b == b;
    } else {
      FollowsConcat(t[a[0].id := a[0].row], a[1..], t', b, t'');
      assert (a + b)[1..] == a[1..] + b;
    }
  }

  /** The domain never lowers a payment's version. */
  ghost predicate VersionsNeverFall(ws: seq<Write>) {
    forall i | 0 <= i < |ws| && ws[i].UpdateRow? :: ws[i].expected <= ws[i].row.lockVersion
  }

  lemma TailNeverFalls(ws: seq<Write>)
    requires VersionsNeverFall(ws) && ws != []
    ensures VersionsNeverFall(ws[1..])
  {
    assert forall i | 0 <= i < |ws[1..]| :: ws[1..][i] == ws[i + 1];
  }

  lemma {:induction false} ExpectedAtLeast(t: Table, ws: seq<Write>, t': Table, id: string, j: nat)
    requires Follows(t, ws, t') && VersionsNeverFall(ws) && id in t
    requires j < |ws| && ws[j].UpdateRow? && ws[j].id == id
    ensures t[id].lockVersion <= ws[j].expected
    decreases |ws|
  {
    if j > 0 {
      var t1 := t[ws[0].id := ws[0].row];
      TailNeverFalls(ws);
      assert t[id].lockVersion <= t1[id].lockVersion;
      ExpectedAtLeast(t1, ws[1..], t', id, j - 1);
    }
  }

  /** Of all the updates of one payment that were computed from the same stored version, over every run of
      writers, one that raises the version is the last to take effect: two refunds recorded at the same time
      are never both booked. */
  lemma {:induction false} OneUpdatePerVersion(t: Table, ws: seq<Write>, t': Table, i: nat, j: nat)
    requires Follows(t, ws, t') && VersionsNeverFall(ws) && i < j < |ws|
    requires ws[i].UpdateRow? && ws[j].UpdateRow? && ws[i].id == ws[j].id
    requires ws[i].row.lockVersion > ws[i].expected
    ensures ws[j].expected != ws[i].expected
    decreases |ws|
  {
    var t1 := t[ws[0].id := ws[0].row];
    TailNeverFalls(ws);
    if i == 0 {
      ExpectedAtLeast(t1, ws[1..], t', ws[0].id, j - 1);
    } else {
      OneUpdatePerVersion(t1, ws[1..], t', i - 1, j - 1);
    }
  }

  // ---- what a save does ----

  datatype Verdict = Saved | VersionConflict | DuplicateIdempotencyKey

  /** The rule: an existing row may be replaced only when it still has the version the payment was
      loaded at, and no other payment may hold the key. */
  function Rule(t: Table, s: Snapshot, loaded: int): Verdict {
    if s.id in t && t[s.id].lockVersion != loaded then VersionConflict
    else if KeyTaken(t, s.id, KeyOf(s)) then DuplicateIdempotencyKey
    else Saved
  }

  /** The clash on the id is taken for one on the key, because the name is looked for in the whole message. */
  predicate Misread(t: Table, s: Snapshot) { s.id in t && Contains(s.id, "idempotency_key") }

  function MySQLVerdict(t: Table, s: Snapshot, loaded: int): Verdict {
    if Misread(t, s) then DuplicateIdempotencyKey else Rule(t, s, loaded)
  }

  function MySQLTable(t: Table, s: Snapshot, loaded: int): Table {
    if MySQLVerdict(t, s, loaded) == Saved then t[s.id := RowOf(s)] else t
  }

  /** DO UPDATE leaves invoice_id and idempotency_key alone, so only an INSERT can clash on the key. */
  function PostgresVerdict(t: Table, s: Snapshot, loaded: int): Verdict {
    if s.id in t
    then if t[s.id].lockVersion != loaded then VersionConflict else Saved
    else if KeyTaken(t, s.id, KeyOf(s)) then DuplicateIdempotencyKey else Saved
  }

  function PostgresTable(t: Table, s: Snapshot, loaded: int): Table {
    if PostgresVerdict(t, s, loaded) != Saved then t
    else if s.id in t then t[s.id := t[s.id].(body := s.body, lockVersion := s.version)]
    else t[s.id := RowOf(s)]
  }

  /** Duplicate is reported only when another payment holds the key; the exact exception of MySQL is a
      row whose own id contains the name of the index. */
  lemma DuplicateMeansAnotherHolder(t: Table, s: Snapshot, loaded: int)
    ensures PostgresVerdict(t, s, loaded) == DuplicateIdempotencyKey ==> KeyTaken(t, s.id, KeyOf(s))
    ensures !Misread(t, s) && MySQLVerdict(t, s, loaded) == DuplicateIdempotencyKey ==> KeyTaken(t, s.id, KeyOf(s))
    ensures s.id !in t ==> MySQLVerdict(t, s, loaded) == PostgresVerdict(t, s, loaded)
                        == if KeyTaken(t, s.id, KeyOf(s)) then DuplicateIdempotencyKey else Saved
  {
  }

  /** Saving a stored payment again under its own key never reports a duplicate: always in Postgres,
      and in MySQL if and only if the id does not contain the name of the index. */
  lemma OwnKeyIsNoDuplicate(t: Table, s: Snapshot, loaded: int)
    requires KeysUnique(t) && s.id in t && t[s.id].key == KeyOf(s)
    ensures PostgresVerdict(t, s, loaded) != DuplicateIdempotencyKey
    ensures MySQLVerdict(t, s, loaded) != DuplicateIdempotencyKey <==> !Contains(s.id, "idempotency_key")
  {
    assert !KeyTaken(t, s.id, t[s.id].key);
  }

  /** Such an id: the payment can be created once and never updated. */
  lemma MisreadId(body: string, version: int)
    ensures var s := Snapshot("pay-idempotency_key-1", "inv-1", "", body, version);
            MySQLVerdict(map[], s, 0) == Saved
            && MySQLVerdict(map[s.id := RowOf(s)], s, version) == DuplicateIdempotencyKey
            && PostgresVerdict(map[s.id := RowOf(s)], s, version) == Saved
  {
    assert OccursAt("pay-idempotency_key-1", "idempotency_key", 4);
  }

  /** The two adapters do the same exactly when the payment is new, or stale, or keeps its invoice and
      key, and its id is not misread. */
  lemma AdaptersAgree(t: Table, s: Snapshot, loaded: int)
    requires KeysUnique(t)
    ensures MySQLVerdict(t, s, loaded) == PostgresVerdict(t, s, loaded)
            && MySQLTable(t, s, loaded) == PostgresTable(t, s, loaded)
       <==> (s.id in t ==>
               && !Contains(s.id, "idempotency_key")
               && (t[s.id].lockVersion == loaded ==> t[s.id].invoice == s.invoice && t[s.id].key == KeyOf(s)))
  {
    if s.id in t {
      assert !KeyTaken(t, s.id, t[s.id].key);
      var r, q := RowOf(s), t[s.id].(body := s.body, lockVersion := s.version);
      assert t[s.id := r][s.id] == r && t[s.id := q][s.id] == q;
    }
  }

  lemma IndexNames()
    ensures !Contains("payments.PRIMARY", "idempotency_key") && Contains("payments.PRIMARY", "PRIMARY")
    ensures Contains("payments.idempotency_key", "idempotency_key")
  {
    NoPairNoOccurrence("payments.PRIMARY", "idempotency_key", 0);
    assert OccursAt("payments.PRIMARY", "PRIMARY", 9);
    assert OccursAt("payments.idempotency_key", "idempotency_key", 9);
  }

  // ---- the repositories ----

  /** The entity in memory, with the version it was loaded at. */
  class Payment {
    const id: string
    var invoice: string
    var key: string
    var body: string
    var version: int
    var loadedVersion: int

    constructor (s: Snapshot, loadedVersion: int)
      ensures ToSnapshot() == s && this.loadedVersion == loadedVersion
    {
      id, invoice, key, body, version := s.id, s.invoice, s.key, s.body, s.version;
      this.loadedVersion := loadedVersion;
    }

    function ToSnapshot(): Snapshot
      reads this
    {
      Snapshot(id, invoice, key, body, version)
    }

    method SetVersion(v: int)
      modifies this`version, this`loadedVersion
      ensures version == v && loadedVersion == v
    {
      version, loadedVersion := v, v;
    }
  }

  datatype Result = Done | Conflict | Duplicate(key: string, attempted: string, existing: Option<string>)

  function VerdictOf(r: Result): Verdict {
    match r
    case Done => Saved
    case Conflict => VersionConflict
    case Duplicate(_, _, _) => DuplicateIdempotencyKey
  }

  class PaymentRepository {
    var payments: Table
    ghost var writes: seq<Write>
    /** How many of the writes are this client's. */
    ghost var own: nat

    ghost predicate Valid()
      reads this
    {
      Follows(map[], writes, payments)
    }

    lemma Reachable()
      requires Valid()
      ensures KeysUnique(payments)
    {
      KeysStayUnique(map[], writes, payments);
    }

    constructor ()
      ensures Valid() && payments == map[]
    {
      payments, writes, own := map[], [], 0;
    }

    method Perform(w: Write)
      requires Valid() && Allowed(payments, w)
      modifies this
      ensures Valid() && payments == old(payments)[w.id := w.row] && own == old(own) + 1
    {
      FollowsSnoc(map[], writes, payments, w);
      payments, writes, own := payments[w.id := w.row], writes + [w], own + 1;
    }

    /** Any number of writes of other clients. Callers rely on the contract alone. */
    method Others() returns (ghost ws: seq<Write>)
      requires Valid()
      modifies this`payments, this`writes
      ensures Valid() && Follows(old(payments), ws, payments)
    {
      ws := [];
    }

    method Interfere(alone: bool)
      requires Valid()
      modifies this`payments, this`writes
      ensures Valid() && old(payments).Keys <= payments.Keys
      ensures alone ==> payments == old(payments)
    {
      if !alone {
        Reachable();
        ghost var t := payments;
        ghost var ws := Others();
        KeysStayUnique(t, ws, payments);
      }
    }

    // The statements.

    /** A plain INSERT. The primary key is looked at before the index on the idempotency key. */
    method Insert(s: Snapshot) returns (message: Option<string>)
      requires Valid()
      modifies this
      ensures Valid()
      ensures s.id in old(payments) ==> message == Some(Message(s.id, "payments.PRIMARY"))
      ensures s.id !in old(payments) && KeyTaken(old(payments), s.id, KeyOf(s)) ==>
                message == Some(Message(s.key, "payments.idempotency_key"))
      ensures s.id !in old(payments) && !KeyTaken(old(payments), s.id, KeyOf(s)) ==> message == None
      ensures payments == if message.None? then old(payments)[s.id := RowOf(s)] else old(payments)
      ensures own == old(own) + (if message.None? then 1 else 0)
    {
      if s.id in payments {
        return Some(Message(s.id, "payments.PRIMARY"));
      }
      if KeyTaken(payments, s.id, KeyOf(s)) {
        return Some(Message(s.key, "payments.idempotency_key"));
      }
      Perform(InsertRow(s.id, RowOf(s)));
      message := None;
    }

    /** UPDATE payments SET ... WHERE id = ? AND lock_version = ? */
    method Update(s: Snapshot, loaded: int) returns (affected: nat, message: Option<string>)
      requires Valid()
      modifies this
      ensures Valid()
      ensures var matches := s.id in old(payments) && old(payments)[s.id].lockVersion == loaded;
              var clash := matches && KeyTaken(old(payments), s.id, KeyOf(s));
              && affected == (if matches && !clash then 1 else 0)
              && message == (if clash then Some(Message(s.key, "payments.idempotency_key")) else None)
              && own == old(own) + affected
              && payments == if affected == 1 then old(payments)[s.id := RowOf(s)] else old(payments)
    {
      if s.id !in payments || payments[s.id].lockVersion != loaded {
        return 0, None;
      }
      if KeyTaken(payments, s.id, KeyOf(s)) {
        return 0, Some(Message(s.key, "payments.idempotency_key"));
      }
      Perform(UpdateRow(s.id, RowOf(s), loaded));
      return 1, None;
    }

    /** SELECT id FROM payments WHERE idempotency_key = ? */
    method HolderOf(key: string) returns (id: Option<string>)
      ensures id.Some? ==> id.value in payments && payments[id.value].key == Some(key)
      ensures id.None? ==> forall other | other in payments :: payments[other].key != Some(key)
    {
      if other: string :| other in payments && payments[other].key == Some(key) {
        id := Some(other);
      } else {
        id := None;
      }
    }

    /** duplicateIdempotencyKey */
    method DuplicateOf(s: Snapshot, alone: bool) returns (r: Result)
      requires Valid()
      modifies this`payments, this`writes
      ensures Valid() && (alone ==> payments == old(payments))
      ensures exists e: Option<string> :: r == Duplicate(s.key, s.id, e)
      ensures r.existing.Some? ==> r.existing.value in payments && payments[r.existing.value].key == Some(s.key)
      ensures r.existing.None? ==> forall other | other in payments :: payments[other].key != Some(s.key)
    {
      Interfere(alone);
      var e := HolderOf(s.key);
      r := Duplicate(s.key, s.id, e);
    }

    /** Save of mysql/payment_repo.go. alone: the save runs in a transaction that keeps others out;
        otherwise they write between its statements. at: the table the deciding statement found.
        A rejected save writes nothing, and the payment keeps the version it was loaded at. */
    method SaveMySQL(p: Payment, alone: bool) returns (r: Result, ghost at: Table)
      requires Valid()
      modifies this, p`version, p`loadedVersion
      ensures Valid() && KeysUnique(at)
      ensures alone ==> at == old(payments)
      ensures VerdictOf(r) == MySQLVerdict(at, old(p.ToSnapshot()), old(p.loadedVersion))
      ensures r.Done? ==>
                && p.id in payments && payments[p.id].invoice == p.invoice && payments[p.id].body == p.body
                && payments[p.id].lockVersion == p.version
                && payments[p.id].key == (if p.key == "" then None else Some(p.key))
      ensures alone || !r.Duplicate? ==> payments == MySQLTable(at, old(p.ToSnapshot()), old(p.loadedVersion))
      ensures own == old(own) + (if r.Done? then 1 else 0)
      ensures p.version == old(p.version)
      ensures p.loadedVersion == if r.Done? then p.version else old(p.loadedVersion)
      ensures r.Duplicate? ==> r.key == p.key && r.attempted == p.id
      ensures r.Duplicate? && r.existing.Some? ==>
                r.existing.value in payments && payments[r.existing.value].key == Some(p.key)
      ensures r.Duplicate? && alone && !Misread(at, old(p.ToSnapshot())) ==>
                r.existing.Some? && r.existing.value != p.id
    {
      var s := p.ToSnapshot();
      Reachable();
      at := payments;
      var message := Insert(s);
      if message.None? {
        p.SetVersion(s.version);
        return Done, at;
      }
      ReadsValueToo(if s.id in at then s.id else s.key,
                    if s.id in at then "payments.PRIMARY" else "payments.idempotency_key", "idempotency_key");
      IndexNames();
      if DupEntryOnKey(message.value, "idempotency_key") {
        r := DuplicateOf(s, alone);
        return;
      }
      ReadsValueToo(s.id, "payments.PRIMARY", "PRIMARY");
      assert DupEntryOnKey(message.value, "PRIMARY");
      Interfere(alone);
      Reachable();
      at := payments;
      var affected, clash := Update(s, p.loadedVersion);
      if clash.Some? {
        ReadsValueToo(s.key, "payments.idempotency_key", "idempotency_key");
        assert DupEntryOnKey(clash.value, "idempotency_key");
        r := DuplicateOf(s, alone);
        return;
      }
      if affected == 0 {
        return Conflict, at;
      }
      p.SetVersion(s.version);
      return Done, at;
    }

    /** Save of postgres/payment_repo.go: one guarded upsert; its duplicate-key error names the
        constraint in a field of its own. */
    method SavePostgres(p: Payment, alone: bool) returns (r: Result)
      requires Valid()
      modifies this, p`version, p`loadedVersion
      ensures Valid()
      ensures VerdictOf(r) == PostgresVerdict(old(payments), old(p.ToSnapshot()), old(p.loadedVersion))
      ensures r.Done? ==>
                && p.id in payments && payments[p.id].body == p.body && payments[p.id].lockVersion == p.version
                && payments[p.id].invoice == (if p.id in old(payments) then old(payments)[p.id].invoice else p.invoice)
                && payments[p.id].key == (if p.id in old(payments) then old(payments)[p.id].key
                                          else if p.key == "" then None else Some(p.key))
      ensures alone || !r.Duplicate? ==>
                payments == PostgresTable(old(payments), old(p.ToSnapshot()), old(p.loadedVersion))
      ensures own == old(own) + (if r.Done? then 1 else 0)
      ensures p.version == old(p.version)
      ensures p.loadedVersion == if r.Done? then p.version else old(p.loadedVersion)
      ensures r.Duplicate? ==> r.key == p.key && r.attempted == p.id
      ensures r.Duplicate? && alone ==> r.existing.Some? && r.existing.value != p.id
    {
      var s := p.ToSnapshot();
      Reachable();
      if s.id !in payments {
        if KeyTaken(payments, s.id, KeyOf(s)) {
          r := DuplicateOf(s, alone);
          return;
        }
        Perform(InsertRow(s.id, RowOf(s)));
      } else {
        var row := payments[s.id];
        if row.lockVersion != p.loadedVersion {
          return Conflict;
        }
        Perform(UpdateRow(s.id, row.(body := s.body, lockVersion := s.version), p.loadedVersion));
      }
      p.SetVersion(s.version);
      return Done;
    }
  }
}
