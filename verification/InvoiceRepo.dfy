/**
 Saving an invoice and reading it as of a past instant: MySQLInvoiceRepository (mysql/invoice_repo.go)
 and PostgresInvoiceRepository (postgres/invoice_repo.go). A save changes two tables in several
 statements; its transaction makes them one step, and a failed statement rolls everything back.
 Clock readings are arbitrary, repeated and decreasing ones included.
 */
module InvoiceRepo {
  import opened Common

  type Time = int

  /** body stands for the columns no rule looks at. */
  datatype Content = Content(
    account: string, contract: string, status: string, period: Option<(Time, Time)>, invoiceType: string, body: string)

  datatype Snapshot = Snapshot(content: Content, version: int)

  /** version: the per-save counter; lockVersion: the domain's optimistic-lock version. */
  datatype InvoiceRow = InvoiceRow(content: Content, version: nat, lockVersion: int)

  datatype HistoryRow = HistoryRow(snapshot: Snapshot, validFrom: Time, validTo: Option<Time>)

  type Invoices = map<string, InvoiceRow>
  type History = map<(string, nat), HistoryRow>

  /** The entity in memory, with the version it was loaded at. */
  class Invoice {
    const id: string
    var content: Content
    var version: int
    var loadedVersion: int

    constructor (id: string, content: Content, version: int, loadedVersion: int)
      ensures this.id == id && this.content == content
      ensures this.version == version && this.loadedVersion == loadedVersion
    {
      this.id, this.content, this.version, this.loadedVersion := id, content, version, loadedVersion;
    }

    method SetVersion(v: int)
      modifies this`version, this`loadedVersion
      ensures version == v && loadedVersion == v
    {
      version, loadedVersion := v, v;
    }
  }

  // ---- the unique index on (contract, billing period) ----

  /** The indexed key; voided, proration and period-less invoices have none. */
  function PeriodKey(c: Content): Option<(string, Time, Time)> {
    if c.status != "voided" && c.period.Some? && c.invoiceType != "proration"
    then Some((c.contract, c.period.value.0, c.period.value.1))
    else None
  }

  predicate PeriodTaken(t: Invoices, id: string, c: Content) {
    PeriodKey(c).Some? && exists other | other in t :: other != id && PeriodKey(t[other].content) == PeriodKey(c)
  }

  ghost predicate PeriodsUnique(t: Invoices) {
    forall id | id in t :: !PeriodTaken(t, id, t[id].content)
  }

  // ---- what a save should do to the invoices table ----

  datatype Outcome = Saved | VersionConflict | PeriodConflict

  /** An UPDATE leaves the account and the contract of the row alone. */
  function NewRow(t: Invoices, id: string, s: Snapshot): InvoiceRow {
    if id in t
    then InvoiceRow(s.content.(account := t[id].content.account, contract := t[id].content.contract),
                    t[id].version + 1, s.version)
    else InvoiceRow(s.content, 1, s.version)
  }

  /** The rule both databases implement: an existing row may be replaced only when it still has the
      version the entity was loaded at, and no other row may have the same period. */
  function SaveOutcome(t: Invoices, id: string, s: Snapshot, loaded: int): Outcome {
    if id in t && t[id].lockVersion != loaded then VersionConflict
    else if PeriodTaken(t, id, NewRow(t, id, s).content) then PeriodConflict
    else Saved
  }

  /** A saved row holds what was saved, with one more save counted; account and contract stay those it was
      inserted with. */
  lemma SavedRow(t: Invoices, id: string, s: Snapshot)
    ensures var r, c := NewRow(t, id, s), s.content;
            && r.lockVersion == s.version && r.version == (if id in t then t[id].version + 1 else 1)
            && r.content.status == c.status && r.content.period == c.period
            && r.content.invoiceType == c.invoiceType && r.content.body == c.body
            && r.content.account == (if id in t then t[id].content.account else c.account)
            && r.content.contract == (if id in t then t[id].content.contract else c.contract)
  {
  }

  /** Voided and proration invoices, and those without a period, are not in the index. */
  predicate Indexed(c: Content) { c.status != "voided" && c.invoiceType != "proration" && c.period.Some? }

  /** A save is refused for its version exactly when the row has another one than was loaded, and for its
      period exactly when its version is right, it is indexed, and another indexed invoice has the same
      contract and period. */
  lemma RefusedExactly(t: Invoices, id: string, s: Snapshot, loaded: int)
    ensures SaveOutcome(t, id, s, loaded) == VersionConflict <==> id in t && t[id].lockVersion != loaded
    ensures SaveOutcome(t, id, s, loaded) == PeriodConflict
       <==> (id in t ==> t[id].lockVersion == loaded) && Indexed(s.content)
            && exists other | other in t ::
                 && other != id && Indexed(t[other].content) && t[other].content.period == s.content.period
                 && t[other].content.contract == (if id in t then t[id].content.contract else s.content.contract)
  {
    var c := NewRow(t, id, s).content;
    assert PeriodTaken(t, id, c) <==> exists other | other in t ::
        other != id && PeriodKey(c).Some? && PeriodKey(t[other].content) == PeriodKey(c);
  }

  // ---- what the history should be ----

  datatype Saving = Saving(stamp: Time, snapshot: Snapshot)

  /** Save number i is row version i+1, valid from its stamp until the next save's stamp. */
  function RowOf(saves: seq<Saving>, i: nat): HistoryRow
    requires i < |saves|
  {
    HistoryRow(saves[i].snapshot, saves[i].stamp, if i + 1 < |saves| then Some(saves[i + 1].stamp) else None)
  }

  predicate ValidAt(r: HistoryRow, t: Time) {
    r.validFrom <= t && (r.validTo.None? || r.validTo.value > t)
  }

  /** The last save, in saving order, that is stamped at or before t; -1 if there is none. */
  function LastSaveBy(saves: seq<Saving>, t: Time): (k: int)
    ensures -1 <= k < |saves|
    ensures k >= 0 ==> saves[k].stamp <= t
    ensures forall j | k < j < |saves| :: saves[j].stamp > t
  {
    if saves == [] then -1
    else if saves[|saves| - 1].stamp <= t then |saves| - 1
    else LastSaveBy(saves[..|saves| - 1], t)
  }

  /** In whatever order the stamps are, the rows' intervals contain t up to the last save stamped at
      or before t and not beyond: that row is valid at t, and no later one is. */
  lemma HighestValidRow(saves: seq<Saving>, t: Time, i: nat)
    requires i < |saves|
    ensures LastSaveBy(saves, t) == i
       <==> ValidAt(RowOf(saves, i), t) && forall j | i < j < |saves| :: !ValidAt(RowOf(saves, j), t)
  {
    var k := LastSaveBy(saves, t);
    if k >= 0 { assert ValidAt(RowOf(saves, k), t); }
  }

  /** The rows of one invoice: versions 1..n, each valid until the next one starts, the last open. */
  ghost predicate HistoryOk(row: InvoiceRow, h: History, id: string, saves: seq<Saving>) {
    && row.version == |saves| > 0
    && row.lockVersion == saves[|saves| - 1].snapshot.version
    && (forall v: nat :: (id, v) in h <==> 1 <= v <= |saves|)
    && (forall v: nat | 1 <= v <= |saves| :: h[(id, v)] == RowOf(saves, v - 1))
  }

  /** UPDATE invoice_history SET valid_to = now WHERE id = ? AND valid_to IS NULL */
  ghost predicate Closes(h: History, h': History, id: string, now: Time) {
    && h'.Keys == h.Keys
    && forall k | k in h' ::
         h'[k] == if k.0 == id && h[k].validTo.None? then h[k].(validTo := Some(now)) else h[k]
  }

  lemma HistoryGrows(row: InvoiceRow, h: History, h': History, id: string, saves: seq<Saving>, s: Saving,
                     row': InvoiceRow)
    requires HistoryOk(row, h, id, saves) && Closes(h, h', id, s.stamp)
    requires row'.version == row.version + 1 && row'.lockVersion == s.snapshot.version
    ensures HistoryOk(row', h'[(id, row'.version) := HistoryRow(s.snapshot, s.stamp, None)], id, saves + [s])
  {
    var n := |saves|;
    forall v: nat | 1 <= v <= n ensures h'[(id, v)] == RowOf(saves + [s], v - 1) {
      assert (id, v) in h && h[(id, v)] == RowOf(saves, v - 1);
    }
  }

  lemma HistoryUntouched(row: InvoiceRow, h: History, h': History, id: string, saves: seq<Saving>,
                         other: string, v: nat, r: HistoryRow, now: Time)
    requires HistoryOk(row, h, id, saves) && Closes(h, h', other, now) && other != id
    ensures HistoryOk(row, h'[(other, v) := r], id, saves)
  {
    forall w: nat | 1 <= w <= |saves| ensures h'[(id, w)] == RowOf(saves, w - 1) {
      assert (id, w) in h;
    }
  }

  lemma PeriodsStayUnique(t: Invoices, id: string, row: InvoiceRow)
    requires PeriodsUnique(t) && !PeriodTaken(t, id, row.content)
    ensures PeriodsUnique(t[id := row])
  {
    var t' := t[id := row];
    forall i | i in t' ensures !PeriodTaken(t', i, t'[i].content) {
      if i != id && PeriodKey(t[i].content).Some? {
        assert !PeriodTaken(t, i, t[i].content);
        forall other | other in t' && other != i ensures PeriodKey(t'[other].content) != PeriodKey(t[i].content) {
          if other == id { assert i in t; }
        }
      }
    }
  }

  // ---- what a read as of an instant finds ----

  /** WHERE id = ? AND valid_from <= ? AND (valid_to IS NULL OR valid_to > ?) */
  function VersionsAt(h: History, id: string, t: Time): set<nat> {
    set k | k in h && k.0 == id && ValidAt(h[k], t) :: k.1
  }

  lemma VersionsAtIs(h: History, id: string, t: Time)
    ensures forall v: nat :: v in VersionsAt(h, id, t) <==> (id, v) in h && ValidAt(h[(id, v)], t)
  {
    forall v: nat ensures v in VersionsAt(h, id, t) <==> (id, v) in h && ValidAt(h[(id, v)], t) {
      assert (id, v).0 == id && (id, v).1 == v;
    }
  }

  /** ORDER BY version DESC LIMIT 1 */
  method Highest(rows: set<nat>) returns (best: nat)
    requires rows != {}
    ensures best in rows && forall v | v in rows :: v <= best
  {
    best :| best in rows;
    var rest := rows - {best};
    while rest != {}
      invariant best in rows && rest <= rows
      invariant forall v | v in rows :: v in rest || v <= best
    {
      var v :| v in rest;
      if v > best {
        best := v;
      }
      rest := rest - {v};
    }
  }

  lemma RowsMatchSaves(row: InvoiceRow, h: History, id: string, saves: seq<Saving>, t: Time)
    requires HistoryOk(row, h, id, saves)
    ensures var k := LastSaveBy(saves, t);
            && (k >= 0 ==> k + 1 in VersionsAt(h, id, t) && h[(id, k + 1)].snapshot == saves[k].snapshot)
            && (forall v | v in VersionsAt(h, id, t) :: v <= k + 1)
            && (k < 0 ==> VersionsAt(h, id, t) == {})
  {
    var k := LastSaveBy(saves, t);
    VersionsAtIs(h, id, t);
    if k >= 0 { HighestValidRow(saves, t, k); }
    forall v | v in VersionsAt(h, id, t) ensures 1 <= v <= k + 1 {
      assert h[(id, v)] == RowOf(saves, v - 1);
    }
  }

  // ---- the repository ----

  class InvoiceRepository {
    var invoices: Invoices
    var history: History
    /** Every committed save, by invoice, in commit order. */
    ghost var saves: map<string, seq<Saving>>

    ghost predicate Valid()
      reads this
    {
      && saves.Keys == invoices.Keys
      && PeriodsUnique(invoices)
      && (forall id | id in invoices :: HistoryOk(invoices[id], history, id, saves[id]))
      && (forall k | k in history :: k.0 in invoices)
    }

    constructor ()
      ensures Valid() && invoices == map[] && history == map[] && saves == map[]
    {
      invoices, history, saves := map[], map[], map[];
    }

    /** In every reachable table two indexed invoices differ in contract or period. */
    lemma OneInvoicePerPeriod(a: string, b: string)
      requires Valid() && a in invoices && b in invoices && a != b
      requires Indexed(invoices[a].content) && Indexed(invoices[b].content)
      ensures (invoices[a].content.contract, invoices[a].content.period)
           != (invoices[b].content.contract, invoices[b].content.period)
    {
      assert !PeriodTaken(invoices, a, invoices[a].content);
    }

    // The statements of MySQL.

    /** UPDATE invoices SET ... WHERE id = ? AND lock_version = ? */
    method UpdateGuarded(id: string, s: Snapshot, loaded: int) returns (affected: nat, conflict: bool)
      modifies this`invoices
      ensures conflict <==> id in old(invoices) && old(invoices)[id].lockVersion == loaded
                            && PeriodTaken(old(invoices), id, NewRow(old(invoices), id, s).content)
      ensures affected == if !conflict && id in old(invoices) && old(invoices)[id].lockVersion == loaded then 1 else 0
      ensures invoices == if affected == 1 then old(invoices)[id := NewRow(old(invoices), id, s)] else old(invoices)
    {
      affected, conflict := 0, false;
      if id in invoices && invoices[id].lockVersion == loaded {
        var row := invoices[id].(content := s.content.(account := invoices[id].content.account,
                                                       contract := invoices[id].content.contract),
                                 version := invoices[id].version + 1, lockVersion := s.version);
        conflict := PeriodTaken(invoices, id, row.content);
        if !conflict {
          invoices := invoices[id := row];
          affected := 1;
        }
      }
    }

    /** INSERT INTO invoices ..., version, lock_version VALUES ..., 1, ?; the id is not in the table. */
    method Insert(id: string, s: Snapshot) returns (conflict: bool)
      requires id !in invoices
      modifies this`invoices
      ensures conflict == PeriodTaken(old(invoices), id, s.content)
      ensures invoices == if conflict then old(invoices) else old(invoices)[id := InvoiceRow(s.content, 1, s.version)]
    {
      conflict := PeriodTaken(invoices, id, s.content);
      if !conflict {
        invoices := invoices[id := InvoiceRow(s.content, 1, s.version)];
      }
    }

    /** The three-statement write of mysql/invoice_repo.go: guarded UPDATE, existence probe, INSERT. */
    method WriteMySQL(id: string, s: Snapshot, loaded: int) returns (r: Outcome)
      modifies this`invoices
      ensures r == SaveOutcome(old(invoices), id, s, loaded)
      ensures invoices == if r == Saved then old(invoices)[id := NewRow(old(invoices), id, s)] else old(invoices)
    {
      var affected, conflict := UpdateGuarded(id, s, loaded);
      if conflict {
        return PeriodConflict;
      }
      if affected == 0 {
        if id in invoices {
          return VersionConflict;
        }
        conflict := Insert(id, s);
        if conflict {
          return PeriodConflict;
        }
      }
      return Saved;
    }

    /** The single guarded upsert of postgres/invoice_repo.go: the conflict on id is looked for
        first; the WHERE of DO UPDATE can skip the row; the period index is checked on what is written. */
    method WritePostgres(id: string, s: Snapshot, loaded: int) returns (r: Outcome)
      modifies this`invoices
      ensures r == SaveOutcome(old(invoices), id, s, loaded)
      ensures invoices == if r == Saved then old(invoices)[id := NewRow(old(invoices), id, s)] else old(invoices)
    {
      var row := InvoiceRow(s.content, 1, s.version);
      if id in invoices {
        var stored := invoices[id];
        if stored.lockVersion != loaded {
          return VersionConflict; // RowsAffected() == 0
        }
        row := row.(content := row.content.(account := stored.content.account, contract := stored.content.contract),
                    version := stored.version + 1);
      }
      if PeriodTaken(invoices, id, row.content) {
        return PeriodConflict;
      }
      invoices := invoices[id := row];
      return Saved;
    }

    // The history statements, the same in both.

    /** UPDATE invoice_history SET valid_to = ? WHERE id = ? AND valid_to IS NULL */
    method CloseHistory(id: string, now: Time)
      modifies this`history
      ensures Closes(old(history), history, id, now)
    {
      history := map k | k in history ::
        if k.0 == id && history[k].validTo.None? then history[k].(validTo := Some(now)) else history[k];
    }

    /** INSERT INTO invoice_history ... the version of the invoices row ... ON DUPLICATE KEY UPDATE */
    method OpenHistory(id: string, s: Snapshot, now: Time)
      modifies this`history
      ensures var v := if id in invoices then invoices[id].version else 1;
              history == old(history)[(id, v) := HistoryRow(s, now, None)]
    {
      var v := if id in invoices then invoices[id].version else 1;
      history := history[(id, v) := HistoryRow(s, now, None)];
    }

    /** Both history statements, after the invoices row was written. */
    method AppendHistory(id: string, s: Snapshot, now: Time, ghost before: Invoices)
      requires saves.Keys == before.Keys && (forall k | k in history :: k.0 in before)
      requires forall i | i in before :: HistoryOk(before[i], history, i, saves[i])
      requires invoices == before[id := NewRow(before, id, s)] && PeriodsUnique(invoices)
      modifies this`history, this`saves
      ensures Valid()
      ensures saves == old(saves)[id := (if id in old(saves) then old(saves)[id] else []) + [Saving(now, s)]]
    {
      ghost var h := history;
      ghost var earlier := if id in saves then saves[id] else [];
      CloseHistory(id, now);
      ghost var h' := history;
      OpenHistory(id, s, now);
      saves := saves[id := earlier + [Saving(now, s)]];
      if id in before {
        HistoryGrows(before[id], h, h', id, earlier, Saving(now, s), invoices[id]);
      }
      forall i | i in invoices ensures HistoryOk(invoices[i], history, i, saves[i]) {
        if i != id {
          HistoryUntouched(before[i], h, h', i, saves[i], id, invoices[id].version, HistoryRow(s, now, None), now);
        }
      }
    }

    /** saveOn: the invoices write of the given database, then the history of a successful one. A
        rejected save changes nothing; an accepted one becomes the next save of the invoice. */
    method SaveOn(inv: Invoice, mysql: bool, now: Time) returns (r: Outcome)
      requires Valid()
      modifies this, inv
      ensures Valid()
      ensures inv.content == old(inv.content) && inv.version == old(inv.version)
      ensures inv.loadedVersion == if r == Saved then inv.version else old(inv.loadedVersion)
      ensures r == SaveOutcome(old(invoices), inv.id, Snapshot(inv.content, inv.version), old(inv.loadedVersion))
      ensures r != Saved ==> invoices == old(invoices) && history == old(history) && saves == old(saves)
      ensures r == Saved ==>
                && invoices == old(invoices)[
                     inv.id := NewRow(old(invoices), inv.id, Snapshot(inv.content, inv.version))]
                && saves == old(saves)[inv.id :=
                              (if inv.id in old(saves) then old(saves)[inv.id] else [])
                              + [Saving(now, Snapshot(inv.content, inv.version))]]
    {
      var s := Snapshot(inv.content, inv.version);
      ghost var before := invoices;
      if mysql {
        r := WriteMySQL(inv.id, s, inv.loadedVersion);
      } else {
        r := WritePostgres(inv.id, s, inv.loadedVersion);
      }
      if r != Saved {
        return;
      }
      PeriodsStayUnique(before, inv.id, invoices[inv.id]);
      hide HistoryOk, PeriodsUnique;
      AppendHistory(inv.id, s, now, before);
      inv.SetVersion(s.version);
    }

    /** Save: saveOn in a transaction of its own. When the commit fails, both tables are as before or, if
        only its answer was lost, as after a commit; either way the entity already takes its version for
        the stored one. */
    method Save(inv: Invoice, mysql: bool, now: Time) returns (r: Outcome, reported: bool, ghost committed: bool)
      requires Valid()
      modifies this, inv
      ensures Valid()
      ensures inv.content == old(inv.content) && inv.version == old(inv.version)
      ensures inv.loadedVersion == if r == Saved then inv.version else old(inv.loadedVersion)
      ensures r == SaveOutcome(old(invoices), inv.id, Snapshot(inv.content, inv.version), old(inv.loadedVersion))
      ensures committed ==> r == Saved
      ensures if reported then committed <==> r == Saved else r == Saved
      ensures !committed ==> invoices == old(invoices) && history == old(history) && saves == old(saves)
      ensures committed ==>
                && invoices == old(invoices)[
                     inv.id := NewRow(old(invoices), inv.id, Snapshot(inv.content, inv.version))]
                && saves == old(saves)[inv.id :=
                              (if inv.id in old(saves) then old(saves)[inv.id] else [])
                              + [Saving(now, Snapshot(inv.content, inv.version))]]
    {
      var invoices0, history0 := invoices, history;
      ghost var saves0 := saves;
      r := SaveOn(inv, mysql, now);
      hide HistoryOk, PeriodsUnique, NewRow, SaveOutcome;
      if r != Saved {
        return r, true, false;
      }
      if * {
        invoices, history, saves := invoices0, history0, saves0; // the commit failed
        return r, false, false;
      }
      reported := *;
      committed := true;
    }

    /** FindByIDAsOf: the rows valid at t, highest version first, limit 1. It is the last save of the
        invoice stamped at or before t, and not found exactly when there is none. */
    method FindByIDAsOf(id: string, t: Time) returns (r: Option<Snapshot>)
      requires Valid()
      ensures r == if id !in saves || LastSaveBy(saves[id], t) < 0 then None
                   else Some(saves[id][LastSaveBy(saves[id], t)].snapshot)
    {
      var rows := VersionsAt(history, id, t);
      VersionsAtIs(history, id, t);
      if id in saves {
        RowsMatchSaves(invoices[id], history, id, saves[id], t);
      }
      if rows == {} {
        return None;
      }
      var best := Highest(rows);
      assert (id, best) in history;
      r := Some(history[(id, best)].snapshot);
    }
  }
}
