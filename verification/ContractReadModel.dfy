/**
 The contract read model: ContractProjector.applyEvent of mysql/contract_projector.go and
 postgres/contract_projector.go, and what happens when events are delivered again.

 Upcasting and JSON decoding belong to the core and to libraries: `decode` stands for both, and
 yields the fields applyEvent reads, with times already parsed (parseTime: None when empty,
 malformed or zero).
 */
module ContractReadModel {
  import opened Common
  import opened EventLog
  import Projection

  type Time = int

  datatype Row = Row(
    account: string, status: string, startDate: Option<Time>, price: string, endDate: Option<Time>,
    renewalDate: Option<Time>, trialEnd: Option<Time>, data: string, version: int)

  type Table = map<string, Row>

  datatype Kind =
    | Created(account: string, price: string, createdAt: Option<Time>)
    | Activated(periodEnd: Option<Time>)
    | Suspended
    | Resumed
    | PastDue
    | Recovered
    | Cancelled
    | Expired
    | TrialStarted(trialEnd: Option<Time>)
    | TrialEnded(converted: bool)
    | Renewed(newEnd: Option<Time>)
    | PriceChanged(newPrice: string)
    | OtherContractEvent

  /** Ignored: not one of the 17 contract event types. */
  datatype Decoded = Ignored | Malformed | Change(id: string, kind: Kind, version: int, data: string)

  // ---- the SQL statements ----

  /** COALESCE(x, y) */
  function Coalesce<T>(x: Option<T>, y: Option<T>): Option<T> { if x.Some? then x else y }

  /** The row an INSERT of a created event writes; the dates it does not mention are NULL. */
  function Inserted(c: Decoded): Row
    requires c.Change? && c.kind.Created?
  {
    Row(c.kind.account, "draft", c.kind.createdAt, c.kind.price, None, None, None, c.data, c.version)
  }

  /** What the statement for c does to the contract's row, when there is one. */
  function Updated(r: Row, c: Decoded): Row
    requires c.Change?
  {
    var r := r.(data := c.data, version := c.version);
    match c.kind
    case Created(account, price, createdAt) =>
      r.(account := account, status := "draft", startDate := createdAt, price := price)
    case Activated(end) =>
      r.(status := "active", endDate := Coalesce(end, r.endDate), renewalDate := Coalesce(end, r.renewalDate))
    case Suspended => r.(status := "suspended")
    case Resumed => r.(status := "active")
    case PastDue => r.(status := "past_due")
    case Recovered => r.(status := "active")
    case Cancelled => r.(status := "cancelled")
    case Expired => r.(status := "expired")
    case TrialStarted(end) => r.(status := "trialing", trialEnd := end)
    case TrialEnded(converted) => r.(status := if converted then "active" else "cancelled", trialEnd := None)
    case Renewed(end) => r.(endDate := Coalesce(end, r.endDate), renewalDate := Coalesce(end, r.renewalDate))
    case PriceChanged(price) => r.(price := if price == "" then r.price else price)
    case OtherContractEvent => r
  }

  /** applyEvent: a created event upserts, every other event updates nothing when the row is missing. */
  function Apply(t: Table, c: Decoded): Option<Table> {
    match c
    case Ignored => Some(t)
    case Malformed => None
    case Change(id, kind, _, _) =>
      if id in t then Some(t[id := Updated(t[id], c)])
      else if kind.Created? then Some(t[id := Inserted(c)])
      else Some(t)
  }

  function Applier(decode: Event -> Decoded): Projection.Apply<Table> {
    (t: Table, e: Event) => Apply(t, decode(e))
  }

  // ---- one contract at a time ----

  /** The row of contract id after the changes, if any. */
  function RowAfter(r: Option<Row>, cs: seq<Decoded>, id: string): Option<Row> {
    if cs == [] then r
    else
      var r := RowAfter(r, cs[..|cs| - 1], id);
      var c := cs[|cs| - 1];
      if !c.Change? || c.id != id then r
      else if r.Some? then Some(Updated(r.value, c))
      else if c.kind.Created? then Some(Inserted(c))
      else None
  }

  function Decodings(decode: Event -> Decoded, events: seq<Event>): seq<Decoded> {
    seq(|events|, i requires 0 <= i < |events| => decode(events[i]))
  }

  function Lookup(t: Table, id: string): Option<Row> { if id in t then Some(t[id]) else None }

  lemma {:induction false} FoldIsPerContract(decode: Event -> Decoded, t: Table, events: seq<Event>, id: string)
    requires Projection.Fold(Applier(decode), t, events).Some?
    ensures Lookup(Projection.Fold(Applier(decode), t, events).value, id)
         == RowAfter(Lookup(t, id), Decodings(decode, events), id)
  {
    if events != [] {
      var n := |events| - 1;
      FoldIsPerContract(decode, t, events[..n], id);
      assert Decodings(decode, events)[..n] == Decodings(decode, events[..n]);
    }
  }

  // ---- every column is last-writer-wins ----

  datatype Put<T> = Keep | Set(v: T)

  function After<T>(p: Put<T>, old_: T): T { if p.Set? then p.v else old_ }

  function Then<T>(p: Put<T>, q: Put<T>): Put<T> { if q.Set? then q else p }

  /** What a run of changes writes, whatever was there before. */
  datatype Patch = Patch(
    account: Put<string>, status: Put<string>, startDate: Put<Option<Time>>, price: Put<string>,
    endDate: Put<Option<Time>>, renewalDate: Put<Option<Time>>, trialEnd: Put<Option<Time>>,
    data: Put<string>, version: Put<int>)

  const NOTHING := Patch(Keep, Keep, Keep, Keep, Keep, Keep, Keep, Keep, Keep)

  function Patched(r: Row, p: Patch): Row {
    Row(After(p.account, r.account), After(p.status, r.status), After(p.startDate, r.startDate),
        After(p.price, r.price), After(p.endDate, r.endDate), After(p.renewalDate, r.renewalDate),
        After(p.trialEnd, r.trialEnd), After(p.data, r.data), After(p.version, r.version))
  }

  function Both(p: Patch, q: Patch): Patch {
    Patch(Then(p.account, q.account), Then(p.status, q.status), Then(p.startDate, q.startDate),
          Then(p.price, q.price), Then(p.endDate, q.endDate), Then(p.renewalDate, q.renewalDate),
          Then(p.trialEnd, q.trialEnd), Then(p.data, q.data), Then(p.version, q.version))
  }

  function SetSome<T>(x: Option<T>): Put<Option<T>> { if x.Some? then Set(x) else Keep }

  function PatchOf(c: Decoded): Patch
    requires c.Change?
  {
    var p := NOTHING.(data := Set(c.data), version := Set(c.version));
    match c.kind
    case Created(account, price, createdAt) =>
      p.(account := Set(account), status := Set("draft"), startDate := Set(createdAt), price := Set(price))
    case Activated(end) => p.(status := Set("active"), endDate := SetSome(end), renewalDate := SetSome(end))
    case Suspended => p.(status := Set("suspended"))
    case Resumed => p.(status := Set("active"))
    case PastDue => p.(status := Set("past_due"))
    case Recovered => p.(status := Set("active"))
    case Cancelled => p.(status := Set("cancelled"))
    case Expired => p.(status := Set("expired"))
    case TrialStarted(end) => p.(status := Set("trialing"), trialEnd := Set(end))
    case TrialEnded(converted) =>
      p.(status := Set(if converted then "active" else "cancelled"), trialEnd := Set(None))
    case Renewed(end) => p.(endDate := SetSome(end), renewalDate := SetSome(end))
    case PriceChanged(price) => p.(price := if price == "" then Keep else Set(price))
    case OtherContractEvent => p
  }

  function PatchAll(cs: seq<Decoded>, id: string): Patch {
    if cs == [] then NOTHING
    else
      var p := PatchAll(cs[..|cs| - 1], id);
      var c := cs[|cs| - 1];
      if c.Change? && c.id == id then Both(p, PatchOf(c)) else p
  }

  /** Despite COALESCE and NULLIF no statement computes a column from its old value. */
  lemma UpdateIsPatch(r: Row, c: Decoded)
    requires c.Change?
    ensures Updated(r, c) == Patched(r, PatchOf(c))
  {
    match c.kind
    case Created(_, _, _) =>
    case Activated(_) =>
    case TrialStarted(_) =>
    case TrialEnded(_) =>
    case Renewed(_) =>
    case PriceChanged(_) =>
    case _ =>
  }

  lemma {:induction false} UpdatesArePatch(r: Row, cs: seq<Decoded>, id: string)
    ensures RowAfter(Some(r), cs, id) == Some(Patched(r, PatchAll(cs, id)))
  {
    if cs != [] {
      var c := cs[|cs| - 1];
      UpdatesArePatch(r, cs[..|cs| - 1], id);
      if c.Change? && c.id == id {
        UpdateIsPatch(Patched(r, PatchAll(cs[..|cs| - 1], id)), c);
      }
    }
  }

  lemma BothAssociates(p: Patch, q: Patch, r: Patch)
    ensures Both(Both(p, q), r) == Both(p, Both(q, r)) && Both(p, NOTHING) == p
  {
  }

  lemma {:induction false} PatchConcat(a: seq<Decoded>, b: seq<Decoded>, id: string)
    ensures PatchAll(a + b, id) == Both(PatchAll(a, id), PatchAll(b, id))
  {
    hide Both, PatchOf;
    if b == [] {
      assert a + b == a;
      BothAssociates(PatchAll(a, id), NOTHING, NOTHING);
    } else {
      var n := |b| - 1;
      PatchConcat(a, b[..n], id);
      assert (a + b)[..|a + b| - 1] == a + b[..n];
      if b[n].Change? {
        BothAssociates(PatchAll(a, id), PatchAll(b[..n], id), PatchOf(b[n]));
      }
    }
  }

  // ---- beginning with created ----

  predicate Concerns(c: Decoded, id: string) { c.Change? && c.id == id }

  predicate HasCreated(cs: seq<Decoded>, id: string) {
    exists i | 0 <= i < |cs| :: Concerns(cs[i], id) && cs[i].kind.Created?
  }

  /** The first change of contract id, if there is one, is its created event. */
  ghost predicate BeginsWithCreated(cs: seq<Decoded>, id: string) {
    forall i | 0 <= i < |cs| && Concerns(cs[i], id) :: cs[i].kind.Created? || HasCreated(cs[..i], id)
  }

  const BLANK := Row("", "", None, "", None, None, None, "", 0)

  lemma HasCreatedSnoc(cs: seq<Decoded>, c: Decoded, id: string)
    ensures HasCreated(cs + [c], id) <==> HasCreated(cs, id) || (Concerns(c, id) && c.kind.Created?)
  {
    var cs' := cs + [c];
    if HasCreated(cs, id) {
      var i :| 0 <= i < |cs| && Concerns(cs[i], id) && cs[i].kind.Created?;
      assert cs'[i] == cs[i];
    }
    assert cs'[|cs|] == c;
  }

  lemma PrefixBegins(cs: seq<Decoded>, n: nat, id: string)
    requires BeginsWithCreated(cs, id) && n <= |cs|
    ensures BeginsWithCreated(cs[..n], id)
  {
    forall i | 0 <= i < n && Concerns(cs[..n][i], id) ensures cs[..n][i].kind.Created? || HasCreated(cs[..n][..i], id) {
      assert cs[..n][i] == cs[i] && cs[..n][..i] == cs[..i];
    }
  }

  lemma InsertIsPatch(c: Decoded)
    requires c.Change? && c.kind.Created?
    ensures Inserted(c) == Patched(BLANK, Both(NOTHING, PatchOf(c)))
  {
  }

  lemma PatchTwice(r: Row, p: Patch, q: Patch)
    ensures Patched(Patched(r, p), q) == Patched(r, Both(p, q))
  {
  }

  /** When the changes begin with created, the row is a blank one with everything written on it. */
  lemma {:induction false} CreatedFillsBlank(cs: seq<Decoded>, id: string)
    requires BeginsWithCreated(cs, id)
    ensures RowAfter(None, cs, id)
         == if HasCreated(cs, id) then Some(Patched(BLANK, PatchAll(cs, id))) else None
    ensures !HasCreated(cs, id) ==> PatchAll(cs, id) == NOTHING
  {
    hide Inserted, Updated, PatchOf, Patched, Both;
    if cs != [] {
      var n := |cs| - 1;
      PrefixBegins(cs, n, id);
      CreatedFillsBlank(cs[..n], id);
      assert cs == cs[..n] + [cs[n]];
      HasCreatedSnoc(cs[..n], cs[n], id);
      if Concerns(cs[n], id) {
        if HasCreated(cs[..n], id) {
          UpdateIsPatch(Patched(BLANK, PatchAll(cs[..n], id)), cs[n]);
          PatchTwice(BLANK, PatchAll(cs[..n], id), PatchOf(cs[n]));
        } else {
          InsertIsPatch(cs[n]);
        }
      }
    }
  }

  // ---- what the row says ----

  /** What the last change of contract id that says something says. */
  function LastOf<T>(cs: seq<Decoded>, id: string, says: Decoded -> Option<T>): Option<T> {
    if cs == [] then None
    else
      var c := cs[|cs| - 1];
      if Concerns(c, id) && says(c).Some? then says(c) else LastOf(cs[..|cs| - 1], id, says)
  }

  function StatusOf(c: Decoded): Option<string> {
    match c
    case Change(_, Created(_, _, _), _, _) => Some("draft")
    case Change(_, Activated(_), _, _) => Some("active")
    case Change(_, Suspended, _, _) => Some("suspended")
    case Change(_, Resumed, _, _) => Some("active")
    case Change(_, PastDue, _, _) => Some("past_due")
    case Change(_, Recovered, _, _) => Some("active")
    case Change(_, Cancelled, _, _) => Some("cancelled")
    case Change(_, Expired, _, _) => Some("expired")
    case Change(_, TrialStarted(_), _, _) => Some("trialing")
    case Change(_, TrialEnded(converted), _, _) => Some(if converted then "active" else "cancelled")
    case _ => None
  }

  /** The end of the period, which is also the day of the renewal. */
  function EndOf(c: Decoded): Option<Time> {
    match c
    case Change(_, Activated(end), _, _) => end
    case Change(_, Renewed(end), _, _) => end
    case _ => None
  }

  function TrialOf(c: Decoded): Option<Option<Time>> {
    match c
    case Change(_, TrialStarted(end), _, _) => Some(end)
    case Change(_, TrialEnded(_), _, _) => Some(None)
    case _ => None
  }

  function PriceOf(c: Decoded): Option<string> {
    match c
    case Change(_, Created(_, price, _), _, _) => Some(price)
    case Change(_, PriceChanged(price), _, _) => if price == "" then None else Some(price)
    case _ => None
  }

  function CreationOf(c: Decoded): Option<(string, Option<Time>)> {
    match c
    case Change(_, Created(account, _, createdAt), _, _) => Some((account, createdAt))
    case _ => None
  }

  function PayloadOf(c: Decoded): Option<(string, int)> {
    match c
    case Change(_, _, version, data) => Some((data, version))
    case _ => None
  }

  ghost predicate Tells(row: Row, cs: seq<Decoded>, id: string) {
    && Some(row.status) == LastOf(cs, id, StatusOf)
    && Some(row.price) == LastOf(cs, id, PriceOf)
    && Some((row.account, row.startDate)) == LastOf(cs, id, CreationOf)
    && Some((row.data, row.version)) == LastOf(cs, id, PayloadOf)
    && row.endDate == LastOf(cs, id, EndOf) && row.renewalDate == LastOf(cs, id, EndOf)
    && row.trialEnd == (var t := LastOf(cs, id, TrialOf); if t.Some? then t.value else None)
  }

  lemma {:induction false} NothingSaid<T>(cs: seq<Decoded>, id: string, says: Decoded -> Option<T>)
    requires forall i | 0 <= i < |cs| :: !Concerns(cs[i], id)
    ensures LastOf(cs, id, says) == None
  {
    if cs != [] { NothingSaid(cs[..|cs| - 1], id, says); }
  }

  lemma CreatedInPrefix(cs: seq<Decoded>, n: nat, id: string)
    requires n <= |cs|
    ensures HasCreated(cs[..n], id) ==> HasCreated(cs, id)
  {
    assert forall i | 0 <= i < n :: cs[..n][i] == cs[i];
  }

  lemma NoneBeforeCreated(cs: seq<Decoded>, id: string)
    requires BeginsWithCreated(cs, id) && !HasCreated(cs, id)
    ensures forall i | 0 <= i < |cs| :: !Concerns(cs[i], id)
  {
    forall i | 0 <= i < |cs| ensures !HasCreated(cs[..i], id) {
      CreatedInPrefix(cs, i, id);
    }
  }

  lemma InsertedTells(cs: seq<Decoded>, c: Decoded, id: string)
    requires BeginsWithCreated(cs, id) && !HasCreated(cs, id) && Concerns(c, id) && c.kind.Created?
    ensures Tells(Inserted(c), cs + [c], id)
  {
    NoneBeforeCreated(cs, id);
    NothingSaid(cs, id, EndOf);
    NothingSaid(cs, id, TrialOf);
    assert (cs + [c])[..|cs|] == cs;
  }

  lemma UpdatedTells(row: Row, cs: seq<Decoded>, c: Decoded, id: string)
    requires Tells(row, cs, id) && Concerns(c, id)
    ensures Tells(Updated(row, c), cs + [c], id)
  {
    assert (cs + [c])[..|cs|] == cs;
  }

  /** The row of a contract says what its events said last: the status, price, account, dates, payload and
      version each come from the last event that carries one. */
  lemma {:induction false} RowTellsHistory(cs: seq<Decoded>, id: string)
    requires BeginsWithCreated(cs, id)
    ensures HasCreated(cs, id) <==> RowAfter(None, cs, id).Some?
    ensures HasCreated(cs, id) ==> Tells(RowAfter(None, cs, id).value, cs, id)
  {
    hide Tells, Updated, Inserted;
    if cs != [] {
      var n := |cs| - 1;
      PrefixBegins(cs, n, id);
      RowTellsHistory(cs[..n], id);
      assert cs == cs[..n] + [cs[n]];
      HasCreatedSnoc(cs[..n], cs[n], id);
      var before := RowAfter(None, cs[..n], id);
      if !Concerns(cs[n], id) {
        if before.Some? { SilentTells(before.value, cs[..n], cs[n], id); }
      } else if before.Some? {
        UpdatedTells(before.value, cs[..n], cs[n], id);
      } else {
        InsertedTells(cs[..n], cs[n], id);
      }
    }
  }

  lemma SilentTells(row: Row, cs: seq<Decoded>, c: Decoded, id: string)
    requires Tells(row, cs, id) && !Concerns(c, id)
    ensures Tells(row, cs + [c], id)
  {
    assert (cs + [c])[..|cs|] == cs;
  }

  /** The same of the projected table: a contract has a row exactly when it was created, and the row says
      what the contract's events said last. */
  lemma TableTellsHistory(decode: Event -> Decoded, log: seq<Event>, id: string)
    requires Projection.Fold(Applier(decode), map[], log).Some? && BeginsWithCreated(Decodings(decode, log), id)
    ensures var t := Projection.Fold(Applier(decode), map[], log).value;
            && (id in t <==> HasCreated(Decodings(decode, log), id))
            && (id in t ==> Tells(t[id], Decodings(decode, log), id))
  {
    FoldIsPerContract(decode, map[], log, id);
    RowTellsHistory(Decodings(decode, log), id);
  }

  // ---- redelivery ----

  /** For one contract: once its changes begin with created, redelivering any suffix of them
      leaves the row as it was. */
  lemma SuffixAgain(a: seq<Decoded>, b: seq<Decoded>, id: string)
    requires BeginsWithCreated(a + b, id)
    ensures RowAfter(RowAfter(None, a + b, id), b, id) == RowAfter(None, a + b, id)
  {
    CreatedFillsBlank(a + b, id);
    PatchConcat(a, b, id);
    if HasCreated(a + b, id) {
      UpdatesArePatch(Patched(BLANK, PatchAll(a + b, id)), b, id);
    } else {
      NothingCreated(a, b, id);
    }
  }

  lemma {:induction false} NothingCreated(a: seq<Decoded>, b: seq<Decoded>, id: string)
    requires !HasCreated(a + b, id)
    ensures RowAfter(None, b, id) == None
  {
    if b != [] {
      var n := |b| - 1;
      assert a + b == (a + b[..n]) + [b[n]];
      HasCreatedSnoc(a + b[..n], b[n], id);
      NothingCreated(a, b[..n], id);
    }
  }

  lemma TablesEqual(t: Table, u: Table)
    requires forall id :: Lookup(t, id) == Lookup(u, id)
    ensures t == u
  {
    forall id ensures id in t <==> id in u { assert Lookup(t, id) == Lookup(u, id); }
    forall id | id in t ensures t[id] == u[id] { assert Lookup(t, id) == Lookup(u, id); }
  }

  /** At-least-once delivery is harmless: when every contract's events begin with created,
      projecting the log and then any suffix of it again gives the table of projecting it once. */
  lemma RedeliveryIsHarmless(decode: Event -> Decoded, log: seq<Event>, k: nat)
    requires k <= |log|
    requires Projection.Fold(Applier(decode), map[], log).Some?
    requires forall id :: BeginsWithCreated(Decodings(decode, log), id)
    ensures var t := Projection.Fold(Applier(decode), map[], log).value;
            Projection.Fold(Applier(decode), t, log[k..]) == Some(t)
  {
    var t := Projection.Fold(Applier(decode), map[], log).value;
    DecodableFolds(decode, map[], log, t, k);
    var u := Projection.Fold(Applier(decode), t, log[k..]).value;
    forall id ensures Lookup(u, id) == Lookup(t, id) {
      var cs := Decodings(decode, log);
      FoldIsPerContract(decode, map[], log, id);
      FoldIsPerContract(decode, t, log[k..], id);
      assert cs == cs[..k] + cs[k..] && Decodings(decode, log[k..]) == cs[k..];
      SuffixAgain(cs[..k], cs[k..], id);
    }
    TablesEqual(u, t);
  }

  /** Whether an event can be applied does not depend on the table. */
  lemma {:induction false} FoldNeedsDecodable(decode: Event -> Decoded, t: Table, events: seq<Event>)
    ensures Projection.Fold(Applier(decode), t, events).Some?
       <==> forall i | 0 <= i < |events| :: !decode(events[i]).Malformed?
  {
    if events != [] {
      var n := |events| - 1;
      FoldNeedsDecodable(decode, t, events[..n]);
      assert forall i | 0 <= i < n :: events[..n][i] == events[i];
    }
  }

  lemma DecodableFolds(decode: Event -> Decoded, t: Table, log: seq<Event>, u: Table, k: nat)
    requires k <= |log| && Projection.Fold(Applier(decode), t, log).Some?
    ensures Projection.Fold(Applier(decode), u, log[k..]).Some?
  {
    FoldNeedsDecodable(decode, t, log);
    FoldNeedsDecodable(decode, u, log[k..]);
  }

  /** Without that hypothesis redelivery can do harm. For one contract whose changes are o1 and o2 (none of
      them created), then created, then the rest, delivering the suffix from o2 on again is harmless
      exactly when no date that a change of o2 writes survives to the end. */
  lemma OrphansAgain(o1: seq<Decoded>, o2: seq<Decoded>, c: Decoded, rest: seq<Decoded>, id: string)
    requires !HasCreated(o1 + o2, id) && Concerns(c, id) && c.kind.Created?
    ensures var suffix := o2 + ([c] + rest);
            var once := RowAfter(None, o1 + suffix, id);
            var early, late := PatchAll(o2, id), PatchAll([c] + rest, id);
            RowAfter(once, suffix, id) == once <==>
              && (early.endDate.Keep? || late.endDate.Set?)
              && (early.renewalDate.Keep? || late.renewalDate.Set?)
              && (early.trialEnd.Keep? || early.trialEnd.v == None || late.trialEnd.Set?)
  {
    var late := [c] + rest;
    var suffix := o2 + late;
    CreatedRow(o1 + o2, c, rest, id);
    assert o1 + suffix == (o1 + o2) + late;
    PatchConcat(o2, late, id);
    PatchConcat([c], rest, id);
    assert [c][..0] == [] && PatchAll([c], id) == Both(NOTHING, PatchOf(c));
    UpdatesArePatch(Patched(Inserted(c), PatchAll(rest, id)), suffix, id);
    DatesAreNeverErased(o2, id);
  }

  /** Changes before created leave no trace in the row. */
  lemma CreatedRow(orphans: seq<Decoded>, c: Decoded, rest: seq<Decoded>, id: string)
    requires !HasCreated(orphans, id) && Concerns(c, id) && c.kind.Created?
    ensures RowAfter(None, orphans + ([c] + rest), id) == Some(Patched(Inserted(c), PatchAll(rest, id)))
  {
    assert [] + orphans == orphans;
    NothingCreated([], orphans, id);
    RowAfterConcat(None, orphans, [c] + rest, id);
    RowAfterConcat(None, [c], rest, id);
    assert [c][..0] == [] && RowAfter(None, [c], id) == Some(Inserted(c));
    UpdatesArePatch(Inserted(c), rest, id);
  }

  /** A suffix that starts at created or later is always harmless. */
  lemma LateSuffixAgain(orphans: seq<Decoded>, c: Decoded, a: seq<Decoded>, b: seq<Decoded>, id: string)
    requires !HasCreated(orphans, id) && Concerns(c, id) && c.kind.Created?
    ensures var once := RowAfter(None, orphans + ([c] + (a + b)), id);
            RowAfter(once, [c] + (a + b), id) == once && RowAfter(once, b, id) == once
  {
    assert orphans + [] == orphans && [] + ([c] + (a + b)) == [c] + (a + b);
    OrphansAgain(orphans, [], c, a + b, id);
    CreatedRow(orphans, c, a + b, id);
    PatchConcat(a, b, id);
    UpdatesArePatch(Patched(Inserted(c), PatchAll(a + b, id)), b, id);
  }

  /** Such a log: an activation with a date comes before created. Projected once, the contract has no end
      date; delivered again, it has one. */
  lemma RedeliveryCanHarm(decode: Event -> Decoded, early: Event, created: Event, end: Time)
    requires decode(early) == Change("c-1", Activated(Some(end)), 1, "")
    requires decode(created) == Change("c-1", Created("a-1", "p-1", None), 2, "")
    ensures var once := Projection.Fold(Applier(decode), map[], [early, created]);
            && once.Some? && "c-1" in once.value && once.value["c-1"].endDate == None
            && var twice := Projection.Fold(Applier(decode), once.value, [early, created]);
               twice.Some? && "c-1" in twice.value && twice.value["c-1"].endDate == Some(end)
  {
    TwoEvents(decode, map[], early, created);
    TwoEvents(decode, Projection.Fold(Applier(decode), map[], [early, created]).value, early, created);
  }

  lemma TwoEvents(decode: Event -> Decoded, t: Table, e: Event, f: Event)
    requires Apply(t, decode(e)).Some?
    ensures Projection.Fold(Applier(decode), t, [e, f]) == Apply(Apply(t, decode(e)).value, decode(f))
  {
    Projection.FoldSnoc(Applier(decode), t, [], e);
    Projection.FoldSnoc(Applier(decode), t, [e], f);
    assert [] + [e] == [e] && [e] + [f] == [e, f];
  }

  /** An end or renewal date, once written, is a date. */
  lemma {:induction false} DatesAreNeverErased(cs: seq<Decoded>, id: string)
    ensures PatchAll(cs, id).endDate.Set? ==> PatchAll(cs, id).endDate.v.Some?
    ensures PatchAll(cs, id).renewalDate.Set? ==> PatchAll(cs, id).renewalDate.v.Some?
  {
    if cs != [] { DatesAreNeverErased(cs[..|cs| - 1], id); }
  }

  lemma {:induction false} RowAfterConcat(r: Option<Row>, a: seq<Decoded>, b: seq<Decoded>, id: string)
    ensures RowAfter(r, a + b, id) == RowAfter(RowAfter(r, a, id), b, id)
  {
    if b == [] {
      assert a + b == a;
    } else {
      RowAfterConcat(r, a, b[..|b| - 1], id);
      assert (a + b)[..|a + b| - 1] == a + b[..|b| - 1];
    }
  }
}
