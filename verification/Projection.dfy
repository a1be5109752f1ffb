/**
 Rebuilding a read model from the event log in pages, and resuming it from its checkpoint
 (mysql/contract_projector.go, mysql/invoice_projector.go and their postgres twins,
 mysql/projection_checkpoint.go). T is the read-model table and apply the projector's
 applyEvent; an event it cannot decode gives None.
 */
module Projection {
  import opened Common
  import opened EventLog
  import opened Pages

  type Apply<!T> = (T, Event) -> Option<T>

  /** The table after the events, or None if one of them cannot be applied. */
  function Fold<T>(apply: Apply<T>, model: T, events: seq<Event>): Option<T> {
    if events == [] then Some(model)
    else
      var m := Fold(apply, model, events[..|events| - 1]);
      if m.None? then None else apply(m.value, events[|events| - 1])
  }

  lemma FoldSnoc<T>(apply: Apply<T>, model: T, events: seq<Event>, e: Event)
    ensures var m := Fold(apply, model, events);
            Fold(apply, model, events + [e]) == if m.None? then None else apply(m.value, e)
  {
    assert (events + [e])[..|events|] == events;
  }

  lemma {:induction false} FoldConcat<T>(apply: Apply<T>, model: T, a: seq<Event>, b: seq<Event>)
    ensures var m := Fold(apply, model, a);
            Fold(apply, model, a + b) == if m.None? then None else Fold(apply, m.value, b)
  {
    if b == [] {
      assert a + b == a;
    } else {
      var b', e := b[..|b| - 1], b[|b| - 1];
      FoldConcat(apply, model, a, b');
      assert a + b == (a + b') + [e];
      FoldSnoc(apply, model, a + b', e);
    }
  }

  /** n is the length of the longest prefix of log whose events all occurred by `until`. */
  ghost predicate IsCut(log: seq<Event>, n: nat, until: int) {
    && n <= |log|
    && (forall i | 0 <= i < n :: log[i].occurredAt <= until)
    && (n < |log| ==> log[n].occurredAt > until)
  }

  class CheckpointStore {
    var saved: map<string, int>

    constructor ()
      ensures saved == map[]
    {
      saved := map[];
    }

    method Load(name: string) returns (pos: int)
      ensures pos == if name in saved then saved[name] else 0
    {
      pos := if name in saved then saved[name] else 0;
    }

    method Save(name: string, pos: int)
      modifies this
      ensures saved == old(saved)[name := pos]
    {
      saved := saved[name := pos];
    }

    method Reset(name: string)
      modifies this
      ensures saved == old(saved) - {name}
    {
      saved := saved - {name};
    }
  }

  datatype Result = Ok | CannotApply(at: nat) | Stuck

  const BATCH := 1000

  function PositionBefore(log: seq<Event>, n: nat): int
    requires n <= |log|
  {
    if n == 0 then 0 else log[n - 1].position
  }

  /** LoadAll on the rows visible now, from the position of the last row projected. */
  method NextPage(log: seq<Event>, now: nat, n: nat, pos: int) returns (page: seq<Event>)
    requires Increasing(log) && (forall i | 0 <= i < |log| :: 0 < log[i].position)
    requires n <= now <= |log| && pos == PositionBefore(log, n)
    ensures n + |page| <= now && page == log[n..n + |page|]
    ensures page == [] ==> n == now
    ensures page != [] ==> pos < page[|page| - 1].position == PositionBefore(log, n + |page|)
  {
    hide IsPage;
    PrefixIncreases(log, now);
    hide Increasing;
    ghost var first;
    page, first := LoadAll(log[..now], pos, BATCH);
    FirstAfter(log[..now], n, first, pos);
    SliceOfPrefix(log, now, n, n + |page|);
    if page != [] {
      RowsAhead(log, n, n + |page|, pos);
    }
  }

  lemma PrefixIncreases(log: seq<Event>, k: nat)
    requires Increasing(log) && k <= |log|
    ensures Increasing(log[..k])
  {
  }

  lemma SliceOfPrefix(log: seq<Event>, k: nat, i: nat, j: nat)
    requires i <= j <= k <= |log|
    ensures log[..k][i..j] == log[i..j]
  {
  }

  lemma RowsAhead(log: seq<Event>, n: nat, m: nat, pos: int)
    requires Increasing(log) && (forall i | 0 <= i < |log| :: 0 < log[i].position)
    requires n < m <= |log| && pos == PositionBefore(log, n)
    ensures pos < log[m - 1].position
  {
  }

  method NextPageUnbounded(log: seq<Event>, n: nat, pos: int) returns (page: seq<Event>)
    requires Increasing(log) && (forall i | 0 <= i < |log| :: 0 < log[i].position)
    requires n <= |log| && pos == PositionBefore(log, n)
    ensures page == log[n..]
  {
    hide IsPage;
    ghost var first;
    page, first := LoadAll(log, pos, 0);
    FirstAfter(log, n, first, pos);
  }

  /** The first row above the position of row n-1 is row n. */
  lemma FirstAfter(log: seq<Event>, n: nat, first: nat, pos: int)
    requires Increasing(log) && n <= |log| && first <= |log|
    requires forall i | 0 <= i < |log| :: 0 < log[i].position
    requires pos == if n == 0 then 0 else log[n - 1].position
    requires forall i | 0 <= i < |log| :: i < first <==> log[i].position <= pos
    ensures first == n
  {
    assert n < |log| ==> (n < first <==> log[n].position <= pos);
    assert n > 0 ==> (n - 1 < first <==> log[n - 1].position <= pos);
    assert 0 < n < |log| ==> log[n - 1].position < log[n].position;
  }

  class Projector<!T> {
    const name: string
    const checkpoints: CheckpointStore
    const apply: Apply<T>
    const empty: T
    var model: T

    constructor (name: string, checkpoints: CheckpointStore, apply: Apply<T>, empty: T)
      ensures this.name == name && this.checkpoints == checkpoints
      ensures this.apply == apply && this.empty == empty && model == empty
    {
      this.name, this.checkpoints, this.apply, this.empty, model := name, checkpoints, apply, empty, empty;
    }

    /** The model is the fold of the first n events and the checkpoint is the position of the
        last of them, or absent. */
    ghost predicate UpTo(log: seq<Event>, n: nat)
      requires n <= |log|
      reads this, checkpoints
    {
      && Fold(apply, empty, log[..n]) == Some(model)
      && (if n == 0 then name !in checkpoints.saved
          else name in checkpoints.saved && checkpoints.saved[name] == log[n - 1].position)
    }

    method Project(e: Event) returns (ok: bool)
      modifies this
      ensures ok <==> apply(old(model), e).Some?
      ensures model == if ok then apply(old(model), e).value else old(model)
    {
      var m := apply(model, e);
      ok := m.Some?;
      if ok {
        model := m.value;
      }
    }

    /** Projects page until an event past `until`, from model = fold of log[..first]. */
    method ProjectPage(log: seq<Event>, first: nat, page: seq<Event>, until: int)
      returns (r: Result, cut: bool, n: nat)
      requires first + |page| <= |log| && page == log[first..first + |page|]
      requires Fold(apply, empty, log[..first]) == Some(model)
      modifies this
      ensures first <= n <= first + |page|
      ensures r.Ok? || r.CannotApply?
      ensures Fold(apply, empty, log[..n]) == Some(model)
      ensures forall i | first <= i < n :: log[i].occurredAt <= until
      ensures r.Ok? && !cut ==> n == first + |page|
      ensures r.Ok? && cut ==> n < |log| && log[n].occurredAt > until
      ensures r.CannotApply? ==>
                r.at == n < |log| && log[n].occurredAt <= until && Fold(apply, empty, log[..n + 1]) == None
    {
      hide Fold;
      n := first;
      for k := 0 to |page|
        invariant n == first + k
        invariant Fold(apply, empty, log[..n]) == Some(model)
        invariant forall i | first <= i < n :: log[i].occurredAt <= until
      {
        var e := page[k];
        assert e == log[n] && log[..n + 1] == log[..n] + [e];
        if e.occurredAt > until {
          return Ok, true, n;
        }
        FoldSnoc(apply, empty, log[..n], e);
        var ok := Project(e);
        if !ok {
          return CannotApply(n), false, n;
        }
        n := n + 1;
      }
      return Ok, false, n;
    }

    /** One turn of the scan: the page after row first-1, of the `now` rows visible, is projected. more:
        the scan goes on behind the page. */
    method ScanPage(log: seq<Event>, now: nat, first: nat, fromPosition: int, until: int)
      returns (r: Result, more: bool, n: nat)
      requires Increasing(log) && (forall i | 0 <= i < |log| :: 0 < log[i].position)
      requires first <= now <= |log| && fromPosition == PositionBefore(log, first)
      requires Fold(apply, empty, log[..first]) == Some(model)
      modifies this
      ensures first <= n <= now && Fold(apply, empty, log[..n]) == Some(model)
      ensures forall i | first <= i < n :: log[i].occurredAt <= until
      ensures r.Ok? && more ==> first < n
      ensures r.Ok? && !more ==> n == now || log[n].occurredAt > until
      ensures r.CannotApply? ==>
                r.at == n < |log| && log[n].occurredAt <= until && Fold(apply, empty, log[..n + 1]) == None
      ensures r != Stuck
    {
      hide Fold, Increasing;
      var page := NextPage(log, now, first, fromPosition);
      if page == [] {
        return Ok, false, first;
      }
      var cut;
      r, cut, n := ProjectPage(log, first, page, until);
      if r.CannotApply? || cut {
        return r, false, n;
      }
      if page[|page| - 1].position == fromPosition {
        return Stuck, false, n;
      }
      more := true;
    }

    /** reloadReadModels / rebuildInTx. log is the log as it will be when the rebuild ends, and
        visible(k) of its rows are committed when page k is read; seen is how many the last page
        saw. The model becomes the fold of the longest prefix of those rows within `until`, and
        the checkpoint the position of its last row. */
    method Reload(log: seq<Event>, visible: nat -> nat, until: int) returns (r: Result, n: nat, ghost seen: nat)
      requires Increasing(log) && (forall i | 0 <= i < |log| :: 0 < log[i].position)
      requires forall i, j | 0 <= i <= j :: visible(i) <= visible(j)
      modifies this, checkpoints
      ensures checkpoints.saved - {name} == old(checkpoints.saved) - {name}
      ensures Min(visible(0), |log|) <= seen <= |log|
      ensures r.Ok? ==> IsCut(log[..seen], n, until) && UpTo(log, n)
      ensures r.CannotApply? ==>
                n < |log| && (forall i | 0 <= i <= n :: log[i].occurredAt <= until)
                && Fold(apply, empty, log[..n + 1]) == None
      ensures r != Stuck
    {
      assert log[..0] == [];
      assert Fold(apply, empty, log[..0]) == Some(empty);
      hide Fold, Increasing;
      model := empty;
      checkpoints.Reset(name);
      n := 0;
      var pages, fromPosition, lastPosition := 0, 0, 0;
      seen := Min(visible(0), |log|);
      while true
        invariant 0 <= n <= seen <= |log|
        invariant seen <= Min(visible(pages), |log|)
        invariant Min(visible(0), |log|) <= seen
        invariant fromPosition == lastPosition == PositionBefore(log, n)
        invariant Fold(apply, empty, log[..n]) == Some(model)
        invariant forall i | 0 <= i < n :: log[i].occurredAt <= until
        invariant checkpoints.saved == old(checkpoints.saved) - {name}
        decreases |log| - n
      {
        var now := Min(visible(pages), |log|);
        seen := now;
        var more;
        r, more, n := ScanPage(log, now, n, fromPosition, until);
        lastPosition := PositionBefore(log, n);
        if r.CannotApply? {
          return;
        }
        if !more {
          break;
        }
        fromPosition := lastPosition;
        assert visible(pages) <= visible(pages + 1);
        pages := pages + 1;
      }
      if lastPosition > 0 {
        checkpoints.Save(name, lastPosition);
      }
      r := Ok;
    }

    /** Rebuild without an ambient transaction: on any error everything is rolled back. */
    method Rebuild(log: seq<Event>, visible: nat -> nat, until: int) returns (r: Result, n: nat, ghost seen: nat)
      requires Increasing(log) && (forall i | 0 <= i < |log| :: 0 < log[i].position)
      requires forall i, j | 0 <= i <= j :: visible(i) <= visible(j)
      modifies this, checkpoints
      ensures checkpoints.saved - {name} == old(checkpoints.saved) - {name}
      ensures Min(visible(0), |log|) <= seen <= |log|
      ensures r.Ok? ==> IsCut(log[..seen], n, until) && UpTo(log, n)
      ensures !r.Ok? ==>
                && model == old(model) && checkpoints.saved == old(checkpoints.saved)
                && n < |log| && (forall i | 0 <= i <= n :: log[i].occurredAt <= until)
                && Fold(apply, empty, log[..n + 1]) == None
    {
      var model0, saved0 := model, checkpoints.saved;
      r, n, seen := Reload(log, visible, until);
      if !r.Ok? {
        model, checkpoints.saved := model0, saved0; // rollback
      }
    }

    /** One event of the incremental consumer. */
    method ProjectNext(log: seq<Event>, k: nat, e: Event) returns (ok: bool)
      requires k < |log| && e == log[k] && UpTo(log, k)
      modifies this, checkpoints
      ensures ok ==> UpTo(log, k + 1)
      ensures !ok ==> UpTo(log, k) && Fold(apply, empty, log[..k + 1]) == None
    {
      assert log[..k + 1] == log[..k] + [e];
      FoldSnoc(apply, empty, log[..k], e);
      hide Fold;
      ok := Project(e);
      if ok {
        checkpoints.Save(name, e.position);
      }
    }

    /** What a consumer does after a rebuild: project everything after the checkpoint, saving it
        as it goes. It ends with the fold of the whole log, or at the first event that fails. */
    method Resume(log: seq<Event>, n: nat) returns (r: Result)
      requires Increasing(log) && (forall i | 0 <= i < |log| :: 0 < log[i].position)
      requires n <= |log| && UpTo(log, n)
      modifies this, checkpoints
      ensures r.Ok? ==> UpTo(log, |log|)
      ensures r.CannotApply? ==> n <= r.at < |log| && UpTo(log, r.at) && Fold(apply, empty, log[..r.at + 1]) == None
      ensures r != Stuck
    {
      var pos := checkpoints.Load(name);
      assert pos == PositionBefore(log, n);
      assert log[..|log|] == log;
      var page := NextPageUnbounded(log, n, pos);
      hide Fold, Increasing;
      for k := 0 to |page|
        invariant UpTo(log, n + k)
      {
        var ok := ProjectNext(log, n + k, page[k]);
        if !ok {
          return CannotApply(n + k);
        }
      }
      r := Ok;
    }
  }
}
