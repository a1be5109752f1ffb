/**
 Rehydrating a contract, now and as of a past instant: FindByID and FindByIDAsOf of
 mysql/contract_repo.go and postgres/contract_repo.go. The aggregate belongs to the core:
 `step` is its uninterpreted transition on one event, S its state.
 */
module ContractRepo {
  import opened Common
  import opened EventLog

  type Time = int

  datatype Snapshot<S> = Snapshot(version: int, state: S, createdAt: Time)

  datatype Aggregate<S> = Aggregate(state: S, version: int)

  function Replay<S>(step: (S, Event) -> S, s: S, events: seq<Event>): S {
    if events == [] then s
    else step(Replay(step, s, events[..|events| - 1]), events[|events| - 1])
  }

  lemma {:induction false} ReplayConcat<S>(step: (S, Event) -> S, s: S, a: seq<Event>, b: seq<Event>)
    ensures Replay(step, s, a + b) == Replay(step, Replay(step, s, a), b)
  {
    if b == [] {
      assert a + b == a;
    } else {
      ReplayConcat(step, s, a, b[..|b| - 1]);
      assert (a + b)[..|a + b| - 1] == a + b[..|b| - 1];
    }
  }

  lemma ReplayNone<S>(step: (S, Event) -> S, s: S, events: seq<Event>)
    ensures Replay(step, s, events[..0]) == s && Replay(step, s, []) == s
  {
  }

  /** The events of one stream in version order: versions 1..n. */
  ghost predicate IsStream(stream: seq<Event>) {
    forall i | 0 <= i < |stream| :: stream[i].version == i + 1
  }

  /** A faithful snapshot is the replay of the events up to its version. */
  ghost predicate Faithful<S>(step: (S, Event) -> S, init: S, stream: seq<Event>, snap: Snapshot<S>) {
    1 <= snap.version <= |stream| && snap.state == Replay(step, init, stream[..snap.version])
  }

  /** SELECT ... WHERE occurred_at <= ? ORDER BY version ASC */
  function Visible(stream: seq<Event>, asOf: Time): seq<Event> {
    if stream == [] then []
    else
      var rest := Visible(stream[..|stream| - 1], asOf);
      var e := stream[|stream| - 1];
      if e.occurredAt <= asOf then rest + [e] else rest
  }

  /** The events above a version. */
  function Newer(events: seq<Event>, v: int): seq<Event> {
    if events == [] then []
    else
      var rest := Newer(events[..|events| - 1], v);
      var e := events[|events| - 1];
      if e.version > v then rest + [e] else rest
  }

  lemma {:induction false} NewerOfPrefix(stream: seq<Event>, m: nat, v: nat)
    requires IsStream(stream) && m <= |stream|
    ensures Newer(stream[..m], v) == if v <= m then stream[v..m] else []
  {
    if m > 0 {
      assert stream[..m][..m - 1] == stream[..m - 1];
      NewerOfPrefix(stream, m - 1, v);
    }
  }

  lemma {:induction false} VisibleIn(stream: seq<Event>, asOf: Time, e: Event)
    ensures e in Visible(stream, asOf) <==> e in stream && e.occurredAt <= asOf
  {
    if stream != [] {
      var last := stream[|stream| - 1];
      VisibleIn(stream[..|stream| - 1], asOf, e);
      assert stream == stream[..|stream| - 1] + [last];
    }
  }

  lemma {:induction false} NewerAllVisible(stream: seq<Event>, asOf: Time, v: nat)
    requires IsStream(stream) && v <= |stream|
    requires forall i | 0 <= i < v :: stream[i].occurredAt <= asOf
    ensures stream[..v] + Newer(Visible(stream, asOf), v) == Visible(stream, asOf)
  {
    var n := |stream|;
    if v == n {
      AllVisible(stream, asOf);
      assert stream[..n] == stream;
      NewerOfPrefix(stream, n, v);
    } else {
      assert stream[..n - 1][..v] == stream[..v];
      NewerAllVisible(stream[..n - 1], asOf, v);
    }
  }

  lemma {:induction false} AllVisible(stream: seq<Event>, asOf: Time)
    requires forall i | 0 <= i < |stream| :: stream[i].occurredAt <= asOf
    ensures Visible(stream, asOf) == stream
  {
    if stream != [] {
      AllVisible(stream[..|stream| - 1], asOf);
    }
  }

  /** The events a reconstruction from a snapshot of version v replays, the snapshot's included. */
  function Replayed(stream: seq<Event>, asOf: Time, v: nat): seq<Event>
    requires v <= |stream|
  {
    stream[..v] + Newer(Visible(stream, asOf), v)
  }

  /** Starting from a snapshot replays exactly the visible events if and only if the snapshot
      covers no event that occurred after asOf. Nothing is assumed about the clocks. */
  lemma ExactWhenNothingHides(stream: seq<Event>, asOf: Time, v: nat)
    requires IsStream(stream) && v <= |stream|
    ensures Replayed(stream, asOf, v) == Visible(stream, asOf)
       <==> forall i | 0 <= i < v :: stream[i].occurredAt <= asOf
  {
    if forall i | 0 <= i < v :: stream[i].occurredAt <= asOf {
      NewerAllVisible(stream, asOf, v);
    } else {
      var i :| 0 <= i < v && stream[i].occurredAt > asOf;
      assert Replayed(stream, asOf, v)[i] == stream[i];
      VisibleIn(stream, asOf, stream[i]);
    }
  }

  /** The guard alone does not rule a hidden event out: here is a faithful snapshot, created before the
      asked instant and not above the highest visible version, from which that event is replayed. */
  lemma GuardAdmitsHiddenEvent<S>(step: (S, Event) -> S, init: S, e1: Event, e2: Event, e3: Event)
    returns (snap: Snapshot<S>)
    requires e1.version == 1 && e2.version == 2 && e3.version == 3
    requires e1.occurredAt == 10 && e2.occurredAt == 99 && e3.occurredAt == 20
    ensures var stream := [e1, e2, e3];
            && IsStream(stream) && Visible(stream, 50) == [e1, e3]
            && Faithful(step, init, stream, snap)
            && snap.createdAt < 50 && snap.version <= e3.version
            && Replayed(stream, 50, snap.version) == [e1, e2, e3]
  {
    var stream := [e1, e2, e3];
    snap := Snapshot(3, Replay(step, init, stream), 40);
    assert stream[..3] == stream;
    HiddenSecond(e1, e2, e3);
    hide Visible, Newer, Replay;
  }

  lemma HiddenSecond(e1: Event, e2: Event, e3: Event)
    requires e1.version == 1 && e2.version == 2 && e3.version == 3
    requires e1.occurredAt == 10 && e2.occurredAt == 99 && e3.occurredAt == 20
    ensures Visible([e1, e2, e3], 50) == [e1, e3] && Newer([e1, e3], 3) == []
  {
    assert [e1, e2, e3][..2] == [e1, e2] && [e1, e2][..1] == [e1] && [e1][..0] == [];
    assert Visible([e1], 50) == [e1] && Visible([e1, e2], 50) == [e1];
    assert [e1, e3][..1] == [e1] && Newer([e1], 3) == [];
  }

  // ---- the code ----

  /** SELECT ... WHERE created_at < ? ORDER BY created_at DESC, version DESC LIMIT 1 */
  method LoadSnapshotBefore<S>(snaps: seq<Snapshot<S>>, before: Time) returns (r: Option<Snapshot<S>>)
    ensures r.None? <==> forall i | 0 <= i < |snaps| :: snaps[i].createdAt >= before
    ensures r.Some? ==>
              && r.value in snaps && r.value.createdAt < before
              && forall i | 0 <= i < |snaps| && snaps[i].createdAt < before ::
                   snaps[i].createdAt < r.value.createdAt
                   || (snaps[i].createdAt == r.value.createdAt && snaps[i].version <= r.value.version)
  {
    r := None;
    for k := 0 to |snaps|
      invariant r.None? <==> forall i | 0 <= i < k :: snaps[i].createdAt >= before
      invariant r.Some? ==>
        && r.value in snaps && r.value.createdAt < before
        && forall i | 0 <= i < k && snaps[i].createdAt < before ::
             snaps[i].createdAt < r.value.createdAt
             || (snaps[i].createdAt == r.value.createdAt && snaps[i].version <= r.value.version)
    {
      var s := snaps[k];
      if s.createdAt < before &&
         (r.None? || s.createdAt > r.value.createdAt ||
          (s.createdAt == r.value.createdAt && s.version > r.value.version)) {
        r := Some(s);
      }
    }
  }

  /** SELECT ... ORDER BY version DESC LIMIT 1 */
  method LoadSnapshot<S>(snaps: seq<Snapshot<S>>) returns (r: Option<Snapshot<S>>)
    ensures r.None? <==> snaps == []
    ensures r.Some? ==> r.value in snaps && forall i | 0 <= i < |snaps| :: snaps[i].version <= r.value.version
  {
    r := None;
    for k := 0 to |snaps|
      invariant r.None? <==> k == 0
      invariant r.Some? ==> r.value in snaps && forall i | 0 <= i < k :: snaps[i].version <= r.value.version
    {
      if r.None? || snaps[k].version > r.value.version {
        r := Some(snaps[k]);
      }
    }
  }

  /** A new aggregate, restored from a snapshot if there is one. */
  method Restore<S>(step: (S, Event) -> S, init: S, stream: seq<Event>, snap: Option<Snapshot<S>>)
    returns (agg: Aggregate<S>)
    requires snap.Some? ==> Faithful(step, init, stream, snap.value)
    ensures agg.version == if snap.Some? then snap.value.version else 0
    ensures snap.Some? ==> 1 <= agg.version
    ensures 0 <= agg.version <= |stream| && agg.state == Replay(step, init, stream[..agg.version])
  {
    agg := if snap.Some? then Aggregate(snap.value.state, snap.value.version) else Aggregate(init, 0);
    ReplayNone(step, init, stream);
  }

  /** LoadFromHistory: the events one after the other. */
  method LoadHistory<S>(step: (S, Event) -> S, agg: Aggregate<S>, events: seq<Event>) returns (r: Aggregate<S>)
    ensures r.state == Replay(step, agg.state, events)
    ensures r.version == if events == [] then agg.version else events[|events| - 1].version
  {
    r := agg;
    assert events[..0] == [];
    for k := 0 to |events|
      invariant r.state == Replay(step, agg.state, events[..k])
      invariant r.version == if k == 0 then agg.version else events[k - 1].version
    {
      assert events[..k + 1][..k] == events[..k];
      r := Aggregate(step(r.state, events[k]), events[k].version);
    }
    assert events[..|events|] == events;
  }

  /** FindByID: latest snapshot plus tail is the replay of the whole stream; not found exactly
      when the stream has no event. */
  method FindByID<S>(step: (S, Event) -> S, init: S, stream: seq<Event>, snaps: seq<Snapshot<S>>)
    returns (r: Option<Aggregate<S>>)
    requires IsStream(stream)
    requires forall i | 0 <= i < |snaps| :: Faithful(step, init, stream, snaps[i])
    ensures r == if stream == [] then None else Some(Aggregate(Replay(step, init, stream), |stream|))
  {
    hide Replay, Faithful, Newer;
    var snap := LoadSnapshot(snaps);
    var agg := Restore(step, init, stream, snap);
    assert stream[..|stream|] == stream;
    NewerOfPrefix(stream, |stream|, agg.version);
    var events := Newer(stream, agg.version);
    if snap.None? && events == [] {
      return None;
    }
    ReplayConcat(step, init, stream[..agg.version], events);
    assert stream == stream[..agg.version] + events;
    agg := LoadHistory(step, agg, events);
    r := Some(agg);
  }

  lemma {:induction false} VisibleVersions(stream: seq<Event>, asOf: Time)
    requires IsStream(stream)
    ensures forall i | 0 <= i < |Visible(stream, asOf)| :: 1 <= Visible(stream, asOf)[i].version <= |stream|
    ensures forall i, j | 0 <= i < j < |Visible(stream, asOf)| ::
              Visible(stream, asOf)[i].version < Visible(stream, asOf)[j].version
  {
    if stream != [] { VisibleVersions(stream[..|stream| - 1], asOf); }
  }

  lemma NewerSnoc(events: seq<Event>, k: nat, v: int)
    requires k <= |events|
    ensures k == 0 ==> Newer(events[..k], v) == []
    ensures k < |events| ==>
              Newer(events[..k + 1], v)
                == if events[k].version > v then Newer(events[..k], v) + [events[k]] else Newer(events[..k], v)
  {
    if k < |events| { assert events[..k + 1][..k] == events[..k]; }
  }

  /** In version order, the events above v are a tail. */
  lemma {:induction false} NewerIsTail(events: seq<Event>, v: int)
    requires forall i, j | 0 <= i < j < |events| :: events[i].version < events[j].version
    ensures Newer(events, v) != [] <==> events != [] && events[|events| - 1].version > v
    ensures Newer(events, v) != [] ==> Newer(events, v)[|Newer(events, v)| - 1] == events[|events| - 1]
  {
    if events != [] { NewerIsTail(events[..|events| - 1], v); }
  }

  lemma PrefixReplaysAll(stream: seq<Event>, asOf: Time, v: nat)
    requires IsStream(stream) && Visible(stream, asOf) <= stream && v <= |Visible(stream, asOf)|
    ensures Replayed(stream, asOf, v) == Visible(stream, asOf)
  {
    var m := |Visible(stream, asOf)|;
    assert Visible(stream, asOf) == stream[..m];
    NewerOfPrefix(stream, m, v);
  }

  /** The loop that finds the version horizon. */
  method HighestVersion(events: seq<Event>) returns (highest: int)
    requires forall i | 0 <= i < |events| :: events[i].version > 0
    ensures forall i | 0 <= i < |events| :: events[i].version <= highest
    ensures if events == [] then highest == 0 else exists i | 0 <= i < |events| :: events[i].version == highest
  {
    highest := 0;
    for k := 0 to |events|
      invariant forall i | 0 <= i < k :: events[i].version <= highest
      invariant if k == 0 then highest == 0 else exists i | 0 <= i < k :: events[i].version == highest
    {
      if events[k].version > highest {
        highest := events[k].version;
      }
    }
  }

  /** The loop that drops the events a snapshot covers. */
  method EventsAbove(events: seq<Event>, v: int) returns (relevant: seq<Event>)
    ensures relevant == Newer(events, v)
  {
    relevant := [];
    NewerSnoc(events, 0, v);
    hide Newer;
    for k := 0 to |events|
      invariant relevant == Newer(events[..k], v)
    {
      NewerSnoc(events, k, v);
      if events[k].version > v {
        relevant := relevant + [events[k]];
      }
    }
    assert events[..|events|] == events;
  }

  ghost predicate IsLatestBefore<S>(snaps: seq<Snapshot<S>>, before: Time, i: nat) {
    && i < |snaps| && snaps[i].createdAt < before
    && forall j | 0 <= j < |snaps| && snaps[j].createdAt < before ::
         snaps[j].createdAt < snaps[i].createdAt
         || (snaps[j].createdAt == snaps[i].createdAt && snaps[j].version <= snaps[i].version)
  }

  /** FindByIDAsOf. The latest snapshot created before asOf is used if it does not exceed the highest
      visible version, and none otherwise (v == 0); the result is the replay of the snapshot's events and then of
      the visible events above it. It is not found exactly when no event is visible. */
  method FindByIDAsOf<S>(step: (S, Event) -> S, init: S, stream: seq<Event>, snaps: seq<Snapshot<S>>, asOf: Time)
    returns (r: Option<Aggregate<S>>, ghost v: nat)
    requires IsStream(stream)
    requires forall i | 0 <= i < |snaps| :: Faithful(step, init, stream, snaps[i])
    ensures r.None? <==> Visible(stream, asOf) == []
    ensures v <= |stream|
    ensures v > 0 ==> exists i | 0 <= i < |snaps| :: snaps[i].version == v && snaps[i].createdAt < asOf
    ensures forall i: nat | IsLatestBefore(snaps, asOf, i) ::
              var events := Visible(stream, asOf);
              v == if events != [] && snaps[i].version <= events[|events| - 1].version then snaps[i].version else 0
    ensures r.Some? ==> r.value.state == Replay(step, init, Replayed(stream, asOf, v))
    ensures r.Some? ==> v <= r.value.version == Visible(stream, asOf)[|Visible(stream, asOf)| - 1].version
    ensures r.Some? && Visible(stream, asOf) <= stream ==>
              r.value == Aggregate(Replay(step, init, Visible(stream, asOf)), |Visible(stream, asOf)|)
  {
    hide Visible, Newer, Replay, Faithful;
    var events := Visible(stream, asOf);
    VisibleVersions(stream, asOf);
    var maxVersionAsOf := HighestVersion(events);
    var snap := LoadSnapshotBefore(snaps, asOf);
    var useSnapshot := snap.Some? && snap.value.version <= maxVersionAsOf;
    var agg := Restore(step, init, stream, if useSnapshot then snap else None);
    v := agg.version;
    var relevant := EventsAbove(events, agg.version);
    NewerIsTail(events, v);
    if !useSnapshot && relevant == [] {
      return None, v;
    }
    ReplayConcat(step, init, stream[..v], relevant);
    agg := LoadHistory(step, agg, relevant);
    if Visible(stream, asOf) <= stream {
      PrefixReplaysAll(stream, asOf, v);
    }
    r := Some(agg);
  }
}
