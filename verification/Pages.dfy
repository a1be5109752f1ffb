/** EventStore.LoadAll (mysql/eventstore.go, postgres/eventstore.go): one page of the log. */
module Pages {
  import opened EventLog

  /** SELECT ... WHERE global_position > ? ORDER BY global_position ASC LIMIT ? on the committed
      rows, as a set of visible rows: nothing is assumed here about the order of commits.
      A limit of 0 stands for no limit. */
  ghost predicate IsPage(page: seq<Event>, log: seq<Event>, pos: int, limit: nat) {
    && Increasing(page)
    && (forall e | e in page :: e in log && pos < e.position)
    && (limit > 0 ==> |page| <= limit)
    && (forall e, p | e in log && pos < e.position && e !in page && p in page :: p.position < e.position)
    && (forall e | e in log && pos < e.position && e !in page :: limit > 0 && |page| == limit)
  }

  /** In a log whose positions increase, a page is a contiguous slice. */
  lemma SliceIsPage(log: seq<Event>, k: nat, end: nat, pos: int, limit: nat)
    requires Increasing(log) && k <= end <= |log|
    requires forall i | 0 <= i < |log| :: i < k <==> log[i].position <= pos
    requires end == |log| || (limit > 0 && end == k + limit)
    requires limit > 0 ==> end <= k + limit
    ensures IsPage(log[k..end], log, pos, limit)
  {
    var page := log[k..end];
    assert forall i | 0 <= i < |page| :: page[i] == log[k + i];
    forall e | e in log && pos < e.position && e !in page
      ensures end < |log| && log[end].position <= e.position
    {
      var i :| 0 <= i < |log| && log[i] == e;
      assert forall j | k <= j < end :: page[j - k] == log[j];
    }
    forall p | p in page ensures p in log && pos < p.position && (end < |log| ==> p.position < log[end].position) {
      var i :| 0 <= i < |page| && page[i] == p;
    }
  }

  /** The rows above pos in position order, at most limit of them when limit > 0. */
  method LoadAll(log: seq<Event>, pos: int, limit: int) returns (page: seq<Event>, ghost first: nat)
    requires Increasing(log)
    ensures IsPage(page, log, pos, if limit > 0 then limit else 0)
    ensures first + |page| <= |log| && page == log[first..first + |page|]
    ensures forall i | 0 <= i < |log| :: i < first <==> log[i].position <= pos
    ensures |page| == if 0 < limit < |log| - first then limit else |log| - first
  {
    var k := 0;
    while k < |log| && log[k].position <= pos
      invariant 0 <= k <= |log|
      invariant forall i | 0 <= i < k :: log[i].position <= pos
    {
      k := k + 1;
    }
    var end := if 0 < limit < |log| - k then k + limit else |log|;
    SliceIsPage(log, k, end, pos, if limit > 0 then limit else 0);
    page, first := log[k..end], k;
  }
}
