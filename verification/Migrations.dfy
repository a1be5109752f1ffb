/**
 The migration ledger of mysql/migrate.go: any number of runners share one schema_migrations
 table, and any of them can crash after any statement. MySQL commits every statement on its own,
 so each step below is durable at once.
 */
module Migrations {
  import opened SplitStatements

  datatype Status = Pending | Applied

  /** The embedded files, in the order of sort.Strings, with their contents. */
  datatype Files = Files(names: seq<string>, texts: map<string, string>) {
    ghost predicate Ok() {
      && (forall i | 0 <= i < |names| :: names[i] in texts)
      && (forall i, j | 0 <= i < j < |names| :: names[i] != names[j])
    }

    function Body(name: string): seq<string>
    {
      if name in texts then Statements(texts[name]) else []
    }
  }

  /** applied: the file names the runner read as applied when it loaded the ledger.
      Executing: names[i] is marked pending and k of its statements were sent. */
  datatype Runner =
    | Fresh
    | Scanning(i: nat, applied: set<string>)
    | Executing(i: nat, applied: set<string>, k: nat)
    | Finished
    | Stopped

  /** seeded: files an operator recorded as applied beforehand. ran: every statement sent to the
      server, by file and number, failing or not. */
  datatype World = World(
    seeded: set<string>, ledger: map<string, Status>, ran: seq<(string, nat)>, runners: map<nat, Runner>)

  datatype Move = Load | Skip | Mark | Exec | Flip | Finish | Crash

  predicate CanMove(f: Files, w: World, r: nat, m: Move) {
    r in w.runners &&
    var p := w.runners[r];
    match m
    case Load => p.Fresh?
    case Skip => p.Scanning? && p.i < |f.names| && f.names[p.i] in p.applied
    case Mark => p.Scanning? && p.i < |f.names| && f.names[p.i] !in p.applied
    case Exec => p.Executing? && p.i < |f.names| && p.k < |f.Body(f.names[p.i])|
    case Flip => p.Executing? && p.i < |f.names| && p.k == |f.Body(f.names[p.i])|
    case Finish => p.Scanning? && p.i >= |f.names|
    case Crash => true
  }

  function Moved(f: Files, w: World, r: nat, m: Move): World
    requires CanMove(f, w, r, m)
  {
    var p := w.runners[r];
    match m
    case Load =>
      // Any row that is not applied stops the run before anything else happens.
      var p' := if exists n | n in w.ledger :: w.ledger[n] != Applied then Stopped
                else Scanning(0, w.ledger.Keys);
      w.(runners := w.runners[r := p'])
    case Skip => w.(runners := w.runners[r := Scanning(p.i + 1, p.applied)])
    case Mark =>
      // filename is the primary key: a second INSERT fails and the run stops.
      var n := f.names[p.i];
      if n in w.ledger then w.(runners := w.runners[r := Stopped])
      else w.(ledger := w.ledger[n := Pending], runners := w.runners[r := Executing(p.i, p.applied, 0)])
    case Exec =>
      w.(ran := w.ran + [(f.names[p.i], p.k)], runners := w.runners[r := Executing(p.i, p.applied, p.k + 1)])
    case Flip =>
      w.(ledger := w.ledger[f.names[p.i] := Applied], runners := w.runners[r := Scanning(p.i + 1, p.applied)])
    case Finish => w.(runners := w.runners[r := Finished])
    case Crash => w.(runners := w.runners[r := Stopped])
  }

  // ---- the invariant ----

  ghost predicate AppliedIn(w: World, n: string) {
    n in w.ledger && w.ledger[n] == Applied
  }

  /** Every embedded file before names[i] is applied. */
  ghost predicate AppliedBelow(f: Files, w: World, i: nat) {
    forall j | 0 <= j < i && j < |f.names| :: AppliedIn(w, f.names[j])
  }

  ghost predicate SentUpTo(w: World, n: string, k: nat) {
    forall j | 0 <= j < k :: (n, j) in w.ran
  }

  ghost predicate RunnerOk(f: Files, w: World, p: Runner) {
    match p
    case Scanning(i, applied) =>
      AppliedBelow(f, w, i) && (forall n | n in applied :: AppliedIn(w, n))
    case Executing(i, applied, k) =>
      && i < |f.names| && f.names[i] in w.ledger && w.ledger[f.names[i]] == Pending
      && AppliedBelow(f, w, i) && (forall n | n in applied :: AppliedIn(w, n))
      && (forall j | 0 <= j < |w.ran| && w.ran[j].0 == f.names[i] :: w.ran[j].1 < k)
      && SentUpTo(w, f.names[i], k)
    case _ => true
  }

  ghost predicate RanOk(f: Files, w: World) {
    && (forall j | 0 <= j < |w.ran| :: w.ran[j].0 in w.ledger)
    && (forall j, k | 0 <= j < k < |w.ran| && w.ran[j].0 == w.ran[k].0 :: w.ran[j].1 < w.ran[k].1)
    && (forall n | AppliedIn(w, n) && n !in w.seeded :: SentUpTo(w, n, |f.Body(n)|))
    && (forall j, i | 0 <= j < |w.ran| && 0 <= i < |f.names| && w.ran[j].0 == f.names[i] :: AppliedBelow(f, w, i))
  }

  ghost predicate Inv(f: Files, w: World) {
    && f.Ok()
    && RanOk(f, w)
    && (forall r | r in w.runners :: RunnerOk(f, w, w.runners[r]))
    && (forall r, s | r in w.runners && s in w.runners && r != s
                      && w.runners[r].Executing? && w.runners[s].Executing? ::
          w.runners[r].i != w.runners[s].i)
  }

  lemma MoveKeepsRan(f: Files, w: World, r: nat, m: Move)
    requires Inv(f, w) && CanMove(f, w, r, m)
    ensures RanOk(f, Moved(f, w, r, m))
  {
    var w' := Moved(f, w, r, m);
    assert RunnerOk(f, w, w.runners[r]);
    forall j, i | 0 <= j < |w'.ran| && 0 <= i < |f.names| && w'.ran[j].0 == f.names[i]
      ensures AppliedBelow(f, w', i)
    {
      if j < |w.ran| { assert AppliedBelow(f, w, i); }
    }
  }

  lemma MoveKeepsRunner(f: Files, w: World, r: nat, m: Move, s: nat)
    requires Inv(f, w) && CanMove(f, w, r, m) && s in w.runners
    ensures RunnerOk(f, Moved(f, w, r, m), Moved(f, w, r, m).runners[s])
  {
    assert RunnerOk(f, w, w.runners[r]) && RunnerOk(f, w, w.runners[s]);
    if r != s {
      MoveKeepsOther(f, w, r, m, s);
    }
  }

  lemma MoveKeepsOther(f: Files, w: World, r: nat, m: Move, s: nat)
    requires Inv(f, w) && CanMove(f, w, r, m) && s in w.runners && r != s
    ensures RunnerOk(f, Moved(f, w, r, m), w.runners[s])
  {
    assert RunnerOk(f, w, w.runners[r]) && RunnerOk(f, w, w.runners[s]);
    assert w.runners[r].Executing? && w.runners[s].Executing? ==> w.runners[r].i != w.runners[s].i;
  }

  lemma MoveKeepsInv(f: Files, w: World, r: nat, m: Move)
    requires Inv(f, w) && CanMove(f, w, r, m)
    ensures Inv(f, Moved(f, w, r, m))
    ensures forall n | AppliedIn(w, n) :: AppliedIn(Moved(f, w, r, m), n)
    ensures w.ran <= Moved(f, w, r, m).ran
  {
    var w' := Moved(f, w, r, m);
    MoveKeepsRan(f, w, r, m);
    forall s | s in w'.runners ensures RunnerOk(f, w', w'.runners[s]) {
      MoveKeepsRunner(f, w, r, m, s);
    }
    assert RunnerOk(f, w, w.runners[r]);
    forall s | s in w.runners ensures RunnerOk(f, w, w.runners[s]) {}
  }

  // ---- runs ----

  /** Nothing ran yet; rows seeded for an existing database are all applied. */
  ghost predicate Start(f: Files, w: World) {
    && f.Ok() && w.ran == [] && w.ledger.Keys == w.seeded
    && (forall n | n in w.ledger :: w.ledger[n] == Applied)
    && (forall r | r in w.runners :: w.runners[r].Fresh?)
  }

  ghost predicate IsRun(f: Files, run: seq<World>, who: seq<nat>, moves: seq<Move>) {
    && |run| == |moves| + 1 == |who| + 1
    && Start(f, run[0])
    && (forall i | 0 <= i < |moves| ::
          CanMove(f, run[i], who[i], moves[i]) && run[i + 1] == Moved(f, run[i], who[i], moves[i]))
  }

  lemma {:induction false} RunKeepsInv(f: Files, run: seq<World>, who: seq<nat>, moves: seq<Move>, i: nat)
    requires IsRun(f, run, who, moves) && i < |run|
    ensures Inv(f, run[i])
  {
    if i > 0 {
      RunKeepsInv(f, run, who, moves, i - 1);
      MoveKeepsInv(f, run[i - 1], who[i - 1], moves[i - 1]);
    }
  }

  /** Whatever crashes, and however many runners compete, no statement of any file is ever sent
      twice, each file's statements are sent in order, and only after every lower file is applied. */
  lemma EachFileRunsOnceInOrder(f: Files, run: seq<World>, who: seq<nat>, moves: seq<Move>, t: nat, j: nat, k: nat)
    requires IsRun(f, run, who, moves) && t < |run|
    requires j < k < |run[t].ran|
    ensures run[t].ran[j] != run[t].ran[k]
    ensures run[t].ran[j].0 == run[t].ran[k].0 ==> run[t].ran[j].1 < run[t].ran[k].1
    ensures forall b | 0 <= b < |f.names| && run[t].ran[k].0 == f.names[b] :: AppliedBelow(f, run[t], b)
  {
    RunKeepsInv(f, run, who, moves, t);
  }

  /** A file that is marked applied, and was not seeded so, has had all the statements of its text sent. */
  lemma AppliedMeansFullyRun(f: Files, run: seq<World>, who: seq<nat>, moves: seq<Move>, t: nat, n: string)
    requires IsRun(f, run, who, moves) && t < |run|
    requires AppliedIn(run[t], n) && n !in run[t].seeded && n in f.texts
    ensures forall j: nat | j < |Statements(f.texts[n])| :: (n, j) in run[t].ran
  {
    RunKeepsInv(f, run, who, moves, t);
  }

  /** n is marked pending and nobody is working on it any more. */
  ghost predicate HalfRun(f: Files, w: World, n: string) {
    n in w.ledger && w.ledger[n] == Pending
    && forall r | r in w.runners && w.runners[r].Executing? ::
         w.runners[r].i < |f.names| ==> f.names[w.runners[r].i] != n
  }

  lemma MoveKeepsHalfRun(f: Files, w: World, r: nat, m: Move, n: string)
    requires CanMove(f, w, r, m) && HalfRun(f, w, n)
    ensures HalfRun(f, Moved(f, w, r, m), n)
  {
  }

  ghost predicate KeptOut(w: World, r: nat) {
    r in w.runners && (w.runners[r].Fresh? || w.runners[r].Stopped?)
  }

  lemma HalfRunKeepsOut(f: Files, w: World, r: nat, m: Move, n: string, s: nat)
    requires CanMove(f, w, r, m) && HalfRun(f, w, n) && KeptOut(w, s)
    ensures KeptOut(Moved(f, w, r, m), s)
    ensures r == s ==> Moved(f, w, r, m).(runners := w.runners) == w
  {
    assert exists n | n in w.ledger :: w.ledger[n] != Applied;
  }

  lemma {:induction false} HalfRunStays(
      f: Files, run: seq<World>, who: seq<nat>, moves: seq<Move>, s: nat, t: nat, n: string)
    requires IsRun(f, run, who, moves) && s <= t < |run| && HalfRun(f, run[s], n)
    ensures HalfRun(f, run[t], n)
  {
    if s < t {
      HalfRunStays(f, run, who, moves, s, t - 1, n);
      MoveKeepsHalfRun(f, run[t - 1], who[t - 1], moves[t - 1], n);
    }
  }

  /** A file left half-run stops every runner that starts afterwards before it has sent or marked
      anything: it is only ever fresh or stopped, and its own moves change nothing. */
  lemma {:induction false} HalfRunStopsLaterRuns(
      f: Files, run: seq<World>, who: seq<nat>, moves: seq<Move>, s: nat, t: nat, n: string, r: nat)
    requires IsRun(f, run, who, moves) && s <= t < |run| && HalfRun(f, run[s], n)
    requires r in run[s].runners && run[s].runners[r].Fresh?
    ensures KeptOut(run[t], r)
    ensures s < t && who[t - 1] == r ==> run[t].(runners := run[t - 1].runners) == run[t - 1]
  {
    if s < t {
      HalfRunStopsLaterRuns(f, run, who, moves, s, t - 1, n, r);
      HalfRunStays(f, run, who, moves, s, t - 1, n);
      HalfRunKeepsOut(f, run[t - 1], who[t - 1], moves[t - 1], n, r);
    }
  }
}
