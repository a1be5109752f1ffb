/**
 Any number of writers of one invoice (mysql/invoice_repo.go, postgres/invoice_repo.go), under each of
 the two protections the repository has: the lock_version guard of Save alone, or the FOR UPDATE read
 of FindByID alone.

 The domain is the core's: all that is known of an edit is that a content change raises the version
 and that a finalized invoice never becomes a draft again.
 */
module InvoiceWriters {
  import opened Common

  datatype Content = Content(finalized: bool, body: string)

  datatype Stored = Stored(content: Content, lockVersion: int)

  /** Which protection is in force. */
  datatype Protection = LockVersionGuard | ForUpdate

  datatype Stage = Editing | Probing | Inserting

  /** brandNew: built by the caller, never loaded (its loaded version is 0). adrift: its last save got as far
      as SetVersion, and then the transaction did not commit. base: the content its loaded version stands
      for, that is the content it was loaded, built or last saved with. draft: it was not finalized when it
      was loaded, built or last committed. */
  datatype Writer = Writer(
    brandNew: bool, adrift: bool, draft: bool, loaded: int, base: Content, content: Content, version: int,
    stage: Stage)

  /** One committed write, with what its writer was; created: it INSERTed the row. */
  datatype Commit = Commit(created: bool, adrift: bool, draft: bool, base: Content, stored: Stored)

  /** commits never empties once the row exists; the row is the last of them. */
  datatype State = State(commits: seq<Commit>, lock: Option<nat>, writers: map<nat, Writer>)

  function Row(s: State): Option<Stored> {
    if s.commits == [] then None else Some(s.commits[|s.commits| - 1].stored)
  }

  /** SaveLost: a save whose statements went through and whose transaction did not commit, be it that the
      COMMIT failed or that the caller rolled its ambient transaction back; the entity is saved or edited
      further without being loaded again. (Under FOR UPDATE the lock is lost with the transaction; there
      such an entity just leaves.) */
  datatype Step =
    | Create(w: nat, content: Content)
    | Load(w: nat)
    | Edit(w: nat, content: Content, version: int)
    | SaveUpdate(w: nat)
    | Probe(w: nat, sees: bool)
    | SaveInsert(w: nat)
    | SaveLost(w: nat)
    | Leave(w: nat)

  predicate EditOk(x: Writer, content: Content, version: int) {
    && version >= x.version
    && (content != x.content ==> version > x.version)
    && (x.content.finalized ==> content.finalized)
  }

  /** Under FOR UPDATE every saver comes in by Load: a caller who saves what it did not load in the same
      transaction is outside that protection. */
  predicate CanStep(p: Protection, s: State, b: Step) {
    match b
    case Create(w, _) => w !in s.writers && p.LockVersionGuard?
    case Load(w) => w !in s.writers && Row(s).Some? && (p.ForUpdate? ==> s.lock == None)
    case Edit(w, content, version) =>
      w in s.writers && s.writers[w].stage.Editing? && EditOk(s.writers[w], content, version)
    case SaveUpdate(w) => w in s.writers && s.writers[w].stage.Editing?
    case Probe(w, sees) => w in s.writers && s.writers[w].stage.Probing? && (sees ==> Row(s).Some?)
    case SaveInsert(w) => w in s.writers && s.writers[w].stage.Inserting?
    case SaveLost(w) =>
      w in s.writers && p.LockVersionGuard?
      && if Row(s).Some? then s.writers[w].stage.Editing? && Matches(p, s, s.writers[w])
         else s.writers[w].stage.Inserting?
    case Leave(w) => w in s.writers
  }

  /** The row matches the UPDATE: the version guard when it is in force, else the id alone. */
  predicate Matches(p: Protection, s: State, x: Writer) {
    Row(s).Some? && (p.LockVersionGuard? ==> Row(s).value.lockVersion == x.loaded)
  }

  function Dropped(s: State, w: nat): State {
    s.(writers := s.writers - {w}, lock := if s.lock == Some(w) then None else s.lock)
  }

  function WithStage(s: State, w: nat, stage: Stage): State
    requires w in s.writers
  {
    s.(writers := s.writers[w := s.writers[w].(stage := stage)])
  }

  /** SetVersion makes the saved version the entity's new baseline, whether or not a commit follows. */
  function Rebased(x: Writer, adrift: bool): Writer {
    x.(brandNew := x.brandNew && adrift, adrift := adrift, draft := if adrift then x.draft else !x.content.finalized,
       loaded := x.version, base := x.content, stage := Editing)
  }

  function Committed(s: State, w: nat, created: bool): State
    requires w in s.writers
  {
    var x := s.writers[w];
    s.(commits := s.commits + [Commit(created, x.adrift, x.draft, x.base, Stored(x.content, x.version))],
       writers := s.writers[w := Rebased(x, false)])
  }

  function After(p: Protection, s: State, b: Step): State
    requires CanStep(p, s, b)
  {
    match b
    case Create(w, c) => s.(writers := s.writers[w := Writer(true, false, !c.finalized, 0, c, c, 0, Editing)])
    case Load(w) =>
      var r := Row(s).value;
      var x := Writer(false, false, !r.content.finalized, r.lockVersion, r.content, r.content, r.lockVersion, Editing);
      s.(writers := s.writers[w := x], lock := if p.ForUpdate? then Some(w) else s.lock)
    case Edit(w, c, v) => s.(writers := s.writers[w := s.writers[w].(content := c, version := v)])
    case SaveUpdate(w) => if Matches(p, s, s.writers[w]) then Committed(s, w, false) else WithStage(s, w, Probing)
    case Probe(w, sees) =>
      // A probe that sees the row means a version conflict; one that misses it may be stale.
      WithStage(s, w, if sees then Editing else Inserting)
    case SaveInsert(w) =>
      // A duplicate PRIMARY key means a version conflict, too.
      if Row(s).Some? then WithStage(s, w, Editing) else Committed(s, w, true)
    case SaveLost(w) => s.(writers := s.writers[w := Rebased(s.writers[w], true)])
    case Leave(w) => Dropped(s, w)
  }

  /** An entity whose loaded version never came from the row is saved over the row: one that was never
      loaded, or one whose last save did not commit. */
  predicate Clobbers(p: Protection, s: State, b: Step) {
    && b.SaveUpdate? && b.w in s.writers && Matches(p, s, s.writers[b.w])
    && (s.writers[b.w].brandNew || s.writers[b.w].adrift)
  }

  /** Such a save, where the row holds something else than the entity takes it to hold. */
  predicate Destroys(p: Protection, s: State, b: Step) {
    Clobbers(p, s, b) && s.writers[b.w].base != Row(s).value.content
  }

  // ---- the invariant ----

  /** Commit k replaced exactly what commit k-1 left there, as far as its writer knew. */
  predicate FromPrevious(commits: seq<Commit>, k: nat)
    requires k < |commits|
  {
    if k == 0 then commits[k].created else !commits[k].created && commits[k].base == commits[k - 1].stored.content
  }

  ghost predicate AllFromPrevious(commits: seq<Commit>) {
    forall k | 0 <= k < |commits| :: FromPrevious(commits, k)
  }

  predicate Finalizes(c: Commit) { c.draft && c.stored.content.finalized && !c.created }

  /** What the domain alone says of a writer, and so of its commits. */
  predicate Lawful(adrift: bool, draft: bool, base: Content, content: Content) {
    && (base.finalized ==> content.finalized)
    && (!draft ==> base.finalized)
    && (!adrift ==> (draft <==> !base.finalized))
  }

  /** Under the guard: only the first commit creates, lock versions never fall, and a commit that keeps the
      version keeps the content its writer knew. */
  predicate Ordered(commits: seq<Commit>, k: nat)
    requires k < |commits|
  {
    var c := commits[k];
    && (c.created <==> k == 0)
    && c.stored.lockVersion >= 0
    && (k > 0 ==>
          && commits[k - 1].stored.lockVersion <= c.stored.lockVersion
          && (commits[k - 1].stored.lockVersion == c.stored.lockVersion ==> c.stored.content == c.base))
  }

  ghost predicate NoneAdrift(commits: seq<Commit>) {
    forall k | 0 <= k < |commits| :: !commits[k].adrift
  }

  /** While no entity adrift was saved: from a positive version on, each commit was computed from the one
      before, and a finalization leaves a positive version. */
  predicate Tied(commits: seq<Commit>, k: nat)
    requires k < |commits|
  {
    && (Finalizes(commits[k]) ==> commits[k].stored.lockVersion > 0)
    && (k > 0 && commits[k - 1].stored.lockVersion > 0 ==> commits[k].base == commits[k - 1].stored.content)
  }

  ghost predicate CommitsOk(p: Protection, commits: seq<Commit>) {
    && (forall k | 0 <= k < |commits| ::
          Lawful(commits[k].adrift, commits[k].draft, commits[k].base, commits[k].stored.content))
    && match p
       case LockVersionGuard =>
         && (forall k | 0 <= k < |commits| :: Ordered(commits, k))
         && (NoneAdrift(commits) ==> forall k | 0 <= k < |commits| :: Tied(commits, k))
       case ForUpdate => AllFromPrevious(commits) && NoneAdrift(commits)
  }

  ghost predicate Left(stored: Stored, commits: seq<Commit>) {
    exists k | 0 <= k < |commits| :: commits[k].stored == stored
  }

  ghost predicate WriterOk(p: Protection, s: State, w: nat)
    requires w in s.writers
  {
    var x := s.writers[w];
    && x.loaded <= x.version
    && (x.version == x.loaded ==> x.content == x.base)
    && Lawful(x.adrift, x.draft, x.base, x.content)
    && match p
       case LockVersionGuard =>
         && x.loaded >= 0
         && (x.brandNew && !x.adrift ==> x.loaded == 0)
         && (!x.brandNew && !x.adrift ==> Left(Stored(x.base, x.loaded), s.commits))
       case ForUpdate =>
         && !x.brandNew && !x.adrift && x.stage.Editing?
         && s.lock == Some(w) && Row(s) == Some(Stored(x.base, x.loaded))
  }

  ghost predicate Inv(p: Protection, s: State) {
    && CommitsOk(p, s.commits)
    && (forall w | w in s.writers :: WriterOk(p, s, w))
  }

  /** Lock versions never fall; and two commits that left the same version left the same content, if every
      commit was computed from the one before, or the version is positive and no entity adrift was saved. */
  lemma {:induction false} SameVersionSameContent(commits: seq<Commit>, j: nat, k: nat)
    requires CommitsOk(LockVersionGuard, commits) && j <= k < |commits|
    ensures commits[j].stored.lockVersion <= commits[k].stored.lockVersion
    ensures commits[j].stored.lockVersion == commits[k].stored.lockVersion
            && (AllFromPrevious(commits) || (commits[j].stored.lockVersion > 0 && NoneAdrift(commits))) ==>
              commits[j].stored.content == commits[k].stored.content
  {
    if j < k {
      SameVersionSameContent(commits, j, k - 1);
      assert Ordered(commits, k) && (NoneAdrift(commits) ==> Tied(commits, k));
      assert AllFromPrevious(commits) ==> FromPrevious(commits, k);
    }
  }

  /** When the guard lets a loaded entity through, the row holds what the entity was loaded from, if nothing
      was lost so far, or the version is positive and no entity adrift was saved. */
  lemma GuardMeansUnchanged(s: State, w: nat)
    requires Inv(LockVersionGuard, s) && w in s.writers && !s.writers[w].brandNew && !s.writers[w].adrift
    requires Matches(LockVersionGuard, s, s.writers[w])
    requires AllFromPrevious(s.commits) || (s.writers[w].loaded > 0 && NoneAdrift(s.commits))
    ensures Row(s) == Some(Stored(s.writers[w].base, s.writers[w].loaded))
  {
    assert WriterOk(LockVersionGuard, s, w);
    var k :| 0 <= k < |s.commits| && s.commits[k].stored == Stored(s.writers[w].base, s.writers[w].loaded);
    SameVersionSameContent(s.commits, k, |s.commits| - 1);
  }

  /** A commit under the guard. */
  lemma GuardedCommit(s: State, w: nat, created: bool)
    requires Inv(LockVersionGuard, s) && w in s.writers
    requires if created then s.commits == [] else Matches(LockVersionGuard, s, s.writers[w])
    ensures CommitsOk(LockVersionGuard, Committed(s, w, created).commits)
  {
    var c, c' := s.commits, Committed(s, w, created).commits;
    assert WriterOk(LockVersionGuard, s, w);
    forall k | 0 <= k < |c'| ensures Ordered(c', k) {
      if k < |c| { assert Ordered(c, k); }
    }
    if NoneAdrift(c') {
      forall k | 0 <= k < |c| ensures !c[k].adrift { assert c'[k] == c[k]; }
      assert !c'[|c|].adrift;
      if !created && s.writers[w].loaded > 0 { GuardMeansUnchanged(s, w); }
      forall k | 0 <= k < |c'| ensures Tied(c', k) {
        if k < |c| { assert Tied(c, k); }
      }
    }
  }

  /** A commit under FOR UPDATE. */
  lemma LockedCommit(s: State, w: nat)
    requires Inv(ForUpdate, s) && w in s.writers && Row(s).Some?
    ensures CommitsOk(ForUpdate, Committed(s, w, false).commits)
  {
    var c, c' := s.commits, Committed(s, w, false).commits;
    assert WriterOk(ForUpdate, s, w);
    forall k | 0 <= k < |c'| ensures FromPrevious(c', k) && !c'[k].adrift {
      if k < |c| { assert FromPrevious(c, k) && c'[k] == c[k]; }
    }
  }

  lemma CommitKeepsInv(p: Protection, s: State, w: nat, created: bool)
    requires Inv(p, s) && w in s.writers
    requires if created then s.commits == [] && p.LockVersionGuard? else Matches(p, s, s.writers[w])
    ensures Inv(p, Committed(s, w, created))
  {
    var s' := Committed(s, w, created);
    assert WriterOk(p, s, w);
    if p.LockVersionGuard? { GuardedCommit(s, w, created); } else { LockedCommit(s, w); }
    hide CommitsOk;
    forall u | u in s'.writers ensures WriterOk(p, s', u) {
      assert WriterOk(p, s, u);
      if u == w {
        assert s'.commits[|s.commits|].stored == Stored(s'.writers[w].base, s'.writers[w].loaded);
      } else if p.LockVersionGuard? {
        LeftStays(Stored(s.writers[u].base, s.writers[u].loaded), s.commits, s'.commits);
      }
    }
  }

  lemma LeftStays(stored: Stored, c: seq<Commit>, c': seq<Commit>)
    requires c <= c'
    ensures Left(stored, c) ==> Left(stored, c')
  {
    if k :| 0 <= k < |c| && c[k].stored == stored {
      assert c'[k] == c[k];
    }
  }

  /** A step that commits nothing leaves the writers that it leaves in good order. */
  lemma QuietStepKeepsWriter(p: Protection, s: State, b: Step, u: nat)
    requires Inv(p, s) && CanStep(p, s, b)
    requires After(p, s, b).commits == s.commits && u in After(p, s, b).writers
    ensures WriterOk(p, After(p, s, b), u)
  {
    hide CommitsOk, Left;
    if u in s.writers { assert WriterOk(p, s, u); }
    if b.Load? && b.w == u {
      LastWasLeft(p, s);
    }
  }

  lemma LastWasLeft(p: Protection, s: State)
    requires CommitsOk(p, s.commits) && Row(s).Some?
    ensures Left(Row(s).value, s.commits) && (p.LockVersionGuard? ==> Row(s).value.lockVersion >= 0)
  {
    var k := |s.commits| - 1;
    assert s.commits[k].stored == Row(s).value;
    assert p.LockVersionGuard? ==> Ordered(s.commits, k);
  }

  lemma StepKeepsInv(p: Protection, s: State, b: Step)
    requires Inv(p, s) && CanStep(p, s, b)
    ensures Inv(p, After(p, s, b)) && s.commits <= After(p, s, b).commits
  {
    var s' := After(p, s, b);
    if s'.commits == s.commits {
      hide After, WriterOk, CommitsOk;
      forall u | u in s'.writers ensures WriterOk(p, s', u) { QuietStepKeepsWriter(p, s, b, u); }
    } else {
      CommitKeepsInv(p, s, b.w, b.SaveInsert?);
    }
  }

  // ---- runs ----

  /** Under FOR UPDATE the row exists from the start: Load is how a writer gets in. Under the guard a row
      that is there already has a version the domain gives, so not a negative one. */
  ghost predicate Start(p: Protection, s: State) {
    && s.lock == None && s.writers == map[]
    && (s.commits == [] ||
        (var c := s.commits[0];
         && |s.commits| == 1 && c.created && !c.adrift && Lawful(c.adrift, c.draft, c.base, c.stored.content)
         && (p.LockVersionGuard? ==> c.stored.lockVersion >= 0)))
  }

  ghost predicate IsRun(p: Protection, run: seq<State>, steps: seq<Step>) {
    && |run| == |steps| + 1
    && Start(p, run[0])
    && (forall i | 0 <= i < |steps| :: CanStep(p, run[i], steps[i]) && run[i + 1] == After(p, run[i], steps[i]))
  }

  lemma {:induction false} RunKeepsInv(p: Protection, run: seq<State>, steps: seq<Step>, i: nat)
    requires IsRun(p, run, steps) && i < |run|
    ensures Inv(p, run[i])
  {
    if i > 0 {
      RunKeepsInv(p, run, steps, i - 1);
      StepKeepsInv(p, run[i - 1], steps[i - 1]);
    }
  }

  /** While nothing is lost, a step loses an update exactly when it destroys. */
  lemma StepLosesWhenItDestroys(p: Protection, s: State, b: Step)
    requires Inv(p, s) && CanStep(p, s, b) && AllFromPrevious(s.commits)
    ensures AllFromPrevious(After(p, s, b).commits) <==> !Destroys(p, s, b)
  {
    var c, c' := s.commits, After(p, s, b).commits;
    forall k | 0 <= k < |c| ensures FromPrevious(c', k) {
      assert FromPrevious(c, k);
    }
    if b.SaveUpdate? && Matches(p, s, s.writers[b.w]) {
      assert WriterOk(p, s, b.w);
      if p.LockVersionGuard? && !s.writers[b.w].brandNew && !s.writers[b.w].adrift { GuardMeansUnchanged(s, b.w); }
      assert FromPrevious(c', |c|) <==> !Destroys(p, s, b);
    }
  }

  /** Over every interleaving, under either protection: every commit replaced exactly the content its writer
      had loaded or saved, if and only if no step saved over the row an entity that was never loaded, or
      whose last save did not commit, while the row held something else than that entity's. */
  lemma {:induction false} NoLostUpdate(p: Protection, run: seq<State>, steps: seq<Step>, i: nat)
    requires IsRun(p, run, steps) && i < |run|
    ensures AllFromPrevious(run[i].commits) <==> forall j | 0 <= j < i :: !Destroys(p, run[j], steps[j])
  {
    if i > 0 {
      NoLostUpdate(p, run, steps, i - 1);
      RunKeepsInv(p, run, steps, i - 1);
      StepKeepsInv(p, run[i - 1], steps[i - 1]);
      if AllFromPrevious(run[i - 1].commits) {
        StepLosesWhenItDestroys(p, run[i - 1], steps[i - 1]);
      } else {
        LostStaysLost(run[i - 1].commits, run[i].commits);
      }
    }
  }

  lemma LostStaysLost(c: seq<Commit>, c': seq<Commit>)
    requires c <= c' && !AllFromPrevious(c)
    ensures !AllFromPrevious(c')
  {
    var k :| 0 <= k < |c| && !FromPrevious(c, k);
    assert !FromPrevious(c', k);
  }

  /** Under FOR UPDATE every saver was loaded, so nothing clobbers and no update is ever lost. */
  lemma ForUpdateNeverClobbers(run: seq<State>, steps: seq<Step>, i: nat)
    requires IsRun(ForUpdate, run, steps) && i < |run|
    ensures i < |steps| ==> !Clobbers(ForUpdate, run[i], steps[i])
    ensures AllFromPrevious(run[i].commits)
  {
    RunKeepsInv(ForUpdate, run, steps, i);
    if i < |steps| && steps[i].SaveUpdate? {
      assert WriterOk(ForUpdate, run[i], steps[i].w);
    }
  }

  // ---- finalizing ----

  /** Once the row was finalized it stays so, and no commit finalizes the invoice again. */
  ghost predicate FinalOnce(commits: seq<Commit>) {
    forall j, k | 0 <= j < k < |commits| && commits[j].stored.content.finalized ::
      commits[k].stored.content.finalized && !Finalizes(commits[k])
  }

  /** An entity that was a draft when it was loaded is saved over a finalized row. */
  predicate OverFinal(p: Protection, s: State, b: Step) {
    && b.SaveUpdate? && b.w in s.writers && Matches(p, s, s.writers[b.w])
    && s.writers[b.w].draft && Row(s).value.content.finalized
  }

  lemma StepFinalizesTwice(p: Protection, s: State, b: Step)
    requires Inv(p, s) && CanStep(p, s, b) && FinalOnce(s.commits)
    ensures FinalOnce(After(p, s, b).commits) <==> !OverFinal(p, s, b)
  {
    var c, c' := s.commits, After(p, s, b).commits;
    if b.SaveUpdate? && Matches(p, s, s.writers[b.w]) {
      var x, n := s.writers[b.w], |c|;
      assert WriterOk(p, s, b.w);
      assert c'[n] == Commit(false, x.adrift, x.draft, x.base, Stored(x.content, x.version));
      if OverFinal(p, s, b) {
        assert c'[n - 1].stored.content.finalized;
      } else {
        forall j, k | 0 <= j < k < |c'| && c'[j].stored.content.finalized
          ensures c'[k].stored.content.finalized && !Finalizes(c'[k])
        {
          if k < n { assert c[j].stored.content.finalized; }
          else if j < n - 1 { assert c[n - 1].stored.content.finalized; }
        }
      }
    }
  }

  /** Over every interleaving, under either protection: an invoice is finalized once and stays finalized, if
      and only if no entity that was a draft when it was loaded was saved over a finalized row. */
  lemma {:induction false} OneFinalize(p: Protection, run: seq<State>, steps: seq<Step>, i: nat)
    requires IsRun(p, run, steps) && i < |run|
    ensures FinalOnce(run[i].commits) <==> forall j | 0 <= j < i :: !OverFinal(p, run[j], steps[j])
  {
    if i > 0 {
      OneFinalize(p, run, steps, i - 1);
      RunKeepsInv(p, run, steps, i - 1);
      StepKeepsInv(p, run[i - 1], steps[i - 1]);
      if FinalOnce(run[i - 1].commits) {
        StepFinalizesTwice(p, run[i - 1], steps[i - 1]);
      } else {
        NotOnceStays(run[i - 1].commits, run[i].commits);
      }
    }
  }

  lemma NotOnceStays(c: seq<Commit>, c': seq<Commit>)
    requires c <= c' && !FinalOnce(c)
    ensures !FinalOnce(c')
  {
    var j, k :| 0 <= j < k < |c| && c[j].stored.content.finalized
                && !(c[k].stored.content.finalized && !Finalizes(c[k]));
    assert c'[j] == c[j] && c'[k] == c[k];
  }

  /** That never happens before some entity that was never loaded, or whose last save did not commit, is
      saved over the row. */
  lemma OverFinalNeedsClobber(p: Protection, run: seq<State>, steps: seq<Step>, i: nat)
    requires IsRun(p, run, steps) && i < |steps| && OverFinal(p, run[i], steps[i])
    ensures exists j | 0 <= j <= i :: Clobbers(p, run[j], steps[j])
  {
    RunKeepsInv(p, run, steps, i);
    assert WriterOk(p, run[i], steps[i].w);
    if !Clobbers(p, run[i], steps[i]) {
      NoLostUpdate(p, run, steps, i);
      if p.LockVersionGuard? && AllFromPrevious(run[i].commits) { GuardMeansUnchanged(run[i], steps[i].w); }
    }
  }

  /** Saves of entities that were never loaded do not suffice: as long as no save was lost before its commit
      and repeated, at most one finalization of an invoice commits. */
  lemma FreshSavesFinalizeOnce(run: seq<State>, steps: seq<Step>, i: nat, j: nat, k: nat)
    requires IsRun(LockVersionGuard, run, steps) && i < |run| && NoneAdrift(run[i].commits)
    requires j < k < |run[i].commits| && Finalizes(run[i].commits[j])
    ensures !Finalizes(run[i].commits[k])
  {
    RunKeepsInv(LockVersionGuard, run, steps, i);
    FinalizedStays(run[i].commits, j, k - 1);
    assert Tied(run[i].commits, k);
  }

  lemma {:induction false} FinalizedStays(commits: seq<Commit>, j: nat, k: nat)
    requires CommitsOk(LockVersionGuard, commits) && NoneAdrift(commits)
    requires j <= k < |commits| && Finalizes(commits[j])
    ensures commits[k].stored.content.finalized && commits[k].stored.lockVersion > 0
  {
    assert Tied(commits, k) && Ordered(commits, k);
    if j < k { FinalizedStays(commits, j, k - 1); }
  }

  // ---- runs that go wrong ----

  /** With the guard alone, an entity that was never loaded replaces an existing row without a conflict
      exactly when the row's lock version is (still) 0. */
  lemma FreshSaveOverExistingRow(s: State, w: nat)
    requires w in s.writers && s.writers[w].brandNew && s.writers[w].loaded == 0 && s.writers[w].stage.Editing?
    requires Row(s).Some?
    ensures |After(LockVersionGuard, s, SaveUpdate(w)).commits| == |s.commits| + 1 <==> Row(s).value.lockVersion == 0
    ensures Clobbers(LockVersionGuard, s, SaveUpdate(w)) <==> Row(s).value.lockVersion == 0
  {
  }

  ghost predicate Leads(s: State, b: Step, s': State) {
    CanStep(LockVersionGuard, s, b) && After(LockVersionGuard, s, b) == s'
  }

  lemma RunSnoc(run: seq<State>, steps: seq<Step>, b: Step, s': State)
    requires IsRun(LockVersionGuard, run, steps) && Leads(run[|steps|], b, s')
    ensures IsRun(LockVersionGuard, run + [s'], steps + [b])
  {
  }

  /** Two callers create the same invoice as a version-0 draft: both saves commit, and the second
      was not computed from the first. */
  lemma TwoCreatesLoseOne() returns (run: seq<State>, steps: seq<Step>)
    ensures IsRun(LockVersionGuard, run, steps)
    ensures |run[|steps|].commits| == 2 && !FromPrevious(run[|steps|].commits, 1)
  {
    var a, b := Content(false, "a"), Content(false, "b");
    steps := [Create(1, a), Create(2, b), SaveUpdate(1), Probe(1, false), SaveInsert(1), SaveUpdate(2)];
    var s0 := State([], None, map[]);
    var s1 := After(LockVersionGuard, s0, steps[0]);
    var s2 := After(LockVersionGuard, s1, steps[1]);
    var s3 := After(LockVersionGuard, s2, steps[2]);
    var s4 := After(LockVersionGuard, s3, steps[3]);
    var s5 := After(LockVersionGuard, s4, steps[4]);
    var s6 := After(LockVersionGuard, s5, steps[5]);
    run := [s0, s1, s2, s3, s4, s5, s6];
    assert a.body[0] != b.body[0];
  }

  /** Two callers load a draft, the first one finalizes it, and its commit fails. */
  lemma LoadedTwiceLostOnce(d: Content, a: Content) returns (run: seq<State>, steps: seq<Step>)
    requires !d.finalized && a.finalized
    ensures IsRun(LockVersionGuard, run, steps)
    ensures var s := run[|steps|];
            && s.commits == [Commit(true, false, true, d, Stored(d, 1))] && s.lock == None
            && s.writers == map[1 := Writer(false, true, true, 2, a, a, 2, Editing),
                                2 := Writer(false, false, true, 1, d, d, 1, Editing)]
  {
    steps := [Load(1), Load(2), Edit(1, a, 2), SaveLost(1)];
    var s0 := State([Commit(true, false, true, d, Stored(d, 1))], None, map[]);
    var s1 := After(LockVersionGuard, s0, steps[0]);
    var s2 := After(LockVersionGuard, s1, steps[1]);
    var s3 := After(LockVersionGuard, s2, steps[2]);
    var s4 := After(LockVersionGuard, s3, steps[3]);
    run := [s0, s1, s2, s3, s4];
  }

  /** Then the second one finalizes it and commits, and the first one saves again: the guard lets it through,
      both finalizations are committed, and one is overwritten by the other, which knew nothing of it. */
  lemma FailedCommitFinalizesTwice() returns (run: seq<State>, steps: seq<Step>)
    ensures IsRun(LockVersionGuard, run, steps)
    ensures var c := run[|steps|].commits;
            |c| == 3 && Finalizes(c[1]) && Finalizes(c[2]) && !FromPrevious(c, 2)
  {
    var d, a, b := Content(false, "d"), Content(true, "a"), Content(true, "b");
    run, steps := LoadedTwiceLostOnce(d, a);
    hide IsRun;
    var s := run[|steps|];
    var s1 := After(LockVersionGuard, s, Edit(2, b, 2));
    RunSnoc(run, steps, Edit(2, b, 2), s1);
    var s2 := After(LockVersionGuard, s1, SaveUpdate(2));
    RunSnoc(run + [s1], steps + [Edit(2, b, 2)], SaveUpdate(2), s2);
    var s3 := After(LockVersionGuard, s2, SaveUpdate(1));
    RunSnoc(run + [s1] + [s2], steps + [Edit(2, b, 2)] + [SaveUpdate(2)], SaveUpdate(1), s3);
    run, steps := run + [s1] + [s2] + [s3], steps + [Edit(2, b, 2)] + [SaveUpdate(2)] + [SaveUpdate(1)];
    assert a.body[0] != b.body[0];
  }
}
