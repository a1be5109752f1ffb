/**
 Migrate of mysql/migrate.go: the code of one runner, with the moves of all other runners in
 between. Every object of class Migrator is always in a reachable state of the machine in
 module Migrations.
 */
module Migrate {
  import opened SplitStatements
  import opened Migrations

  type Turn = (nat, Move)

  ghost predicate Follows(f: Files, w: World, turns: seq<Turn>, w': World)
    decreases |turns|
  {
    if turns == [] then w == w'
    else
      CanMove(f, w, turns[0].0, turns[0].1)
      && Follows(f, Migrations.Moved(f, w, turns[0].0, turns[0].1), turns[1..], w')
  }

  lemma {:induction false} FollowsConcat(f: Files, w: World, a: seq<Turn>, w': World, b: seq<Turn>, w'': World)
    requires Follows(f, w, a, w') && Follows(f, w', b, w'')
    ensures Follows(f, w, a + b, w'')
    decreases |a|
  {
    if a == [] {
      assert [] + b == b;
    } else {
      FollowsConcat(f, Migrations.Moved(f, w, a[0].0, a[0].1), a[1..], w', b, w'');
      assert (a + b)[1..] == a[1..] + b;
    }
  }

  lemma {:induction false} FollowsKeepsInv(f: Files, w: World, turns: seq<Turn>, w': World)
    requires Migrations.Inv(f, w) && Follows(f, w, turns, w')
    ensures Migrations.Inv(f, w') && w.ran <= w'.ran
    ensures forall n | AppliedIn(w, n) :: AppliedIn(w', n)
    decreases |turns|
  {
    if turns != [] {
      MoveKeepsInv(f, w, turns[0].0, turns[0].1);
      FollowsKeepsInv(f, Migrations.Moved(f, w, turns[0].0, turns[0].1), turns[1..], w');
    }
  }

  ghost predicate ByOthers(turns: seq<Turn>, me: nat) {
    forall i | 0 <= i < |turns| :: turns[i].0 != me
  }

  lemma {:induction false} OthersLeaveMe(f: Files, w: World, turns: seq<Turn>, w': World, me: nat)
    requires Follows(f, w, turns, w') && ByOthers(turns, me) && me in w.runners
    ensures me in w'.runners && w'.runners[me] == w.runners[me]
    decreases |turns|
  {
    if turns != [] {
      assert turns[0].0 != me;
      OthersLeaveMe(f, Migrations.Moved(f, w, turns[0].0, turns[0].1), turns[1..], w', me);
    }
  }

  datatype Result = Done | PartiallyApplied | AlreadyMarked(file: string) | StatementFailed(file: string, index: nat)

  class Migrator {
    const files: Files
    const start: World
    const me: nat
    var world: World
    ghost var did: seq<Turn>
    /** How many statements failed. */
    ghost var failures: nat

    ghost predicate Valid()
      reads this
    {
      Start(files, start) && Follows(files, start, did, world) && me in world.runners
    }

    function Pc(): Runner
      requires me in world.runners
      reads this
    {
      world.runners[me]
    }

    lemma Reachable()
      requires Valid()
      ensures Migrations.Inv(files, world) && RunnerOk(files, world, Pc())
    {
      FollowsKeepsInv(files, start, did, world);
    }

    constructor (files: Files, start: World, me: nat)
      requires Start(files, start) && me in start.runners
      ensures Valid() && world == start && this.files == files && this.me == me
    {
      this.files, this.start, this.me := files, start, me;
      world, did, failures := start, [], 0;
    }

    method Perform(m: Move)
      requires Valid() && CanMove(files, world, me, m)
      modifies this`world, this`did
      ensures Valid() && world == Migrations.Moved(files, old(world), me, m)
    {
      ghost var w := Migrations.Moved(files, world, me, m);
      assert Follows(files, world, [(me, m)], w);
      FollowsConcat(files, start, did, world, [(me, m)], w);
      world, did := Migrations.Moved(files, world, me, m), did + [(me, m)];
    }

    /** Any number of moves of other runners. Callers rely on the contract alone. */
    method Others() returns (ghost turns: seq<Turn>)
      requires Valid()
      modifies this`world, this`did
      ensures Valid() && ByOthers(turns, me) && Follows(files, old(world), turns, world)
    {
      turns := [];
    }

    method Fails() returns (b: bool)
      modifies this`failures
      ensures failures == old(failures) + if b then 1 else 0
    {
      b := *;
      if b { failures := failures + 1; }
    }

    method Interfere()
      requires Valid()
      modifies this`world, this`did
      ensures Valid() && Pc() == old(Pc()) && old(world.ran) <= world.ran
      ensures forall n | AppliedIn(old(world), n) :: AppliedIn(world, n)
    {
      ghost var w := world;
      Reachable();
      ghost var turns := Others();
      FollowsKeepsInv(files, w, turns, world);
      OthersLeaveMe(files, w, turns, world, me);
    }

    /** applyMigrationFile: pending, every statement in order, applied. */
    method ApplyFile(name: string) returns (r: Result)
      requires Valid() && CanMove(files, world, me, Mark) && files.names[Pc().i] == name
      modifies this`world, this`did, this`failures
      ensures Valid() && old(world.ran) <= world.ran
      ensures failures == old(failures) + if r.StatementFailed? then 1 else 0
      ensures r.Done? || r.AlreadyMarked? || r.StatementFailed?
      ensures r.Done? ==> Pc() == Scanning(old(Pc().i) + 1, old(Pc().applied)) && AppliedIn(world, name)
      ensures r.StatementFailed? ==> r.file == name && r.index < |files.Body(name)| && (name, r.index) in world.ran
      ensures r.AlreadyMarked? ==> r.file == name && name in world.ledger
      ensures !r.Done? ==> Pc() == Stopped
    {
      hide Follows, RanOk, Migrations.Inv;
      var i, applied := Pc().i, Pc().applied;
      Interfere();
      var taken := name in world.ledger;
      Perform(Mark);
      if taken {
        return AlreadyMarked(name);
      }
      Reachable();
      var stmts := Split(files.texts[name]);
      for k := 0 to |stmts|
        invariant Valid() && Pc() == Executing(i, applied, k) && old(world.ran) <= world.ran
        invariant failures == old(failures)
      {
        Interfere();
        Perform(Exec);
        var failed := Fails();
        if failed {
          assert world.ran[|world.ran| - 1] == (name, k);
          Perform(Crash);
          return StatementFailed(name, k);
        }
      }
      Interfere();
      Perform(Flip);
      r := Done;
    }

    /** migrateOn. When it succeeds every embedded file is applied; when it fails it says where. */
    method MigrateOn() returns (r: Result)
      requires Valid() && Pc() == Fresh
      modifies this`world, this`did, this`failures
      ensures Valid() && old(world.ran) <= world.ran
      ensures failures == old(failures) + if r.StatementFailed? then 1 else 0
      ensures r.Done? ==> Pc() == Finished && forall i | 0 <= i < |files.names| :: AppliedIn(world, files.names[i])
      ensures r.PartiallyApplied? ==> exists n | n in world.ledger :: world.ledger[n] != Applied
      ensures r.AlreadyMarked? ==> r.file in files.names && r.file in world.ledger
      ensures r.StatementFailed? ==> r.file in files.names && (r.file, r.index) in world.ran
      ensures !r.Done? ==> Pc() == Stopped
    {
      hide Follows, RanOk, Migrations.Inv, Start;
      Interfere();
      var partial := exists n | n in world.ledger :: world.ledger[n] != Applied;
      Perform(Load);
      if partial {
        return PartiallyApplied;
      }
      var applied := Pc().applied;
      for i := 0 to |files.names|
        invariant Valid() && Pc() == Scanning(i, applied) && old(world.ran) <= world.ran
        invariant failures == old(failures)
      {
        if files.names[i] in applied {
          Perform(Skip);
        } else {
          r := ApplyFile(files.names[i]);
          if !r.Done? {
            return;
          }
        }
      }
      Reachable();
      Perform(Finish);
      r := Done;
    }
  }
}
