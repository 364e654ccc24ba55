/** The schema of the local state: numbered migrations, each in one transaction with its ledger row. */
module Migrations {
  import opened Text

  datatype Migration = Migration(version: int, name: string)

  datatype Outcome = Migrated | Ahead(current: int, latest: int) | Failed

  /** What a transaction left behind: the migrations that ran, and the rows of the ledger. */
  datatype Store = Store(schema: seq<Migration>, ledger: seq<int>)

  /** The greatest version of the ledger, or zero. */
  function Current(ledger: seq<int>): (current: int)
    ensures current >= 0
    ensures forall v | v in ledger :: v <= current
    ensures current == 0 || current in ledger
  {
    if ledger == [] then 0
    else
      var earlier, last := Current(ledger[..|ledger| - 1]), ledger[|ledger| - 1];
      assert ledger == ledger[..|ledger| - 1] + [last];
      if last > earlier then last else earlier
  }

  /** A list of migrations as a binary loads it: sorted, and numbered from one without a gap. */
  ghost predicate IsNumbered(migrations: seq<Migration>) {
    forall i | 0 <= i < |migrations| :: migrations[i].version == i + 1
  }

  function Upto(n: nat): seq<int> {
    seq(n, i => i + 1)
  }

  /** The state after the first `n` migrations, and nothing else. */
  function After(all: seq<Migration>, n: nat): Store
    requires n <= |all|
  {
    Store(all[..n], Upto(n))
  }

  predicate IsAfter(all: seq<Migration>, store: Store, n: int) {
    0 <= n <= |all| && store == After(all, n)
  }

  lemma {:induction false} CurrentOfUpto(n: nat)
    ensures Current(Upto(n)) == n
  {
    if n > 0 {
      assert Upto(n)[..n - 1] == Upto(n - 1);
      CurrentOfUpto(n - 1);
    }
  }

  class Database {
    /** No statement fails. */
    const healthy: bool
    var store: Store

    /** Every committed state: where a crash leaves the database. */
    ghost var commits: seq<Store>

    ghost predicate Valid()
      reads this
    {
      commits != [] && commits[|commits| - 1] == store
    }

    constructor (store: Store, healthy: bool)
      ensures Valid() && this.store == store && this.healthy == healthy
    {
      this.healthy := healthy;
      this.store, commits := store, [store];
    }

    /**
     * One migration and its row, in one transaction: both or neither. A version that is in the
     * ledger already is refused by its primary key.
     */
    method Apply(step: Migration) returns (ok: bool)
      requires Valid()
      modifies this
      ensures Valid()
      ensures ok ==>
                && step.version !in old(store.ledger)
                && store == Store(old(store.schema) + [step], old(store.ledger) + [step.version])
                && commits == old(commits) + [store]
      ensures !ok ==> store == old(store) && commits == old(commits)
      ensures healthy ==> (ok <==> step.version !in old(store.ledger))
    {
      var fault: bool := *;
      if (fault && !healthy) || step.version in store.ledger {
        return false;
      }
      store := Store(store.schema + [step], store.ledger + [step.version]);
      commits := commits + [store];
      return true;
    }

    /**
     * Applies what a binary knows and the ledger does not. From any number `n` of migrations, every
     * state it commits is one more, in order; a success has them all; and a ledger ahead of the
     * binary is refused untouched.
     */
    method Migrate(migrations: seq<Migration>, ghost all: seq<Migration>, ghost n: nat) returns (outcome: Outcome)
      requires Valid() && IsNumbered(all) && migrations <= all && n <= |all| && store == After(all, n)
      modifies this
      ensures Valid() && |commits| >= |old(commits)| && commits[..|old(commits)|] == old(commits)
      ensures forall i | |old(commits)| <= i < |commits| :: IsAfter(all, commits[i], n + 1 + i - |old(commits)|)
      ensures outcome.Migrated? ==> n <= |migrations| && store == After(all, |migrations|)
      ensures outcome.Ahead? ==> outcome == Ahead(n, |migrations|)
      ensures n > |migrations| ==> !outcome.Migrated? && store == old(store) && commits == old(commits)
      ensures n <= |migrations| ==> !outcome.Ahead? && n + |commits| - |old(commits)| <= |migrations|
      ensures outcome.Failed? ==> IsAfter(all, store, n + |commits| - |old(commits)|)
      ensures healthy ==> outcome == if n > |migrations| then Ahead(n, |migrations|) else Migrated
    {
      hide Upto, After, Current;
      CurrentOfUpto(n);
      AfterParts(all, n);
      AfterIsAfter(all, n);
      var readable: bool := *;
      if !readable && !healthy {
        return Failed;
      }
      var current := Current(store.ledger);
      if current > |migrations| {
        return Ahead(current, |migrations|);
      }
      ghost var first := |commits|;
      ghost var done := n;
      for i := 0 to |migrations|
        invariant Valid() && n <= done <= |migrations| && store == After(all, done)
        invariant i <= n ==> done == n
        invariant i > n ==> done == i
        invariant |commits| == first + (done - n) && commits[..first] == old(commits)
        invariant forall k | first <= k < |commits| :: IsAfter(all, commits[k], n + 1 + k - first)
      {
        assert migrations[i] == all[i];
        if migrations[i].version > current {
          NotYetApplied(all, done);
          ghost var was := commits;
          var ok := Apply(migrations[i]);
          AfterIsAfter(all, done);
          if !ok {
            return Failed;
          }
          AfterOneMore(all, done);
          done := done + 1;
          AfterIsAfter(all, done);
        }
      }
      return Migrated;
    }
  }

  lemma NotYetApplied(all: seq<Migration>, n: nat)
    requires IsNumbered(all) && n < |all|
    ensures all[n].version !in After(all, n).ledger
  {
  }

  lemma AfterParts(all: seq<Migration>, n: nat)
    requires n <= |all|
    ensures After(all, n).ledger == Upto(n)
  {
  }

  lemma AfterIsAfter(all: seq<Migration>, n: nat)
    requires n <= |all|
    ensures IsAfter(all, After(all, n), n)
  {
  }

  lemma AfterOneMore(all: seq<Migration>, n: nat)
    requires IsNumbered(all) && n < |all|
    ensures After(all, n + 1) == Store(After(all, n).schema + [all[n]], After(all, n).ledger + [all[n].version])
  {
  }

  // ------------------------------------------------------------------ any number of opens

  /** A process opening the state with a binary that knows the first `knows` migrations. */
  datatype Opener = Opener(knows: nat, current: int, next: nat)

  datatype World = World(store: Store, openers: map<int, Opener>)

  datatype Event =
    | Reads(pid: int, knows: nat)
    | Commits(pid: int)
    | Stops(pid: int)  // an error, a kill, or the end of the open

  /** One step of one process, between the steps of the others. */
  function Next(all: seq<Migration>, w: World, e: Event): Option<World> {
    match e
    case Reads(pid, knows) =>
      var current := Current(w.store.ledger);
      if pid in w.openers || knows > |all| || current > knows then None
      else Some(w.(openers := w.openers[pid := Opener(knows, current, 0)]))
    case Commits(pid) =>
      if pid !in w.openers then None
      else
        var o := w.openers[pid];
        if o.next >= o.knows || o.next >= |all| then None
        else
          var step := all[o.next];
          var moved := w.openers[pid := o.(next := o.next + 1)];
          if step.version <= o.current then Some(w.(openers := moved))
          else if step.version in w.store.ledger then Some(w.(openers := w.openers - {pid}))
          else Some(World(Store(w.store.schema + [step], w.store.ledger + [step.version]), moved))
    case Stops(pid) => Some(w.(openers := w.openers - {pid}))
  }

  ghost predicate IsPrefixed(all: seq<Migration>, w: World) {
    && |w.store.schema| <= |all| && w.store == After(all, |w.store.schema|)
    && forall pid | pid in w.openers ::
         && w.openers[pid].next <= |w.store.schema| && w.openers[pid].knows <= |all|
         && 0 <= w.openers[pid].current <= |w.store.schema|
  }

  lemma StepsKeepPrefixes(all: seq<Migration>, w: World, e: Event)
    requires IsNumbered(all) && IsPrefixed(all, w) && Next(all, w, e).Some?
    ensures IsPrefixed(all, Next(all, w, e).value)
    ensures w.store.schema <= Next(all, w, e).value.store.schema
  {
    var n := |w.store.schema|;
    CurrentOfUpto(n);
    if e.Commits? {
      var o := w.openers[e.pid];
      InUpto(n, o.next + 1);
      if o.next == n {
        AfterOneMore(all, n);
      }
    }
  }

  lemma InUpto(n: nat, v: int)
    ensures v in Upto(n) <==> 1 <= v <= n
  {
    if 1 <= v <= n {
      assert Upto(n)[v - 1] == v;
    }
  }

  function RunFrom(all: seq<Migration>, w: World, run: seq<Event>): Option<World> {
    if run == [] then Some(w)
    else
      var before :- RunFrom(all, w, run[..|run| - 1]);
      Next(all, before, run[|run| - 1])
  }

  /**
   * However many processes open the state, at the same time or not, with older and newer binaries,
   * failing or killed anywhere: the migrations applied are the first ones, each once, in order,
   * the ledger says exactly which, and none is ever undone.
   */
  lemma {:induction false} MigrationsAreAPrefix(all: seq<Migration>, w: World, run: seq<Event>)
    requires IsNumbered(all) && IsPrefixed(all, w) && RunFrom(all, w, run).Some?
    ensures IsPrefixed(all, RunFrom(all, w, run).value)
    ensures w.store.schema <= RunFrom(all, w, run).value.store.schema
  {
    if run != [] {
      MigrationsAreAPrefix(all, w, run[..|run| - 1]);
      StepsKeepPrefixes(all, RunFrom(all, w, run[..|run| - 1]).value, run[|run| - 1]);
    }
  }

  lemma AnEmptyState(all: seq<Migration>)
    ensures IsPrefixed(all, World(Store([], []), map[]))
  {
  }

  /** An open that got through its list has all of it applied; one behind the ledger never starts. */
  lemma OpensAreComplete(all: seq<Migration>, w: World, pid: int, knows: nat)
    requires IsNumbered(all) && IsPrefixed(all, w)
    ensures pid in w.openers && w.openers[pid].next >= w.openers[pid].knows ==>
              all[..w.openers[pid].knows] <= w.store.schema
    ensures Next(all, w, Reads(pid, knows)).Some? ==> |w.store.schema| <= knows
    ensures |w.store.schema| > knows ==> Next(all, w, Reads(pid, knows)).None?
  {
    CurrentOfUpto(|w.store.schema|);
    if pid in w.openers && w.openers[pid].next >= w.openers[pid].knows {
      assert all[..|w.store.schema|][..w.openers[pid].knows] == all[..w.openers[pid].knows];
    }
  }

  // ------------------------------------------------------------------ why the numbers have no gap

  ghost predicate IsSorted(migrations: seq<Migration>) {
    && (forall i | 0 <= i < |migrations| :: migrations[i].version > 0)
    && (forall i, j | 0 <= i < j < |migrations| :: migrations[i].version < migrations[j].version)
  }

  function Versions(migrations: seq<Migration>): seq<int> {
    seq(|migrations|, i requires 0 <= i < |migrations| => migrations[i].version)
  }

  lemma {:induction false} VersionsOutrunPositions(migrations: seq<Migration>, i: nat)
    requires IsSorted(migrations) && i < |migrations|
    ensures migrations[i].version >= i + 1
  {
    if i > 0 {
      VersionsOutrunPositions(migrations, i - 1);
    }
  }

  lemma {:induction false} PositionsBoundVersions(migrations: seq<Migration>, i: nat)
    requires IsSorted(migrations) && i < |migrations|
    ensures migrations[i].version + (|migrations| - 1 - i) <= migrations[|migrations| - 1].version
    decreases |migrations| - i
  {
    if i + 1 < |migrations| {
      PositionsBoundVersions(migrations, i + 1);
    }
  }

  /**
   * The guard compares a version with a count. A binary that applied its own list accepts the
   * state it made exactly when its versions are 1, 2, 3 and so on: one gap, and it takes its own
   * state for that of a newer binary.
   */
  lemma OwnStateIsAcceptedIffNumbered(migrations: seq<Migration>)
    requires IsSorted(migrations)
    ensures Current(Versions(migrations)) <= |migrations| <==> IsNumbered(migrations)
  {
    if migrations != [] {
      var last := migrations[|migrations| - 1].version;
      VersionsOutrunPositions(migrations, |migrations| - 1);
      assert Versions(migrations)[|migrations| - 1] == last;
      assert Current(Versions(migrations)) >= last;
      forall v | v in Versions(migrations) ensures v <= last {
        var i :| 0 <= i < |migrations| && Versions(migrations)[i] == v;
      }
      assert Current(Versions(migrations)) == last;
      forall i | 0 <= i < |migrations| ensures last <= |migrations| ==> migrations[i].version == i + 1 {
        VersionsOutrunPositions(migrations, i);
        PositionsBoundVersions(migrations, i);
      }
    }
  }

  /** One gap: two migrations, the second numbered 3, and the binary that applied both refuses its own state. */
  lemma AGapIsTakenForANewerBinary(first: string, second: string)
    ensures var migrations := [Migration(1, first), Migration(3, second)];
      IsSorted(migrations) && Current(Versions(migrations)) == 3 > |migrations|
  {
    var migrations := [Migration(1, first), Migration(3, second)];
    assert !IsNumbered(migrations) by {
      assert migrations[1].version == 3;
    }
    OwnStateIsAcceptedIffNumbered(migrations);
    assert forall v | v in Versions(migrations) :: v <= 3;
  }
}
