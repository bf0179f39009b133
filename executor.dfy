/**
 * Applying a batch of migrations: the `with self.db.atomic()` block that
 * runs each migration's operations in order and then writes the version,
 * shared by both versions of `upgrade`.
 */
module Executor {
  import opened Wrappers
  import opened Decimal
  import opened Registry
  import opened Store

  /**
   * What a migration module does when the engine runs it: the operations
   * `m.upgrade(migrator)` returns, or None when that call or `migrate(*upgrades)`
   * raises. A parameter of the model, since the modules are user code.
   */
  type Producer = ModuleHandle -> Option<seq<Operation>>

  /** The two conditions `upgrade` filters migrations by. */
  datatype Bound = GreaterThan(current: int) | AtMost(target: int)

  /** Whether a migration of version v passes the condition b. */
  predicate PassesVersion(b: Bound, v: int) {
    match b
    case GreaterThan(current) => v > current
    case AtMost(target) => v <= target
  }

  predicate Passes(b: Bound, m: Migration) {
    PassesVersion(b, m.version)
  }

  /** `tuple(filter(lambda x: ..., ms))` for the condition b. */
  function Filter(ms: seq<Migration>, b: Bound): (r: seq<Migration>)
    ensures forall m :: m in r <==> m in ms && Passes(b, m)
    ensures SortedByVersion(ms) ==> SortedByVersion(r)
    decreases |ms|
  {
    if ms == [] then []
    else
      var rest := Filter(ms[1..], b);
      assert ms == [ms[0]] + ms[1..];
      var r := (if Passes(b, ms[0]) then [ms[0]] else []) + rest;
      FilterStaysSorted(ms, rest, r, Passes(b, ms[0]));
      r
  }

  lemma FilterStaysSorted(ms: seq<Migration>, rest: seq<Migration>, r: seq<Migration>, kept: bool)
    requires ms != []
    requires forall m :: m in rest ==> m in ms[1..]
    requires SortedByVersion(ms[1..]) ==> SortedByVersion(rest)
    requires r == (if kept then [ms[0]] else []) + rest
    ensures SortedByVersion(ms) ==> SortedByVersion(r)
  {
    if SortedByVersion(ms) && kept {
      forall i, j | 0 <= i < j < |r| ensures r[i].version <= r[j].version {
        assert r[j] == rest[j - 1];
        if i > 0 {
          assert r[i] == rest[i - 1];
        } else {
          assert r[j] in ms[1..];
          var k :| 0 <= k < |ms[1..]| && ms[1..][k] == r[j];
          assert ms[k + 1] == r[j];
        }
      }
    }
  }

  /** The filter keeps every passing migration as many times as it occurs, and no other. */
  lemma {:induction false} FilterCounts(ms: seq<Migration>, b: Bound, m: Migration)
    ensures multiset(Filter(ms, b))[m] == if Passes(b, m) then multiset(ms)[m] else 0
    decreases |ms|
  {
    if ms != [] {
      FilterCounts(ms[1..], b, m);
      assert ms == [ms[0]] + ms[1..];
      assert multiset(ms) == multiset{ms[0]} + multiset(ms[1..]);
      var head := if Passes(b, ms[0]) then [ms[0]] else [];
      assert Filter(ms, b) == head + Filter(ms[1..], b);
      assert multiset(Filter(ms, b)) == multiset(head) + multiset(Filter(ms[1..], b));
    }
  }

  /**
   * The filter keeps the relative order of what it keeps: the migrations of
   * a passing version come out in their order in ms, those of any other
   * version not at all.
   */
  lemma {:induction false} FilterKeepsOrder(ms: seq<Migration>, b: Bound, v: nat)
    ensures WithVersion(Filter(ms, b), v) == if PassesVersion(b, v) then WithVersion(ms, v) else []
    decreases |ms|
  {
    if ms != [] {
      FilterKeepsOrder(ms[1..], b, v);
      var rest := Filter(ms[1..], b);
      if Passes(b, ms[0]) {
        assert Filter(ms, b) == [ms[0]] + rest;
        assert ([ms[0]] + rest)[0] == ms[0] && ([ms[0]] + rest)[1..] == rest;
      } else {
        assert Filter(ms, b) == rest;
      }
    }
  }

  /** A filter that every element passes keeps the whole list. */
  lemma {:induction false} FilterKeepsAll(ms: seq<Migration>, b: Bound)
    requires forall i :: 0 <= i < |ms| ==> Passes(b, ms[i])
    ensures Filter(ms, b) == ms
    decreases |ms|
  {
    if ms != [] {
      var tail := ms[1..];
      assert forall i :: 0 <= i < |tail| ==> tail[i] == ms[i + 1];
      FilterKeepsAll(tail, b);
      assert Filter(ms, b) == [ms[0]] + Filter(tail, b);
      assert ms == [ms[0]] + tail;
    }
  }

  /** A filter that no element passes keeps nothing. */
  lemma {:induction false} FilterDropsAll(ms: seq<Migration>, b: Bound)
    requires forall i :: 0 <= i < |ms| ==> !Passes(b, ms[i])
    ensures Filter(ms, b) == []
    decreases |ms|
  {
    if ms != [] {
      var tail := ms[1..];
      assert forall i :: 0 <= i < |tail| ==> tail[i] == ms[i + 1];
      FilterDropsAll(tail, b);
    }
  }

  /** The migrations with a version above current: the first filter of `upgrade`. */
  function Above(ms: seq<Migration>, current: int): seq<Migration> {
    Filter(ms, GreaterThan(current))
  }

  /** The migrations with a version at most target: the second filter of `upgrade`. */
  function NotAbove(ms: seq<Migration>, target: int): seq<Migration> {
    Filter(ms, AtMost(target))
  }

  /**
   * The two filters together keep exactly the migrations with
   * lo < version <= hi: as often as they occur, those of one version in their
   * order in ms, and ascending when ms is.
   */
  lemma InRange(ms: seq<Migration>, lo: int, hi: int)
    ensures forall m :: m in NotAbove(Above(ms, lo), hi) <==> m in ms && lo < m.version <= hi
    ensures forall m :: multiset(NotAbove(Above(ms, lo), hi))[m] == if lo < m.version <= hi then multiset(ms)[m] else 0
    ensures forall v: nat :: WithVersion(NotAbove(Above(ms, lo), hi), v) == if lo < v <= hi then WithVersion(ms, v) else []
    ensures SortedByVersion(ms) ==> SortedByVersion(NotAbove(Above(ms, lo), hi))
  {
    var pending := Above(ms, lo);
    forall m: Migration ensures multiset(NotAbove(pending, hi))[m] == if lo < m.version <= hi then multiset(ms)[m] else 0
    {
      FilterCounts(ms, GreaterThan(lo), m);
      FilterCounts(pending, AtMost(hi), m);
    }
    forall v: nat ensures WithVersion(NotAbove(pending, hi), v) == if lo < v <= hi then WithVersion(ms, v) else []
    {
      FilterKeepsOrder(ms, GreaterThan(lo), v);
      FilterKeepsOrder(pending, AtMost(hi), v);
    }
  }

  function Last(batch: seq<Migration>): Migration
    requires batch != []
  {
    batch[|batch| - 1]
  }

  /** Running a batch in order: all the operations, or the first migration that fails. */
  datatype RunResult = Ran(ops: seq<Operation>) | FailedAt(migration: Migration)

  function Prepend(ops: seq<Operation>, r: RunResult): RunResult {
    match r
    case Ran(rest) => Ran(ops + rest)
    case FailedAt(_) => r
  }

  lemma PrependTwice(first: seq<Operation>, second: seq<Operation>, r: RunResult)
    ensures Prepend(first, Prepend(second, r)) == Prepend(first + second, r)
  {
    if r.Ran? {
      assert first + (second + r.ops) == (first + second) + r.ops;
    }
  }

  /** The loop of the atomic block, as a value: each migration's operations in batch order. */
  function Run(batch: seq<Migration>, producer: Producer): RunResult
    decreases |batch|
  {
    if batch == [] then Ran([])
    else
      match producer(batch[0].handle)
      case None => FailedAt(batch[0])
      case Some(ops) => Prepend(ops, Run(batch[1..], producer))
  }

  /** The batch runs through exactly when every migration in it succeeds. */
  lemma {:induction false} RunSucceedsIffAllSucceed(batch: seq<Migration>, producer: Producer)
    ensures Run(batch, producer).Ran? <==> forall i :: 0 <= i < |batch| ==> producer(batch[i].handle).Some?
    decreases |batch|
  {
    if batch != [] {
      RunSucceedsIffAllSucceed(batch[1..], producer);
      if producer(batch[0].handle).Some? {
        assert forall i :: 1 <= i < |batch| ==> batch[i] == batch[1..][i - 1];
      }
    }
  }

  /** A failure names the first migration of the batch that fails; those before it succeeded. */
  lemma {:induction false} RunStopsAtFirstFailure(batch: seq<Migration>, producer: Producer)
    requires Run(batch, producer).FailedAt?
    ensures exists i :: 0 <= i < |batch| && batch[i] == Run(batch, producer).migration &&
                        producer(batch[i].handle).None? &&
                        forall j :: 0 <= j < i ==> producer(batch[j].handle).Some?
    decreases |batch|
  {
    if producer(batch[0].handle).Some? {
      RunStopsAtFirstFailure(batch[1..], producer);
      var i :| 0 <= i < |batch[1..]| && batch[1..][i] == Run(batch[1..], producer).migration &&
               producer(batch[1..][i].handle).None? &&
               forall j :: 0 <= j < i ==> producer(batch[1..][j].handle).Some?;
      assert batch[i + 1] == batch[1..][i];
      forall j | 0 <= j < i + 1 ensures producer(batch[j].handle).Some? {
        if j > 0 {
          assert batch[j] == batch[1..][j - 1];
        }
      }
    } else {
      assert batch[0] == Run(batch, producer).migration;
    }
  }

  /**
   * Running a batch is running its front part and then, if that went through,
   * its back part: the operations of the migrations come out in batch order,
   * each migration's once.
   */
  lemma {:induction false} RunSplits(front: seq<Migration>, back: seq<Migration>, producer: Producer)
    ensures Run(front + back, producer) ==
            match Run(front, producer)
            case Ran(ops) => Prepend(ops, Run(back, producer))
            case FailedAt(m) => FailedAt(m)
    decreases |front|
  {
    if front == [] {
      assert front + back == back;
      match Run(back, producer)
      case Ran(ops) => assert [] + ops == ops;
      case FailedAt(m) =>
    } else {
      assert (front + back)[0] == front[0];
      assert (front + back)[1..] == front[1..] + back;
      RunSplits(front[1..], back, producer);
      match producer(front[0].handle)
      case None =>
      case Some(ops) =>
        match Run(front[1..], producer)
        case FailedAt(m) =>
        case Ran(more) =>
          match Run(back, producer)
          case FailedAt(m) =>
          case Ran(rest) => assert ops + (more + rest) == (ops + more) + rest;
    }
  }

  /** How one `upgrade` call ends: the message it logs or the exception it raises. */
  datatype UpgradeOutcome =
    | InvalidTarget                                   // "Unable to parse version"
    | NotInitialized                                  // `inspect` returned None
    | FolderNotFound                                  // `find_migrations` returned None; the caller then raises TypeError
    | UpToDate(version: int, reportedAhead: bool)     // "already up to date", after "version is higher" when reportedAhead
    | Migrated(version: int)                          // the batch ran and the version was set
    | MigrationFailed(name: string)                   // a migration raised; the atomic block rolled back

  /** What `upgrade` decided before opening the atomic block. */
  datatype Plan = Halt(outcome: UpgradeOutcome) | Apply(batch: seq<Migration>)

  predicate WellFormed(plan: Plan) {
    plan.Apply? ==> plan.batch != []
  }

  /** The outcome of carrying out plan. */
  function Settle(plan: Plan, producer: Producer): UpgradeOutcome
    requires WellFormed(plan)
  {
    match plan
    case Halt(outcome) => outcome
    case Apply(batch) =>
      match Run(batch, producer)
      case Ran(_) => Migrated(Last(batch).version)
      case FailedAt(m) => MigrationFailed(m.name)
  }

  /** Whether carrying out plan writes to the database. */
  predicate Commits(plan: Plan, producer: Producer) {
    plan.Apply? && Run(plan.batch, producer).Ran?
  }

  /**
   * The atomic block: run each migration of batch in order, appending its
   * operations, then `__set_version` of the last one's version. A failure
   * rolls back everything the block did.
   */
  method ApplyBatch(db: Database, batch: seq<Migration>, producer: Producer) returns (failure: Option<Migration>)
    requires db.tableExists && batch != []
    modifies db
    ensures failure.None? <==> Run(batch, producer).Ran?
    ensures failure.Some? ==> Run(batch, producer) == FailedAt(failure.value)
    ensures failure.None? ==> db.tableExists && db.rows == {IntToString(Last(batch).version)} &&
                              db.applied == old(db.applied) + Run(batch, producer).ops
    ensures failure.Some? ==> db.tableExists == old(db.tableExists) && db.rows == old(db.rows) &&
                              db.applied == old(db.applied)
  {
    var savedRows, savedApplied := db.rows, db.applied;
    var done: seq<Operation> := [];
    var i := 0;
    failure := None;
    while i < |batch| && failure.None?
      invariant 0 <= i <= |batch|
      invariant db.tableExists && db.rows == savedRows
      invariant db.applied == savedApplied + done
      invariant failure.None? ==> Run(batch, producer) == Prepend(done, Run(batch[i..], producer))
      invariant failure.Some? ==> Run(batch, producer) == FailedAt(failure.value)
      decreases |batch| - i, if failure.None? then 1 else 0
    {
      assert batch[i..][0] == batch[i] && batch[i..][1..] == batch[i + 1..];
      match producer(batch[i].handle)
      case None =>
        failure := Some(batch[i]);
      case Some(ops) =>
        PrependTwice(done, ops, Run(batch[i + 1..], producer));
        db.applied := db.applied + ops;
        done := done + ops;
        i := i + 1;
    }
    if failure.Some? {
      db.rows, db.applied := savedRows, savedApplied;
    } else {
      assert batch[i..] == [];
      assert done + [] == done;
      db.SetVersion(Last(batch).version);
    }
  }

  /** Carry out plan: nothing for a halt, the atomic block for a batch. */
  method Execute(db: Database, plan: Plan, producer: Producer) returns (outcome: UpgradeOutcome)
    requires WellFormed(plan) && (plan.Apply? ==> db.tableExists)
    modifies db
    ensures outcome == Settle(plan, producer)
    ensures Commits(plan, producer) ==>
              db.tableExists && db.rows == {IntToString(Last(plan.batch).version)} &&
              db.applied == old(db.applied) + Run(plan.batch, producer).ops
    ensures !Commits(plan, producer) ==>
              db.tableExists == old(db.tableExists) && db.rows == old(db.rows) && db.applied == old(db.applied)
  {
    match plan
    case Halt(o) =>
      outcome := o;
    case Apply(batch) =>
      var failure := ApplyBatch(db, batch, producer);
      if failure.None? {
        outcome := Migrated(Last(batch).version);
      } else {
        outcome := MigrationFailed(failure.value.name);
      }
  }
}
