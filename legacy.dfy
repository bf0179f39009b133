/**
 * The older top-level engine (jambi.py). Discovery, `inspect`,
 * `__set_version`, `init` and the atomic block are the same code as in the
 * package and are modelled once (Registry, Store, Executor); what differs is
 * `upgrade`, which ignores its argument and applies everything pending, and
 * the smaller `wish_from_kwargs`.
 */
module Legacy {
  import opened Wrappers
  import opened Decimal
  import opened Registry
  import opened Store
  import opened Executor
  import opened Kwargs
  import Engine

  /** The decision of the legacy `upgrade`: every migration above the current version. */
  function Decide(current: int, ms: seq<Migration>): (plan: Plan)
    ensures WellFormed(plan)
  {
    var pending := Above(ms, current);
    if pending == [] then Halt(UpToDate(current, false)) else Apply(pending)
  }

  /** The whole decision, given what `inspect` read and the folder listing. */
  function PlanUpgrade(reading: Option<int>, location: string, listing: Option<seq<string>>): (plan: Plan)
    ensures WellFormed(plan)
  {
    match reading
    case None => Halt(NotInitialized)
    case Some(current) =>
      match listing
      case None => Halt(FolderNotFound)   // `filter(..., None)` raises TypeError
      case Some(names) => Decide(current, Discover(location, names))
  }

  /**
   * The legacy `Jambi.upgrade(ref)`: ref is only logged. The ghost reading is
   * the value `inspect` returned. The final `inspect` the source logs reads
   * and changes nothing.
   */
  method Upgrade(db: Database, ref: Arg, location: string, listing: Option<seq<string>>, producer: Producer)
    returns (outcome: UpgradeOutcome, ghost reading: Option<int>)
    modifies db
    ensures reading in old(Readings(db.Table()))
    ensures var plan := PlanUpgrade(reading, location, listing);
            && outcome == Settle(plan, producer)
            && (Commits(plan, producer) ==>
                  db.tableExists && db.rows == {IntToString(Last(plan.batch).version)} &&
                  db.applied == old(db.applied) + Run(plan.batch, producer).ops)
            && (!Commits(plan, producer) ==>
                  db.tableExists == old(db.tableExists) && db.rows == old(db.rows) && db.applied == old(db.applied))
  {
    var current := db.Inspect();
    reading := current;
    if current.None? {
      return NotInitialized, reading;
    }
    var found := FindMigrations(location, listing);
    if found.None? {
      return FolderNotFound, reading;
    }
    var plan := Decide(current.value, found.value);
    outcome := Execute(db, plan, producer);
    if outcome.Migrated? {
      var logged := db.Inspect();
    }
  }

  /** The legacy `wish_from_kwargs`: upgrade, inspect and init only, with `kwargs.pop('ref', None)`. */
  function WishFromKwargs(kwargs: map<string, Arg>): Wish {
    if "wish" !in kwargs then Raises(NoWish)
    else
      var wish := kwargs["wish"];
      if wish == Text("upgrade") then CallUpgrade(Get(kwargs, "ref"))
      else if wish == Text("inspect") then CallInspect
      else if wish == Text("init") then CallInit
      else NoCall
  }

  // ---------------------------------------------------------------------
  // Properties

  /**
   * The legacy batch is every pending migration, each as often as it was
   * found, those of one version in the order they were found, and in
   * ascending order when the list is sorted.
   */
  lemma BatchIsEveryPending(current: int, ms: seq<Migration>)
    requires Decide(current, ms).Apply?
    ensures var batch := Decide(current, ms).batch;
            && (forall m :: m in batch <==> m in ms && m.version > current)
            && (forall m :: multiset(batch)[m] == if m.version > current then multiset(ms)[m] else 0)
            && (forall v: nat :: WithVersion(batch, v) == if v > current then WithVersion(ms, v) else [])
            && (SortedByVersion(ms) ==> SortedByVersion(batch))
  {
    forall m ensures multiset(Decide(current, ms).batch)[m] == if m.version > current then multiset(ms)[m] else 0 {
      FilterCounts(ms, GreaterThan(current), m);
    }
    forall v: nat ensures WithVersion(Decide(current, ms).batch, v) == if v > current then WithVersion(ms, v) else [] {
      FilterKeepsOrder(ms, GreaterThan(current), v);
    }
  }

  /** Nothing is applied exactly when no migration lies above the current version. */
  lemma NoOpExactly(current: int, ms: seq<Migration>)
    ensures Decide(current, ms).Halt? <==> forall m :: m in ms ==> m.version <= current
  {
    var pending := Above(ms, current);
    if pending != [] {
      assert pending[0] in pending;
    }
  }

  /** On success the stored version is the largest version found, `latest()` of the package engine. */
  lemma StoresLargestPending(current: int, ms: seq<Migration>)
    requires SortedByVersion(ms) && Decide(current, ms).Apply?
    ensures Some(Last(Decide(current, ms).batch).version) == Latest(ms)
  {
    var batch := Decide(current, ms).batch;
    var top := Last(ms);
    assert Last(batch) in batch;
    assert top in ms;
    assert current < top.version;
    assert top in batch;
    var k :| 0 <= k < |batch| && batch[k] == top;
    assert Last(batch).version == top.version;
  }

  /**
   * For a sorted list of migrations the legacy engine applies the same batch
   * as the package engine asked for 'latest'.
   */
  lemma SameBatchAsLatestTarget(current: int, ms: seq<Migration>)
    requires SortedByVersion(ms)
    ensures Decide(current, ms).Apply? <==> Engine.Decide(Engine.ToLatest, current, ms).Apply?
    ensures Decide(current, ms).Apply? ==> Decide(current, ms).batch == Engine.Decide(Engine.ToLatest, current, ms).batch
  {
    var pending := Above(ms, current);
    var latestRef := Engine.LatestRef(ms);
    LatestIsMaximum(ms);
    if pending != [] {
      assert pending[0] in ms;
      assert Last(ms) in ms;
      forall i | 0 <= i < |pending| ensures Passes(AtMost(latestRef), pending[i]) {
        assert pending[i] in pending;
      }
      FilterKeepsAll(pending, AtMost(latestRef));
      assert current < pending[0].version <= latestRef;
      assert Engine.Decide(Engine.ToLatest, current, ms) == Apply(pending);
    } else {
      assert NotAbove(pending, latestRef) == [];
      assert Engine.Decide(Engine.ToLatest, current, ms).Halt?;
    }
  }

  /**
   * Legacy dispatch passes ref through untouched, with None when it is
   * missing. This restates the upgrade branch; it holds by definition.
   */
  lemma UpgradeWishPassesRef(kwargs: map<string, Arg>)
    requires "wish" in kwargs && kwargs["wish"] == Text("upgrade")
    ensures WishFromKwargs(kwargs) == CallUpgrade(if "ref" in kwargs then kwargs["ref"] else NoValue)
  {
  }

  /**
   * An unknown wish, including 'latest' and 'makemigration', calls nothing.
   * This restates the last branch of the dispatch table; it holds by definition.
   */
  lemma UnknownWishCallsNothing(kwargs: map<string, Arg>)
    requires "wish" in kwargs
    requires kwargs["wish"] !in {Text("upgrade"), Text("inspect"), Text("init")}
    ensures WishFromKwargs(kwargs) == NoCall
  {
  }
}
