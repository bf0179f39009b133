/**
 * The upgrade decision and the facade of the packaged engine
 * (jambi/jambi.py): target parsing, `upgrade`, `latest`, the name
 * `makemigration` gives a new migration, and `wish_from_kwargs`.
 */
module Engine {
  import opened Wrappers
  import opened Decimal
  import opened Registry
  import opened Store
  import opened Executor
  import opened Kwargs

  /** What `upgrade` is asked to reach: a version number or 'latest'. */
  datatype Target = Exact(version: int) | ToLatest

  /**
   * The target a ref names: an int, or text that `int` accepts, asks for that
   * version, and the text 'latest' for the latest one. Anything else is
   * refused (None): `upgrade` logs that the version cannot be parsed and stops.
   */
  function ParseTarget(ref: Arg): Option<Target> {
    match ref
    case Number(n) => Some(Exact(n))
    case Text(s) =>
      (match ParseInt(s)
       case Some(n) => Some(Exact(n))
       case None => if s == "latest" then Some(ToLatest) else None)
    case NoValue => None
  }

  /** `latest_ref`: the version of the last migration found, or 0 when there is none. */
  function LatestRef(ms: seq<Migration>): int {
    if ms == [] then 0 else Last(ms).version
  }

  /** The number the batch is bounded by: 'latest' becomes `latest_ref`. */
  function Resolve(t: Target, latestRef: int): int {
    match t
    case Exact(v) => v
    case ToLatest => latestRef
  }

  /**
   * The guards and filters of `upgrade`, once the current version and the
   * migrations are known. When the database is ahead of the migrations the
   * error is logged but the method goes on; its batch is then empty (for a
   * sorted list), so it stops as up to date.
   */
  function Decide(t: Target, current: int, ms: seq<Migration>): (plan: Plan)
    ensures WellFormed(plan)
  {
    var latestRef := LatestRef(ms);
    var pending := Above(ms, current);
    if current == latestRef then Halt(UpToDate(current, false))
    else
      var batch := NotAbove(pending, Resolve(t, latestRef));
      if batch == [] then Halt(UpToDate(current, current > latestRef)) else Apply(batch)
  }

  /** The whole decision of `upgrade(ref)`, given what `inspect` read and the folder listing. */
  function PlanUpgrade(ref: Arg, reading: Option<int>, location: string, listing: Option<seq<string>>): (plan: Plan)
    ensures WellFormed(plan)
  {
    match ParseTarget(ref)
    case None => Halt(InvalidTarget)
    case Some(t) =>
      match reading
      case None => Halt(NotInitialized)
      case Some(current) =>
        match listing
        case None => Halt(FolderNotFound)
        case Some(names) => Decide(t, current, Discover(location, names))
  }

  /**
   * `Jambi.upgrade(ref)`. The ghost reading is the value `inspect` returned
   * (any stored row may be the one it reads); a ref that is neither an int
   * nor 'latest' stops before `inspect` is called.
   */
  method Upgrade(db: Database, ref: Arg, location: string, listing: Option<seq<string>>, producer: Producer)
    returns (outcome: UpgradeOutcome, ghost reading: Option<int>)
    modifies db
    ensures ParseTarget(ref).None? ==> outcome == InvalidTarget
    ensures ParseTarget(ref).Some? ==> reading in old(Readings(db.Table()))
    ensures var plan := PlanUpgrade(ref, reading, location, listing);
            && outcome == Settle(plan, producer)
            && (Commits(plan, producer) ==>
                  db.tableExists && db.rows == {IntToString(Last(plan.batch).version)} &&
                  db.applied == old(db.applied) + Run(plan.batch, producer).ops)
            && (!Commits(plan, producer) ==>
                  db.tableExists == old(db.tableExists) && db.rows == old(db.rows) && db.applied == old(db.applied))
  {
    reading := None;
    var target := ParseTarget(ref);
    if target.None? {
      return InvalidTarget, reading;
    }
    var current := db.Inspect();
    reading := current;
    if current.None? {
      return NotInitialized, reading;
    }
    var found := FindMigrations(location, listing);
    if found.None? {
      return FolderNotFound, reading;
    }
    var plan := Decide(target.value, current.value, found.value);
    outcome := Execute(db, plan, producer);
  }

  /** `latest()`: the largest version found; None where it raises (no folder, or no migration). */
  function LatestVersion(listing: Option<seq<string>>, location: string): Option<nat> {
    match listing
    case None => None
    case Some(names) => Latest(Discover(location, names))
  }

  /** `'version_{}.py'.format(ver)`. */
  function MigrationFileName(v: int): string {
    Prefix + IntToString(v) + Suffix
  }

  /** The file `makemigration` creates: one past `latest()`; None where `latest()` raises. */
  function NextMigrationFileName(listing: Option<seq<string>>, location: string): Option<string> {
    match LatestVersion(listing, location)
    case None => None
    case Some(v) => Some(MigrationFileName(v + 1))
  }

  /** `wish_from_kwargs`: which operation a wish calls, with `ref or 'latest'` for an upgrade. */
  function WishFromKwargs(kwargs: map<string, Arg>): Wish {
    if "wish" !in kwargs then Raises(NoWish)
    else
      var wish := kwargs["wish"];
      if wish == Text("upgrade") then
        if "ref" in kwargs then CallUpgrade(OrLatest(kwargs["ref"])) else Raises(NoRef)
      else if wish == Text("inspect") then CallInspect
      else if wish == Text("latest") then CallLatest
      else if wish == Text("init") then CallInit
      else if wish == Text("makemigration") then CallMakeMigration(Get(kwargs, "template"), Get(kwargs, "message"))
      else NoCall
  }

  // ---------------------------------------------------------------------
  // Properties of the upgrade decision

  /** A target is an int literal or 'latest'; anything else is refused, and `str(n)` asks for n. */
  lemma ParseTargetSpec(s: string, n: int)
    ensures ParseTarget(Text(s)).None? <==> !IsIntLiteral(s) && s != "latest"
    ensures ParseTarget(Text(s)) == Some(ToLatest) <==> s == "latest"
    ensures ParseTarget(Text(IntToString(n))) == Some(Exact(n))
  {
    ParseIntToString(n);
    assert !IsIntLiteral("latest") by {
      assert !IsDigit("latest"[0]);
    }
  }

  /**
   * A refused target ends `upgrade` before `inspect`: whatever the database
   * and the folder hold, nothing is written.
   */
  lemma InvalidTargetChangesNothing(ref: Arg, reading: Option<int>, location: string,
                                    listing: Option<seq<string>>, producer: Producer)
    requires ParseTarget(ref).None?
    ensures PlanUpgrade(ref, reading, location, listing) == Halt(InvalidTarget)
    ensures !Commits(PlanUpgrade(ref, reading, location, listing), producer)
  {
  }

  /** 'latest' resolves to the last, and largest, version found: what `latest()` returns. */
  lemma LatestTargetIsLatest(ms: seq<Migration>)
    requires SortedByVersion(ms) && ms != []
    ensures Latest(ms) == Some(Resolve(ToLatest, LatestRef(ms)))
    ensures forall m :: m in ms ==> m.version <= Resolve(ToLatest, LatestRef(ms))
  {
    LatestIsMaximum(ms);
  }

  /**
   * The batch holds exactly the migrations with current < version <= target,
   * each as often as it was found, those of one version in the order they
   * were found, and in ascending order when the list is sorted.
   */
  lemma BatchIsExactlyInRange(t: Target, current: int, ms: seq<Migration>)
    requires Decide(t, current, ms).Apply?
    ensures var batch := Decide(t, current, ms).batch;
            var target := Resolve(t, LatestRef(ms));
            && (forall m :: m in batch <==> m in ms && current < m.version <= target)
            && (forall m :: multiset(batch)[m] == if current < m.version <= target then multiset(ms)[m] else 0)
            && (forall v: nat :: WithVersion(batch, v) == if current < v <= target then WithVersion(ms, v) else [])
            && (SortedByVersion(ms) ==> SortedByVersion(batch))
  {
    InRange(ms, current, Resolve(t, LatestRef(ms)));
  }

  /**
   * `upgrade` writes nothing exactly when the database is at `latest_ref`
   * or no migration lies in the range (current, target].
   */
  lemma NoOpExactly(t: Target, current: int, ms: seq<Migration>)
    ensures Decide(t, current, ms).Halt? <==>
            current == LatestRef(ms) ||
            forall m :: m in ms ==> !(current < m.version <= Resolve(t, LatestRef(ms)))
  {
    var batch := NotAbove(Above(ms, current), Resolve(t, LatestRef(ms)));
    if batch != [] {
      assert batch[0] in batch;
    }
  }

  /** A database ahead of every migration found is reported and left alone. */
  lemma AheadOfMigrationsChangesNothing(t: Target, current: int, ms: seq<Migration>)
    requires SortedByVersion(ms) && current > LatestRef(ms)
    ensures Decide(t, current, ms) == Halt(UpToDate(current, true))
  {
    LatestIsMaximum(ms);
    forall i | 0 <= i < |ms| ensures !Passes(GreaterThan(current), ms[i]) {
      assert ms[i] in ms;
    }
    FilterDropsAll(ms, GreaterThan(current));
    assert NotAbove(Above(ms, current), Resolve(t, LatestRef(ms))) == [];
  }

  /** A target at or below the current version changes nothing. */
  lemma TargetNotAboveCurrentIsNoOp(t: Target, current: int, ms: seq<Migration>)
    requires Resolve(t, LatestRef(ms)) <= current
    ensures Decide(t, current, ms).Halt?
  {
    NoOpExactly(t, current, ms);
  }

  /**
   * The version written is the highest in the range (current, target]; it
   * can be below the target asked for when no migration carries that number.
   */
  lemma NewVersionIsHighestInRange(t: Target, current: int, ms: seq<Migration>)
    requires SortedByVersion(ms) && Decide(t, current, ms).Apply?
    ensures var batch := Decide(t, current, ms).batch;
            var target := Resolve(t, LatestRef(ms));
            && current < Last(batch).version <= target
            && forall m :: m in ms && current < m.version <= target ==> m.version <= Last(batch).version
  {
    var batch := Decide(t, current, ms).batch;
    assert Last(batch) in batch;
    forall m | m in ms && current < m.version <= Resolve(t, LatestRef(ms))
      ensures m.version <= Last(batch).version
    {
      assert m in batch;
      var k :| 0 <= k < |batch| && batch[k] == m;
    }
  }

  /** Upgrading to 'latest' writes `latest()`. */
  lemma UpgradeToLatestReachesLatest(current: int, ms: seq<Migration>)
    requires SortedByVersion(ms) && Decide(ToLatest, current, ms).Apply?
    ensures Some(Last(Decide(ToLatest, current, ms).batch).version) == Latest(ms)
  {
    var batch := Decide(ToLatest, current, ms).batch;
    NewVersionIsHighestInRange(ToLatest, current, ms);
    var top := Last(ms);
    assert top in ms;
    assert Last(batch).version <= LatestRef(ms);
    assert current < top.version;
    assert top.version <= Last(batch).version;
    assert Last(batch).version == top.version;
  }

  /** From version 0, 'latest' applies every migration found, in order, once each. */
  lemma UpgradeFromZeroAppliesAll(ms: seq<Migration>)
    requires SortedByVersion(ms) && ms != []
    requires forall m :: m in ms ==> m.version > 0
    ensures Decide(ToLatest, 0, ms) == Apply(ms)
  {
    LatestIsMaximum(ms);
    assert Last(ms) in ms;
    FilterKeepsAll(ms, GreaterThan(0));
    FilterKeepsAll(ms, AtMost(LatestRef(ms)));
  }

  /** Running the same upgrade again after it succeeded changes nothing. */
  lemma SecondUpgradeIsNoOp(t: Target, current: int, ms: seq<Migration>)
    requires SortedByVersion(ms) && Decide(t, current, ms).Apply?
    ensures Decide(t, Last(Decide(t, current, ms).batch).version, ms).Halt?
  {
    var reached := Last(Decide(t, current, ms).batch).version;
    NewVersionIsHighestInRange(t, current, ms);
    NoOpExactly(t, reached, ms);
  }

  /** The name `makemigration` builds passes the filter and reads back as its version. */
  lemma MigrationFileNameRoundTrip(v: nat)
    ensures IsValidMigrationName(MigrationFileName(v))
    ensures RemovePy(MigrationFileName(v)) == Prefix + IntToString(v)
    ensures VersionOf(RemovePy(MigrationFileName(v))) == Some(v)
  {
    var d := IntToString(v);
    var name := MigrationFileName(v);
    assert name[..|Prefix|] == Prefix;
    assert name[|name| - |Suffix|..] == Suffix;
    assert forall i :: 0 <= i < |Prefix + d| ==> (Prefix + d)[i] != '.';
    assert name == (Prefix + d) + Suffix;
    RemovePyKeepsDotFree(Prefix + d, Suffix);
    assert RemovePy(Suffix) == [];
    assert Prefix + d + [] == Prefix + d;
    VersionAfterPrefix(d, []);
    NatDigitsValue(v);
  }

  /**
   * After `makemigration` writes its file, `latest()` is one higher, wherever
   * the new file comes in the folder's listing: folder is any listing of the
   * old files together with the new one.
   */
  lemma NewMigrationBecomesLatest(location: string, listing: seq<string>, folder: seq<string>, v: nat)
    requires Latest(Discover(location, listing)) == Some(v)
    requires multiset(folder) == multiset(listing) + multiset{MigrationFileName(v + 1)}
    ensures Latest(Discover(location, folder)) == Some(v + 1)
  {
    var f := MigrationFileName(v + 1);
    MigrationFileNameRoundTrip(v + 1);
    var e := Entry(location, RemovePy(f)).value;
    assert e.version == v + 1;
    LatestOfDiscovery(location, listing);
    LatestOfDiscovery(location, folder);
    KeptWithAddedFile(location, listing, folder, f, e);
    forall m | m in Kept(location, folder) ensures m.version <= v + 1 {
      KeptWithAddedFile(location, listing, folder, f, m);
    }
    assert e in Kept(location, folder);
    var top := Latest(Discover(location, folder));
    assert top.Some?;
    var w :| w in Kept(location, folder) && w.version == top.value;
    assert top.value <= v + 1;
    assert v + 1 <= top.value;
  }

  /** An upgrade wish without a usable ref (None, "" or 0) asks for 'latest'; otherwise ref passes through. */
  lemma UpgradeWishDefaultsToLatest(kwargs: map<string, Arg>)
    requires "wish" in kwargs && kwargs["wish"] == Text("upgrade") && "ref" in kwargs
    ensures WishFromKwargs(kwargs) == CallUpgrade(if Truthy(kwargs["ref"]) then kwargs["ref"] else Text("latest"))
    ensures !Truthy(kwargs["ref"]) ==> ParseTarget(WishFromKwargs(kwargs).ref) == Some(ToLatest)
  {
    ParseTargetSpec("latest", 0);
  }

  /**
   * A wish that is not one of the five names calls nothing and yields None.
   * This restates the last branch of the dispatch table; it holds by definition.
   */
  lemma UnknownWishCallsNothing(kwargs: map<string, Arg>)
    requires "wish" in kwargs
    requires kwargs["wish"] !in {Text("upgrade"), Text("inspect"), Text("latest"), Text("init"), Text("makemigration")}
    ensures WishFromKwargs(kwargs) == NoCall
  {
  }
}
