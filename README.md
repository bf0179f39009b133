# jambi migration engine in Dafny

jambi is a small database migration helper for peewee and PostgreSQL. The
migrations folder holds files named `version_<N>.py`, each a Python module
with an `upgrade(migrator)` function. The database records the version it
has reached in a one-column table `jambi` whose text primary key is `ref`.
`upgrade(ref)` reads that version, discovers and sorts the migration files,
and picks those above the current version and at most the target (`'latest'`
means the highest version found). It runs them in one atomic block and then
replaces the stored version with the version of the last migration applied.
`inspect` reads the version, `init` creates the table with the row `"0"`,
`latest` reports the highest version found, `makemigration` names the next
file `version_<latest+1>.py`, and `wish_from_kwargs` maps the command line's
keyword arguments to one of these operations.

The repository has two copies of the engine. The package `jambi/jambi.py`
is the current one. The top-level `jambi.py` is older: its `upgrade`
ignores its argument and applies every pending migration, and its dispatch
knows only `upgrade`, `inspect` and `init`. Discovery, `inspect`,
`__set_version`, `init` and the atomic block are the same code in both
files. The model defines them once and both engines use that one
definition.

Modules:

- `Decimal`: `int(text)` for ASCII decimal literals and `str(n)`.
- `Registry`: `find_migrations`. This covers the name filter, the
  `replace('.py', '')` stem, the module name, the `re.search` version parse,
  the stable sort by version, and `latest`.
- `Store`: the `jambi` table. `Database` is a class whose fields hold
  whether the table exists, the set of `ref` keys, and the log of schema
  operations applied so far. `Inspect`, `SetVersion` (`__set_version`) and
  `Init` are its methods.
- `Executor`: the two filters of `upgrade`, the atomic block (`ApplyBatch`),
  and how a plan ends.
- `Kwargs`: keyword argument values, Python truthiness and the wish a call
  stands for.
- `Engine`: the package `upgrade` with its guards, `latest`, the
  `makemigration` file name and `wish_from_kwargs`.
- `Legacy`: the older `upgrade` and `wish_from_kwargs`.

Some things are parameters of the model:

- The folder listing is `Option<seq<string>>`. None means the folder is
  missing.
- The behaviour of each migration module is a `Producer`. It maps the
  imported module to the operations its `upgrade` returns, or to None when
  that module raises.
- `limit(1)` without an ORDER BY may return any stored row. `Inspect`
  chooses a row nondeterministically, and `Readings` is the set of values it
  may return.

## Model

| member | source | states |
|---|---|---|
| Decimal.IntToString | jambi/jambi.py:185 | `str(n)`, the text `__set_version` stores; ParseIntToString and IntToStringInjective state its properties |
| Decimal.ParseInt | jambi/jambi.py:163 | `int(text)` succeeds exactly on an optionally signed run of ASCII digits, and a digit run reads as its decimal value |
| Decimal.ParseIntToString | jambi/jambi.py:185 | the text `str(n)` stores reads back through `int` as n, for every integer n |
| Decimal.IntToStringInjective | jambi/jambi.py:185 | distinct versions are stored as distinct keys |
| Decimal.NatDigitsValue | jambi/jambi.py:185 | the digits printed for n have value n |
| Decimal.LeadingZerosIgnored | jambi/jambi.py:132 | leading zeros do not change the value of a digit run |
| Registry.IsValidMigrationName | jambi/jambi.py:123-124 | a name starting with "version_" and ending with ".py"; StemsMembers and MigrationFileNameRoundTrip use it |
| Registry.RemovePy | jambi/jambi.py:126 | `replace('.py', '')`, removing every occurrence from left to right; RemovePyKeepsDotFree states how it acts on a dot-free front |
| Registry.DigitRun | jambi/jambi.py:132 | the greedy `\d+` run is a digit prefix that stops at the first non-digit |
| Registry.SearchVersion | jambi/jambi.py:132 | `re.search(r'version_(\d+)')` from a position: the leftmost "version_" that a digit follows; VersionAfterPrefix states its result |
| Registry.VersionOf | jambi/jambi.py:132-136 | the version of a stem, None where the search fails and the file is skipped; VersionAfterPrefix and VersionIgnoresLeadingZeros state its values |
| Registry.ModuleName | jambi/jambi.py:130 | the dotted import path: the location with "/" turned into ".", outer dots stripped, joined to the stem |
| Registry.Stems | jambi/jambi.py:123-127 | the filtered, `.py`-stripped names in listing order; StemsMembers states which they are |
| Registry.Entry | jambi/jambi.py:129-141 | the `(module_name, ver, module)` tuple for one stem, None when its version does not parse |
| Registry.Collect | jambi/jambi.py:128-141 | what the loop appends after visiting some stems; CollectMembers states which descriptors |
| Registry.Kept | jambi/jambi.py:123-141 | the descriptors of the usable files in listing order; KeptMembers, KeptAppend and KeptWithAddedFile state its contents |
| Registry.InsertCounts | jambi/jambi.py:142 | one insertion step of the sort adds the new migration and keeps every other one |
| Registry.InsertSorted | jambi/jambi.py:142 | inserting into an ascending list keeps it ascending |
| Registry.SortByVersion | jambi/jambi.py:142 | the result is in ascending version order and is a permutation of the input |
| Registry.InsertKeepsEqualsInOrder | jambi/jambi.py:142 | inserting places the new migration ahead of those with its version, leaving their order alone |
| Registry.SortIsStable | jambi/jambi.py:142 | `sorted(..., key=version)` is stable: migrations of equal version keep their listing order |
| Registry.Discover | jambi/jambi.py:112-142 | the list `find_migrations` returns for a given listing; DiscoverySpec states it |
| Registry.FindMigrations | jambi/jambi.py:112-142 | its loop builds exactly the discovered list: valid names in listing order, unparsable ones skipped, then sorted; None precisely when the folder is missing |
| Registry.Latest | jambi/jambi.py:106-110 | the version of the last migration, None where `[-1]` raises; LatestIsMaximum and LatestOfDiscovery state what it is |
| Registry.StemsMembers | jambi/jambi.py:123-127 | a stem is kept iff some listed name starts with "version_", ends with ".py", and loses every ".py" to give that stem |
| Registry.CollectMembers | jambi/jambi.py:128-141 | the loop appends a descriptor iff its stem has a parsable version; other stems are skipped |
| Registry.KeptMembers | jambi/jambi.py:123-141 | a descriptor is discovered iff it comes from a valid listed name whose version parses |
| Registry.DiscoverySpec | jambi/jambi.py:112-142 | discovery is a stable sort of the kept descriptors, and a migration is found iff a valid file name yields it |
| Registry.LatestIsMaximum | jambi/jambi.py:106-110 | on a sorted list the last version is the maximum; an empty list has none (`[-1]` raises) |
| Registry.LatestOfDiscovery | jambi/jambi.py:106-110 | `latest()` is the largest version of any usable file and is attained by one; none exists exactly when no file is usable |
| Registry.RemovePyKeepsDotFree | jambi/jambi.py:126 | `replace('.py', '')` leaves a dot-free front part untouched |
| Registry.DigitRunOfDigits | jambi/jambi.py:132 | the digit group ends where the digits end |
| Registry.VersionAfterPrefix | jambi/jambi.py:132 | a stem "version_" + digits + a non-digit tail has the digits' value as its version |
| Registry.VersionIgnoresLeadingZeros | jambi/jambi.py:132 | any number of zeros before the digits after "version_" leaves the version unchanged |
| Registry.VersionOfPaddedName | jambi/jambi.py:132 | an instance: "version_007" is version 7 |
| Registry.KeptAppend | jambi/jambi.py:123-141 | a file listed last adds its descriptor at the end of the kept list when it is valid and parsable, and nothing otherwise |
| Registry.KeptConcat | jambi/jambi.py:123-141 | discovering a listing made of two parts gives the descriptors of the first part, then those of the second |
| Registry.KeptPermutation | jambi/jambi.py:117-141 | how often each descriptor is discovered depends only on which names are listed and how often, not on the `os.listdir` order; the order of equal versions in the sorted result does depend on it |
| Registry.KeptCountsWithAddedFile | jambi/jambi.py:117-141 | a file added anywhere in the listing adds one copy of its descriptor when it is valid and parsable, and changes no other count |
| Registry.KeptWithAddedFile | jambi/jambi.py:117-141 | a file added anywhere in the listing adds its descriptor when valid and parsable and nothing else: which migrations are discovered does not depend on listing order, though the order of equal versions does |
| Registry.NewMaximumSortsLast | jambi/jambi.py:106-142 | a migration above every other one sorts last and becomes `latest()` |
| Store.Readings | jambi/jambi.py:154-175 | the values `inspect` may return on a table: None when it is missing or empty, otherwise `int` of any stored row; SetVersionThenInspect and InitAfterUpgradeAddsRow state its values |
| Store.AfterInit | jambi/jambi.py:188-197 | the table `init` leaves: created if missing, with "0" among its keys; InitIdempotent and InitOnFreshDatabase state its properties |
| Store.Database.Inspect | jambi/jambi.py:154-175 | None for a missing table or no row; otherwise `int` of one of the stored rows (None if that row is not an integer) |
| Store.Database.SetVersion | jambi/jambi.py:177-186 | afterwards the table holds exactly the row `str(v)`; applied operations are unchanged |
| Store.Database.Init | jambi/jambi.py:188-197 | the table exists afterwards and holds "0" besides its old rows; created is true exactly when "0" was not already a key |
| Store.Database.constructor | jambi/jambi.py:19-30 | a database jambi has never touched: no table, no rows, nothing applied |
| Store.SetVersionThenInspect | jambi/jambi.py:177-186 | after `__set_version(v)` every possible `inspect` returns v |
| Store.InitOnFreshDatabase | jambi/jambi.py:188-197 | `init` on a fresh database leaves only "0", read back as version 0 |
| Store.InitIdempotent | jambi/jambi.py:188-197 | a second `init` changes nothing |
| Store.InitAfterUpgradeAddsRow | jambi/jambi.py:188-197 | `init` after an upgrade to v ≠ 0 adds a second row, after which `inspect` may return either v or 0 |
| Executor.Filter | jambi/jambi.py:68-83 | the filter keeps exactly the migrations passing the bound and preserves ascending order |
| Executor.FilterCounts | jambi/jambi.py:68-83 | each passing migration is kept as many times as it occurs; others are dropped |
| Executor.FilterKeepsOrder | jambi/jambi.py:68-83 | `filter` keeps relative order: the migrations of a passing version come out in their order in the input |
| Executor.FilterKeepsAll | jambi/jambi.py:68-83 | a filter every migration passes returns the list unchanged |
| Executor.FilterDropsAll | jambi/jambi.py:68-83 | a filter no migration passes returns the empty list |
| Executor.Above | jambi/jambi.py:68 | the first filter, version > current; InRange states what the two filters keep |
| Executor.NotAbove | jambi/jambi.py:83 | the second filter, version ≤ target |
| Executor.InRange | jambi/jambi.py:68-83 | the two filters together keep exactly the migrations with lo < version ≤ hi, with their multiplicities, equal versions in input order, ascending for a sorted input |
| Executor.Run | jambi/jambi.py:93-97 | the loop of the atomic block as a value: the operations of each migration in order, or the first that raises; the Run lemmas state its properties |
| Executor.RunSucceedsIffAllSucceed | jambi/jambi.py:93-97 | the loop completes exactly when every migration in the batch succeeds |
| Executor.RunStopsAtFirstFailure | jambi/jambi.py:93-97 | a failure is reported for the first failing migration; every earlier one succeeded |
| Executor.RunSplits | jambi/jambi.py:93-97 | running a batch is running its front and then, if that succeeded, its back, with the operations concatenated in batch order |
| Executor.Settle | jambi/jambi.py:84-100 | how a plan ends: its halt outcome, or migrated to the last version, or failed at the first migration that raised |
| Executor.ApplyBatch | jambi/jambi.py:92-98 | on success the log gains every migration's operations in batch order and the version becomes the last migration's; on failure the rollback leaves the table and the log as they were |
| Executor.Execute | jambi/jambi.py:84-100 | the outcome is the plan's outcome; the database changes only when a batch runs through, and then as the atomic block states |
| Kwargs.Truthy | jambi/jambi.py:220 | Python truthiness of an argument: None, "" and 0 are false |
| Kwargs.OrLatest | jambi/jambi.py:220 | `ref or 'latest'`; UpgradeWishDefaultsToLatest states its effect |
| Kwargs.Get | jambi/jambi.py:228-229 | `kwargs.pop(key, None)` |
| Engine.ParseTarget | jambi/jambi.py:51-56 | the target a ref names, None when `upgrade` refuses it; ParseTargetSpec states which refs are refused |
| Engine.LatestRef | jambi/jambi.py:67 | `latest_ref`: the last version found, 0 when there is none |
| Engine.Resolve | jambi/jambi.py:81-82 | 'latest' becomes `latest_ref`; LatestTargetIsLatest states it |
| Engine.Decide | jambi/jambi.py:66-87 | the guards and filters of `upgrade` on the current version and the discovered list; an Apply plan is never empty; NoOpExactly and BatchIsExactlyInRange state what it decides |
| Engine.PlanUpgrade | jambi/jambi.py:51-87 | the whole decision of `upgrade`, guards in source order; an Apply plan is never empty |
| Engine.ParseTargetSpec | jambi/jambi.py:51-56 | a ref is refused iff it is neither an int literal nor 'latest'; 'latest' (and only it) means the latest; `str(n)` asks for n |
| Engine.InvalidTargetChangesNothing | jambi/jambi.py:51-56 | a refused ref ends the upgrade before `inspect`, for any database and folder, without a write |
| Engine.Upgrade | jambi/jambi.py:45-100 | the outcome follows the guards in order: parse error, uninitialised database, missing folder, then the decision on the discovered list; the stored version and the operation log change only when a batch commits |
| Engine.LatestTargetIsLatest | jambi/jambi.py:67-82 | when some migration is found and the list is sorted, 'latest' resolves to `latest()`, which bounds every version found (with none found `latest_ref` is 0 while `latest()` raises) |
| Engine.BatchIsExactlyInRange | jambi/jambi.py:66-83 | the batch is exactly the found migrations with current < version ≤ target, with their multiplicities, equal versions in discovery order, ascending when the list is sorted |
| Engine.NoOpExactly | jambi/jambi.py:70-87 | upgrade stops without writing iff the database is at `latest_ref` or no migration lies in (current, target] |
| Engine.AheadOfMigrationsChangesNothing | jambi/jambi.py:70-87 | a database ahead of every migration is reported as ahead and then left alone |
| Engine.TargetNotAboveCurrentIsNoOp | jambi/jambi.py:83-87 | a target at or below the current version changes nothing |
| Engine.NewVersionIsHighestInRange | jambi/jambi.py:98 | the version written lies in (current, target] and is the highest found there |
| Engine.UpgradeToLatestReachesLatest | jambi/jambi.py:81-98 | a successful upgrade to 'latest' stores `latest()` |
| Engine.UpgradeFromZeroAppliesAll | jambi/jambi.py:66-98 | from version 0, when some migration is found and every version is positive, 'latest' applies every migration found, once each, in ascending order (a `version_0.py` is filtered out) |
| Engine.SecondUpgradeIsNoOp | jambi/jambi.py:70-98 | repeating a successful upgrade with the same target does nothing |
| Engine.LatestVersion | jambi/jambi.py:106-110 | `latest()`: the largest version found, None where it raises; LatestOfDiscovery states it |
| Engine.MigrationFileName | jambi/jambi.py:207 | `'version_{}.py'.format(ver)`; MigrationFileNameRoundTrip states its round trip |
| Engine.NextMigrationFileName | jambi/jambi.py:204-207 | the file `makemigration` writes, one past `latest()`; None where `latest()` raises |
| Engine.MigrationFileNameRoundTrip | jambi/jambi.py:204-207 | the file name `makemigration` writes passes the name filter and is discovered with the version it was given |
| Engine.NewMigrationBecomesLatest | jambi/jambi.py:199-210 | whatever position the new file takes in the listing, `latest()` is one higher afterwards |
| Engine.WishFromKwargs | jambi/jambi.py:212-234 | which operation a wish calls, with `ref or 'latest'` for an upgrade and the errors of a missing wish or ref |
| Engine.UpgradeWishDefaultsToLatest | jambi/jambi.py:219-220 | an upgrade wish passes `ref` on; a falsy ref (None, "" or 0) becomes 'latest', which the upgrade takes as the latest target |
| Engine.UnknownWishCallsNothing | jambi/jambi.py:230-232 | a wish other than the five names calls nothing |
| Legacy.Decide | jambi.py:43-58 | every migration above the current version, or up to date when there is none; an Apply plan is never empty |
| Legacy.PlanUpgrade | jambi.py:38-44 | the legacy guards (uninitialised database, missing folder) then Decide; an Apply plan is never empty |
| Legacy.Upgrade | jambi.py:36-59 | ref is ignored; the outcome follows the guards (uninitialised database, missing folder, nothing pending) and the database changes only when the pending batch commits |
| Legacy.WishFromKwargs | jambi.py:146-163 | upgrade, inspect and init only, with `kwargs.pop('ref', None)` |
| Legacy.BatchIsEveryPending | jambi.py:42-44 | the legacy batch is every found migration above the current version, with multiplicities, equal versions in discovery order, ascending for a sorted list |
| Legacy.NoOpExactly | jambi.py:44-58 | nothing is applied iff no migration lies above the current version |
| Legacy.StoresLargestPending | jambi.py:54 | a successful legacy upgrade stores the largest version found |
| Legacy.SameBatchAsLatestTarget | jambi.py:42-44 | for a sorted list the legacy engine applies exactly the batch the package engine applies for 'latest' |
| Legacy.UpgradeWishPassesRef | jambi.py:153-154 | legacy dispatch passes `ref` through unchanged, None when missing |
| Legacy.UnknownWishCallsNothing | jambi.py:159-161 | 'latest', 'makemigration' and every other unknown wish call nothing |

In `jambi.py` the following lines repeat package code:

- discovery (`jambi.py:69-91`)
- `inspect` (`jambi.py:98-118`)
- `__set_version` (`jambi.py:120-129`)
- `init` (`jambi.py:131-140`)
- the atomic loop (`jambi.py:47-54`)

Apart from their log text, the package and legacy copies differ in one
place: the legacy atomic block also prints the new version
(`jambi.py:53`). These copies are modelled by the `Registry`, `Store` and
`Executor` members above.

## Left out

- The peewee/PostgreSQL plumbing is left out: connecting, closing,
  `create_tables`, the migrator and the SQL it runs. Migration operations
  are opaque strings that are appended to a log.
- `importlib.import_module` is left out. A module is represented by its
  import path, and what the module does is the `Producer` parameter.
- The configuration file and `getconfig` are left out, together with the
  `ImproperlyConfigured` error. The migrations location is a parameter.
- Logging, `print`, argparse, `main` and `shutil.copyfile` are left out.
  Log messages are replaced by the `UpgradeOutcome` constructors.
- `makemigration` copies the template file. Only the name of the file it
  writes, and what `latest()` then reports, are modelled.
- In `jambi.py`, `downgrade`, `latest` and `makemigration` only return
  `NotImplemented`, so nothing in them is modelled. `downgrade` in the
  package is the same stub.
- Decimal.ParseInt: this is Python's `int(text)` restricted to an optional
  sign and ASCII digits. Surrounding whitespace, underscores between digits
  and non-ASCII Unicode digits are rejected here but accepted by Python.
- Registry.VersionOf: `\d` is taken to be ASCII digits only. Python's `\d`
  also matches other Unicode decimal digits.
- Concurrent sessions and transaction isolation are left out.
- The legacy `upgrade` calls `inspect` once more after committing. That
  call only logs, so the model makes it and discards the result.
- When `find_migrations` returns None, the caller raises TypeError: the
  package `upgrade` at `any(None)` (`jambi/jambi.py:67`), the legacy one at
  `filter(..., None)` (`jambi.py:43`), and `latest` at `None[-1]`. The model
  has no exceptions, so it records this as the `FolderNotFound` outcome or a
  None result.
