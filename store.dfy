/**
 * The version store: the `jambi` table (one text column `ref`, the primary
 * key) and the schema changes the migrations have made, kept as a log of
 * applied operations.
 */
module Store {
  import opened Wrappers
  import opened Decimal

  /** One schema operation a migration asks `migrate` to run; opaque to the engine. */
  type Operation = string

  /** The version table as a value: whether it exists, and its `ref` keys. */
  datatype VersionTable = VersionTable(present: bool, rows: set<string>)

  /**
   * The results `inspect` may give on table t: None when the table is missing
   * (ProgrammingError) or empty; otherwise `int` of the row `limit(1)` returns,
   * and that row is any one of them, since the query has no ORDER BY.
   */
  function Readings(t: VersionTable): set<Option<int>> {
    if !t.present || t.rows == {} then {None}
    else set row | row in t.rows :: ParseInt(row)
  }

  /** `init`: `create_tables(safe=True)`, then insert "0" unless that key is already there. */
  function AfterInit(t: VersionTable): VersionTable {
    VersionTable(true, t.rows + {"0"})
  }

  class Database {
    var tableExists: bool
    var rows: set<string>
    var applied: seq<Operation>

    function Table(): VersionTable
      reads this
    {
      VersionTable(tableExists, rows)
    }

    /** A database on which jambi has never run. */
    constructor ()
      ensures !tableExists && rows == {} && applied == []
    {
      tableExists, rows, applied := false, {}, [];
    }

    /** `inspect`: the stored version, or None for a missing table, no row, or a value `int` rejects. */
    method Inspect() returns (version: Option<int>)
      ensures version in Readings(Table())
      ensures !tableExists || rows == {} ==> version == None
      ensures tableExists && rows != {} ==> exists row :: row in rows && version == ParseInt(row)
    {
      if !tableExists {
        return None;
      }
      if rows == {} {
        return None;
      }
      var row :| row in rows;
      version := ParseInt(row);
    }

    /** `__set_version`: delete every row, then insert `str(v)`. */
    method SetVersion(v: int)
      requires tableExists
      modifies this
      ensures tableExists
      ensures rows == {IntToString(v)} && applied == old(applied)
    {
      rows := {};
      rows := rows + {IntToString(v)};
    }

    /**
     * `init`: the table is created if missing and the key "0" inserted; when
     * "0" is already a key the insert raises IntegrityError, which is caught,
     * and nothing changes. created tells which message is logged.
     */
    method Init() returns (created: bool)
      modifies this
      ensures Table() == AfterInit(old(Table())) && applied == old(applied)
      ensures created <==> "0" !in old(rows)
    {
      tableExists := true;
      if "0" in rows {
        created := false;
      } else {
        rows := rows + {"0"};
        created := true;
      }
    }
  }

  /** After `__set_version(v)`, `inspect` can only return v. */
  lemma SetVersionThenInspect(v: int)
    ensures Readings(VersionTable(true, {IntToString(v)})) == {Some(v)}
  {
    ParseIntToString(v);
  }

  /** `init` on a database without the table leaves exactly the row "0", read back as version 0. */
  lemma InitOnFreshDatabase()
    ensures AfterInit(VersionTable(false, {})) == VersionTable(true, {"0"})
    ensures Readings(AfterInit(VersionTable(false, {}))) == {Some(0)}
  {
    ParseIntToString(0);
    assert IntToString(0) == "0";
  }

  /** A second `init` changes nothing. */
  lemma InitIdempotent(t: VersionTable)
    ensures AfterInit(AfterInit(t)) == AfterInit(t)
  {
  }

  /**
   * `init` after an upgrade to a version v other than 0 does not see the table
   * as initialised: it adds a second row "0", and `inspect` may then read
   * either version.
   */
  lemma InitAfterUpgradeAddsRow(v: int)
    requires v != 0
    ensures AfterInit(VersionTable(true, {IntToString(v)})).rows == {IntToString(v), "0"}
    ensures |AfterInit(VersionTable(true, {IntToString(v)})).rows| == 2
    ensures Readings(AfterInit(VersionTable(true, {IntToString(v)}))) == {Some(v), Some(0)}
  {
    ParseIntToString(v);
    ParseIntToString(0);
    assert IntToString(0) == "0";
    assert IntToString(v) != "0" by {
      if IntToString(v) == "0" {
        IntToStringInjective(v, 0);
      }
    }
  }
}
