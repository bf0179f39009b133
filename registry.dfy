/**
 * Migration discovery (`find_migrations`): the names in the migrations
 * folder that look like `version_<N>.py`, turned into descriptors
 * (module name, version, module handle) and sorted by version.
 */
module Registry {
  import opened Wrappers
  import opened Decimal

  const Prefix: string := "version_"
  const Suffix: string := ".py"

  /** The module `importlib.import_module` returns for a dotted import path; opaque to the engine. */
  datatype ModuleHandle = ModuleHandle(importPath: string)

  /** One discovered migration: the tuple `(module_name, ver, module)`. */
  datatype Migration = Migration(name: string, version: nat, handle: ModuleHandle)

  predicate StartsWith(s: string, p: string) {
    |p| <= |s| && s[..|p|] == p
  }

  predicate EndsWith(s: string, p: string) {
    |p| <= |s| && s[|s| - |p|..] == p
  }

  /** `is_valid_migration_name`: starts with "version_" and ends with ".py". */
  predicate IsValidMigrationName(n: string) {
    StartsWith(n, Prefix) && EndsWith(n, Suffix)
  }

  /** `s.replace('.py', '')`: every occurrence of ".py", scanned left to right without overlap, removed. */
  function RemovePy(s: string): string
    decreases |s|
  {
    if |s| < |Suffix| then s
    else if s[..|Suffix|] == Suffix then RemovePy(s[|Suffix|..])
    else [s[0]] + RemovePy(s[1..])
  }

  /** The longest run of digits at the front of s (the greedy `\d+`). */
  function DigitRun(s: string): (r: string)
    ensures AllDigits(r) && |r| <= |s| && r == s[..|r|]
    ensures |r| < |s| ==> !IsDigit(s[|r|])
  {
    if s != [] && IsDigit(s[0]) then [s[0]] + DigitRun(s[1..]) else []
  }

  /**
   * `int(re.search(r'version_(\d+)', s).group(1))`, searching from position i:
   * the leftmost "version_" followed by a digit, and the value of the digits
   * after it. None where there is no match (Python raises, and the name is skipped).
   */
  function SearchVersion(s: string, i: nat): Option<nat>
    decreases |s| - i
  {
    if i + |Prefix| >= |s| then None
    else if s[i..i + |Prefix|] == Prefix && IsDigit(s[i + |Prefix|]) then
      Some(DigitsValue(DigitRun(s[i + |Prefix|..])))
    else SearchVersion(s, i + 1)
  }

  /** The version number of a migration whose file name without ".py" is stem. */
  function VersionOf(stem: string): Option<nat> {
    SearchVersion(stem, 0)
  }

  function SlashesToDots(s: string): (r: string)
    ensures |r| == |s|
  {
    seq(|s|, i requires 0 <= i < |s| => if s[i] == '/' then '.' else s[i])
  }

  function StripLeadingDots(s: string): string
    decreases |s|
  {
    if s != [] && s[0] == '.' then StripLeadingDots(s[1..]) else s
  }

  function StripTrailingDots(s: string): string
    decreases |s|
  {
    if s != [] && s[|s| - 1] == '.' then StripTrailingDots(s[..|s| - 1]) else s
  }

  /** `'.'.join([fileloc.replace('/', '.').strip('.'), stem])`. */
  function ModuleName(location: string, stem: string): string {
    StripLeadingDots(StripTrailingDots(SlashesToDots(location))) + "." + stem
  }

  /** The filter on the directory listing and the `replace('.py', '')` comprehension, in listing order. */
  function Stems(listing: seq<string>): seq<string>
    decreases |listing|
  {
    if listing == [] then []
    else
      var f := listing[|listing| - 1];
      Stems(listing[..|listing| - 1]) + if IsValidMigrationName(f) then [RemovePy(f)] else []
  }

  /** The descriptor the loop appends for stem, or None when its version cannot be parsed. */
  function Entry(location: string, stem: string): Option<Migration> {
    match VersionOf(stem)
    case None => None
    case Some(v) =>
      var name := ModuleName(location, stem);
      Some(Migration(name, v, ModuleHandle(name)))
  }

  /** What the loop of `find_migrations` has appended after visiting stems. */
  function Collect(location: string, stems: seq<string>): seq<Migration>
    decreases |stems|
  {
    if stems == [] then []
    else
      Collect(location, stems[..|stems| - 1]) +
      match Entry(location, stems[|stems| - 1])
      case None => []
      case Some(m) => [m]
  }

  /** The descriptors of the usable migration files, in listing order. */
  function Kept(location: string, listing: seq<string>): seq<Migration> {
    Collect(location, Stems(listing))
  }

  predicate SortedByVersion(ms: seq<Migration>) {
    forall i, j :: 0 <= i < j < |ms| ==> ms[i].version <= ms[j].version
  }

  /** The migrations of ms that carry version v, in their order in ms. */
  function WithVersion(ms: seq<Migration>, v: nat): seq<Migration>
    decreases |ms|
  {
    if ms == [] then []
    else (if ms[0].version == v then [ms[0]] else []) + WithVersion(ms[1..], v)
  }

  /** r is ms sorted by version with a stable sort: equal versions keep their order. */
  ghost predicate IsStableSortOf(r: seq<Migration>, ms: seq<Migration>) {
    && SortedByVersion(r)
    && multiset(r) == multiset(ms)
    && forall v: nat :: WithVersion(r, v) == WithVersion(ms, v)
  }

  /** Insert m before the first element whose version is at least m's. */
  function Insert(m: Migration, s: seq<Migration>): seq<Migration>
    decreases |s|
  {
    if s == [] || m.version <= s[0].version then [m] + s
    else [s[0]] + Insert(m, s[1..])
  }

  /** Inserting adds m and keeps every other element. */
  lemma {:induction false} InsertCounts(m: Migration, s: seq<Migration>)
    ensures multiset(Insert(m, s)) == multiset(s) + multiset{m}
    decreases |s|
  {
    if s != [] && m.version > s[0].version {
      InsertCounts(m, s[1..]);
      assert s == [s[0]] + s[1..];
      assert multiset(s) == multiset{s[0]} + multiset(s[1..]);
    }
  }

  /** Inserting into an ascending list keeps it ascending. */
  lemma {:induction false} InsertSorted(m: Migration, s: seq<Migration>)
    requires SortedByVersion(s)
    ensures SortedByVersion(Insert(m, s))
    decreases |s|
  {
    if s != [] && m.version > s[0].version {
      var rest := Insert(m, s[1..]);
      assert SortedByVersion(s[1..]);
      InsertSorted(m, s[1..]);
      InsertCounts(m, s[1..]);
      FirstStaysFirst(s, m, rest);
    }
  }

  lemma FirstStaysFirst(s: seq<Migration>, m: Migration, rest: seq<Migration>)
    requires s != [] && s[0].version < m.version
    requires multiset(rest) == multiset(s[1..]) + multiset{m}
    requires SortedByVersion(s[1..]) ==> SortedByVersion(rest)
    ensures SortedByVersion(s) ==> SortedByVersion([s[0]] + rest)
  {
    if SortedByVersion(s) {
      forall k | 0 <= k < |rest| ensures s[0].version <= rest[k].version {
        assert rest[k] in multiset(rest);
        if rest[k] != m {
          assert rest[k] in multiset(s[1..]);
          var j :| 0 <= j < |s[1..]| && s[1..][j] == rest[k];
          assert s[j + 1] == rest[k];
        }
      }
      var r := [s[0]] + rest;
      forall i, j | 0 <= i < j < |r| ensures r[i].version <= r[j].version {
        if i > 0 {
          assert r[i] == rest[i - 1] && r[j] == rest[j - 1];
        } else {
          assert r[j] == rest[j - 1];
        }
      }
    }
  }

  /** `sorted(migrations, key=lambda x: x[1])`: an insertion sort, stable like Python's. */
  function SortByVersion(ms: seq<Migration>): (r: seq<Migration>)
    ensures SortedByVersion(r)
    ensures multiset(r) == multiset(ms)
    decreases |ms|
  {
    if ms == [] then []
    else
      var rest := SortByVersion(ms[1..]);
      assert ms == [ms[0]] + ms[1..];
      InsertCounts(ms[0], rest);
      InsertSorted(ms[0], rest);
      Insert(ms[0], rest)
  }

  /** The list `find_migrations` returns for a folder whose listing is given. */
  function Discover(location: string, listing: seq<string>): seq<Migration> {
    SortByVersion(Kept(location, listing))
  }

  /**
   * `find_migrations`: listing is `os.listdir` of the migrations folder, or
   * None when the folder does not exist (the source logs and returns None).
   */
  method FindMigrations(location: string, listing: Option<seq<string>>) returns (found: Option<seq<Migration>>)
    ensures listing.None? <==> found.None?
    ensures listing.Some? ==> found == Some(Discover(location, listing.value))
  {
    if listing.None? {
      return None;
    }
    var stems := Stems(listing.value);
    var migrations: seq<Migration> := [];
    var i := 0;
    while i < |stems|
      invariant 0 <= i <= |stems|
      invariant migrations == Collect(location, stems[..i])
    {
      var stem := stems[i];
      var moduleName := ModuleName(location, stem);
      var ver := VersionOf(stem);
      if ver.Some? {
        migrations := migrations + [Migration(moduleName, ver.value, ModuleHandle(moduleName))];
      }
      assert stems[..i + 1][..i] == stems[..i];
      i := i + 1;
    }
    assert stems[..i] == stems;
    return Some(SortByVersion(migrations));
  }

  /** `latest()`: the version of the last sorted migration; None where Python raises IndexError. */
  function Latest(ms: seq<Migration>): Option<nat> {
    if ms == [] then None else Some(ms[|ms| - 1].version)
  }

  // ---------------------------------------------------------------------
  // Properties of discovery

  /** Inserting m places it ahead of the migrations with its version, whose order is kept. */
  lemma {:induction false} InsertKeepsEqualsInOrder(m: Migration, s: seq<Migration>, v: nat)
    ensures WithVersion(Insert(m, s), v) == WithVersion([m], v) + WithVersion(s, v)
    decreases |s|
  {
    var here := if m.version == v then [m] else [];
    assert WithVersion([m], v) == here by {
      assert [m][1..] == [];
    }
    if s == [] || m.version <= s[0].version {
      assert ([m] + s)[1..] == s;
    } else {
      var rest := Insert(m, s[1..]);
      var first := if s[0].version == v then [s[0]] else [];
      assert ([s[0]] + rest)[0] == s[0] && ([s[0]] + rest)[1..] == rest;
      assert WithVersion(Insert(m, s), v) == first + WithVersion(rest, v);
      InsertKeepsEqualsInOrder(m, s[1..], v);
      assert WithVersion(s, v) == first + WithVersion(s[1..], v);
      assert first == [] || here == [];
    }
  }

  /** The sort is stable: for every version, the migrations with it keep their listing order. */
  lemma {:induction false} SortIsStable(ms: seq<Migration>)
    ensures IsStableSortOf(SortByVersion(ms), ms)
    decreases |ms|
  {
    if ms != [] {
      SortIsStable(ms[1..]);
      var sorted := SortByVersion(ms[1..]);
      forall v: nat ensures WithVersion(SortByVersion(ms), v) == WithVersion(ms, v) {
        InsertKeepsEqualsInOrder(ms[0], sorted, v);
        assert WithVersion([ms[0]], v) == (if ms[0].version == v then [ms[0]] else []) by {
          assert [ms[0]][1..] == [];
        }
      }
    }
  }

  /** Stems keeps exactly the valid names, stripped of ".py", in listing order. */
  lemma {:induction false} StemsMembers(listing: seq<string>, stem: string)
    ensures stem in Stems(listing) <==>
            exists k :: 0 <= k < |listing| && IsValidMigrationName(listing[k]) && RemovePy(listing[k]) == stem
    decreases |listing|
  {
    if listing != [] {
      var init := listing[..|listing| - 1];
      StemsMembers(init, stem);
      if stem in Stems(init) {
        var k :| 0 <= k < |init| && IsValidMigrationName(init[k]) && RemovePy(init[k]) == stem;
        assert listing[k] == init[k];
      }
      if k :| 0 <= k < |listing| && IsValidMigrationName(listing[k]) && RemovePy(listing[k]) == stem {
        if k < |init| {
          assert init[k] == listing[k];
        }
      }
    }
  }

  /** Collect keeps exactly the stems whose version parses. */
  lemma {:induction false} CollectMembers(location: string, stems: seq<string>, m: Migration)
    ensures m in Collect(location, stems) <==>
            exists k :: 0 <= k < |stems| && Entry(location, stems[k]) == Some(m)
    decreases |stems|
  {
    if stems != [] {
      var init := stems[..|stems| - 1];
      CollectMembers(location, init, m);
      if m in Collect(location, init) {
        var k :| 0 <= k < |init| && Entry(location, init[k]) == Some(m);
        assert stems[k] == init[k];
      }
      if k :| 0 <= k < |stems| && Entry(location, stems[k]) == Some(m) {
        if k < |init| {
          assert init[k] == stems[k];
        }
      }
    }
  }

  /** A descriptor is kept exactly when it comes from a valid name in the listing whose version parses. */
  lemma KeptMembers(location: string, listing: seq<string>, m: Migration)
    ensures m in Kept(location, listing) <==>
            exists k :: 0 <= k < |listing| && IsValidMigrationName(listing[k]) &&
                        Entry(location, RemovePy(listing[k])) == Some(m)
  {
    var stems := Stems(listing);
    CollectMembers(location, stems, m);
    if m in Kept(location, listing) {
      var j :| 0 <= j < |stems| && Entry(location, stems[j]) == Some(m);
      StemsMembers(listing, stems[j]);
    }
    if k :| 0 <= k < |listing| && IsValidMigrationName(listing[k]) && Entry(location, RemovePy(listing[k])) == Some(m) {
      StemsMembers(listing, RemovePy(listing[k]));
      var j :| 0 <= j < |stems| && stems[j] == RemovePy(listing[k]);
    }
  }

  /**
   * Discovery keeps exactly the valid, parsable names, and orders them by a
   * stable ascending sort of the listing order.
   */
  lemma DiscoverySpec(location: string, listing: seq<string>, m: Migration)
    ensures IsStableSortOf(Discover(location, listing), Kept(location, listing))
    ensures m in Discover(location, listing) <==>
            exists k :: 0 <= k < |listing| && IsValidMigrationName(listing[k]) &&
                        Entry(location, RemovePy(listing[k])) == Some(m)
  {
    var kept := Kept(location, listing);
    SortIsStable(kept);
    KeptMembers(location, listing, m);
    assert m in Discover(location, listing) <==> m in multiset(kept);
  }

  /** The last element of a sorted list carries the largest version. */
  lemma LatestIsMaximum(ms: seq<Migration>)
    requires SortedByVersion(ms)
    ensures Latest(ms).None? <==> ms == []
    ensures Latest(ms).Some? ==> forall m :: m in ms ==> m.version <= Latest(ms).value
  {
  }

  /** `latest()` is the largest version among the usable migration files, and some file carries it. */
  lemma LatestOfDiscovery(location: string, listing: seq<string>)
    ensures Latest(Discover(location, listing)).None? <==> Kept(location, listing) == []
    ensures Latest(Discover(location, listing)).Some? ==>
              (forall m :: m in Kept(location, listing) ==> m.version <= Latest(Discover(location, listing)).value) &&
              (exists m :: m in Kept(location, listing) && m.version == Latest(Discover(location, listing)).value)
  {
    var kept := Kept(location, listing);
    var r := Discover(location, listing);
    assert forall m :: m in r <==> m in kept by {
      forall m ensures m in r <==> m in kept {
        assert m in r <==> m in multiset(r);
        assert m in kept <==> m in multiset(kept);
      }
    }
    if r == [] {
      assert |multiset(kept)| == 0;
    } else {
      assert r[|r| - 1] in r;
    }
  }

  // ---------------------------------------------------------------------
  // Names and version numbers

  /** `replace('.py', '')` leaves a front part without a dot alone. */
  lemma {:induction false} RemovePyKeepsDotFree(s: string, t: string)
    requires forall i :: 0 <= i < |s| ==> s[i] != '.'
    ensures RemovePy(s + t) == s + RemovePy(t)
    decreases |s|
  {
    if s != [] {
      var u := s + t;
      assert u[0] == s[0] && u[1..] == s[1..] + t;
      RemovePyKeepsDotFree(s[1..], t);
      if |u| >= |Suffix| {
        assert u[..|Suffix|][0] == u[0] && u[..|Suffix|] != Suffix;
        assert RemovePy(u) == [s[0]] + (s[1..] + RemovePy(t));
        assert s == [s[0]] + s[1..];
        assert [s[0]] + (s[1..] + RemovePy(t)) == s + RemovePy(t);
      } else {
        assert RemovePy(u) == u;
        assert |t| < |Suffix| && RemovePy(t) == t;
      }
    } else {
      assert s + t == t;
    }
  }

  lemma {:induction false} DigitRunOfDigits(d: string, rest: string)
    requires AllDigits(d)
    requires rest == [] || !IsDigit(rest[0])
    ensures DigitRun(d + rest) == d
    decreases |d|
  {
    if d == [] {
      assert d + rest == rest;
    } else {
      assert (d + rest)[0] == d[0] && (d + rest)[1..] == d[1..] + rest;
      DigitRunOfDigits(d[1..], rest);
    }
  }

  /** The version of a stem is the number right after "version_", read up to the first non-digit. */
  lemma VersionAfterPrefix(d: string, rest: string)
    requires d != [] && AllDigits(d)
    requires rest == [] || !IsDigit(rest[0])
    ensures VersionOf(Prefix + d + rest) == Some(DigitsValue(d))
  {
    var s := Prefix + d + rest;
    assert s[..|Prefix|] == Prefix;
    assert s[|Prefix|] == d[0];
    assert s[|Prefix|..] == d + rest;
    DigitRunOfDigits(d, rest);
  }

  /** Leading zeros in the number after "version_" do not count. */
  lemma VersionIgnoresLeadingZeros(k: nat, d: string, rest: string)
    requires d != [] && AllDigits(d)
    requires rest == [] || !IsDigit(rest[0])
    ensures VersionOf(Prefix + (seq(k, _ => '0') + d) + rest) == Some(DigitsValue(d))
  {
    LeadingZerosIgnored(k, d);
    VersionAfterPrefix(seq(k, _ => '0') + d, rest);
  }

  /** An instance: "version_007" is version 7. */
  lemma VersionOfPaddedName()
    ensures VersionOf("version_007") == Some(7)
  {
    assert "version_007" == Prefix + (seq(2, _ => '0') + "7") + "";
    VersionIgnoresLeadingZeros(2, "7", "");
    assert DigitsValue("7") == 7 by {
      assert "7"[..0] == "";
    }
  }

  /** A file added at the end of the listing adds its descriptor at the end of the kept list. */
  lemma KeptAppend(location: string, listing: seq<string>, f: string)
    ensures Kept(location, listing + [f]) ==
            Kept(location, listing) +
            if IsValidMigrationName(f) && Entry(location, RemovePy(f)).Some?
            then [Entry(location, RemovePy(f)).value] else []
  {
    var longer := listing + [f];
    assert longer[..|longer| - 1] == listing;
    var stems := Stems(longer);
    if IsValidMigrationName(f) {
      assert stems == Stems(listing) + [RemovePy(f)];
      assert stems[..|stems| - 1] == Stems(listing);
    } else {
      assert stems == Stems(listing) + [];
      assert stems == Stems(listing);
    }
  }

  /** Discovering two listings one after the other keeps the descriptors of each, in order. */
  lemma {:induction false} KeptConcat(location: string, a: seq<string>, b: seq<string>)
    ensures Kept(location, a + b) == Kept(location, a) + Kept(location, b)
    decreases |b|
  {
    if b == [] {
      assert a + b == a;
      assert Kept(location, a) + [] == Kept(location, a);
    } else {
      var front := b[..|b| - 1];
      var x := b[|b| - 1];
      assert b == front + [x];
      assert a + b == (a + front) + [x];
      KeptConcat(location, a, front);
      KeptAppend(location, a + front, x);
      KeptAppend(location, front, x);
    }
  }

  /** Moving one file to the end of the listing changes no count of discovered descriptors. */
  lemma KeptMoveToEnd(location: string, before: seq<string>, x: string, after: seq<string>)
    ensures multiset(Kept(location, before + [x] + after)) == multiset(Kept(location, before + after + [x]))
  {
    KeptConcat(location, before + [x], after);
    KeptAppend(location, before, x);
    KeptConcat(location, before, after);
    KeptAppend(location, before + after, x);
  }

  /** Taking the element at j out of a sequence takes one copy of it out of its multiset. */
  lemma RemoveAt<T>(s: seq<T>, j: nat)
    requires j < |s|
    ensures s == s[..j] + [s[j]] + s[j + 1..]
    ensures multiset(s[..j] + s[j + 1..]) == multiset(s) - multiset{s[j]}
  {
    assert s == s[..j] + [s[j]] + s[j + 1..];
  }

  /**
   * How many times each descriptor is discovered depends only on which names
   * are listed and how often, not on the listing order (the order of equal
   * versions in the sorted result does depend on it).
   */
  lemma {:induction false} KeptPermutation(location: string, l1: seq<string>, l2: seq<string>)
    requires multiset(l1) == multiset(l2)
    ensures multiset(Kept(location, l1)) == multiset(Kept(location, l2))
    decreases |l1|
  {
    if l1 == [] {
      assert |multiset(l2)| == 0;
      assert l2 == [];
    } else {
      var init := l1[..|l1| - 1];
      var x := l1[|l1| - 1];
      RemoveAt(l1, |l1| - 1);
      assert l1 == init + [x];
      assert x in multiset(l2);
      var j :| 0 <= j < |l2| && l2[j] == x;
      RemoveAt(l2, j);
      var before, after := l2[..j], l2[j + 1..];
      KeptPermutation(location, init, before + after);
      KeptAppend(location, init, x);
      KeptAppend(location, before + after, x);
      KeptMoveToEnd(location, before, x, after);
    }
  }

  /**
   * Adding one file f anywhere in the listing adds its descriptor once (when
   * f is valid and its version parses) and changes no other count.
   */
  lemma KeptCountsWithAddedFile(location: string, listing: seq<string>, folder: seq<string>, f: string)
    requires multiset(folder) == multiset(listing) + multiset{f}
    ensures multiset(Kept(location, folder)) ==
            multiset(Kept(location, listing)) +
            if IsValidMigrationName(f) && Entry(location, RemovePy(f)).Some?
            then multiset{Entry(location, RemovePy(f)).value} else multiset{}
  {
    assert multiset(listing + [f]) == multiset(folder);
    KeptPermutation(location, folder, listing + [f]);
    KeptAppend(location, listing, f);
  }

  /**
   * Adding one file f to the folder, anywhere in the listing, adds its
   * descriptor (when f is valid and its version parses) and nothing else:
   * which migrations are discovered does not depend on the listing order.
   */
  lemma KeptWithAddedFile(location: string, listing: seq<string>, folder: seq<string>, f: string, m: Migration)
    requires multiset(folder) == multiset(listing) + multiset{f}
    ensures m in Kept(location, folder) <==>
            m in Kept(location, listing) || (IsValidMigrationName(f) && Entry(location, RemovePy(f)) == Some(m))
  {
    KeptMembers(location, folder, m);
    KeptMembers(location, listing, m);
    if m in Kept(location, folder) {
      var i :| 0 <= i < |folder| && IsValidMigrationName(folder[i]) && Entry(location, RemovePy(folder[i])) == Some(m);
      assert folder[i] in multiset(folder);
      if folder[i] != f {
        assert folder[i] in multiset(listing);
        var j :| 0 <= j < |listing| && listing[j] == folder[i];
      }
    }
    if m in Kept(location, listing) {
      var j :| 0 <= j < |listing| && IsValidMigrationName(listing[j]) && Entry(location, RemovePy(listing[j])) == Some(m);
      assert listing[j] in multiset(listing);
      assert listing[j] in multiset(folder);
      var i :| 0 <= i < |folder| && folder[i] == listing[j];
    }
    if IsValidMigrationName(f) && Entry(location, RemovePy(f)) == Some(m) {
      assert f in multiset(folder);
      var i :| 0 <= i < |folder| && folder[i] == f;
    }
  }

  /** A migration above every version found becomes the last after sorting. */
  lemma NewMaximumSortsLast(ms: seq<Migration>, e: Migration)
    requires forall m :: m in ms ==> m.version < e.version
    ensures Latest(SortByVersion(ms + [e])) == Some(e.version)
  {
    var r := SortByVersion(ms + [e]);
    assert multiset(r) == multiset(ms) + multiset{e};
    assert e in multiset(r);
    var i :| 0 <= i < |r| && r[i] == e;
    var top := r[|r| - 1];
    assert e.version <= top.version;
    assert top !in ms;
    assert top !in multiset(ms);
    assert top in multiset(ms) + multiset{e};
    assert top == e;
    assert Latest(r) == Some(top.version);
  }
}
