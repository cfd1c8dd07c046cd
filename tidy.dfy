/** `requests_by_region_by_date`: the raw CSV rows are filtered to the
    allowed regions, rows without a client type are dropped, and the request
    counts are summed per (date, region, client type), the groups coming out
    in ascending key order. Dates are still the CSV's strings when grouped;
    the date parse and the log10 column are supplied by the caller. */
module Tidy {
  import opened Wrappers
  import Strings
  import RootPath

  const AllowedRegions: set<string> :=
    {"es-east", "us-central", "us-west", "eu-central", "cn-east", "cn-northeast"}

  const DataDir: string := "data"
  const CsvName: string := "package_requests_by_region_by_date.csv"

  /** One row of the CSV; `client_type` may be missing. */
  datatype RawRow = RawRow(date: string, region: string, clientType: Option<string>, count: nat)

  /** The group-by key (date, region, client type). */
  datatype Key = Key(date: string, region: string, clientType: string)

  /** A key with a request count: a projected row before grouping, a summed
      group after. */
  datatype Group = Group(key: Key, count: nat)

  /** A row of the returned table, after the date parse and the log10 column. */
  datatype TidyRow = TidyRow(date: real, region: string, clientType: string, count: nat, countLog10: real)

  // ---------------------------------------------------------------------
  // Key order: Python's tuple order over the three strings

  predicate KeyLess(a: Key, b: Key)
  {
    || Strings.Less(a.date, b.date)
    || (a.date == b.date && Strings.Less(a.region, b.region))
    || (a.date == b.date && a.region == b.region && Strings.Less(a.clientType, b.clientType))
  }

  lemma KeyLessIrreflexive(a: Key)
    ensures !KeyLess(a, a)
  {
    Strings.LessIrreflexive(a.date);
    Strings.LessIrreflexive(a.region);
    Strings.LessIrreflexive(a.clientType);
  }

  lemma KeyLessTransitive(a: Key, b: Key, c: Key)
    requires KeyLess(a, b) && KeyLess(b, c)
    ensures KeyLess(a, c)
  {
    Strings.LessIrreflexive(a.date);
    Strings.LessIrreflexive(a.region);
    if Strings.Less(a.date, b.date) && Strings.Less(b.date, c.date) {
      Strings.LessTransitive(a.date, b.date, c.date);
    }
    if a.date == b.date == c.date && Strings.Less(a.region, b.region) && Strings.Less(b.region, c.region) {
      Strings.LessTransitive(a.region, b.region, c.region);
    }
    if a.date == b.date == c.date && a.region == b.region == c.region {
      Strings.LessTransitive(a.clientType, b.clientType, c.clientType);
    }
  }

  lemma KeyLessTotal(a: Key, b: Key)
    ensures a == b || KeyLess(a, b) || KeyLess(b, a)
  {
    Strings.LessTotal(a.date, b.date);
    Strings.LessTotal(a.region, b.region);
    Strings.LessTotal(a.clientType, b.clientType);
  }

  /** Keys in ascending order, hence pairwise distinct. */
  ghost predicate StrictlySorted(gs: seq<Group>)
  {
    forall i, j :: 0 <= i < j < |gs| ==> KeyLess(gs[i].key, gs[j].key)
  }

  // ---------------------------------------------------------------------
  // Sums over keyed counts

  function KeySet(gs: seq<Group>): set<Key>
  {
    set g | g in gs :: g.key
  }

  /** The sum of the counts carrying key `k`. */
  function SumFor(gs: seq<Group>, k: Key): nat
  {
    if gs == [] then 0
    else (if gs[0].key == k then gs[0].count else 0) + SumFor(gs[1..], k)
  }

  function Total(gs: seq<Group>): nat
  {
    if gs == [] then 0 else gs[0].count + Total(gs[1..])
  }

  lemma {:induction false} SumForAbsent(gs: seq<Group>, k: Key)
    requires k !in KeySet(gs)
    ensures SumFor(gs, k) == 0
  {
    if gs != [] {
      assert gs[0] in gs;
      assert KeySet(gs[1..]) <= KeySet(gs);
      SumForAbsent(gs[1..], k);
    }
  }

  /** In a strictly sorted table a key's sum is the count of its one row. */
  lemma {:induction false} SumForSorted(gs: seq<Group>, i: nat)
    requires StrictlySorted(gs) && i < |gs|
    ensures SumFor(gs, gs[i].key) == gs[i].count
  {
    if i == 0 {
      forall g | g in gs[1..] ensures g.key != gs[0].key {
        var j :| 0 <= j < |gs[1..]| && gs[1..][j] == g;
        assert KeyLess(gs[0].key, gs[j + 1].key);
        KeyLessIrreflexive(gs[0].key);
      }
      SumForAbsent(gs[1..], gs[0].key);
    } else {
      assert KeyLess(gs[0].key, gs[i].key);
      KeyLessIrreflexive(gs[0].key);
      SumForSorted(gs[1..], i - 1);
    }
  }

  // ---------------------------------------------------------------------
  // groupby(["date", "region", "client_type"]).sum()

  lemma KeySetCons(g: Group, s: seq<Group>)
    ensures KeySet([g] + s) == {g.key} + KeySet(s)
  {
    assert forall x :: x in [g] + s <==> x == g || x in s;
  }

  /** A sorted table is its first row followed by a sorted table of larger
      keys, and conversely. */
  lemma SortedCons(g: Group, s: seq<Group>)
    ensures StrictlySorted([g] + s) <==>
      StrictlySorted(s) && forall k :: k in KeySet(s) ==> KeyLess(g.key, k)
  {
    var r := [g] + s;
    if StrictlySorted(r) {
      forall i, j | 0 <= i < j < |s| ensures KeyLess(s[i].key, s[j].key) {
        assert r[i + 1] == s[i] && r[j + 1] == s[j];
      }
      forall k | k in KeySet(s) ensures KeyLess(g.key, k) {
        var x :| x in s && x.key == k;
        var m :| 0 <= m < |s| && s[m] == x;
        assert r[0] == g && r[m + 1] == x;
        assert KeyLess(r[0].key, r[m + 1].key);
      }
    }
    if StrictlySorted(s) && forall k :: k in KeySet(s) ==> KeyLess(g.key, k) {
      forall i, j | 0 <= i < j < |r| ensures KeyLess(r[i].key, r[j].key) {
        if i == 0 {
          assert r[j] == s[j - 1] && s[j - 1] in s;
        } else {
          assert r[i] == s[i - 1] && r[j] == s[j - 1];
        }
      }
    }
  }

  /** Adds one keyed count to a sorted table of sums: merged into the row
      with the same key, or inserted in key order. `Problem.InsertLabel` is
      the same walk over bare labels; it is kept separate because this one
      merges counts and orders by the three-part key. */
  function Insert(gs: seq<Group>, e: Group): seq<Group>
  {
    if gs == [] then [e]
    else if gs[0].key == e.key then [Group(e.key, gs[0].count + e.count)] + gs[1..]
    else if KeyLess(e.key, gs[0].key) then [e] + gs
    else [gs[0]] + Insert(gs[1..], e)
  }

  lemma {:induction false} InsertKeys(gs: seq<Group>, e: Group)
    ensures KeySet(Insert(gs, e)) == KeySet(gs) + {e.key}
  {
    if gs != [] {
      assert gs == [gs[0]] + gs[1..];
      KeySetCons(gs[0], gs[1..]);
      if gs[0].key == e.key {
        KeySetCons(Group(e.key, gs[0].count + e.count), gs[1..]);
      } else if KeyLess(e.key, gs[0].key) {
        KeySetCons(e, gs);
      } else {
        InsertKeys(gs[1..], e);
        KeySetCons(gs[0], Insert(gs[1..], e));
      }
    }
  }

  /** Counts are added, never overwritten. */
  lemma {:induction false} InsertSums(gs: seq<Group>, e: Group, k: Key)
    ensures SumFor(Insert(gs, e), k) == SumFor(gs, k) + (if k == e.key then e.count else 0)
  {
    if gs != [] {
      var r := Insert(gs, e);
      if gs[0].key == e.key {
        assert r[1..] == gs[1..];
      } else if KeyLess(e.key, gs[0].key) {
        assert r[1..] == gs;
      } else {
        InsertSums(gs[1..], e, k);
        assert r[1..] == Insert(gs[1..], e);
      }
    }
  }

  lemma {:induction false} InsertTotal(gs: seq<Group>, e: Group)
    ensures Total(Insert(gs, e)) == Total(gs) + e.count
  {
    if gs != [] {
      var r := Insert(gs, e);
      if gs[0].key == e.key {
        assert r[1..] == gs[1..];
      } else if KeyLess(e.key, gs[0].key) {
        assert r[1..] == gs;
      } else {
        InsertTotal(gs[1..], e);
        assert r[1..] == Insert(gs[1..], e);
      }
    }
  }

  lemma {:induction false} InsertSorted(gs: seq<Group>, e: Group)
    requires StrictlySorted(gs)
    ensures StrictlySorted(Insert(gs, e))
  {
    if gs != [] {
      assert gs == [gs[0]] + gs[1..];
      KeySetCons(gs[0], gs[1..]);
      SortedCons(gs[0], gs[1..]);
      if gs[0].key == e.key {
        SortedCons(Group(e.key, gs[0].count + e.count), gs[1..]);
      } else if KeyLess(e.key, gs[0].key) {
        KeySetCons(e, gs);
        SortedCons(e, gs);
        forall k | k in KeySet(gs) ensures KeyLess(e.key, k) {
          if k != gs[0].key { KeyLessTransitive(e.key, gs[0].key, k); }
        }
      } else {
        var t := Insert(gs[1..], e);
        InsertSorted(gs[1..], e);
        InsertKeys(gs[1..], e);
        KeySetCons(gs[0], t);
        SortedCons(gs[0], t);
        KeyLessTotal(gs[0].key, e.key);
      }
    }
  }

  /** The group-by sum: one row per distinct key, in ascending key order,
      each holding the sum of all counts with that key. */
  function GroupSum(es: seq<Group>): (r: seq<Group>)
    ensures StrictlySorted(r)
    ensures KeySet(r) == KeySet(es)
    ensures forall k :: SumFor(r, k) == SumFor(es, k)
    ensures Total(r) == Total(es)
  {
    if es == [] then []
    else
      var t := GroupSum(es[1..]);
      assert es == [es[0]] + es[1..];
      KeySetCons(es[0], es[1..]);
      InsertKeys(t, es[0]);
      InsertTotal(t, es[0]);
      InsertSorted(t, es[0]);
      assert forall k :: SumFor(Insert(t, es[0]), k) == SumFor(es, k) by {
        forall k { InsertSums(t, es[0], k); }
      }
      Insert(t, es[0])
  }

  // ---------------------------------------------------------------------
  // The raw rows and the chain query -> dropna -> filter -> groupby.sum

  /** A raw row reaches the group-by: its region is allowed and its client
      type is present. */
  predicate Survives(x: RawRow)
  {
    x.region in AllowedRegions && x.clientType.Some?
  }

  function KeyOf(x: RawRow): Key
    requires x.clientType.Some?
  {
    Key(x.date, x.region, x.clientType.value)
  }

  /** `.query("region in @ALLOWED_REGIONS")`, keeping row order. */
  function QueryAllowed(rows: seq<RawRow>): (r: seq<RawRow>)
    ensures forall x :: x in r <==> x in rows && x.region in AllowedRegions
  {
    if rows == [] then []
    else (if rows[0].region in AllowedRegions then [rows[0]] else []) + QueryAllowed(rows[1..])
  }

  /** `.dropna(subset=["client_type"])`, keeping row order. */
  function DropMissingClientType(rows: seq<RawRow>): (r: seq<RawRow>)
    ensures forall x :: x in r <==> x in rows && x.clientType.Some?
  {
    if rows == [] then []
    else (if rows[0].clientType.Some? then [rows[0]] else []) + DropMissingClientType(rows[1..])
  }

  /** `.filter([...])` followed by taking the group-by key of each row. */
  function Project(rows: seq<RawRow>): seq<Group>
    requires forall x :: x in rows ==> x.clientType.Some?
  {
    if rows == [] then []
    else [Group(KeyOf(rows[0]), rows[0].count)] + Project(rows[1..])
  }

  function Surviving(raw: seq<RawRow>): seq<Group>
  {
    Project(DropMissingClientType(QueryAllowed(raw)))
  }

  lemma {:induction false} QueryAllowedConcat(a: seq<RawRow>, b: seq<RawRow>)
    ensures QueryAllowed(a + b) == QueryAllowed(a) + QueryAllowed(b)
  {
    if a != [] {
      assert (a + b)[1..] == a[1..] + b;
      QueryAllowedConcat(a[1..], b);
    } else {
      assert a + b == b;
    }
  }

  lemma {:induction false} DropMissingConcat(a: seq<RawRow>, b: seq<RawRow>)
    ensures DropMissingClientType(a + b) == DropMissingClientType(a) + DropMissingClientType(b)
  {
    if a != [] {
      assert (a + b)[1..] == a[1..] + b;
      DropMissingConcat(a[1..], b);
    } else {
      assert a + b == b;
    }
  }

  lemma {:induction false} ProjectConcat(a: seq<RawRow>, b: seq<RawRow>)
    requires forall x :: x in a + b ==> x.clientType.Some?
    ensures Project(a + b) == Project(a) + Project(b)
  {
    if a != [] {
      assert (a + b)[1..] == a[1..] + b;
      ProjectConcat(a[1..], b);
    } else {
      assert a + b == b;
    }
  }

  lemma SurvivingConcat(a: seq<RawRow>, b: seq<RawRow>)
    ensures Surviving(a + b) == Surviving(a) + Surviving(b)
  {
    QueryAllowedConcat(a, b);
    DropMissingConcat(QueryAllowed(a), QueryAllowed(b));
    ProjectConcat(DropMissingClientType(QueryAllowed(a)), DropMissingClientType(QueryAllowed(b)));
  }

  /** The rows reaching the group-by, one raw row at a time. */
  lemma SurvivingCons(raw: seq<RawRow>)
    requires raw != []
    ensures Surviving(raw) ==
      (if Survives(raw[0]) then [Group(KeyOf(raw[0]), raw[0].count)] else []) + Surviving(raw[1..])
  {
    var x := raw[0];
    assert raw == [x] + raw[1..];
    SurvivingConcat([x], raw[1..]);
    SurvivingOne(x);
  }

  lemma SurvivingOne(x: RawRow)
    ensures Surviving([x]) == if Survives(x) then [Group(KeyOf(x), x.count)] else []
  {
    assert [x][1..] == [];
    assert QueryAllowed([x]) == if x.region in AllowedRegions then [x] else [];
    assert DropMissingClientType([x]) == if x.clientType.Some? then [x] else [];
    assert x.clientType.Some? ==> Project([x]) == [Group(KeyOf(x), x.count)];
  }

  // Reference definitions stated directly over the raw rows.

  /** The sum of `request_count` over the raw rows that survive the filters
      and carry key `k`. */
  function RawSum(raw: seq<RawRow>, k: Key): nat
  {
    if raw == [] then 0
    else (if Survives(raw[0]) && KeyOf(raw[0]) == k then raw[0].count else 0) + RawSum(raw[1..], k)
  }

  /** The sum of `request_count` over all surviving raw rows. */
  function RawTotal(raw: seq<RawRow>): nat
  {
    if raw == [] then 0
    else (if Survives(raw[0]) then raw[0].count else 0) + RawTotal(raw[1..])
  }

  /** The keys of the surviving raw rows. */
  ghost function RawKeys(raw: seq<RawRow>): set<Key>
  {
    set x | x in raw && Survives(x) :: KeyOf(x)
  }

  lemma {:induction false} SurvivingKeys(raw: seq<RawRow>)
    ensures KeySet(Surviving(raw)) == RawKeys(raw)
  {
    if raw != [] {
      SurvivingCons(raw);
      SurvivingKeys(raw[1..]);
      if Survives(raw[0]) {
        KeySetCons(Group(KeyOf(raw[0]), raw[0].count), Surviving(raw[1..]));
      }
      assert forall x :: x in raw <==> x == raw[0] || x in raw[1..] by {
        assert raw == [raw[0]] + raw[1..];
      }
      assert RawKeys(raw) == (if Survives(raw[0]) then {KeyOf(raw[0])} else {}) + RawKeys(raw[1..]);
    }
  }

  lemma {:induction false} SurvivingTotal(raw: seq<RawRow>)
    ensures Total(Surviving(raw)) == RawTotal(raw)
  {
    if raw != [] {
      SurvivingCons(raw);
      SurvivingTotal(raw[1..]);
      var s := Surviving(raw);
      if Survives(raw[0]) {
        assert s[1..] == Surviving(raw[1..]);
      } else {
        assert [] + Surviving(raw[1..]) == Surviving(raw[1..]);
        assert s == Surviving(raw[1..]);
      }
    }
  }

  lemma {:induction false} SurvivingSums(raw: seq<RawRow>, k: Key)
    ensures SumFor(Surviving(raw), k) == RawSum(raw, k)
  {
    if raw != [] {
      SurvivingCons(raw);
      SurvivingSums(raw[1..], k);
      var s := Surviving(raw);
      if Survives(raw[0]) {
        assert s[1..] == Surviving(raw[1..]);
      } else {
        assert [] + Surviving(raw[1..]) == Surviving(raw[1..]);
        assert s == Surviving(raw[1..]);
      }
    }
  }

  /** The aggregated table before the date parse and the log10 column:
      sorted by key with distinct keys, allowed regions only, and each count
      the sum of the surviving raw counts with that key. */
  function Aggregate(raw: seq<RawRow>): (r: seq<Group>)
    ensures StrictlySorted(r)
    ensures KeySet(r) == RawKeys(raw)
    ensures forall i :: 0 <= i < |r| ==> r[i].key.region in AllowedRegions
    ensures forall i :: 0 <= i < |r| ==> r[i].count == RawSum(raw, r[i].key)
    ensures Total(r) == RawTotal(raw)
  {
    var r := GroupSum(Surviving(raw));
    SurvivingKeys(raw);
    SurvivingTotal(raw);
    assert forall k :: SumFor(Surviving(raw), k) == RawSum(raw, k) by {
      forall k { SurvivingSums(raw, k); }
    }
    assert forall i :: 0 <= i < |r| ==> r[i].key in KeySet(r) by {
      forall i | 0 <= i < |r| ensures r[i].key in KeySet(r) { assert r[i] in r; }
    }
    assert forall i :: 0 <= i < |r| ==> r[i].count == RawSum(raw, r[i].key) by {
      forall i | 0 <= i < |r| { SumForSorted(r, i); }
    }
    r
  }

  /** A raw row that does not survive the filters (its region is outside the
      allow-list, or its client type is missing) changes nothing. */
  lemma NonSurvivorContributesNothing(pre: seq<RawRow>, x: RawRow, post: seq<RawRow>)
    requires !Survives(x)
    ensures Aggregate(pre + [x] + post) == Aggregate(pre + post)
  {
    SurvivingSkips(pre, x, post);
  }

  lemma SurvivingSkips(pre: seq<RawRow>, x: RawRow, post: seq<RawRow>)
    requires !Survives(x)
    ensures Surviving(pre + [x] + post) == Surviving(pre + post)
  {
    SurvivingOne(x);
    calc {
      Surviving(pre + [x] + post);
      { SurvivingConcat(pre + [x], post); }
      Surviving(pre + [x]) + Surviving(post);
      { SurvivingConcat(pre, [x]); }
      Surviving(pre) + Surviving([x]) + Surviving(post);
      Surviving(pre) + Surviving(post);
      { SurvivingConcat(pre, post); }
      Surviving(pre + post);
    }
  }

  /** Two rows with the same key and counts 3 and 5 give one row of 8. */
  lemma SumNotOverwriteExample()
    ensures Aggregate([RawRow("2021-03-01", "us-west", Some("julia"), 3),
                       RawRow("2021-03-01", "us-west", Some("julia"), 5)])
         == [Group(Key("2021-03-01", "us-west", "julia"), 8)]
  {
  }

  /** A key missing from the table has no surviving raw rows; a key present
      has a row, and no key has two. */
  lemma AggregateKeyed(raw: seq<RawRow>, k: Key)
    ensures k !in KeySet(Aggregate(raw)) ==> RawSum(raw, k) == 0
    ensures k in KeySet(Aggregate(raw)) ==>
      exists i :: 0 <= i < |Aggregate(raw)| && Aggregate(raw)[i].key == k
    ensures forall i, j :: 0 <= i < j < |Aggregate(raw)| ==> Aggregate(raw)[i].key != Aggregate(raw)[j].key
  {
    var r := Aggregate(raw);
    forall i, j | 0 <= i < j < |r| ensures r[i].key != r[j].key {
      KeyLessIrreflexive(r[i].key);
    }
  }

  // ---------------------------------------------------------------------
  // The returned table

  /** `.rename(...)`, then `pd.to_datetime` on Date and `np.log10` on the
      count, both supplied as functions. */
  function TidyTable(raw: seq<RawRow>, toDate: string -> real, log10: nat -> real): (r: seq<TidyRow>)
    ensures |r| == |Aggregate(raw)|
    ensures forall i :: 0 <= i < |r| ==>
      var k := Aggregate(raw)[i].key;
      && r[i].date == toDate(k.date)
      && r[i].region == k.region && r[i].region in AllowedRegions
      && r[i].clientType == k.clientType
      && r[i].count == RawSum(raw, k)
      && r[i].countLog10 == log10(r[i].count)
  {
    var gs := Aggregate(raw);
    seq(|gs|, i requires 0 <= i < |gs| =>
      TidyRow(toDate(gs[i].key.date), gs[i].key.region, gs[i].key.clientType, gs[i].count, log10(gs[i].count)))
  }

  function CsvPath(root: RootPath.Path): RootPath.Path
  {
    root + [DataDir, CsvName]
  }

  /** `requests_by_region_by_date()`: locate the project root from the
      working directory, read the CSV under it (the file system's CSV files
      are given as a map from path to parsed rows) and build the table. */
  function RequestsByRegionByDate(
    cwd: RootPath.Path, marked: set<RootPath.Path>, files: map<RootPath.Path, seq<RawRow>>,
    toDate: string -> real, log10: nat -> real): (r: Result<seq<TidyRow>, Error>)
    ensures r == Failure(RootNotFound) <==> RootPath.NoneMarked(cwd, marked)
    ensures r == Failure(DataNotFound) <==>
      exists root :: RootPath.IsNearestMarked(cwd, marked, root) && CsvPath(root) !in files
    ensures r.Success? <==>
      exists root :: RootPath.IsNearestMarked(cwd, marked, root) && CsvPath(root) in files
    ensures r.Success? ==> forall i :: 0 <= i < |r.value| ==> r.value[i].region in AllowedRegions
    ensures r.Success? ==>
      exists root :: RootPath.IsNearestMarked(cwd, marked, root) && CsvPath(root) in files
        && r.value == TidyTable(files[CsvPath(root)], toDate, log10)
  {
    match RootPath.Find(None, cwd, marked)
    case Failure(e) =>
      RootPath.NoneMarkedHasNoNearest(cwd, marked);
      Failure(e)
    case Success(root) =>
      RootPath.GoFindsExactlyNearest(cwd, marked, root);
      assert forall q :: RootPath.IsNearestMarked(cwd, marked, q) ==> q == root by {
        forall q | RootPath.IsNearestMarked(cwd, marked, q) {
          RootPath.NearestMarkedUnique(cwd, marked, q, root);
        }
      }
      if CsvPath(root) in files then Success(TidyTable(files[CsvPath(root)], toDate, log10))
      else Failure(DataNotFound)
  }
}
