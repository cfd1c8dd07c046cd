/** `construct_problem`: the model-ready bundle built from the tidy table.
    The four per-row columns stay aligned with the table's rows, the two
    index maps number the sorted distinct labels 0..k-1 (`np.unique` sorts),
    and the date column is standardised by a fitted scaler. */
module Problem {
  import opened Wrappers
  import Strings
  import Tidy

  // ---------------------------------------------------------------------
  // np.unique on a column of labels

  /** Strictly ascending, hence pairwise distinct. */
  ghost predicate SortedDistinct(u: seq<string>)
  {
    forall i, j :: 0 <= i < j < |u| ==> Strings.Less(u[i], u[j])
  }

  /** Adds one label to a sorted list of distinct labels. */
  function InsertLabel(u: seq<string>, x: string): seq<string>
  {
    if u == [] then [x]
    else if u[0] == x then u
    else if Strings.Less(x, u[0]) then [x] + u
    else [u[0]] + InsertLabel(u[1..], x)
  }

  lemma SortedDistinctCons(x: string, u: seq<string>)
    ensures SortedDistinct([x] + u) <==>
      SortedDistinct(u) && forall y :: y in u ==> Strings.Less(x, y)
  {
    var r := [x] + u;
    if SortedDistinct(r) {
      forall i, j | 0 <= i < j < |u| ensures Strings.Less(u[i], u[j]) {
        assert r[i + 1] == u[i] && r[j + 1] == u[j];
      }
      forall y | y in u ensures Strings.Less(x, y) {
        var m :| 0 <= m < |u| && u[m] == y;
        assert r[0] == x && r[m + 1] == y;
      }
    }
    if SortedDistinct(u) && forall y :: y in u ==> Strings.Less(x, y) {
      forall i, j | 0 <= i < j < |r| ensures Strings.Less(r[i], r[j]) {
        if i == 0 {
          assert r[j] == u[j - 1] && u[j - 1] in u;
        } else {
          assert r[i] == u[i - 1] && r[j] == u[j - 1];
        }
      }
    }
  }

  lemma {:induction false} InsertLabelSpec(u: seq<string>, x: string)
    requires SortedDistinct(u)
    ensures SortedDistinct(InsertLabel(u, x))
    ensures forall y :: y in InsertLabel(u, x) <==> y in u || y == x
  {
    if u != [] {
      assert u == [u[0]] + u[1..];
      SortedDistinctCons(u[0], u[1..]);
      if u[0] == x {
      } else if Strings.Less(x, u[0]) {
        SortedDistinctCons(x, u);
        forall y | y in u ensures Strings.Less(x, y) {
          if y != u[0] { Strings.LessTransitive(x, u[0], y); }
        }
      } else {
        var t := InsertLabel(u[1..], x);
        InsertLabelSpec(u[1..], x);
        Strings.LessTotal(u[0], x);
        SortedDistinctCons(u[0], t);
      }
    }
  }

  /** `np.unique(labels)`: the distinct labels in ascending order. */
  function Unique(labels: seq<string>): (u: seq<string>)
    ensures SortedDistinct(u)
    ensures forall y :: y in u <==> y in labels
  {
    if labels == [] then []
    else
      var t := Unique(labels[1..]);
      InsertLabelSpec(t, labels[0]);
      assert forall y :: y in labels <==> y == labels[0] || y in labels[1..] by {
        assert labels == [labels[0]] + labels[1..];
      }
      InsertLabel(t, labels[0])
  }

  lemma {:induction false} SortedDistinctCard(u: seq<string>)
    requires SortedDistinct(u)
    ensures |set y | y in u| == |u|
  {
    if u != [] {
      assert u == [u[0]] + u[1..];
      SortedDistinctCons(u[0], u[1..]);
      SortedDistinctCard(u[1..]);
      Strings.LessIrreflexive(u[0]);
      assert (set y | y in u) == {u[0]} + (set y | y in u[1..]);
    }
  }

  /** Numbers a sorted list of distinct labels by position. */
  function Numbering(u: seq<string>): (m: map<string, nat>)
    requires SortedDistinct(u)
    ensures forall i :: 0 <= i < |u| ==> u[i] in m && m[u[i]] == i
    ensures forall x :: x in m ==> x in u
  {
    assert forall i, j :: 0 <= i < |u| && 0 <= j < |u| && u[i] == u[j] ==> i == j by {
      forall i, j | 0 <= i < |u| && 0 <= j < |u| && i != j ensures u[i] != u[j] {
        if i < j { Strings.LessIrreflexive(u[i]); } else { Strings.LessIrreflexive(u[j]); }
      }
    }
    map i | 0 <= i < |u| :: u[i] := i
  }

  lemma NumberingValues(u: seq<string>)
    requires SortedDistinct(u)
    ensures forall i: nat :: i in Numbering(u).Values <==> i < |Numbering(u)|
  {
    var m := Numbering(u);
    assert m.Keys == set y | y in u;
    SortedDistinctCard(u);
    forall i: nat | i < |u| ensures i in m.Values { assert m[u[i]] == i; }
    forall v | v in m.Values ensures v < |u| {
      var x :| x in m && m[x] == v;
      var i :| 0 <= i < |u| && u[i] == x;
    }
  }

  lemma NumberingOrder(u: seq<string>, a: string, b: string)
    requires SortedDistinct(u) && a in Numbering(u) && b in Numbering(u)
    ensures Strings.Less(a, b) <==> Numbering(u)[a] < Numbering(u)[b]
  {
    var m := Numbering(u);
    var i :| 0 <= i < |u| && u[i] == a;
    var j :| 0 <= j < |u| && u[j] == b;
    if i < j {
      Strings.LessAsymmetric(a, b);
    } else if j < i {
      Strings.LessAsymmetric(b, a);
    } else {
      Strings.LessIrreflexive(a);
    }
  }

  /** `{r: i for i, r in enumerate(np.unique(labels))}`: its keys are exactly
      the labels present, its values exactly 0..k-1 for k distinct labels,
      and it numbers the labels in ascending string order. */
  function IndexMap(labels: seq<string>): (m: map<string, nat>)
    ensures forall x :: x in m <==> x in labels
    ensures forall i: nat :: i in m.Values <==> i < |m|
    ensures forall a, b :: a in m && b in m ==> (Strings.Less(a, b) <==> m[a] < m[b])
  {
    var u := Unique(labels);
    NumberingValues(u);
    assert forall a, b :: a in Numbering(u) && b in Numbering(u) ==>
      (Strings.Less(a, b) <==> Numbering(u)[a] < Numbering(u)[b]) by {
      forall a, b | a in Numbering(u) && b in Numbering(u)
        ensures Strings.Less(a, b) <==> Numbering(u)[a] < Numbering(u)[b] {
        NumberingOrder(u, a, b);
      }
    }
    Numbering(u)
  }

  lemma UsCentralBeforeUsWest()
    ensures Strings.Less("us-central", "us-west")
  {
  }

  lemma MapOfTwo(m: map<string, nat>, a: string, b: string)
    requires m.Keys == {a, b} && m[a] == 0 && m[b] == 1
    ensures m == map[a := 0, b := 1]
  {
  }

  lemma TwoKeysNumbered(m: map<string, nat>, a: string, b: string)
    requires m.Keys == {a, b} && a != b
    requires forall i: nat :: i in m.Values <==> i < |m|
    requires m[a] < m[b]
    ensures m[a] == 0 && m[b] == 1
  {
    assert |m| == 2;
    assert m[a] in m.Values && m[b] in m.Values;
  }

  lemma IndexMapOfTwoEntries(labels: seq<string>, a: string, b: string)
    requires forall x :: x in labels <==> x == a || x == b
    requires Strings.Less(a, b)
    ensures IndexMap(labels).Keys == {a, b}
    ensures IndexMap(labels)[a] == 0 && IndexMap(labels)[b] == 1
  {
    var m := IndexMap(labels);
    Strings.LessIrreflexive(a);
    assert m.Keys == {a, b};
    assert m[a] < m[b];
    TwoKeysNumbered(m, a, b);
  }

  /** Two distinct labels are numbered 0 and 1 in string order, however
      often each occurs. */
  lemma IndexMapOfTwo(labels: seq<string>, a: string, b: string)
    requires forall x :: x in labels <==> x == a || x == b
    requires Strings.Less(a, b)
    ensures IndexMap(labels) == map[a := 0, b := 1]
  {
    IndexMapOfTwoEntries(labels, a, b);
    MapOfTwo(IndexMap(labels), a, b);
  }

  /** `["us-west", "us-central", "us-west"]` is numbered
      `{"us-central": 0, "us-west": 1}`. */
  lemma IndexMapExample()
    ensures IndexMap(["us-west", "us-central", "us-west"]) == map["us-central" := 0, "us-west" := 1]
  {
    var labels := ["us-west", "us-central", "us-west"];
    UsCentralBeforeUsWest();
    assert forall x :: x in labels <==> x == "us-central" || x == "us-west";
    IndexMapOfTwo(labels, "us-central", "us-west");
  }

  // ---------------------------------------------------------------------
  // StandardScaler on the date column

  /** A standard deviation as the scaler keeps it: never zero, because a
      zero variance is replaced by 1. */
  type Scale = r: real | r > 0.0 witness 1.0

  datatype Scaler = Scaler(mean: real, scale: Scale)

  function Transform(s: Scaler, x: real): real
  {
    (x - s.mean) / s.scale
  }

  function InverseTransform(s: Scaler, y: real): real
  {
    y * s.scale + s.mean
  }

  /** `inverse_transform(transform(x)) == x`, on real numbers. */
  lemma InverseTransformRoundTrip(s: Scaler, x: real)
    ensures InverseTransform(s, Transform(s, x)) == x
  {
  }

  function Sum(xs: seq<real>): real
  {
    if xs == [] then 0.0 else xs[0] + Sum(xs[1..])
  }

  function Mean(xs: seq<real>): real
    requires |xs| > 0
  {
    Sum(xs) / (|xs| as real)
  }

  function TransformAll(s: Scaler, xs: seq<real>): (ys: seq<real>)
    ensures |ys| == |xs|
    ensures forall i :: 0 <= i < |xs| ==> ys[i] == Transform(s, xs[i])
  {
    seq(|xs|, i requires 0 <= i < |xs| => Transform(s, xs[i]))
  }

  lemma {:induction false} SumTransformAll(s: Scaler, xs: seq<real>)
    ensures Sum(TransformAll(s, xs)) == (Sum(xs) - (|xs| as real) * s.mean) / s.scale
  {
    if xs != [] {
      SumTransformAll(s, xs[1..]);
      assert TransformAll(s, xs)[1..] == TransformAll(s, xs[1..]);
      var a, b := xs[0] - s.mean, Sum(xs[1..]) - (|xs[1..]| as real) * s.mean;
      assert a / s.scale + b / s.scale == (a + b) / s.scale;
    }
  }

  /** Standardising by the column's own mean centres it: the transformed
      values sum to zero. */
  lemma StandardizedSumsToZero(s: Scaler, xs: seq<real>)
    requires |xs| > 0 && s.mean == Mean(xs)
    ensures Sum(TransformAll(s, xs)) == 0.0
  {
    SumTransformAll(s, xs);
    assert (|xs| as real) * (Sum(xs) / (|xs| as real)) == Sum(xs);
  }

  // ---------------------------------------------------------------------
  // construct_problem

  datatype RequestCountProblem = RequestCountProblem(
    dates: seq<real>,
    requestCountsLog10: seq<real>,
    regions: seq<string>,
    clientTypes: seq<string>,
    regionToIndex: map<string, nat>,
    clientTypeToIndex: map<string, nat>,
    featureScaler: Scaler)

  function DateColumn(df: seq<Tidy.TidyRow>): (c: seq<real>)
    ensures |c| == |df| && forall i :: 0 <= i < |df| ==> c[i] == df[i].date
  {
    seq(|df|, i requires 0 <= i < |df| => df[i].date)
  }

  /** `construct_problem(df)`. Fitting the scaler on an empty table fails;
      the scaler's mean is the column's mean, and its scale (the float
      standard deviation) is supplied by `scaleOf`. */
  function ConstructProblem(df: seq<Tidy.TidyRow>, scaleOf: seq<real> -> Scale): (r: Result<RequestCountProblem, Error>)
    ensures r.Failure? <==> |df| == 0
    ensures r.Failure? ==> r.error == EmptyDataset
    ensures r.Success? ==>
      var p := r.value;
      && |p.dates| == |p.requestCountsLog10| == |p.regions| == |p.clientTypes| == |df|
      && (forall i :: 0 <= i < |df| ==>
            && p.regions[i] == df[i].region
            && p.clientTypes[i] == df[i].clientType
            && p.requestCountsLog10[i] == df[i].countLog10
            && p.dates[i] == Transform(p.featureScaler, df[i].date)
            && InverseTransform(p.featureScaler, p.dates[i]) == df[i].date)
      && Sum(p.dates) == 0.0
      && (forall x :: x in p.regionToIndex <==> x in p.regions)
      && (forall x :: x in p.clientTypeToIndex <==> x in p.clientTypes)
      && p.regionToIndex == IndexMap(p.regions)
      && p.clientTypeToIndex == IndexMap(p.clientTypes)
      && p.featureScaler == Scaler(Mean(DateColumn(df)), scaleOf(DateColumn(df)))
  {
    if |df| == 0 then Failure(EmptyDataset)
    else
      var regions := seq(|df|, i requires 0 <= i < |df| => df[i].region);
      var clientTypes := seq(|df|, i requires 0 <= i < |df| => df[i].clientType);
      var column := DateColumn(df);
      var scaler := Scaler(Mean(column), scaleOf(column));
      var dates := TransformAll(scaler, column);
      StandardizedSumsToZero(scaler, column);
      assert forall i :: 0 <= i < |df| ==> InverseTransform(scaler, dates[i]) == df[i].date by {
        forall i | 0 <= i < |df| ensures InverseTransform(scaler, dates[i]) == df[i].date {
          InverseTransformRoundTrip(scaler, df[i].date);
        }
      }
      Success(RequestCountProblem(
        dates,
        seq(|df|, i requires 0 <= i < |df| => df[i].countLog10),
        regions,
        clientTypes,
        IndexMap(regions),
        IndexMap(clientTypes),
        scaler))
  }

  /** A one-row table is not an error: the scaler's zero variance becomes a
      scale of 1 and the single standardised date is 0. */
  lemma OneRowTable(row: Tidy.TidyRow, scaleOf: seq<real> -> Scale)
    ensures ConstructProblem([row], scaleOf).Success?
    ensures ConstructProblem([row], scaleOf).value.dates == [0.0]
  {
    var p := ConstructProblem([row], scaleOf).value;
    assert Sum(p.dates) == p.dates[0] + Sum(p.dates[1..]);
    assert p.dates[1..] == [];
  }
}
