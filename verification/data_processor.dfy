/** `DataProcessor`: validation of an uploaded customer table, spend and tenure segments, and the
    count and presence logic of the aggregate metrics. */
module DataProcessor {
  import opened Wrappers
  import opened Frames
  import Strings
  import Dedup

  /** The columns an uploaded customer table must have; the `churn` label is not among them. */
  const RequiredColumns: seq<string> :=
    ["customer_id", "tenure_months", "monthly_spend", "data_usage_gb", "call_minutes", "complaints", "last_recharge_days"]

  lemma RequiredColumnsFacts()
    ensures |RequiredColumns| == 7
    ensures "churn" !in RequiredColumns
  {
  }

  // ---------------------------------------------------------------------------------------------
  // Validation

  datatype Validation =
    | Valid
    | MissingColumns(columns: seq<string>)
    | NullValues(counts: seq<(string, nat)>)

  predicate IsNullCell(c: Cell)
  {
    c.Null?
  }

  /** `df[c].isnull().sum()`. */
  function NullCount(f: Frame, c: string): nat
  {
    CountRows(f.rows, c, IsNullCell)
  }

  /** `null_counts[null_counts > 0]` over `names`, in that order. */
  function NullCounts(f: Frame, names: seq<string>): (r: seq<(string, nat)>)
    ensures forall k :: 0 <= k < |r| ==> r[k].0 in names && r[k].1 == NullCount(f, r[k].0) > 0
  {
    if |names| == 0 then []
    else
      var n := NullCount(f, names[0]);
      (if n > 0 then [(names[0], n)] else []) + NullCounts(f, names[1..])
  }

  /** Every column of `names` with a null is reported. */
  lemma {:induction false} NullCountsComplete(f: Frame, names: seq<string>, c: string)
    requires c in names && NullCount(f, c) > 0
    ensures exists k :: 0 <= k < |NullCounts(f, names)| && NullCounts(f, names)[k].0 == c
    decreases |names|
  {
    var r := NullCounts(f, names);
    var n := NullCount(f, names[0]);
    if names[0] == c {
      assert r[0].0 == c;
    } else {
      NullCountsComplete(f, names[1..], c);
      var k :| 0 <= k < |NullCounts(f, names[1..])| && NullCounts(f, names[1..])[k].0 == c;
      var off := if n > 0 then 1 else 0;
      assert r[k + off] == NullCounts(f, names[1..])[k];
    }
  }

  /** `validate_customer_data`: missing required columns first, then nulls in required columns. */
  function ValidateCustomerData(f: Frame): Validation
  {
    var missing := MissingOf(f, RequiredColumns);
    if |missing| > 0 then MissingColumns(missing)
    else
      var nulls := NullCounts(f, RequiredColumns);
      if |nulls| > 0 then NullValues(nulls) else Valid
  }

  const ValidText: string := "Data validation passed"
  const MissingHead: string := "Missing columns: "
  const NullHead: string := "Null values found in columns: "

  /** The `error` (or, when valid, `message`) text of the returned dictionary. */
  function ValidationMessage(v: Validation): string
  {
    match v
    case Valid => ValidText
    case MissingColumns(cols) => MissingHead + Strings.Join(cols, ", ")
    case NullValues(counts) => NullHead + DictText(counts)
  }

  /** How Python prints one `column: count` entry of a dictionary. */
  function EntryText(entry: (string, nat)): string
  {
    "'" + entry.0 + "': " + Strings.NatToString(entry.1)
  }

  /** Python's rendering of a `{column: count}` dictionary. */
  function DictText(counts: seq<(string, nat)>): string
  {
    "{" + Strings.Join(seq(|counts|, k requires 0 <= k < |counts| => EntryText(counts[k])), ", ") + "}"
  }

  /** The message tells the three outcomes apart: each has its own opening. */
  lemma ValidationMessageKinds(v: Validation)
    ensures v.Valid? <==> ValidationMessage(v) == ValidText
    ensures v.MissingColumns? <==> Strings.StartsWith(ValidationMessage(v), MissingHead)
    ensures v.NullValues? <==> Strings.StartsWith(ValidationMessage(v), NullHead)
  {
    var m := ValidationMessage(v);
    match v
    case Valid =>
      assert m[0] == 'D';
    case MissingColumns(cols) =>
      assert m[0] == 'M' && m[..|MissingHead|] == MissingHead;
    case NullValues(counts) =>
      assert m[0] == 'N' && m[..|NullHead|] == NullHead;
  }

  /** A missing-columns message names every missing required column. */
  lemma MissingMessageNamesColumns(f: Frame)
    requires exists c :: c in RequiredColumns && c !in f.columns
    ensures var m := ValidationMessage(ValidateCustomerData(f));
      && Strings.StartsWith(m, MissingHead)
      && forall c :: c in RequiredColumns && c !in f.columns ==> Strings.Contains(m, c)
  {
    MissingReportedInOrder(f);
    var v := ValidateCustomerData(f);
    ValidationMessageKinds(v);
    forall c | c in RequiredColumns && c !in f.columns
      ensures Strings.Contains(ValidationMessage(v), c)
    {
      var k :| 0 <= k < |v.columns| && v.columns[k] == c;
      Strings.JoinContains(v.columns, ", ", k);
      Strings.ContainsWithin(MissingHead, Strings.Join(v.columns, ", "), "", c);
      assert ValidationMessage(v) == MissingHead + Strings.Join(v.columns, ", ") + "";
    }
  }

  /** A null-values message shows `'c': n` for every required column `c` holding `n > 0` nulls. */
  lemma NullMessageNamesCounts(f: Frame)
    requires forall c :: c in RequiredColumns ==> c in f.columns
    requires exists c :: c in RequiredColumns && NullCount(f, c) > 0
    ensures var m := ValidationMessage(ValidateCustomerData(f));
      && Strings.StartsWith(m, NullHead)
      && forall c :: c in RequiredColumns && NullCount(f, c) > 0 ==> Strings.Contains(m, EntryText((c, NullCount(f, c))))
  {
    NullsReported(f);
    var v := ValidateCustomerData(f);
    ValidationMessageKinds(v);
    forall c | c in RequiredColumns && NullCount(f, c) > 0
      ensures Strings.Contains(ValidationMessage(v), EntryText((c, NullCount(f, c))))
    {
      var k :| 0 <= k < |v.counts| && v.counts[k].0 == c;
      NullTextShowsEntry(v.counts, k);
    }
  }

  lemma NullTextShowsEntry(counts: seq<(string, nat)>, k: int)
    requires 0 <= k < |counts|
    ensures Strings.Contains(ValidationMessage(NullValues(counts)), EntryText(counts[k]))
  {
    var entries := seq(|counts|, k requires 0 <= k < |counts| => EntryText(counts[k]));
    var joined := Strings.Join(entries, ", ");
    assert ValidationMessage(NullValues(counts)) == (NullHead + "{") + joined + "}";
    Strings.JoinContains(entries, ", ", k);
    Strings.ContainsWithin(NullHead + "{", joined, "}", entries[k]);
  }

  /** A table is valid exactly when every required column is present and none holds a null. */
  lemma ValidIff(f: Frame)
    ensures ValidateCustomerData(f) == Valid <==>
      forall c :: c in RequiredColumns ==> c in f.columns && NullCount(f, c) == 0
  {
    var missing := MissingOf(f, RequiredColumns);
    if |missing| == 0 {
      var nulls := NullCounts(f, RequiredColumns);
      if |nulls| > 0 {
        assert nulls[0].0 in RequiredColumns && NullCount(f, nulls[0].0) > 0;
      } else {
        forall c | c in RequiredColumns
          ensures NullCount(f, c) == 0
        {
          if NullCount(f, c) > 0 {
            NullCountsComplete(f, RequiredColumns, c);
          }
        }
      }
    } else {
      assert missing[0] in missing;
    }
  }

  /** Missing columns are reported in required-column order, and then the nulls are not looked at. */
  lemma MissingReportedInOrder(f: Frame)
    requires exists c :: c in RequiredColumns && c !in f.columns
    ensures ValidateCustomerData(f).MissingColumns?
    ensures Dedup.IsSubsequence(ValidateCustomerData(f).columns, RequiredColumns)
    ensures forall c :: c in ValidateCustomerData(f).columns <==> c in RequiredColumns && c !in f.columns
  {
    var c :| c in RequiredColumns && c !in f.columns;
    assert c in MissingOf(f, RequiredColumns);
    MissingIsSubsequence(f, RequiredColumns);
  }

  lemma {:induction false} MissingIsSubsequence(f: Frame, names: seq<string>)
    ensures Dedup.IsSubsequence(MissingOf(f, names), names)
    decreases |names|
  {
    if |names| > 0 {
      MissingIsSubsequence(f, names[1..]);
      var m := MissingOf(f, names);
      if names[0] !in f.columns {
        assert m[0] == names[0] && m[1..] == MissingOf(f, names[1..]);
      } else if |m| > 0 {
        assert m == MissingOf(f, names[1..]);
      }
    }
  }

  /** With all columns present, the null report names exactly the required columns holding nulls,
      in required-column order, with their null counts. */
  lemma NullsReported(f: Frame)
    requires forall c :: c in RequiredColumns ==> c in f.columns
    requires exists c :: c in RequiredColumns && NullCount(f, c) > 0
    ensures ValidateCustomerData(f).NullValues?
    ensures var counts := ValidateCustomerData(f).counts;
      && (forall k :: 0 <= k < |counts| ==> counts[k].0 in RequiredColumns && counts[k].1 == NullCount(f, counts[k].0) > 0)
      && (forall c :: c in RequiredColumns && NullCount(f, c) > 0 ==> exists k :: 0 <= k < |counts| && counts[k].0 == c)
      && Dedup.IsSubsequence(CountedColumns(counts), RequiredColumns)
  {
    var c :| c in RequiredColumns && NullCount(f, c) > 0;
    NoneMissing(f, RequiredColumns);
    NullCountsInOrder(f, RequiredColumns);
    NullCountsComplete(f, RequiredColumns, c);
    forall c' | c' in RequiredColumns && NullCount(f, c') > 0
      ensures exists k :: 0 <= k < |NullCounts(f, RequiredColumns)| && NullCounts(f, RequiredColumns)[k].0 == c'
    {
      NullCountsComplete(f, RequiredColumns, c');
    }
  }

  /** The column names of a `{column: count}` listing, in listing order. */
  function CountedColumns(counts: seq<(string, nat)>): seq<string>
  {
    seq(|counts|, k requires 0 <= k < |counts| => counts[k].0)
  }

  lemma {:induction false} NullCountsInOrder(f: Frame, names: seq<string>)
    ensures Dedup.IsSubsequence(CountedColumns(NullCounts(f, names)), names)
    decreases |names|
  {
    if |names| > 0 {
      NullCountsInOrder(f, names[1..]);
      var r := CountedColumns(NullCounts(f, names));
      var rest := CountedColumns(NullCounts(f, names[1..]));
      if NullCount(f, names[0]) > 0 {
        assert r[0] == names[0] && r[1..] == rest;
      } else if |r| > 0 {
        assert r == rest;
      }
    }
  }

  lemma {:induction false} NoneMissing(f: Frame, names: seq<string>)
    requires forall c :: c in names ==> c in f.columns
    ensures MissingOf(f, names) == []
    decreases |names|
  {
    if |names| > 0 {
      assert names[0] in names;
      NoneMissing(f, names[1..]);
    }
  }

  /** Two tables that agree on which required columns exist and on their cells. */
  ghost predicate SameRequired(f: Frame, g: Frame)
  {
    && |f.rows| == |g.rows|
    && (forall c :: c in RequiredColumns ==> (c in f.columns <==> c in g.columns))
    && (forall i, c :: 0 <= i < |f.rows| && c in RequiredColumns ==> Get(f.rows[i], c) == Get(g.rows[i], c))
  }

  lemma {:induction false} CountRowsSame(a: seq<Row>, b: seq<Row>, c: string, keep: Cell -> bool)
    requires |a| == |b| && forall i :: 0 <= i < |a| ==> Get(a[i], c) == Get(b[i], c)
    ensures CountRows(a, c, keep) == CountRows(b, c, keep)
    decreases |a|
  {
    if |a| > 0 {
      CountRowsSame(a[1..], b[1..], c, keep);
    }
  }

  lemma {:induction false} NullCountsSame(f: Frame, g: Frame, names: seq<string>)
    requires forall c :: c in names ==> NullCount(f, c) == NullCount(g, c)
    ensures NullCounts(f, names) == NullCounts(g, names)
    decreases |names|
  {
    if |names| > 0 {
      NullCountsSame(f, g, names[1..]);
    }
  }

  /** Columns outside the required seven, and nulls in them, never change the verdict. */
  lemma OnlyRequiredColumnsMatter(f: Frame, g: Frame)
    requires SameRequired(f, g)
    ensures ValidateCustomerData(f) == ValidateCustomerData(g)
  {
    MissingOfSame(f, g, RequiredColumns);
    forall c | c in RequiredColumns
      ensures NullCount(f, c) == NullCount(g, c)
    {
      CountRowsSame(f.rows, g.rows, c, IsNullCell);
    }
    NullCountsSame(f, g, RequiredColumns);
  }

  // ---------------------------------------------------------------------------------------------
  // Segments

  datatype Segments = Segments(
    highValue: Frame, mediumValue: Frame, lowValue: Frame,
    newCustomers: Frame, establishedCustomers: Frame, loyalCustomers: Frame)

  /** `x > t` on a cell. */
  function Over(t: real): Cell -> bool
  {
    c => Above(c, t)
  }

  /** `x <= t` on a cell. */
  function UpTo(t: real): Cell -> bool
  {
    c => AtMost(c, t)
  }

  /** `(x > lo) & (x <= hi)` on a cell. */
  function Between(lo: real, hi: real): Cell -> bool
  {
    c => Above(c, lo) && AtMost(c, hi)
  }

  /** A cell comparisons can place: a number or an infinity (NaN compares false every way). */
  predicate Comparable(c: Cell)
  {
    c.Num? || c.Inf?
  }

  /** `df[mask]`: same columns, the selected rows in order. */
  function SubFrame(f: Frame, c: string, keep: Cell -> bool): Frame
  {
    Frame(f.columns, SelectRows(f.rows, c, keep))
  }

  /** `get_customer_segments`, with the spend quartiles passed in. */
  function CustomerSegments(f: Frame, q25: real, q75: real): Result<Segments, FrameError>
  {
    if "monthly_spend" !in f.columns then Err(KeyError(["monthly_spend"]))
    else if AnyText(Column(f, "monthly_spend")) then Err(TypeError("monthly_spend"))
    else if "tenure_months" !in f.columns then Err(KeyError(["tenure_months"]))
    else if AnyText(Column(f, "tenure_months")) then Err(TypeError("tenure_months"))
    else Ok(Segments(
      SubFrame(f, "monthly_spend", Over(q75)),
      SubFrame(f, "monthly_spend", Between(q25, q75)),
      SubFrame(f, "monthly_spend", UpTo(q25)),
      SubFrame(f, "tenure_months", UpTo(6.0)),
      SubFrame(f, "tenure_months", Between(6.0, 24.0)),
      SubFrame(f, "tenure_months", Over(24.0))))
  }

  function Indicator(b: bool): nat
  {
    if b then 1 else 0
  }

  /** For `lo <= hi`, the three bands `<= lo`, `(lo, hi]`, `> hi` hold a comparable cell exactly once
      and a NaN (or text) cell never. */
  lemma BandsPartitionCell(c: Cell, lo: real, hi: real)
    requires lo <= hi
    ensures Indicator(UpTo(lo)(c)) + Indicator(Between(lo, hi)(c)) + Indicator(Over(hi)(c)) == Indicator(Comparable(c))
  {
  }

  lemma {:induction false} SelectPartition(rows: seq<Row>, col: string, a: Cell -> bool, b: Cell -> bool, d: Cell -> bool, all: Cell -> bool)
    requires forall x :: Indicator(a(x)) + Indicator(b(x)) + Indicator(d(x)) == Indicator(all(x))
    ensures multiset(SelectRows(rows, col, a)) + multiset(SelectRows(rows, col, b)) + multiset(SelectRows(rows, col, d))
         == multiset(SelectRows(rows, col, all))
    decreases |rows|
  {
    if |rows| > 0 {
      SelectPartition(rows[1..], col, a, b, d, all);
      var x := Get(rows[0], col);
      assert Indicator(a(x)) + Indicator(b(x)) + Indicator(d(x)) == Indicator(all(x));
    }
  }

  /** Given `q25 <= q75`, every row with a comparable spend is in exactly one of the low, medium and
      high segments, and a row with a NaN spend in none; likewise for the new, established and loyal
      tenure segments (the tenure bounds 6 and 24 are fixed). */
  lemma SegmentsPartition(f: Frame, q25: real, q75: real)
    requires q25 <= q75
    requires CustomerSegments(f, q25, q75).Ok?
    ensures var s := CustomerSegments(f, q25, q75).value;
      && multiset(s.lowValue.rows) + multiset(s.mediumValue.rows) + multiset(s.highValue.rows)
         == multiset(SelectRows(f.rows, "monthly_spend", Comparable))
      && multiset(s.newCustomers.rows) + multiset(s.establishedCustomers.rows) + multiset(s.loyalCustomers.rows)
         == multiset(SelectRows(f.rows, "tenure_months", Comparable))
  {
    var s := CustomerSegments(f, q25, q75).value;
    assert s.lowValue.rows == SelectRows(f.rows, "monthly_spend", UpTo(q25));
    assert s.mediumValue.rows == SelectRows(f.rows, "monthly_spend", Between(q25, q75));
    assert s.highValue.rows == SelectRows(f.rows, "monthly_spend", Over(q75));
    assert s.newCustomers.rows == SelectRows(f.rows, "tenure_months", UpTo(6.0));
    assert s.establishedCustomers.rows == SelectRows(f.rows, "tenure_months", Between(6.0, 24.0));
    assert s.loyalCustomers.rows == SelectRows(f.rows, "tenure_months", Over(24.0));
    BandsPartition(f.rows, "monthly_spend", q25, q75);
    BandsPartition(f.rows, "tenure_months", 6.0, 24.0);
  }

  lemma BandsPartition(rows: seq<Row>, col: string, lo: real, hi: real)
    requires lo <= hi
    ensures multiset(SelectRows(rows, col, UpTo(lo))) + multiset(SelectRows(rows, col, Between(lo, hi)))
      + multiset(SelectRows(rows, col, Over(hi))) == multiset(SelectRows(rows, col, Comparable))
  {
    forall x
      ensures Indicator(UpTo(lo)(x)) + Indicator(Between(lo, hi)(x)) + Indicator(Over(hi)(x)) == Indicator(Comparable(x))
    {
      BandsPartitionCell(x, lo, hi);
    }
    SelectPartition(rows, col, UpTo(lo), Between(lo, hi), Over(hi), Comparable);
  }

  /** Segments keep the table's columns and only hold rows that meet their bounds. */
  lemma SegmentsBounds(f: Frame, q25: real, q75: real)
    requires CustomerSegments(f, q25, q75).Ok?
    ensures var s := CustomerSegments(f, q25, q75).value;
      && s.highValue.columns == s.newCustomers.columns == f.columns
      && (forall r :: r in s.highValue.rows ==> Above(Get(r, "monthly_spend"), q75))
      && (forall r :: r in s.lowValue.rows ==> AtMost(Get(r, "monthly_spend"), q25))
      && (forall r :: r in s.newCustomers.rows ==> AtMost(Get(r, "tenure_months"), 6.0))
      && (forall r :: r in s.loyalCustomers.rows ==> Above(Get(r, "tenure_months"), 24.0))
      && (forall r :: r in s.establishedCustomers.rows ==>
            Above(Get(r, "tenure_months"), 6.0) && AtMost(Get(r, "tenure_months"), 24.0))
  {
  }

  // ---------------------------------------------------------------------------------------------
  // Aggregate metrics: the counts and which entries exist

  /** The parts of `calculate_customer_metrics` that are counts or presence; the averages and sums
      are floating-point aggregates and are not modelled. */
  datatype CustomerMetrics = CustomerMetrics(
    totalCustomers: nat,
    hasChurnMetrics: bool,           // `churn_rate` and `churned_customers` are present
    highRiskCustomers: Option<nat>)  // present together with `avg_churn_risk`

  /** The columns averaged or summed unconditionally, in the order they are read. */
  const AggregatedColumns: seq<string> := ["tenure_months", "monthly_spend", "data_usage_gb", "complaints"]

  function FirstUnusable(f: Frame, names: seq<string>): (r: Option<FrameError>)
    ensures r.None? <==> forall c :: c in names ==> c in f.columns && !AnyText(Column(f, c))
  {
    if |names| == 0 then None
    else if names[0] !in f.columns then Some(KeyError([names[0]]))
    else if AnyText(Column(f, names[0])) then Some(TypeError(names[0]))
    else FirstUnusable(f, names[1..])
  }

  predicate IsHighRisk(c: Cell)
  {
    Above(c, 0.6)
  }

  /** `calculate_customer_metrics`, counts and presence only. */
  function CalculateCustomerMetrics(f: Frame): Result<CustomerMetrics, FrameError>
  {
    match FirstUnusable(f, AggregatedColumns)
    case Some(e) => Err(e)
    case None =>
      var hasChurn := "churn" in f.columns;
      if hasChurn && AnyText(Column(f, "churn")) then Err(TypeError("churn"))
      else if "churn_probability" in f.columns && AnyText(Column(f, "churn_probability")) then Err(TypeError("churn_probability"))
      else Ok(CustomerMetrics(
        |f.rows|,
        hasChurn,
        if "churn_probability" in f.columns then Some(CountRows(f.rows, "churn_probability", IsHighRisk)) else None))
  }

  lemma {:induction false} CountIsSelection(rows: seq<Row>, c: string, keep: Cell -> bool)
    ensures CountRows(rows, c, keep) == |SelectRows(rows, c, keep)|
    decreases |rows|
  {
    if |rows| > 0 {
      CountIsSelection(rows[1..], c, keep);
    }
  }

  /** The total is the row count; the churn entries exist exactly when a `churn` column does; the
      high-risk count exists exactly with a `churn_probability` column and counts the rows whose
      probability is strictly above 0.6, so it never exceeds the total. */
  lemma CustomerMetricsSpec(f: Frame)
    requires CalculateCustomerMetrics(f).Ok?
    ensures var m := CalculateCustomerMetrics(f).value;
      && m.totalCustomers == |f.rows|
      && (m.hasChurnMetrics <==> "churn" in f.columns)
      && (m.highRiskCustomers.Some? <==> "churn_probability" in f.columns)
      && (m.highRiskCustomers.Some? ==>
            && m.highRiskCustomers.value == |SelectRows(f.rows, "churn_probability", IsHighRisk)|
            && m.highRiskCustomers.value <= m.totalCustomers)
  {
    CountIsSelection(f.rows, "churn_probability", IsHighRisk);
  }

  /** A probability of exactly 0.6 is not high risk; anything above it is. */
  lemma HighRiskThreshold(p: real)
    ensures IsHighRisk(Num(p)) <==> p > 0.6
    ensures !IsHighRisk(Null)
  {
  }

  /** The metrics fail exactly when an aggregated column is missing or holds text, or when a
      present `churn` or `churn_probability` column holds text; an absent optional column is fine. */
  lemma CustomerMetricsErrors(f: Frame)
    ensures CalculateCustomerMetrics(f).Ok? <==>
      && (forall c :: c in AggregatedColumns ==> c in f.columns && !AnyText(Column(f, c)))
      && ("churn" in f.columns ==> !AnyText(Column(f, "churn")))
      && ("churn_probability" in f.columns ==> !AnyText(Column(f, "churn_probability")))
  {
  }
}
