/** `ChurnPredictor`: feature derivation, the fixed feature order, risk tiers, scoring,
    artifact loading and the feature-importance ranking. The fitted scaler and classifier are
    opaque; their combined behaviour is a function parameter returning a probability. */
module ChurnModel {
  import opened Wrappers
  import opened Frames
  import StableSort
  import Dedup

  // Column names.
  const TenureMonths: string := "tenure_months"
  const MonthlySpend: string := "monthly_spend"
  const DataUsageGb: string := "data_usage_gb"
  const CallMinutes: string := "call_minutes"
  const Complaints: string := "complaints"
  const LastRechargeDays: string := "last_recharge_days"
  const SpendPerMonth: string := "spend_per_month"
  const DataPerMonth: string := "data_per_month"
  const ComplaintRate: string := "complaint_rate"
  const RechargeFrequency: string := "recharge_frequency"
  const ChurnProbability: string := "churn_probability"
  const ChurnPrediction: string := "churn_prediction"
  const RiskLevel: string := "risk_level"
  /** The training label. */
  const ChurnLabel: string := "churn"

  /** The six base features, in the order the model sees them. */
  const BaseFeatures: seq<string> :=
    [TenureMonths, MonthlySpend, DataUsageGb, CallMinutes, Complaints, LastRechargeDays]

  /** The four derived features, appended after the base ones. */
  const DerivedFeatures: seq<string> :=
    [SpendPerMonth, DataPerMonth, ComplaintRate, RechargeFrequency]

  /** The model's feature vector layout, shared by training and scoring. */
  const AllFeatures: seq<string> := BaseFeatures + DerivedFeatures

  /** Ten distinct names: the six base features first, then the four derived ones. */
  lemma FeatureLayout()
    ensures |AllFeatures| == 10 && Dedup.DistinctKeys(AllFeatures, Dedup.Itself)
    ensures AllFeatures[..6] == BaseFeatures && AllFeatures[6..] == DerivedFeatures
    ensures forall c :: c in DerivedFeatures ==> c !in BaseFeatures
  {
  }

  // ---------------------------------------------------------------------------------------------
  // Feature derivation

  /** The value `num / (den + 1)` that one derived column holds for one row. */
  function Ratio(num: Cell, den: Cell): Cell
  {
    Divide(num, AddOne(den))
  }

  /** One line of `prepare_features`: `df[target] = df[num] / (df[den] + 1)`. Python evaluates
      `df[num]`, then `df[den]`, then the `+ 1`, then the division, so that is the order errors surface. */
  function DeriveRatio(f: Frame, target: string, num: string, den: string): (r: Result<Frame, FrameError>)
    ensures r.Ok? <==> ColumnOk(f, num) && ColumnOk(f, den)
    ensures r.Ok? ==> |r.value.rows| == |f.rows|
  {
    if num !in f.columns then Err(KeyError([num]))
    else if den !in f.columns then Err(KeyError([den]))
    else if AnyText(Column(f, den)) then Err(TypeError(den))
    else if AnyText(Column(f, num)) then Err(TypeError(num))
    else Ok(Assign(f, target, seq(|f.rows|, i requires 0 <= i < |f.rows| => Ratio(Get(f.rows[i], num), Get(f.rows[i], den)))))
  }

  /** A derivation adds the target column to the frame and to every row, sets it to the ratio
      read from the same row, and leaves every other cell alone. */
  lemma DeriveRatioSpec(f: Frame, target: string, num: string, den: string)
    requires DeriveRatio(f, target, num, den).Ok?
    ensures var g := DeriveRatio(f, target, num, den).value;
      && Unchanged(f, g, {target})
      && (forall i :: 0 <= i < |f.rows| ==> Get(g.rows[i], target) == Ratio(Get(f.rows[i], num), Get(f.rows[i], den)))
      && (forall c :: c in g.columns <==> c in f.columns || c == target)
      && (forall i :: 0 <= i < |f.rows| ==> g.rows[i].Keys == f.rows[i].Keys + {target})
  {
  }

  /** One cell after a derivation. */
  lemma DeriveRatioCell(f: Frame, target: string, num: string, den: string, i: int, c: string)
    requires DeriveRatio(f, target, num, den).Ok? && 0 <= i < |f.rows|
    ensures Get(DeriveRatio(f, target, num, den).value.rows[i], c)
      == if c == target then Ratio(Get(f.rows[i], num), Get(f.rows[i], den)) else Get(f.rows[i], c)
  {
    DeriveRatioSpec(f, target, num, den);
  }

  /** `g` has the rows of `f`, with every cell outside the columns `names` as it was. */
  ghost predicate Unchanged(f: Frame, g: Frame, names: set<string>)
  {
    && |g.rows| == |f.rows|
    && forall i, c :: 0 <= i < |f.rows| && c !in names ==> Get(g.rows[i], c) == Get(f.rows[i], c)
  }

  /** Outside the columns written, a column reads the same. */
  lemma UnchangedColumn(f: Frame, g: Frame, names: set<string>, c: string)
    requires Unchanged(f, g, names) && c !in names
    ensures Column(g, c) == Column(f, c)
  {
  }

  /** The columns `prepare_features` reads, in the order it first reads them. */
  const SourceColumns: seq<string> :=
    [MonthlySpend, TenureMonths, DataUsageGb, Complaints, LastRechargeDays]

  /** Column `c` exists and holds no text, so arithmetic on it goes through. */
  predicate ColumnOk(f: Frame, c: string)
  {
    c in f.columns && !AnyText(Column(f, c))
  }

  /** Derivation can go through: every source column exists and none holds text. */
  predicate Derivable(f: Frame)
  {
    forall c :: c in SourceColumns ==> ColumnOk(f, c)
  }

  lemma DerivableColumns(f: Frame)
    ensures Derivable(f) <==>
      && ColumnOk(f, MonthlySpend) && ColumnOk(f, TenureMonths) && ColumnOk(f, DataUsageGb)
      && ColumnOk(f, Complaints) && ColumnOk(f, LastRechargeDays)
  {
    assert SourceColumns[0] == MonthlySpend && SourceColumns[1] == TenureMonths;
    assert SourceColumns[2] == DataUsageGb && SourceColumns[3] == Complaints && SourceColumns[4] == LastRechargeDays;
  }

  /** A derivation leaves every other column as usable as it was. */
  lemma DeriveKeepsColumn(f: Frame, target: string, num: string, den: string, c: string)
    requires DeriveRatio(f, target, num, den).Ok? && c != target
    ensures ColumnOk(DeriveRatio(f, target, num, den).value, c) == ColumnOk(f, c)
  {
    var g := DeriveRatio(f, target, num, den).value;
    DeriveRatioSpec(f, target, num, den);
    UnchangedColumn(f, g, {target}, c);
  }

  /** `prepare_features`: a copy of the frame with the four derived columns set. */
  function PrepareFeatures(f: Frame): Result<Frame, FrameError>
  {
    match DeriveRatio(f, SpendPerMonth, MonthlySpend, TenureMonths)
    case Err(e) => Err(e)
    case Ok(f1) =>
      match DeriveRatio(f1, DataPerMonth, DataUsageGb, TenureMonths)
      case Err(e) => Err(e)
      case Ok(f2) =>
        match DeriveRatio(f2, ComplaintRate, Complaints, TenureMonths)
        case Err(e) => Err(e)
        case Ok(f3) => DeriveRatio(f3, RechargeFrequency, TenureMonths, LastRechargeDays)
  }

  const DerivedNames: set<string> := {SpendPerMonth, DataPerMonth, ComplaintRate, RechargeFrequency}

  lemma UnchangedTrans(f: Frame, g: Frame, h: Frame, a: set<string>, b: set<string>)
    requires Unchanged(f, g, a) && Unchanged(g, h, b)
    ensures Unchanged(f, h, a + b)
  {
  }

  /** Derivation succeeds exactly when the five source columns exist and hold no text. Each step
      reads columns the earlier steps do not write, so every step sees the caller's columns. */
  lemma PrepareFeaturesOk(f: Frame)
    ensures PrepareFeatures(f).Ok? <==> Derivable(f)
  {
    DerivableColumns(f);
    var r1 := DeriveRatio(f, SpendPerMonth, MonthlySpend, TenureMonths);
    if r1.Ok? {
      var f1 := r1.value;
      DeriveKeepsColumn(f, SpendPerMonth, MonthlySpend, TenureMonths, DataUsageGb);
      DeriveKeepsColumn(f, SpendPerMonth, MonthlySpend, TenureMonths, TenureMonths);
      DeriveKeepsColumn(f, SpendPerMonth, MonthlySpend, TenureMonths, Complaints);
      DeriveKeepsColumn(f, SpendPerMonth, MonthlySpend, TenureMonths, LastRechargeDays);
      var r2 := DeriveRatio(f1, DataPerMonth, DataUsageGb, TenureMonths);
      if r2.Ok? {
        var f2 := r2.value;
        DeriveKeepsColumn(f1, DataPerMonth, DataUsageGb, TenureMonths, TenureMonths);
        DeriveKeepsColumn(f1, DataPerMonth, DataUsageGb, TenureMonths, Complaints);
        DeriveKeepsColumn(f1, DataPerMonth, DataUsageGb, TenureMonths, LastRechargeDays);
        var r3 := DeriveRatio(f2, ComplaintRate, Complaints, TenureMonths);
        if r3.Ok? {
          var f3 := r3.value;
          DeriveKeepsColumn(f2, ComplaintRate, Complaints, TenureMonths, TenureMonths);
          DeriveKeepsColumn(f2, ComplaintRate, Complaints, TenureMonths, LastRechargeDays);
        }
      }
    }
  }

  /** A successful derivation keeps every row and every other cell, and adds exactly the four derived columns. */
  lemma PrepareFeaturesShape(f: Frame)
    requires PrepareFeatures(f).Ok?
    ensures var g := PrepareFeatures(f).value;
      && Unchanged(f, g, DerivedNames)
      && (forall c :: c in g.columns <==> c in f.columns || c in DerivedNames)
      && (forall i :: 0 <= i < |f.rows| ==> g.rows[i].Keys == f.rows[i].Keys + DerivedNames)
  {
    var f1 := DeriveRatio(f, SpendPerMonth, MonthlySpend, TenureMonths).value;
    var f2 := DeriveRatio(f1, DataPerMonth, DataUsageGb, TenureMonths).value;
    var f3 := DeriveRatio(f2, ComplaintRate, Complaints, TenureMonths).value;
    var g := PrepareFeatures(f).value;
    DeriveRatioSpec(f, SpendPerMonth, MonthlySpend, TenureMonths);
    DeriveRatioSpec(f1, DataPerMonth, DataUsageGb, TenureMonths);
    DeriveRatioSpec(f2, ComplaintRate, Complaints, TenureMonths);
    DeriveRatioSpec(f3, RechargeFrequency, TenureMonths, LastRechargeDays);
    UnchangedTrans(f, f1, f2, {SpendPerMonth}, {DataPerMonth});
    UnchangedTrans(f, f2, f3, {SpendPerMonth, DataPerMonth}, {ComplaintRate});
    UnchangedTrans(f, f3, g, {SpendPerMonth, DataPerMonth, ComplaintRate}, {RechargeFrequency});
    assert {SpendPerMonth, DataPerMonth, ComplaintRate} + {RechargeFrequency} == DerivedNames;
  }

  /** Each derived column holds its ratio, read from the caller's row. */
  lemma PrepareFeaturesValues(f: Frame, i: int)
    requires PrepareFeatures(f).Ok? && 0 <= i < |f.rows|
    ensures var row, out := f.rows[i], PrepareFeatures(f).value.rows[i];
      && Get(out, SpendPerMonth) == Ratio(Get(row, MonthlySpend), Get(row, TenureMonths))
      && Get(out, DataPerMonth) == Ratio(Get(row, DataUsageGb), Get(row, TenureMonths))
      && Get(out, ComplaintRate) == Ratio(Get(row, Complaints), Get(row, TenureMonths))
      && Get(out, RechargeFrequency) == Ratio(Get(row, TenureMonths), Get(row, LastRechargeDays))
  {
    var f1 := DeriveRatio(f, SpendPerMonth, MonthlySpend, TenureMonths).value;
    var f2 := DeriveRatio(f1, DataPerMonth, DataUsageGb, TenureMonths).value;
    var f3 := DeriveRatio(f2, ComplaintRate, Complaints, TenureMonths).value;
    // Step 1 writes spend_per_month and keeps the columns the later steps read.
    DeriveRatioCell(f, SpendPerMonth, MonthlySpend, TenureMonths, i, SpendPerMonth);
    DeriveRatioCell(f, SpendPerMonth, MonthlySpend, TenureMonths, i, TenureMonths);
    DeriveRatioCell(f, SpendPerMonth, MonthlySpend, TenureMonths, i, DataUsageGb);
    DeriveRatioCell(f, SpendPerMonth, MonthlySpend, TenureMonths, i, Complaints);
    DeriveRatioCell(f, SpendPerMonth, MonthlySpend, TenureMonths, i, LastRechargeDays);
    // Step 2 writes data_per_month.
    DeriveRatioCell(f1, DataPerMonth, DataUsageGb, TenureMonths, i, DataPerMonth);
    DeriveRatioCell(f1, DataPerMonth, DataUsageGb, TenureMonths, i, SpendPerMonth);
    DeriveRatioCell(f1, DataPerMonth, DataUsageGb, TenureMonths, i, TenureMonths);
    DeriveRatioCell(f1, DataPerMonth, DataUsageGb, TenureMonths, i, Complaints);
    DeriveRatioCell(f1, DataPerMonth, DataUsageGb, TenureMonths, i, LastRechargeDays);
    // Step 3 writes complaint_rate.
    DeriveRatioCell(f2, ComplaintRate, Complaints, TenureMonths, i, ComplaintRate);
    DeriveRatioCell(f2, ComplaintRate, Complaints, TenureMonths, i, SpendPerMonth);
    DeriveRatioCell(f2, ComplaintRate, Complaints, TenureMonths, i, DataPerMonth);
    DeriveRatioCell(f2, ComplaintRate, Complaints, TenureMonths, i, TenureMonths);
    DeriveRatioCell(f2, ComplaintRate, Complaints, TenureMonths, i, LastRechargeDays);
    // Step 4 writes recharge_frequency.
    DeriveRatioCell(f3, RechargeFrequency, TenureMonths, LastRechargeDays, i, RechargeFrequency);
    DeriveRatioCell(f3, RechargeFrequency, TenureMonths, LastRechargeDays, i, SpendPerMonth);
    DeriveRatioCell(f3, RechargeFrequency, TenureMonths, LastRechargeDays, i, DataPerMonth);
    DeriveRatioCell(f3, RechargeFrequency, TenureMonths, LastRechargeDays, i, ComplaintRate);
  }

  /** The `+ 1` guard: with a non-negative denominator column every ratio is an ordinary quotient. */
  lemma RatioIsFinite(x: real, t: real)
    requires t >= 0.0
    ensures Ratio(Num(x), Num(t)) == Num(x / (t + 1.0))
  {
  }

  /** A denominator of -1 is the only way to divide by zero: x/0 is a signed infinity, 0/0 is NaN,
      and any other denominator gives the exact (unrounded, never overflowing) quotient. */
  lemma RatioByZero(x: real, t: real)
    ensures t == -1.0 ==> Ratio(Num(x), Num(t)) == (if x == 0.0 then Null else Inf(x > 0.0))
    ensures t != -1.0 ==> Ratio(Num(x), Num(t)) == Num(x / (t + 1.0))
  {
  }

  /** For a row with numeric, non-negative tenure and recharge days, every derived feature is the
      stated finite quotient. */
  lemma DerivedValuesFinite(f: Frame, i: int, spend: real, data: real, complaints: real, tenure: real, recharge: real)
    requires Derivable(f) && 0 <= i < |f.rows|
    requires Get(f.rows[i], MonthlySpend) == Num(spend)
    requires Get(f.rows[i], DataUsageGb) == Num(data)
    requires Get(f.rows[i], Complaints) == Num(complaints)
    requires Get(f.rows[i], TenureMonths) == Num(tenure) && tenure >= 0.0
    requires Get(f.rows[i], LastRechargeDays) == Num(recharge) && recharge >= 0.0
    ensures PrepareFeatures(f).Ok?
    ensures var out := PrepareFeatures(f).value.rows[i];
      && Get(out, SpendPerMonth) == Num(spend / (tenure + 1.0))
      && Get(out, DataPerMonth) == Num(data / (tenure + 1.0))
      && Get(out, ComplaintRate) == Num(complaints / (tenure + 1.0))
      && Get(out, RechargeFrequency) == Num(tenure / (recharge + 1.0))
  {
    PrepareFeaturesOk(f);
    PrepareFeaturesValues(f, i);
    RatioIsFinite(spend, tenure);
    RatioIsFinite(data, tenure);
    RatioIsFinite(complaints, tenure);
    RatioIsFinite(tenure, recharge);
  }

  /** `df[all_features]` for one row. */
  function FeatureVector(row: Row): (v: seq<Cell>)
    ensures |v| == |AllFeatures|
    ensures forall k :: 0 <= k < |v| ==> v[k] == Get(row, AllFeatures[k])
  {
    seq(|AllFeatures|, k requires 0 <= k < |AllFeatures| => Get(row, AllFeatures[k]))
  }

  /** The feature matrix both training and scoring build: derive, then select `all_features`. */
  function FeatureMatrix(f: Frame): (r: Result<seq<seq<Cell>>, FrameError>)
    ensures r.Ok? ==> |r.value| == |f.rows|
  {
    match PrepareFeatures(f)
    case Err(e) => Err(e)
    case Ok(g) => SelectFeatures(g)
  }

  /** `df[all_features]` on the derived frame: a `KeyError` naming the absent features, or one
      feature vector per row. */
  function SelectFeatures(g: Frame): (r: Result<seq<seq<Cell>>, FrameError>)
    ensures r.Ok? ==> |r.value| == |g.rows|
  {
    var missing := MissingOf(g, AllFeatures);
    if |missing| > 0 then Err(KeyError(missing))
    else Ok(seq(|g.rows|, i requires 0 <= i < |g.rows| => FeatureVector(g.rows[i])))
  }

  /** The inputs `train` hands to the split and the classifier: features and the `churn` label. */
  function TrainingData(f: Frame): Result<(seq<seq<Cell>>, seq<Cell>), FrameError>
  {
    match FeatureMatrix(f)
    case Err(e) => Err(e)
    case Ok(x) =>
      if ChurnLabel !in f.columns then Err(KeyError([ChurnLabel]))
      else Ok((x, Column(f, ChurnLabel)))
  }

  /** Frames that agree on the columns and on the six base features of every row. */
  predicate SameBaseFeatures(f: Frame, g: Frame)
  {
    && |f.rows| == |g.rows|
    && (forall c :: c in BaseFeatures ==> (c in f.columns <==> c in g.columns))
    && (forall i, c :: 0 <= i < |f.rows| && c in BaseFeatures ==> Get(f.rows[i], c) == Get(g.rows[i], c))
  }

  lemma SameBaseDerivable(f: Frame, g: Frame)
    requires SameBaseFeatures(f, g)
    ensures Derivable(f) <==> Derivable(g)
  {
    forall c | c in SourceColumns
      ensures ColumnOk(f, c) == ColumnOk(g, c)
    {
      assert c in BaseFeatures;
      assert Column(f, c) == Column(g, c);
    }
  }

  /** Derivation reads only base-feature columns, so frames agreeing on them derive alike. */
  lemma PrepareParity(f: Frame, g: Frame)
    requires SameBaseFeatures(f, g)
    ensures PrepareFeatures(f).Ok? <==> PrepareFeatures(g).Ok?
    ensures PrepareFeatures(f).Ok? ==>
      var a, b := PrepareFeatures(f).value, PrepareFeatures(g).value;
      && |a.rows| == |b.rows|
      && (forall c :: c in AllFeatures ==> (c in a.columns <==> c in b.columns))
      && (forall i, c :: 0 <= i < |a.rows| && c in AllFeatures ==> Get(a.rows[i], c) == Get(b.rows[i], c))
  {
    SameBaseDerivable(f, g);
    PrepareFeaturesOk(f);
    PrepareFeaturesOk(g);
    if PrepareFeatures(f).Ok? {
      PrepareFeaturesShape(f);
      PrepareFeaturesShape(g);
      var a, b := PrepareFeatures(f).value, PrepareFeatures(g).value;
      forall c | c in AllFeatures
        ensures c in a.columns <==> c in b.columns
      {
        assert c in BaseFeatures || c in DerivedNames;
      }
      forall i, c | 0 <= i < |a.rows| && c in AllFeatures
        ensures Get(a.rows[i], c) == Get(b.rows[i], c)
      {
        PrepareParityCell(f, g, i, c);
      }
    }
  }

  lemma PrepareParityCell(f: Frame, g: Frame, i: int, c: string)
    requires SameBaseFeatures(f, g)
    requires PrepareFeatures(f).Ok? && PrepareFeatures(g).Ok?
    requires 0 <= i < |f.rows| && c in AllFeatures
    ensures Get(PrepareFeatures(f).value.rows[i], c) == Get(PrepareFeatures(g).value.rows[i], c)
  {
    if c in DerivedNames {
      assert c == SpendPerMonth || c == DataPerMonth || c == ComplaintRate || c == RechargeFrequency;
      PrepareParityDerived(f, g, i);
    } else {
      assert c in BaseFeatures;
      PrepareParityBase(f, g, i, c);
    }
  }

  lemma PrepareParityDerived(f: Frame, g: Frame, i: int)
    requires SameBaseFeatures(f, g)
    requires PrepareFeatures(f).Ok? && PrepareFeatures(g).Ok?
    requires 0 <= i < |f.rows|
    ensures var a, b := PrepareFeatures(f).value.rows[i], PrepareFeatures(g).value.rows[i];
      && Get(a, SpendPerMonth) == Get(b, SpendPerMonth)
      && Get(a, DataPerMonth) == Get(b, DataPerMonth)
      && Get(a, ComplaintRate) == Get(b, ComplaintRate)
      && Get(a, RechargeFrequency) == Get(b, RechargeFrequency)
  {
    var rf, rg := f.rows[i], g.rows[i];
    assert MonthlySpend in BaseFeatures && DataUsageGb in BaseFeatures && Complaints in BaseFeatures;
    assert TenureMonths in BaseFeatures && LastRechargeDays in BaseFeatures;
    assert Get(rf, MonthlySpend) == Get(rg, MonthlySpend);
    assert Get(rf, DataUsageGb) == Get(rg, DataUsageGb);
    assert Get(rf, Complaints) == Get(rg, Complaints);
    assert Get(rf, TenureMonths) == Get(rg, TenureMonths);
    assert Get(rf, LastRechargeDays) == Get(rg, LastRechargeDays);
    PrepareFeaturesValues(f, i);
    PrepareFeaturesValues(g, i);
  }

  lemma PrepareParityBase(f: Frame, g: Frame, i: int, c: string)
    requires SameBaseFeatures(f, g)
    requires PrepareFeatures(f).Ok? && PrepareFeatures(g).Ok?
    requires 0 <= i < |f.rows| && c in BaseFeatures && c !in DerivedNames
    ensures Get(PrepareFeatures(f).value.rows[i], c) == Get(PrepareFeatures(g).value.rows[i], c)
  {
    PrepareFeaturesShape(f);
    PrepareFeaturesShape(g);
    var a, b := PrepareFeatures(f).value, PrepareFeatures(g).value;
    assert Get(a.rows[i], c) == Get(f.rows[i], c);
    assert Get(b.rows[i], c) == Get(g.rows[i], c);
  }

  /** Train/serve parity: the feature matrix depends on the six base features alone, so a
      labelled training frame and an unlabelled scoring frame with the same base values produce
      identical features, and training uses exactly the scoring matrix. */
  lemma FeatureParity(f: Frame, g: Frame)
    requires SameBaseFeatures(f, g)
    ensures FeatureMatrix(f).Ok? <==> FeatureMatrix(g).Ok?
    ensures FeatureMatrix(f).Ok? ==> FeatureMatrix(f).value == FeatureMatrix(g).value
    ensures TrainingData(f).Ok? ==> TrainingData(f).value.0 == FeatureMatrix(g).value
  {
    PrepareParity(f, g);
    if PrepareFeatures(f).Ok? {
      SelectParity(PrepareFeatures(f).value, PrepareFeatures(g).value);
    }
  }

  /** Frames agreeing on the presence and values of every model feature select the same matrix. */
  lemma SelectParity(a: Frame, b: Frame)
    requires |a.rows| == |b.rows|
    requires forall c :: c in AllFeatures ==> (c in a.columns <==> c in b.columns)
    requires forall i, c :: 0 <= i < |a.rows| && c in AllFeatures ==> Get(a.rows[i], c) == Get(b.rows[i], c)
    ensures SelectFeatures(a) == SelectFeatures(b)
  {
    MissingOfSame(a, b, AllFeatures);
    if SelectFeatures(a).Ok? {
      var xa, xb := SelectFeatures(a).value, SelectFeatures(b).value;
      forall i | 0 <= i < |a.rows|
        ensures xa[i] == xb[i]
      {
        VectorParity(a.rows[i], b.rows[i]);
      }
      assert xa == xb;
    }
  }

  lemma VectorParity(r: Row, t: Row)
    requires forall c :: c in AllFeatures ==> Get(r, c) == Get(t, c)
    ensures FeatureVector(r) == FeatureVector(t)
  {
    forall k | 0 <= k < |AllFeatures|
      ensures Get(r, AllFeatures[k]) == Get(t, AllFeatures[k])
    {
      assert AllFeatures[k] in AllFeatures;
    }
  }

  // ---------------------------------------------------------------------------------------------
  // Risk tiers

  datatype RiskTier = Low | Medium | High

  function TierLabel(t: RiskTier): string
  {
    match t
    case Low => "Low"
    case Medium => "Medium"
    case High => "High"
  }

  function TierRank(t: RiskTier): nat
  {
    match t
    case Low => 0
    case Medium => 1
    case High => 2
  }

  predicate Increasing(edges: seq<real>)
  {
    forall i, j :: 0 <= i < j < |edges| ==> edges[i] < edges[j]
  }

  /** `pd.cut(x, bins=edges, labels=labels)` with its defaults: right-closed bins `(e_k, e_k+1]`
      and `include_lowest=False`, so a value at or below the first edge, or above the last, gets
      no label (NaN). */
  function Cut<L>(x: real, edges: seq<real>, labels: seq<L>): Option<L>
    requires |labels| + 1 == |edges|
    decreases |labels|
  {
    if |labels| == 0 then None
    else if edges[0] < x <= edges[1] then Some(labels[0])
    else Cut(x, edges[1..], labels[1..])
  }

  /** The label `Cut` gives is the one whose bin holds `x`. */
  lemma {:induction false} CutFindsBin<L>(x: real, edges: seq<real>, labels: seq<L>, k: int)
    requires |labels| + 1 == |edges| && Increasing(edges)
    requires 0 <= k < |labels| && edges[k] < x <= edges[k + 1]
    ensures Cut(x, edges, labels) == Some(labels[k])
    decreases |labels|
  {
    if k > 0 {
      assert !(edges[0] < x <= edges[1]) by {
        assert edges[1] <= edges[k];
      }
      CutFindsBin(x, edges[1..], labels[1..], k - 1);
    }
  }

  /** Outside `(first edge, last edge]` there is no label. */
  lemma {:induction false} CutOutside<L>(x: real, edges: seq<real>, labels: seq<L>)
    requires |labels| + 1 == |edges| && Increasing(edges)
    requires x <= edges[0] || x > edges[|edges| - 1]
    ensures Cut(x, edges, labels) == None
    decreases |labels|
  {
    if |labels| > 0 {
      assert edges[0] < edges[1] && edges[1] <= edges[|edges| - 1];
      CutOutside(x, edges[1..], labels[1..]);
    }
  }

  const TierEdges: seq<real> := [0.0, 0.3, 0.6, 1.0]

  /** The `risk_level` of one probability. */
  function RiskTierOf(p: real): Option<RiskTier>
  {
    Cut(p, TierEdges, [Low, Medium, High])
  }

  /** The three bins, closed on the right; 0 and anything outside (0, 1] get no tier. */
  lemma RiskTierBins(p: real)
    ensures RiskTierOf(p) == Some(Low) <==> 0.0 < p <= 0.3
    ensures RiskTierOf(p) == Some(Medium) <==> 0.3 < p <= 0.6
    ensures RiskTierOf(p) == Some(High) <==> 0.6 < p <= 1.0
    ensures RiskTierOf(p) == None <==> p <= 0.0 || p > 1.0
  {
    var labels := [Low, Medium, High];
    assert Increasing(TierEdges);
    if 0.0 < p <= 0.3 {
      CutFindsBin(p, TierEdges, labels, 0);
    } else if 0.3 < p <= 0.6 {
      CutFindsBin(p, TierEdges, labels, 1);
    } else if 0.6 < p <= 1.0 {
      CutFindsBin(p, TierEdges, labels, 2);
    } else {
      CutOutside(p, TierEdges, labels);
    }
  }

  /** A probability of exactly zero falls in no bin: it is not `Low`. */
  lemma ZeroHasNoTier()
    ensures RiskTierOf(0.0) == None
  {
    RiskTierBins(0.0);
  }

  /** A higher probability never gets a lower tier. */
  lemma RiskTierMonotone(p: real, q: real)
    requires p <= q
    requires RiskTierOf(p).Some? && RiskTierOf(q).Some?
    ensures TierRank(RiskTierOf(p).value) <= TierRank(RiskTierOf(q).value)
  {
    RiskTierBins(p);
    RiskTierBins(q);
  }

  // ---------------------------------------------------------------------------------------------
  // Model state, loading and scoring

  /** Opaque contents of the two artifact files. */
  datatype ModelBlob = ModelBlob(id: nat)
  datatype ScalerBlob = ScalerBlob(id: nat)

  /** A `ChurnPredictor`'s fitted state: no model until one is trained or loaded, and an unfitted
      scaler (`None`) until then. */
  datatype Predictor = Predictor(model: Option<ModelBlob>, scaler: Option<ScalerBlob>)

  /** What is on disk at the two fixed artifact paths; `None` when the path does not exist. */
  datatype Artifacts = Artifacts(model: Option<ModelBlob>, scaler: Option<ScalerBlob>)

  function NewPredictor(): Predictor
  {
    Predictor(None, None)
  }

  /** `load_model`: the new state and the returned flag. */
  function LoadModel(p: Predictor, disk: Artifacts): (r: (Predictor, bool))
    ensures r.1 <==> disk.model.Some? && disk.scaler.Some?
    ensures r.1 ==> r.0.model == disk.model && r.0.scaler == disk.scaler
    ensures !r.1 ==> r.0 == p
  {
    if disk.model.Some? && disk.scaler.Some? then (Predictor(disk.model, disk.scaler), true)
    else (p, false)
  }

  type Probability = r: real | 0.0 <= r <= 1.0

  /** What the fitted classifier says about one scaled feature row: `predict_proba(...)[:, 1]` and,
      from a separate call, `predict(...)`. */
  datatype Verdict = Verdict(proba: Probability, churns: bool)

  /** The fitted scaler followed by the fitted classifier. */
  type Classifier = (ModelBlob, ScalerBlob, seq<real>) -> Verdict

  /** A classifier whose `predict` agrees with its probability away from the tie at 0.5. Which
      class a tie gets depends on the scikit-learn version, so nothing here fixes it. */
  ghost predicate Calibrated(classify: Classifier)
  {
    forall m, sc, v :: Agrees(classify(m, sc, v))
  }

  predicate Agrees(w: Verdict)
  {
    (w.proba > 0.5 ==> w.churns) && (w.proba < 0.5 ==> !w.churns)
  }

  datatype PredictError =
    | DataError(cause: FrameError)   // a missing column or text where a number is needed
    | NotTrained                     // unfitted scaler, or no model to call
    | NoSamples                      // scikit-learn refuses an empty feature matrix
    | InvalidFeatures                // text `float()` rejects, infinity or NaN among the features

  predicate AllNumbers(v: seq<Cell>)
  {
    forall k :: 0 <= k < |v| ==> v[k].Num?
  }

  /** A cell `float()` can produce: a number, an infinity or NaN. */
  type FloatCell = c: Cell | !c.Text? witness Num(0.0)

  /** Python's `float()` on a string: the value it spells (`"120"`, `" 1e3 "`, `"inf"`, `"nan"`),
      or `None` where it raises `ValueError`. */
  type FloatParser = string -> Option<FloatCell>

  /** The scaler's cast of one feature to float64: text goes through `float()`. Text that does
      not parse stays text, which the scaler's check then rejects. */
  function AsFloat(c: Cell, toFloat: FloatParser): (r: Cell)
    ensures r.Text? <==> c.Text? && toFloat(c.s).None?
  {
    match c
    case Text(s) => (match toFloat(s) case Some(v) => v case None => c)
    case _ => c
  }

  function AsFloatRow(v: seq<Cell>, toFloat: FloatParser): (r: seq<Cell>)
    ensures |r| == |v| && forall k :: 0 <= k < |v| ==> r[k] == AsFloat(v[k], toFloat)
  {
    seq(|v|, k requires 0 <= k < |v| => AsFloat(v[k], toFloat))
  }

  /** The feature matrix as the scaler sees it once cast to float64. */
  function AsFloatMatrix(x: seq<seq<Cell>>, toFloat: FloatParser): (r: seq<seq<Cell>>)
    ensures |r| == |x| && forall i :: 0 <= i < |x| ==> r[i] == AsFloatRow(x[i], toFloat)
  {
    seq(|x|, i requires 0 <= i < |x| => AsFloatRow(x[i], toFloat))
  }

  /** Some feature is text or infinite: the scaler's input check rejects it. */
  predicate AnyTextOrInf(x: seq<seq<Cell>>)
  {
    exists i, k :: 0 <= i < |x| && 0 <= k < |x[i]| && (x[i][k].Text? || x[i][k].Inf?)
  }

  /** Some feature is NaN: the scaler lets it through, the classifier rejects it. */
  predicate AnyNull(x: seq<seq<Cell>>)
  {
    exists i, k :: 0 <= i < |x| && 0 <= k < |x[i]| && x[i][k].Null?
  }

  lemma CleanMatrixIsNumeric(x: seq<seq<Cell>>)
    requires !AnyTextOrInf(x) && !AnyNull(x)
    ensures forall i :: 0 <= i < |x| ==> AllNumbers(x[i])
  {
    forall i, k | 0 <= i < |x| && 0 <= k < |x[i]|
      ensures x[i][k].Num?
    {
      assert !(x[i][k].Text? || x[i][k].Inf?) && !x[i][k].Null?;
    }
  }

  function Numbers(v: seq<Cell>): (r: seq<real>)
    requires AllNumbers(v)
    ensures |r| == |v| && forall k :: 0 <= k < |v| ==> v[k] == Num(r[k])
  {
    seq(|v|, k requires 0 <= k < |v| => v[k].v)
  }

  /** `churn_prediction`: the class `predict` returned, as a number. */
  function PredictionCell(churns: bool): Cell
  {
    if churns then Num(1.0) else Num(0.0)
  }

  function TierCell(p: real): Cell
  {
    match RiskTierOf(p)
    case Some(t) => Text(TierLabel(t))
    case None => Null
  }

  /** The state `predict` works with: it loads the artifacts first when no model is resident,
      ignoring whether that succeeded. */
  function ResidentState(p: Predictor, disk: Artifacts): Predictor
  {
    if p.model.None? then LoadModel(p, disk).0 else p
  }

  const OutputColumns: seq<string> := [ChurnProbability, ChurnPrediction, RiskLevel]

  /** The three output columns attached to a copy of the caller's frame. */
  function AttachScores(data: Frame, verdicts: seq<Verdict>): (out: Frame)
    requires |verdicts| == |data.rows|
    ensures |out.rows| == |data.rows|
    ensures forall c :: c in out.columns <==> c in data.columns || c in OutputColumns
    ensures forall i, c :: 0 <= i < |out.rows| && c !in OutputColumns ==> Get(out.rows[i], c) == Get(data.rows[i], c)
    ensures forall i :: 0 <= i < |out.rows| ==>
      out.rows[i].Keys == data.rows[i].Keys + {ChurnProbability, ChurnPrediction, RiskLevel}
    ensures forall i :: 0 <= i < |out.rows| ==>
      && Get(out.rows[i], ChurnProbability) == Num(verdicts[i].proba)
      && Get(out.rows[i], ChurnPrediction) == (if verdicts[i].churns then Num(1.0) else Num(0.0))
      && Get(out.rows[i], RiskLevel) == TierCell(verdicts[i].proba)
  {
    var n := |verdicts|;
    var r1 := Assign(data, ChurnProbability, seq(n, i requires 0 <= i < n => Num(verdicts[i].proba)));
    var r2 := Assign(r1, ChurnPrediction, seq(n, i requires 0 <= i < n => PredictionCell(verdicts[i].churns)));
    Assign(r2, RiskLevel, seq(n, i requires 0 <= i < n => TierCell(verdicts[i].proba)))
  }

  /** `predict_proba(X_scaled)` and `predict(X_scaled)`, one verdict per feature row. */
  function ScoreRows(x: seq<seq<Cell>>, m: ModelBlob, sc: ScalerBlob, classify: Classifier): (verdicts: seq<Verdict>)
    requires forall i :: 0 <= i < |x| ==> AllNumbers(x[i])
    ensures |verdicts| == |x|
    ensures forall i :: 0 <= i < |x| ==> verdicts[i] == classify(m, sc, Numbers(x[i]))
  {
    seq(|x|, i requires 0 <= i < |x| => classify(m, sc, Numbers(x[i])))
  }

  /** `predict`: the predictor's state afterwards, and either the caller's frame plus
      `churn_probability`, `churn_prediction` and `risk_level` or the error that stopped it. The
      artifacts are loaded before anything can fail, so a failed call may still leave a model
      resident. */
  function Predict(p: Predictor, disk: Artifacts, data: Frame, classify: Classifier, toFloat: FloatParser)
    : (r: (Predictor, Result<Frame, PredictError>))
    ensures p.model.Some? ==> r.0 == p
    ensures p.model.None? && disk.model.Some? && disk.scaler.Some? ==>
      r.0 == Predictor(disk.model, disk.scaler)
    ensures p.model.None? && (disk.model.None? || disk.scaler.None?) ==> r.0 == p
  {
    var q := ResidentState(p, disk);
    match FeatureMatrix(data)
    case Err(e) => (q, Err(DataError(e)))
    case Ok(features) =>
      var x := AsFloatMatrix(features, toFloat);
      if q.scaler.None? then (q, Err(NotTrained))
      else if |x| == 0 then (q, Err(NoSamples))
      else if AnyTextOrInf(x) then (q, Err(InvalidFeatures))
      else if q.model.None? then (q, Err(NotTrained))
      else if AnyNull(x) then (q, Err(InvalidFeatures))
      else
        assert forall i :: 0 <= i < |x| ==> AllNumbers(x[i]) by {
          CleanMatrixIsNumeric(x);
        }
        var verdicts := ScoreRows(x, q.model.value, q.scaler.value, classify);
        assert |verdicts| == |data.rows|;
        (q, Ok(AttachScores(data, verdicts)))
  }

  /** What a successful `predict` returns: the same rows with every original cell kept, the three
      new columns (and not the derived features), and for each row the classifier's probability on
      that row's derived feature vector, its predicted class and its tier. */
  lemma PredictResult(p: Predictor, disk: Artifacts, data: Frame, classify: Classifier, toFloat: FloatParser)
    requires Predict(p, disk, data, classify, toFloat).1.Ok?
    ensures var (q, res) := Predict(p, disk, data, classify, toFloat);
      var out := res.value;
      && q.model.Some? && q.scaler.Some?
      && |out.rows| == |data.rows| > 0
      && (forall c :: c in out.columns <==> c in data.columns || c in OutputColumns)
      && (forall i, c :: 0 <= i < |out.rows| && c !in OutputColumns ==> Get(out.rows[i], c) == Get(data.rows[i], c))
      && (forall i :: 0 <= i < |out.rows| ==> out.rows[i].Keys == data.rows[i].Keys + {ChurnProbability, ChurnPrediction, RiskLevel})
      && FeatureMatrix(data).Ok?
      && (forall i :: 0 <= i < |out.rows| ==>
            var v := AsFloatRow(FeatureMatrix(data).value[i], toFloat);
            && AllNumbers(v)
            && var w := classify(q.model.value, q.scaler.value, Numbers(v));
            && Get(out.rows[i], ChurnProbability) == Num(w.proba)
            && Get(out.rows[i], ChurnPrediction) == (if w.churns then Num(1.0) else Num(0.0))
            && Get(out.rows[i], RiskLevel) == TierCell(w.proba))
  {
    var q := ResidentState(p, disk);
    var x := AsFloatMatrix(FeatureMatrix(data).value, toFloat);
    CleanMatrixIsNumeric(x);
    var verdicts := ScoreRows(x, q.model.value, q.scaler.value, classify);
    var out := AttachScores(data, verdicts);
    assert Predict(p, disk, data, classify, toFloat) == (q, Ok(out));
  }

  /** With a classifier whose `predict` agrees with its probability, a row is predicted to churn
      when its probability is above 0.5 and not to churn when it is below; a tie is left open. */
  lemma PredictionFollowsProbability(p: Predictor, disk: Artifacts, data: Frame, classify: Classifier, toFloat: FloatParser)
    requires Predict(p, disk, data, classify, toFloat).1.Ok?
    requires Calibrated(classify)
    ensures var out := Predict(p, disk, data, classify, toFloat).1.value;
      forall i :: 0 <= i < |out.rows| ==>
        var prob := Get(out.rows[i], ChurnProbability);
        && prob.Num?
        && (prob.v > 0.5 ==> Get(out.rows[i], ChurnPrediction) == Num(1.0))
        && (prob.v < 0.5 ==> Get(out.rows[i], ChurnPrediction) == Num(0.0))
  {
    PredictResult(p, disk, data, classify, toFloat);
    var (q, res) := Predict(p, disk, data, classify, toFloat);
    var out := res.value;
    forall i | 0 <= i < |out.rows|
      ensures var prob := Get(out.rows[i], ChurnProbability);
        && prob.Num?
        && (prob.v > 0.5 ==> Get(out.rows[i], ChurnPrediction) == Num(1.0))
        && (prob.v < 0.5 ==> Get(out.rows[i], ChurnPrediction) == Num(0.0))
    {
      var w := classify(q.model.value, q.scaler.value, Numbers(AsFloatRow(FeatureMatrix(data).value[i], toFloat)));
      assert Agrees(w);
    }
  }

  /** With a fitted model and at least one row of usable data, `predict` succeeds exactly when
      every feature is, or is text that `float()` turns into, a finite number; otherwise it reports
      `InvalidFeatures`. So a feature such as `call_minutes = "120"` is scored as 120. */
  lemma FittedPredictOutcome(p: Predictor, disk: Artifacts, data: Frame, classify: Classifier, toFloat: FloatParser)
    requires p.model.Some? && p.scaler.Some?
    requires FeatureMatrix(data).Ok? && |data.rows| > 0
    ensures var x := FeatureMatrix(data).value;
      Predict(p, disk, data, classify, toFloat).1.Ok? <==>
        forall i, k :: 0 <= i < |x| && 0 <= k < |x[i]| ==> AsFloat(x[i][k], toFloat).Num?
    ensures !Predict(p, disk, data, classify, toFloat).1.Ok? ==>
      Predict(p, disk, data, classify, toFloat).1 == Err(InvalidFeatures)
  {
    var x := FeatureMatrix(data).value;
    CastMatrixClean(x, toFloat);
    var r := Predict(p, disk, data, classify, toFloat).1;
    if !AnyTextOrInf(AsFloatMatrix(x, toFloat)) && !AnyNull(AsFloatMatrix(x, toFloat)) {
      assert r.Ok?;
    } else {
      assert r == Err(InvalidFeatures);
    }
  }

  /** The cast matrix passes both input checks exactly when every cast feature is a number. */
  lemma CastMatrixClean(x: seq<seq<Cell>>, toFloat: FloatParser)
    ensures var y := AsFloatMatrix(x, toFloat);
      !AnyTextOrInf(y) && !AnyNull(y) <==>
        forall i, k :: 0 <= i < |x| && 0 <= k < |x[i]| ==> AsFloat(x[i][k], toFloat).Num?
  {
    var y: seq<seq<Cell>> := AsFloatMatrix(x, toFloat);
    if forall i, k :: 0 <= i < |x| && 0 <= k < |x[i]| ==> AsFloat(x[i][k], toFloat).Num? {
      forall i: int, k: int | 0 <= i < |y| && 0 <= k < |y[i]|
        ensures y[i][k].Num?
      {
        assert y[i][k] == AsFloat(x[i][k], toFloat);
      }
    } else {
      var i, k :| 0 <= i < |x| && 0 <= k < |x[i]| && !AsFloat(x[i][k], toFloat).Num?;
      assert y[i][k] == AsFloat(x[i][k], toFloat);
    }
  }

  /** With no model in memory and no complete pair of artifacts on disk, `predict` never returns
      rows, and the predictor stays as it was. */
  lemma PredictNeedsModel(p: Predictor, disk: Artifacts, data: Frame, classify: Classifier, toFloat: FloatParser)
    requires p.model.None?
    requires disk.model.None? || disk.scaler.None?
    ensures Predict(p, disk, data, classify, toFloat).1.Err?
    ensures Predict(p, disk, data, classify, toFloat).0 == p
  {
  }

  /** Scoring a fresh predictor with nothing on disk reports `NotTrained` once the data is usable. */
  lemma FreshPredictorNotTrained(disk: Artifacts, data: Frame, classify: Classifier, toFloat: FloatParser)
    requires disk.model.None? || disk.scaler.None?
    requires FeatureMatrix(data).Ok?
    ensures Predict(NewPredictor(), disk, data, classify, toFloat) == (NewPredictor(), Err(NotTrained))
  {
  }

  /** A row lands in the `risk_level` bin of its probability; a probability of 0 leaves it NaN. */
  lemma TierCellBins(p: real)
    ensures TierCell(p) == Text("Low") <==> 0.0 < p <= 0.3
    ensures TierCell(p) == Text("Medium") <==> 0.3 < p <= 0.6
    ensures TierCell(p) == Text("High") <==> 0.6 < p <= 1.0
    ensures TierCell(p) == Null <==> p <= 0.0 || p > 1.0
  {
    RiskTierBins(p);
  }

  // ---------------------------------------------------------------------------------------------
  // Feature importance

  function Zip(names: seq<string>, values: seq<real>): (r: seq<(string, real)>)
    ensures |r| == if |names| <= |values| then |names| else |values|
    ensures forall k :: 0 <= k < |r| ==> r[k] == (names[k], values[k])
  {
    if |names| == 0 || |values| == 0 then [] else [(names[0], values[0])] + Zip(names[1..], values[1..])
  }

  function Importance(e: (string, real)): real
  {
    e.1
  }

  /** `get_feature_importance`: `{}` without a model, otherwise the (feature, importance) pairs
      sorted by importance, highest first. `importances` is the model's `feature_importances_`. */
  function FeatureImportance(p: Predictor, importances: ModelBlob -> seq<real>): seq<(string, real)>
  {
    if p.model.None? then []
    else StableSort.SortDescending(Zip(AllFeatures, importances(p.model.value)), Importance)
  }

  /** Empty exactly without a model; otherwise a reordering of `zip(all_features, importances)`
      in non-increasing importance order, ties kept in feature order. */
  lemma FeatureImportanceSpec(p: Predictor, importances: ModelBlob -> seq<real>, v: real)
    ensures p.model.None? ==> FeatureImportance(p, importances) == []
    ensures p.model.Some? ==>
      var pairs := Zip(AllFeatures, importances(p.model.value));
      var r := FeatureImportance(p, importances);
      && multiset(r) == multiset(pairs)
      && StableSort.NonIncreasing(r, Importance)
      && StableSort.WithKey(r, Importance, v) == StableSort.WithKey(pairs, Importance, v)
      && (|importances(p.model.value)| >= 10 ==> |r| == 10)
  {
    if p.model.Some? {
      var pairs := Zip(AllFeatures, importances(p.model.value));
      StableSort.SortedPermutes(pairs, Importance);
      StableSort.SortedOrder(pairs, Importance);
      StableSort.SortedStable(pairs, Importance, v);
    }
  }
}
