/**
 * The summary generator `generer_resume`: an overview that is always
 * present, then the best-scoring department, the financial position over
 * the latest 30 days and a count of the alerts, each when its data exists.
 */
module Summary {
  import opened Tables
  import opened Seqs
  import opened Numbers
  import opened DailyWindow
  import opened Alerts

  /** One summary item; its constructor determines its `titre`. */
  datatype SummaryItem =
    | Overview(totalPatients: nat, hospitalised: nat, meanOccupancy: Option<real>, meanRecovery: Option<real>)
    | BestDepartment(name: string, recovery: real, occupancy: real)
    | Financial(revenue: int, expenses: int, isProfit: bool, amount: nat)
    | Attention(critical: nat, warnings: nat)

  const OverviewTitle: string := "Vue d'ensemble"
  const BestTitle: string := "Département le plus performant"
  const FinancialTitle: string := "Situation financière"
  const AttentionTitle: string := "Points d'attention"

  function Title(item: SummaryItem): string
  {
    match item
    case Overview(_, _, _, _) => OverviewTitle
    case BestDepartment(_, _, _) => BestTitle
    case Financial(_, _, _, _) => FinancialTitle
    case Attention(_, _) => AttentionTitle
  }

  /** Position of an item's kind in the order the generator emits them. */
  function Rank(item: SummaryItem): nat
  {
    match item
    case Overview(_, _, _, _) => 0
    case BestDepartment(_, _, _) => 1
    case Financial(_, _, _, _) => 2
    case Attention(_, _) => 3
  }

  // ---------------------------------------------------------------------------
  // The figures
  // ---------------------------------------------------------------------------

  /** `column.mean()`; the mean of an empty column is NaN, modelled as no value. */
  function Mean<T>(s: seq<T>, f: T -> real): Option<real>
  {
    if s == [] then None else Some(SumReal(s, f) / |s| as real)
  }

  /** `tauxRetablissement * 0.6 + (1 - tauxOccupation) * 0.4`. */
  function Score(d: DepartmentRow): real
  {
    d.recovery * 0.6 + (1.0 - d.occupancy) * 0.4
  }

  /** `score.idxmax()`: the first row with the highest score. */
  function BestIndex(ds: seq<DepartmentRow>): (k: nat)
    requires |ds| > 0
    ensures k < |ds|
    ensures forall j | 0 <= j < |ds| :: Score(ds[j]) <= Score(ds[k])
    ensures forall j | 0 <= j < k :: Score(ds[j]) < Score(ds[k])
    decreases |ds|
  {
    if |ds| == 1 then 0
    else
      var k := BestIndex(ds[..|ds| - 1]);
      assert forall j | 0 <= j < |ds| - 1 :: ds[..|ds| - 1][j] == ds[j];
      if Score(ds[|ds| - 1]) > Score(ds[k]) then |ds| - 1 else k
  }

  function OverviewOf(ds: seq<DepartmentRow>, patients: seq<PatientRow>): SummaryItem
  {
    Overview(|patients|, Count(patients, (p: PatientRow) => p.hospitalised),
             Mean(ds, (d: DepartmentRow) => d.occupancy), Mean(ds, (d: DepartmentRow) => d.recovery))
  }

  function BestOf(ds: seq<DepartmentRow>): seq<SummaryItem>
  {
    if ds != [] then
      var best := ds[BestIndex(ds)];
      [BestDepartment(best.name, best.recovery, best.occupancy)]
    else []
  }

  /** The financial item for given revenue and expenses totals. */
  function FinancialOf(revenue: int, expenses: int): SummaryItem
  {
    var profit := revenue - expenses;
    Financial(revenue, expenses, profit >= 0, if profit >= 0 then profit else -profit)
  }

  function FinanceSection(daily: seq<DailyRow>): seq<SummaryItem>
  {
    if |daily| >= MonthDays then
      var month := Latest(daily, MonthDays);
      [FinancialOf(Revenue(month), Expenses(month))]
    else []
  }

  function AttentionOf(alerts: seq<Alert>): seq<SummaryItem>
  {
    if alerts != [] then [Attention(Count(alerts, IsCritical), Count(alerts, IsWarning))] else []
  }

  /** `generer_resume` as a function of its inputs. */
  function SummaryOf(ds: seq<DepartmentRow>, patients: seq<PatientRow>, daily: seq<DailyRow>,
                     alerts: seq<Alert>): seq<SummaryItem>
  {
    [OverviewOf(ds, patients)] + BestOf(ds) + FinanceSection(daily) + AttentionOf(alerts)
  }

  // ---------------------------------------------------------------------------
  // The generator
  // ---------------------------------------------------------------------------

  /** `generer_resume(departements, patients, quotidien, alertes)`. */
  method GenerateSummary(departements: seq<DepartmentRow>, patients: seq<PatientRow>,
                         quotidien: seq<DailyRow>, alertes: seq<Alert>)
    returns (r: seq<SummaryItem>)
    ensures r == SummaryOf(departements, patients, quotidien, alertes)
  {
    var totalPatients := |patients|;
    var patientsHospitalises := Count(patients, (p: PatientRow) => p.hospitalised);
    var tauxOccupationMoyen := Mean(departements, (d: DepartmentRow) => d.occupancy);
    var tauxRetablissementMoyen := Mean(departements, (d: DepartmentRow) => d.recovery);
    var resume := [Overview(totalPatients, patientsHospitalises, tauxOccupationMoyen, tauxRetablissementMoyen)];
    ghost var done := [OverviewOf(departements, patients)];
    assert resume == done;

    if departements != [] {
      var meilleurDept := departements[BestIndex(departements)];
      resume := resume + [BestDepartment(meilleurDept.name, meilleurDept.recovery, meilleurDept.occupancy)];
    }
    AppendEmpty(done);
    done := done + BestOf(departements);
    assert resume == done;

    if |quotidien| >= MonthDays {
      var dernierMois := Latest(quotidien, MonthDays);
      var revenusTotal := Revenue(dernierMois);
      var depensesTotal := Expenses(dernierMois);
      var profit := revenusTotal - depensesTotal;
      resume := resume + [Financial(revenusTotal, depensesTotal, profit >= 0, if profit >= 0 then profit else -profit)];
    }
    AppendEmpty(done);
    done := done + FinanceSection(quotidien);
    assert resume == done;

    if alertes != [] {
      var alertesCritiques := Count(alertes, IsCritical);
      var alertesAvertissement := Count(alertes, IsWarning);
      resume := resume + [Attention(alertesCritiques, alertesAvertissement)];
    }
    AppendEmpty(done);
    r := resume;
  }

  // ---------------------------------------------------------------------------
  // Properties
  // ---------------------------------------------------------------------------

  /** `r` holds at most one item per kind, of the kinds ranked `lo` to `hi - 1` only, in order. */
  predicate InOrder(r: seq<SummaryItem>, lo: nat, hi: nat)
  {
    && |r| <= hi - lo
    && (forall i | 0 <= i < |r| :: lo <= Rank(r[i]) < hi)
    && (forall i, j | 0 <= i < j < |r| :: Rank(r[i]) < Rank(r[j]))
  }

  lemma JoinInOrder(a: seq<SummaryItem>, b: seq<SummaryItem>, lo: nat, mid: nat, hi: nat)
    requires lo <= mid <= hi
    requires InOrder(a, lo, mid) && InOrder(b, mid, hi)
    ensures InOrder(a + b, lo, hi)
  {
    assert forall i | |a| <= i < |a + b| :: (a + b)[i] == b[i - |a|];
  }

  /** Some item of `r` is of the kind ranked `rank`. */
  predicate Has(r: seq<SummaryItem>, rank: nat)
  {
    exists i | 0 <= i < |r| :: Rank(r[i]) == rank
  }

  /** A kind occurs in `a + b` exactly when it occurs in `a` or in `b`. */
  lemma HasJoin(a: seq<SummaryItem>, b: seq<SummaryItem>, rank: nat)
    ensures Has(a + b, rank) <==> Has(a, rank) || Has(b, rank)
  {
    if Has(a + b, rank) {
      var i :| 0 <= i < |a + b| && Rank((a + b)[i]) == rank;
      if i >= |a| {
        assert Rank(b[i - |a|]) == rank;
      }
    }
    if Has(b, rank) {
      var i :| 0 <= i < |b| && Rank(b[i]) == rank;
      assert (a + b)[|a| + i] == b[i];
    }
    if Has(a, rank) {
      var i :| 0 <= i < |a| && Rank(a[i]) == rank;
      assert (a + b)[i] == a[i];
    }
  }

  lemma SectionsShape(ds: seq<DepartmentRow>, daily: seq<DailyRow>, alerts: seq<Alert>)
    ensures InOrder(BestOf(ds), 1, 2) && (Has(BestOf(ds), 1) <==> ds != [])
    ensures InOrder(FinanceSection(daily), 2, 3) && (Has(FinanceSection(daily), 2) <==> |daily| >= MonthDays)
    ensures InOrder(AttentionOf(alerts), 3, 4) && (Has(AttentionOf(alerts), 3) <==> alerts != [])
  {
    if ds != [] {
      assert Rank(BestOf(ds)[0]) == 1;
    }
    if |daily| >= MonthDays {
      assert Rank(FinanceSection(daily)[0]) == 2;
    }
    if alerts != [] {
      assert Rank(AttentionOf(alerts)[0]) == 3;
    }
  }

  /**
   * The overview comes first and is always there; each other item is present
   * exactly when its data is (departments, a month of daily rows, alerts),
   * and the items keep the fixed order, one of each kind at most.
   */
  lemma SummaryLayout(ds: seq<DepartmentRow>, patients: seq<PatientRow>, daily: seq<DailyRow>, alerts: seq<Alert>)
    ensures var r := SummaryOf(ds, patients, daily, alerts);
      && 1 <= |r| <= 4
      && r[0].Overview?
      && (forall i, j | 0 <= i < j < |r| :: Rank(r[i]) < Rank(r[j]))
      && (Has(r, 1) <==> ds != [])
      && (Has(r, 2) <==> |daily| >= MonthDays)
      && (Has(r, 3) <==> alerts != [])
  {
    var o := [OverviewOf(ds, patients)];
    var b, f, a := BestOf(ds), FinanceSection(daily), AttentionOf(alerts);
    SectionsShape(ds, daily, alerts);
    assert InOrder(o, 0, 1);
    JoinInOrder(o, b, 0, 1, 2);
    JoinInOrder(o + b, f, 0, 2, 3);
    JoinInOrder(o + b + f, a, 0, 3, 4);
    assert !Has(o, 1) && !Has(o, 2) && !Has(o, 3);
    HasJoin(o, b, 1); HasJoin(o, b, 2); HasJoin(o, b, 3);
    HasJoin(o + b, f, 1); HasJoin(o + b, f, 2); HasJoin(o + b, f, 3);
    HasJoin(o + b + f, a, 1); HasJoin(o + b + f, a, 2); HasJoin(o + b + f, a, 3);
    assert !Has(b, 2) && !Has(b, 3) && !Has(f, 1) && !Has(f, 3) && !Has(a, 1) && !Has(a, 2);
  }

  /** The item titles are distinct, so a title tells the kind of its item. */
  lemma TitlesDistinct(a: SummaryItem, b: SummaryItem)
    ensures Title(a) == Title(b) <==> Rank(a) == Rank(b)
  {
  }

  /** The overview counts every patient and, among them, the hospitalised ones. */
  lemma OverviewCounts(ds: seq<DepartmentRow>, patients: seq<PatientRow>)
    ensures var o := OverviewOf(ds, patients);
      && o.totalPatients == |patients|
      && o.hospitalised <= o.totalPatients
      && o.hospitalised == Count(patients, (p: PatientRow) => p.hospitalised)
      && (o.hospitalised == o.totalPatients <==> forall i | 0 <= i < |patients| :: patients[i].hospitalised)
      && (o.meanOccupancy.None? <==> ds == []) && (o.meanRecovery.None? <==> ds == [])
  {
    var inside := Filter(patients, (p: PatientRow) => p.hospitalised);
    if |inside| == |patients| {
      forall i | 0 <= i < |patients| ensures patients[i].hospitalised {
        if !patients[i].hospitalised {
          FilterDrops(patients, (p: PatientRow) => p.hospitalised, i);
        }
      }
    } else if forall i | 0 <= i < |patients| :: patients[i].hospitalised {
      assert forall x | x in patients :: x.hospitalised;
      FilterAll(patients, (p: PatientRow) => p.hospitalised);
    }
  }

  /** Dropping a row that fails the filter leaves fewer rows than the table has. */
  lemma {:induction false} FilterDrops<T>(s: seq<T>, p: T -> bool, i: nat)
    requires i < |s| && !p(s[i])
    ensures |Filter(s, p)| < |s|
  {
    if i == 0 {
      assert |Filter(s[1..], p)| <= |s[1..]|;
    } else {
      FilterDrops(s[1..], p, i - 1);
    }
  }

  /** A mean lies within any bounds its column lies in. */
  lemma MeanBounds<T>(s: seq<T>, f: T -> real, lo: real, hi: real)
    requires forall i | 0 <= i < |s| :: lo <= f(s[i]) <= hi
    ensures Mean(s, f).Some? ==> lo <= Mean(s, f).value <= hi
  {
    if s != [] {
      SumRealBounds(s, f, lo, hi);
      RatioAbove(SumReal(s, f), |s| as real, hi);
      RatioBelow(SumReal(s, f), |s| as real, lo);
    }
  }

  /**
   * The department shown as best has the highest score of all rows, and
   * every row before it scores strictly less (the first maximum wins).
   */
  lemma BestIsFirstHighest(ds: seq<DepartmentRow>)
    ensures |BestOf(ds)| == (if ds == [] then 0 else 1)
    ensures forall b | b in BestOf(ds) ::
      exists k | 0 <= k < |ds| ::
        && b == BestDepartment(ds[k].name, ds[k].recovery, ds[k].occupancy)
        && (forall j | 0 <= j < |ds| :: Score(ds[j]) <= Score(ds[k]))
        && (forall j | 0 <= j < k :: Score(ds[j]) < Score(ds[k]))
  {
    if ds != [] {
      var k := BestIndex(ds);
      assert BestOf(ds) == [BestDepartment(ds[k].name, ds[k].recovery, ds[k].occupancy)];
    }
  }

  /**
   * The financial item reports a profit exactly when revenue covers
   * expenses, and the amount is the absolute difference.
   */
  lemma FinancialSign(revenue: int, expenses: int)
    ensures var f := FinancialOf(revenue, expenses);
      && (f.isProfit <==> revenue >= expenses)
      && (f.isProfit ==> f.amount == revenue - expenses)
      && (!f.isProfit ==> f.amount == expenses - revenue && f.amount > 0)
  {
  }

  /** Every alert is counted exactly once, as critical or as a warning. */
  lemma AttentionCountsAll(alerts: seq<Alert>)
    ensures forall a | a in AttentionOf(alerts) :: a.critical + a.warnings == |alerts|
  {
    CountComplement(alerts, IsCritical, IsWarning);
  }

  /**
   * Over alerts from `generer_alertes`, the attention item counts at most two
   * warnings, and every other alert as critical.
   */
  lemma AttentionOfGenerated(ds: seq<DepartmentRow>, daily: seq<DailyRow>)
    requires AlertsOf(ds, daily).Success?
    ensures forall a | a in AttentionOf(AlertsOf(ds, daily).value) ::
      a.warnings <= 2 && a.critical + a.warnings == |AlertsOf(ds, daily).value|
  {
    AlertsLayout(ds, daily);
    AttentionCountsAll(AlertsOf(ds, daily).value);
  }

  /**
   * The summary and the alert list agree on the month: the deficit warning
   * is raised exactly when the summary reports a loss, and the deficit it
   * reports is the summary's amount.
   */
  lemma DeficitMatchesLoss(daily: seq<DailyRow>)
    requires |daily| >= MonthDays
    ensures var f := FinanceSection(daily)[0];
      && (DeficitRule(daily) != [] <==> !f.isProfit)
      && (DeficitRule(daily) != [] ==> DeficitRule(daily)[0].message.deficit == f.amount)
  {
    DeficitThreshold(daily);
  }
}
