/**
 * The recommendation generator `generer_recommandations`.
 *
 * Four rules re-read the alert list: each looks for a keyword in the
 * lower-cased alert titles and, when some title has it, adds one
 * recommendation naming the departments of the matching alerts. Two rules
 * read the patients table: a mean stay above 10 days, and a department with
 * more than three times the patients of another.
 */
module Recommendations {
  import opened Tables
  import opened Seqs
  import opened Text
  import opened Alerts

  /** What each recommendation's message embeds. */
  datatype Advice =
    | AffectedDepartments(departments: seq<string>)
    | CostReview
    | ShorterStays(meanStay: real)
    | Rebalance(busiest: string, quietest: string)

  /** The six rules of the generator, in the order they run. */
  datatype Rule = CapacityPlan | RecoveryPlan | StaffPlan | FinancePlan | StayPlan | RebalancePlan

  /** A recommendation: the rule that emitted it (its title) and what its message embeds. */
  datatype Recommendation = Recommendation(rule: Rule, advice: Advice)

  const CapacityTitle: string := "Optimisation de la capacité d'accueil"
  const RecoveryPlanTitle: string := "Amélioration des taux de rétablissement"
  const StaffPlanTitle: string := "Optimisation des ressources humaines"
  const FinanceTitle: string := "Optimisation financière"
  const StayTitle: string := "Réduction de la durée d'hospitalisation"
  const RebalanceTitle: string := "Rééquilibrage des ressources entre départements"

  /** The `titre` each rule gives its recommendation. */
  function Title(rule: Rule): string
  {
    match rule
    case CapacityPlan => CapacityTitle
    case RecoveryPlan => RecoveryPlanTitle
    case StaffPlan => StaffPlanTitle
    case FinancePlan => FinanceTitle
    case StayPlan => StayTitle
    case RebalancePlan => RebalanceTitle
  }

  /** Position of a rule in the order the generator runs the rules. */
  function Rank(rule: Rule): nat
  {
    match rule
    case CapacityPlan => 0
    case RecoveryPlan => 1
    case StaffPlan => 2
    case FinancePlan => 3
    case StayPlan => 4
    case RebalancePlan => 5
  }

  const OccupancyKeywords: seq<string> := ["occupation"]
  const RecoveryKeywords: seq<string> := ["rétablissement"]
  const StaffKeywords: seq<string> := ["médecins", "personnel"]
  const FinanceKeywords: seq<string> := ["financier", "déficit"]

  const LongStayDays: real := 10.0
  const ImbalanceRatio: int := 3

  // ---------------------------------------------------------------------------
  // Rules over the alert list
  // ---------------------------------------------------------------------------

  /** Some keyword occurs in the lower-cased title (`k in a['titre'].lower()`). */
  predicate Mentions(a: Alert, keywords: seq<string>)
  {
    exists k | k in keywords :: Contains(Lower(a.title), k)
  }

  /** `[a for a in alertes if <keyword> in a['titre'].lower()]`. */
  function Matching(alerts: seq<Alert>, keywords: seq<string>): seq<Alert>
  {
    Filter(alerts, (a: Alert) => Mentions(a, keywords))
  }

  /** `[a['departement'] for a in <matching alerts>]`: in alert order, repeats kept. */
  function DepartmentsOf(alerts: seq<Alert>): seq<string>
  {
    Map(alerts, (a: Alert) => a.department)
  }

  function KeywordRule(alerts: seq<Alert>, keywords: seq<string>, rule: Rule): seq<Recommendation>
  {
    var matching := Matching(alerts, keywords);
    if matching != [] then [Recommendation(rule, AffectedDepartments(DepartmentsOf(matching)))] else []
  }

  function FinanceRule(alerts: seq<Alert>): seq<Recommendation>
  {
    if Matching(alerts, FinanceKeywords) != [] then [Recommendation(FinancePlan, CostReview)] else []
  }

  // ---------------------------------------------------------------------------
  // Rules over the patients table
  // ---------------------------------------------------------------------------

  /** `patients['dureeHospitalisation'].mean()`; an empty table has no mean (NaN). */
  function MeanStay(patients: seq<PatientRow>): Option<real>
  {
    if patients == [] then None
    else Some(Sum(patients, (p: PatientRow) => p.stay as int) as real / |patients| as real)
  }

  function StayRule(patients: seq<PatientRow>): seq<Recommendation>
  {
    var mean := MeanStay(patients);
    if mean.Some? && mean.value > LongStayDays then [Recommendation(StayPlan, ShorterStays(mean.value))] else []
  }

  /** The departments of the patients table, each once, in order of first appearance. */
  function Distinct(s: seq<string>): (r: seq<string>)
    ensures forall i, j | 0 <= i < j < |r| :: r[i] != r[j]
    ensures forall x :: x in r <==> x in s
    decreases |s|
  {
    if s == [] then []
    else
      var earlier := Distinct(s[..|s| - 1]);
      assert forall x :: x in s <==> x in s[..|s| - 1] || x == s[|s| - 1] by {
        assert s == s[..|s| - 1] + [s[|s| - 1]];
      }
      if s[|s| - 1] in earlier then earlier else earlier + [s[|s| - 1]]
  }

  function PatientDepartments(patients: seq<PatientRow>): seq<string>
  {
    Distinct(Map(patients, (p: PatientRow) => p.department))
  }

  /** One entry of `patients['departement'].value_counts()`. */
  function PatientCount(patients: seq<PatientRow>, dept: string): nat
  {
    Count(patients, (p: PatientRow) => p.department == dept)
  }

  /** `idxmax`: a department with the largest count, the first such one. */
  function Busiest(names: seq<string>, patients: seq<PatientRow>): (k: nat)
    requires |names| > 0
    ensures k < |names|
    ensures forall j | 0 <= j < |names| :: PatientCount(patients, names[j]) <= PatientCount(patients, names[k])
    decreases |names|
  {
    if |names| == 1 then 0
    else
      var k := Busiest(names[..|names| - 1], patients);
      assert forall j | 0 <= j < |names| - 1 :: names[..|names| - 1][j] == names[j];
      if PatientCount(patients, names[|names| - 1]) > PatientCount(patients, names[k]) then |names| - 1 else k
  }

  /** `idxmin`: a department with the smallest count, the first such one. */
  function Quietest(names: seq<string>, patients: seq<PatientRow>): (k: nat)
    requires |names| > 0
    ensures k < |names|
    ensures forall j | 0 <= j < |names| :: PatientCount(patients, names[k]) <= PatientCount(patients, names[j])
    decreases |names|
  {
    if |names| == 1 then 0
    else
      var k := Quietest(names[..|names| - 1], patients);
      assert forall j | 0 <= j < |names| - 1 :: names[..|names| - 1][j] == names[j];
      if PatientCount(patients, names[|names| - 1]) < PatientCount(patients, names[k]) then |names| - 1 else k
  }

  /** The rebalancing advice between the busiest and the quietest department. */
  function RebalanceBetween(patients: seq<PatientRow>, busiest: string, quietest: string): seq<Recommendation>
  {
    if PatientCount(patients, busiest) > ImbalanceRatio * PatientCount(patients, quietest)
    then [Recommendation(RebalancePlan, Rebalance(busiest, quietest))] else []
  }

  function RebalanceRule(patients: seq<PatientRow>): seq<Recommendation>
  {
    var names := PatientDepartments(patients);
    if |names| > 1
    then RebalanceBetween(patients, names[Busiest(names, patients)], names[Quietest(names, patients)])
    else []
  }

  /** The rules over the alert list, in the order the source runs them. */
  function AlertDriven(alerts: seq<Alert>): seq<Recommendation>
  {
    KeywordRule(alerts, OccupancyKeywords, CapacityPlan)
    + KeywordRule(alerts, RecoveryKeywords, RecoveryPlan)
    + KeywordRule(alerts, StaffKeywords, StaffPlan)
    + FinanceRule(alerts)
  }

  /** The rules over the patients table, in the order the source runs them. */
  function DataDriven(patients: seq<PatientRow>): seq<Recommendation>
  {
    StayRule(patients) + RebalanceRule(patients)
  }

  /** `generer_recommandations` as a function of its inputs. */
  function RecommendationsOf(patients: seq<PatientRow>, alerts: seq<Alert>): seq<Recommendation>
  {
    AlertDriven(alerts) + DataDriven(patients)
  }

  // ---------------------------------------------------------------------------
  // The generator
  // ---------------------------------------------------------------------------

  /** The alert-driven half of `generer_recommandations`. */
  method RecommendFromAlerts(alertes: seq<Alert>) returns (r: seq<Recommendation>)
    ensures r == AlertDriven(alertes)
  {
    var recommandations: seq<Recommendation> := [];

    var alertesOccupation := Matching(alertes, OccupancyKeywords);
    if alertesOccupation != [] {
      recommandations := recommandations
        + [Recommendation(CapacityPlan, AffectedDepartments(DepartmentsOf(alertesOccupation)))];
    }
    ghost var done := KeywordRule(alertes, OccupancyKeywords, CapacityPlan);
    assert recommandations == done;

    var alertesRetablissement := Matching(alertes, RecoveryKeywords);
    if alertesRetablissement != [] {
      recommandations := recommandations
        + [Recommendation(RecoveryPlan, AffectedDepartments(DepartmentsOf(alertesRetablissement)))];
    }
    AppendEmpty(done);
    done := done + KeywordRule(alertes, RecoveryKeywords, RecoveryPlan);
    assert recommandations == done;

    var alertesPersonnel := Matching(alertes, StaffKeywords);
    if alertesPersonnel != [] {
      recommandations := recommandations
        + [Recommendation(StaffPlan, AffectedDepartments(DepartmentsOf(alertesPersonnel)))];
    }
    AppendEmpty(done);
    done := done + KeywordRule(alertes, StaffKeywords, StaffPlan);
    assert recommandations == done;

    var alertesFinancieres := Matching(alertes, FinanceKeywords);
    if alertesFinancieres != [] {
      recommandations := recommandations + [Recommendation(FinancePlan, CostReview)];
    }
    AppendEmpty(done);
    r := recommandations;
  }

  /** The data-driven half of `generer_recommandations`. */
  method RecommendFromData(patients: seq<PatientRow>) returns (r: seq<Recommendation>)
    ensures r == DataDriven(patients)
  {
    var recommandations: seq<Recommendation> := [];

    var dureeMoyenne := MeanStay(patients);
    if dureeMoyenne.Some? && dureeMoyenne.value > LongStayDays {
      recommandations := recommandations + [Recommendation(StayPlan, ShorterStays(dureeMoyenne.value))];
    }
    assert recommandations == StayRule(patients);

    var deptCounts := PatientDepartments(patients);
    if |deptCounts| > 1 {
      var maxDept := deptCounts[Busiest(deptCounts, patients)];
      var minDept := deptCounts[Quietest(deptCounts, patients)];
      if PatientCount(patients, maxDept) > ImbalanceRatio * PatientCount(patients, minDept) {
        recommandations := recommandations + [Recommendation(RebalancePlan, Rebalance(maxDept, minDept))];
      }
      AppendEmpty(StayRule(patients));
      assert recommandations == StayRule(patients) + RebalanceBetween(patients, maxDept, minDept);
    }
    AppendEmpty(StayRule(patients));
    r := recommandations;
  }

  /**
   * `generer_recommandations(departements, patients, personnel, alertes)`:
   * the alert-driven recommendations, then the data-driven ones. The source
   * function never reads its departments or staff tables, so they are left
   * out here.
   */
  method GenerateRecommendations(patients: seq<PatientRow>, alertes: seq<Alert>)
    returns (r: seq<Recommendation>)
    ensures r == RecommendationsOf(patients, alertes)
  {
    var fromAlerts := RecommendFromAlerts(alertes);
    var fromData := RecommendFromData(patients);
    r := fromAlerts + fromData;
  }

  // ---------------------------------------------------------------------------
  // Properties
  // ---------------------------------------------------------------------------

  /** The six titles are distinct, so a recommendation's title tells its rule. */
  lemma TitlesDistinct(a: Rule, b: Rule)
    ensures Title(a) == Title(b) ==> a == b
  {
  }

  /**
   * `r` holds at most one recommendation per rule, from the rules ranked
   * `lo` to `hi - 1` only, in rule order.
   */
  predicate InRuleOrder(r: seq<Recommendation>, lo: nat, hi: nat)
  {
    && |r| <= hi - lo
    && (forall i | 0 <= i < |r| :: lo <= Rank(r[i].rule) < hi)
    && (forall i, j | 0 <= i < j < |r| :: Rank(r[i].rule) < Rank(r[j].rule))
  }

  lemma SingleRule(part: seq<Recommendation>, rule: Rule)
    requires |part| <= 1
    requires forall i | 0 <= i < |part| :: part[i].rule == rule
    ensures InRuleOrder(part, Rank(rule), Rank(rule) + 1)
  {
  }

  lemma JoinInOrder(a: seq<Recommendation>, b: seq<Recommendation>, lo: nat, mid: nat, hi: nat)
    requires lo <= mid <= hi
    requires InRuleOrder(a, lo, mid) && InRuleOrder(b, mid, hi)
    ensures InRuleOrder(a + b, lo, hi)
  {
    assert forall i | |a| <= i < |a + b| :: (a + b)[i] == b[i - |a|];
  }

  lemma KeywordRuleShape(alerts: seq<Alert>, keywords: seq<string>, rule: Rule)
    ensures |KeywordRule(alerts, keywords, rule)| <= 1
    ensures forall i | 0 <= i < |KeywordRule(alerts, keywords, rule)| :: KeywordRule(alerts, keywords, rule)[i].rule == rule
  {
  }

  lemma AlertDrivenInOrder(alerts: seq<Alert>)
    ensures InRuleOrder(AlertDriven(alerts), 0, 4)
  {
    KeywordRulesInOrder(alerts);
    SingleRule(FinanceRule(alerts), FinancePlan);
    JoinInOrder(KeywordRule(alerts, OccupancyKeywords, CapacityPlan)
                + KeywordRule(alerts, RecoveryKeywords, RecoveryPlan)
                + KeywordRule(alerts, StaffKeywords, StaffPlan), FinanceRule(alerts), 0, 3, 4);
  }

  /** The three keyword rules come out in the order capacity, recovery, staff. */
  lemma KeywordRulesInOrder(alerts: seq<Alert>)
    ensures InRuleOrder(KeywordRule(alerts, OccupancyKeywords, CapacityPlan)
                        + KeywordRule(alerts, RecoveryKeywords, RecoveryPlan)
                        + KeywordRule(alerts, StaffKeywords, StaffPlan), 0, 3)
  {
    KeywordRuleShape(alerts, OccupancyKeywords, CapacityPlan);
    KeywordRuleShape(alerts, RecoveryKeywords, RecoveryPlan);
    KeywordRuleShape(alerts, StaffKeywords, StaffPlan);
    var occ := KeywordRule(alerts, OccupancyKeywords, CapacityPlan);
    var rec := KeywordRule(alerts, RecoveryKeywords, RecoveryPlan);
    var stf := KeywordRule(alerts, StaffKeywords, StaffPlan);
    SingleRule(occ, CapacityPlan);
    SingleRule(rec, RecoveryPlan);
    SingleRule(stf, StaffPlan);
    JoinInOrder(occ, rec, 0, 1, 2);
    JoinInOrder(occ + rec, stf, 0, 2, 3);
  }

  lemma DataDrivenInOrder(patients: seq<PatientRow>)
    ensures InRuleOrder(DataDriven(patients), 4, 6)
  {
    SingleRule(StayRule(patients), StayPlan);
    RebalanceRuleShape(patients);
    SingleRule(RebalanceRule(patients), RebalancePlan);
    JoinInOrder(StayRule(patients), RebalanceRule(patients), 4, 5, 6);
  }

  /** The rebalancing rule emits at most one recommendation, of its own rule. */
  lemma RebalanceRuleShape(patients: seq<PatientRow>)
    ensures |RebalanceRule(patients)| <= 1
    ensures forall i | 0 <= i < |RebalanceRule(patients)| :: RebalanceRule(patients)[i].rule == RebalancePlan
  {
    var names := PatientDepartments(patients);
    if |names| > 1 {
      var busiest, quietest := names[Busiest(names, patients)], names[Quietest(names, patients)];
      assert RebalanceRule(patients) == RebalanceBetween(patients, busiest, quietest);
    }
  }

  /**
   * At most six recommendations, one per rule at most, in the fixed rule
   * order.
   */
  lemma RecommendationsOrdered(patients: seq<PatientRow>, alerts: seq<Alert>)
    ensures var r := RecommendationsOf(patients, alerts);
      && |r| <= 6
      && (forall i, j | 0 <= i < j < |r| :: Rank(r[i].rule) < Rank(r[j].rule))
  {
    AlertDrivenInOrder(alerts);
    DataDrivenInOrder(patients);
    JoinInOrder(AlertDriven(alerts), DataDriven(patients), 0, 4, 6);
  }

  /**
   * Each alert-driven recommendation is present exactly when some alert
   * title has its keyword, and lists one department per matching alert,
   * covering all of them; `ListedInAlertOrder` fixes their order.
   */
  lemma KeywordRuleIff(alerts: seq<Alert>, keywords: seq<string>, rule: Rule)
    ensures |KeywordRule(alerts, keywords, rule)| == 1 <==> exists i | 0 <= i < |alerts| :: Mentions(alerts[i], keywords)
    ensures KeywordRule(alerts, keywords, rule) == [] <==> forall i | 0 <= i < |alerts| :: !Mentions(alerts[i], keywords)
    ensures |KeywordRule(alerts, keywords, rule)| == 1 ==>
      var listed := KeywordRule(alerts, keywords, rule)[0].advice.departments;
      |listed| == Count(alerts, (a: Alert) => Mentions(a, keywords)) &&
      forall i | 0 <= i < |alerts| && Mentions(alerts[i], keywords) :: alerts[i].department in listed
  {
    MatchingIff(alerts, keywords);
    if Matching(alerts, keywords) != [] {
      MatchingListed(alerts, keywords);
    }
  }

  /**
   * The departments a keyword rule lists follow the alerts: none for no
   * alerts, and one more alert adds its department at the end exactly when
   * its title mentions a keyword. So the list holds one entry per matching
   * alert, in alert order, repeats kept.
   */
  lemma ListedInAlertOrder(alerts: seq<Alert>, a: Alert, keywords: seq<string>)
    ensures DepartmentsOf(Matching([], keywords)) == []
    ensures DepartmentsOf(Matching(alerts + [a], keywords))
         == DepartmentsOf(Matching(alerts, keywords)) + (if Mentions(a, keywords) then [a.department] else [])
  {
    var mentions := (x: Alert) => Mentions(x, keywords);
    FilterAppend(alerts, [a], mentions);
    assert Filter([a], mentions) == (if Mentions(a, keywords) then [a] else []);
    MapAppend(Filter(alerts, mentions), Filter([a], mentions), (x: Alert) => x.department);
  }

  /** Some alert mentions a keyword exactly when the matching alerts are not empty. */
  lemma MatchingIff(alerts: seq<Alert>, keywords: seq<string>)
    ensures Matching(alerts, keywords) != [] <==> exists i | 0 <= i < |alerts| :: Mentions(alerts[i], keywords)
  {
    var m := Matching(alerts, keywords);
    if exists i | 0 <= i < |alerts| :: Mentions(alerts[i], keywords) {
      var i :| 0 <= i < |alerts| && Mentions(alerts[i], keywords);
      assert alerts[i] in m;
    }
    if m != [] {
      assert Mentions(m[0], keywords);
    }
  }

  /** Every matching alert's department is listed. */
  lemma MatchingListed(alerts: seq<Alert>, keywords: seq<string>)
    ensures forall i | 0 <= i < |alerts| && Mentions(alerts[i], keywords) ::
      alerts[i].department in DepartmentsOf(Matching(alerts, keywords))
  {
    var m := Matching(alerts, keywords);
    forall i | 0 <= i < |alerts| && Mentions(alerts[i], keywords)
      ensures alerts[i].department in DepartmentsOf(m)
    {
      var j :| 0 <= j < |m| && m[j] == alerts[i];
      assert DepartmentsOf(m)[j] == alerts[i].department;
    }
  }

  /** The finance recommendation is present exactly when some title names finances or a deficit. */
  lemma FinanceRuleIff(alerts: seq<Alert>)
    ensures FinanceRule(alerts) != [] <==> exists i | 0 <= i < |alerts| :: Mentions(alerts[i], FinanceKeywords)
  {
    MatchingIff(alerts, FinanceKeywords);
  }

  /**
   * The stay recommendation is present exactly when there are patients and
   * their stays average more than 10 days.
   */
  lemma StayRuleIff(patients: seq<PatientRow>)
    ensures StayRule(patients) != [] <==>
      |patients| > 0 && Sum(patients, (p: PatientRow) => p.stay as int) > 10 * |patients|
    ensures StayRule(patients) != [] ==>
      StayRule(patients)[0].advice.meanStay * |patients| as real == Sum(patients, (p: PatientRow) => p.stay as int) as real
  {
    if patients != [] {
      var total := Sum(patients, (p: PatientRow) => p.stay as int) as real;
      Numbers.RatioAbove(total, |patients| as real, LongStayDays);
    }
  }

  /**
   * The rebalancing recommendation is present exactly when at least two
   * departments have patients and one of them has more than three times the
   * patients of another; it then names a department with the most patients
   * and one with the fewest.
   */
  lemma RebalanceRuleIff(patients: seq<PatientRow>)
    ensures RebalanceRule(patients) != [] <==>
      exists i, j | 0 <= i < |patients| && 0 <= j < |patients| ::
        PatientCount(patients, patients[i].department) > 3 * PatientCount(patients, patients[j].department)
  {
    DepartmentsPresent(patients);
    var names := PatientDepartments(patients);
    if |names| > 1 {
      CountBounds(patients, names);
      var busiest, quietest := names[Busiest(names, patients)], names[Quietest(names, patients)];
      assert RebalanceRule(patients) == RebalanceBetween(patients, busiest, quietest);
      if PatientCount(patients, busiest) > 3 * PatientCount(patients, quietest) {
        var ib := PatientOf(patients, busiest);
        var iq := PatientOf(patients, quietest);
        assert PatientCount(patients, patients[ib].department) > 3 * PatientCount(patients, patients[iq].department);
      }
    } else {
      OneDepartmentBalanced(patients);
    }
  }

  /**
   * The rebalancing recommendation names two departments that have
   * patients: one with the most of them and one with the fewest.
   */
  lemma RebalanceNamesExtremes(patients: seq<PatientRow>)
    ensures forall rec | rec in RebalanceRule(patients) ::
      && rec.rule == RebalancePlan && rec.advice.Rebalance?
      && (exists i | 0 <= i < |patients| :: patients[i].department == rec.advice.busiest)
      && (exists i | 0 <= i < |patients| :: patients[i].department == rec.advice.quietest)
      && forall i | 0 <= i < |patients| ::
           PatientCount(patients, rec.advice.quietest) <= PatientCount(patients, patients[i].department) <=
           PatientCount(patients, rec.advice.busiest)
  {
    var names := PatientDepartments(patients);
    if |names| > 1 {
      var busiest, quietest := names[Busiest(names, patients)], names[Quietest(names, patients)];
      assert RebalanceRule(patients) == RebalanceBetween(patients, busiest, quietest);
      RebalanceBetweenNames(patients, busiest, quietest);
      forall rec | rec in RebalanceRule(patients)
        ensures && rec.rule == RebalancePlan && rec.advice.Rebalance?
          && (exists i | 0 <= i < |patients| :: patients[i].department == rec.advice.busiest)
          && (exists i | 0 <= i < |patients| :: patients[i].department == rec.advice.quietest)
          && forall i | 0 <= i < |patients| ::
               PatientCount(patients, rec.advice.quietest) <= PatientCount(patients, patients[i].department) <=
               PatientCount(patients, rec.advice.busiest)
      {
        assert rec.advice == Rebalance(busiest, quietest);
        ExtremesOccur(patients);
      }
    }
  }

  /** Advice between two departments names exactly those two. */
  lemma RebalanceBetweenNames(patients: seq<PatientRow>, busiest: string, quietest: string)
    ensures forall rec | rec in RebalanceBetween(patients, busiest, quietest) ::
      rec == Recommendation(RebalancePlan, Rebalance(busiest, quietest))
  {
  }

  /** The busiest and the quietest of several departments both occur and bound every count. */
  lemma ExtremesOccur(patients: seq<PatientRow>)
    requires |PatientDepartments(patients)| > 1
    ensures var names := PatientDepartments(patients);
      var busiest, quietest := names[Busiest(names, patients)], names[Quietest(names, patients)];
      && (exists i | 0 <= i < |patients| :: patients[i].department == busiest)
      && (exists i | 0 <= i < |patients| :: patients[i].department == quietest)
      && forall i | 0 <= i < |patients| ::
           PatientCount(patients, quietest) <= PatientCount(patients, patients[i].department) <=
           PatientCount(patients, busiest)
  {
    var names := PatientDepartments(patients);
    DepartmentsPresent(patients);
    CountBounds(patients, names);
    var ib := PatientOf(patients, names[Busiest(names, patients)]);
    var iq := PatientOf(patients, names[Quietest(names, patients)]);
  }

  /** A patient of a department that appears in the table. */
  lemma PatientOf(patients: seq<PatientRow>, dept: string) returns (i: nat)
    requires dept in PatientDepartments(patients)
    ensures i < |patients| && patients[i].department == dept
  {
    var column := Map(patients, (p: PatientRow) => p.department);
    i :| 0 <= i < |column| && column[i] == dept;
  }

  /** The distinct departments are exactly those of the patients. */
  lemma DepartmentsPresent(patients: seq<PatientRow>)
    ensures forall i | 0 <= i < |patients| :: patients[i].department in PatientDepartments(patients)
    ensures forall x | x in PatientDepartments(patients) :: exists i | 0 <= i < |patients| :: patients[i].department == x
  {
    var column := Map(patients, (p: PatientRow) => p.department);
    forall i | 0 <= i < |patients| ensures patients[i].department in PatientDepartments(patients) {
      assert column[i] == patients[i].department;
    }
    forall x | x in PatientDepartments(patients) ensures exists i | 0 <= i < |patients| :: patients[i].department == x {
      var i :| 0 <= i < |column| && column[i] == x;
      assert patients[i].department == x;
    }
  }

  /** Every patient's department has a count between the quietest's and the busiest's. */
  lemma CountBounds(patients: seq<PatientRow>, names: seq<string>)
    requires |names| > 0
    requires forall i | 0 <= i < |patients| :: patients[i].department in names
    ensures forall i | 0 <= i < |patients| ::
      PatientCount(patients, names[Quietest(names, patients)]) <= PatientCount(patients, patients[i].department) <=
      PatientCount(patients, names[Busiest(names, patients)])
  {
    forall i | 0 <= i < |patients|
      ensures PatientCount(patients, names[Quietest(names, patients)]) <= PatientCount(patients, patients[i].department) <=
              PatientCount(patients, names[Busiest(names, patients)])
    {
      var k :| 0 <= k < |names| && names[k] == patients[i].department;
    }
  }

  /** With a single department no count can exceed three times another. */
  lemma OneDepartmentBalanced(patients: seq<PatientRow>)
    requires |PatientDepartments(patients)| <= 1
    requires forall i | 0 <= i < |patients| :: patients[i].department in PatientDepartments(patients)
    ensures forall i, j | 0 <= i < |patients| && 0 <= j < |patients| ::
      PatientCount(patients, patients[i].department) <= 3 * PatientCount(patients, patients[j].department)
  {
    if patients != [] {
      var names := PatientDepartments(patients);
      assert forall i | 0 <= i < |patients| :: patients[i].department == names[0];
      var c := PatientCount(patients, names[0]);
      assert forall i | 0 <= i < |patients| :: PatientCount(patients, patients[i].department) == c;
    }
  }

  // ---------------------------------------------------------------------------
  // Every department alert is answered by its recommendation
  // ---------------------------------------------------------------------------

  lemma NoUpperOccupancyRest() ensures forall x | x in "aux d'occupation critique en " :: !IsUpper(x) {}
  lemma SplitOccupancyTitle() ensures OccupancyTitle == ['T'] + "aux d'occupation critique en " {}
  lemma GlueOccupancyTitle() ensures ['t'] + "aux d'occupation critique en " == "taux d'" + "occupation" + " critique en " {}

  lemma NoUpperRecoveryRest() ensures forall x | x in "aux de rétablissement faible en " :: !IsUpper(x) {}
  lemma SplitRecoveryTitle() ensures RecoveryTitle == ['T'] + "aux de rétablissement faible en " {}
  lemma GlueRecoveryTitle() ensures ['t'] + "aux de rétablissement faible en " == "taux de " + "rétablissement" + " faible en " {}

  lemma NoUpperStaffingRest() ensures forall x | x in "anque de médecins en " :: !IsUpper(x) {}
  lemma SplitStaffingTitle() ensures StaffingTitle == ['M'] + "anque de médecins en " {}
  lemma GlueStaffingTitle() ensures ['m'] + "anque de médecins en " == "manque de " + "médecins" + " en " {}

  lemma NoUpperDeficitRest() ensures forall x | x in "éficit financier" :: !IsUpper(x) {}
  lemma SplitDeficitTitle() ensures DeficitTitle == ['D'] + "éficit financier" {}
  lemma GlueDeficitTitle() ensures ['d'] + "éficit financier" == "déficit " + "financier" + "" {}

  lemma NoUpperImbalanceRest() ensures forall x | x in "éséquilibre admissions/sorties" :: !IsUpper(x) {}
  lemma SplitImbalanceTitle() ensures ImbalanceTitle == ['D'] + "éséquilibre admissions/sorties" {}
  lemma GlueImbalanceTitle() ensures ['d'] + "éséquilibre admissions/sorties" == "déséquili" + ['b'] + "re admissions/sorties" {}

  /** A title built as `<fixed prefix> + <department>` has the keyword its prefix has. */
  lemma PrefixedTitleMentions(prefix: string, name: string, before: string, keyword: string, after: string,
                              keywords: seq<string>, a: Alert)
    requires Lower(prefix) == before + keyword + after
    requires a.title == prefix + name && keyword in keywords
    ensures Mentions(a, keywords)
  {
    LowerAppend(prefix, name);
    assert Lower(a.title) == before + keyword + (after + Lower(name));
    ContainsMiddle(before, keyword, after + Lower(name));
  }

  lemma OccupancyAlertMentions(d: DepartmentRow)
    ensures Mentions(OccupancyAlertOf(d), OccupancyKeywords)
  {
    SplitOccupancyTitle();
    NoUpperOccupancyRest();
    LowerCapitalised('T', "aux d'occupation critique en ");
    GlueOccupancyTitle();
    PrefixedTitleMentions(OccupancyTitle, d.name, "taux d'", "occupation", " critique en ",
                          OccupancyKeywords, OccupancyAlertOf(d));
  }

  lemma RecoveryAlertMentions(d: DepartmentRow)
    ensures Mentions(RecoveryAlertOf(d), RecoveryKeywords)
  {
    SplitRecoveryTitle();
    NoUpperRecoveryRest();
    LowerCapitalised('T', "aux de rétablissement faible en ");
    GlueRecoveryTitle();
    PrefixedTitleMentions(RecoveryTitle, d.name, "taux de ", "rétablissement", " faible en ",
                          RecoveryKeywords, RecoveryAlertOf(d));
  }

  lemma StaffingAlertMentions(d: DepartmentRow)
    requires d.doctors > 0
    ensures Mentions(StaffingAlertOf(d), StaffKeywords)
  {
    SplitStaffingTitle();
    NoUpperStaffingRest();
    LowerCapitalised('M', "anque de médecins en ");
    GlueStaffingTitle();
    PrefixedTitleMentions(StaffingTitle, d.name, "manque de ", "médecins", " en ",
                          StaffKeywords, StaffingAlertOf(d));
  }

  lemma DeficitAlertMentions(revenue: int, expenses: int)
    ensures Mentions(DeficitAlertOf(revenue, expenses), FinanceKeywords)
  {
    SplitDeficitTitle();
    NoUpperDeficitRest();
    LowerCapitalised('D', "éficit financier");
    GlueDeficitTitle();
    PrefixedTitleMentions(DeficitTitle, "", "déficit ", "financier", "",
                          FinanceKeywords, DeficitAlertOf(revenue, expenses));
  }

  const ImbalanceLowered: string := "déséquilibre admissions/sorties"

  lemma GlueImbalanceLowered()
    ensures ['d'] + "éséquilibre admissions/sorties" == ImbalanceLowered
  {
  }

  lemma PinImbalanceLowered()
    ensures ImbalanceLowered == "déséquili" + ['b'] + "re admissions/sorties"
  {
  }

  lemma LowerImbalanceTitle()
    ensures Lower(ImbalanceTitle) == ImbalanceLowered
  {
    SplitImbalanceTitle();
    NoUpperImbalanceRest();
    LowerCapitalised('D', "éséquilibre admissions/sorties");
    GlueImbalanceLowered();
  }

  /** Each keyword below has a letter that the lower-cased imbalance title lacks. */
  lemma ImbalanceLacksOccupation()
    ensures !Contains(ImbalanceLowered, "occupation")
  {
    MissingChar(ImbalanceLowered, "occupation", 1);
  }

  lemma ImbalanceLacksStaffKeywords()
    ensures !Contains(ImbalanceLowered, "médecins")
    ensures !Contains(ImbalanceLowered, "personnel")
  {
    MissingChar(ImbalanceLowered, "médecins", 4);
    MissingChar(ImbalanceLowered, "personnel", 0);
  }

  lemma ImbalanceLacksFinanceKeywords()
    ensures !Contains(ImbalanceLowered, "financier")
    ensures !Contains(ImbalanceLowered, "déficit")
  {
    MissingChar(ImbalanceLowered, "financier", 0);
    MissingChar(ImbalanceLowered, "déficit", 2);
  }

  /** The only `b` of the imbalance title would put the `r` of "rétablissement" on a `u`. */
  lemma ImbalanceLacksRecovery()
    ensures !Contains(ImbalanceLowered, "rétablissement")
  {
    PinImbalanceLowered();
    PinnedMismatch("déséquili", 'b', "re admissions/sorties", "rétablissement", 4, 0);
  }

  /** The imbalance warning's title has none of the keywords, so no recommendation answers it. */
  lemma ImbalanceAlertMentionsNothing(admissions: int, discharges: int)
    ensures var a := ImbalanceAlertOf(admissions, discharges);
      !Mentions(a, OccupancyKeywords) && !Mentions(a, RecoveryKeywords) &&
      !Mentions(a, StaffKeywords) && !Mentions(a, FinanceKeywords)
  {
    LowerImbalanceTitle();
    ImbalanceLacksOccupation();
    ImbalanceLacksRecovery();
    ImbalanceLacksStaffKeywords();
    ImbalanceLacksFinanceKeywords();
  }

  lemma PrefixedOccupancy(a: Alert)
    requires a.title == OccupancyTitle + a.department
    ensures Mentions(a, OccupancyKeywords)
  {
    OccupancyAlertMentions(DepartmentRow(a.department, 0, 0, 0.0, 0.0, 0));
  }

  lemma PrefixedRecovery(a: Alert)
    requires a.title == RecoveryTitle + a.department
    ensures Mentions(a, RecoveryKeywords)
  {
    RecoveryAlertMentions(DepartmentRow(a.department, 0, 0, 0.0, 0.0, 0));
  }

  lemma PrefixedStaffing(a: Alert)
    requires a.title == StaffingTitle + a.department
    ensures Mentions(a, StaffKeywords)
  {
    StaffingAlertMentions(DepartmentRow(a.department, 0, 0, 0.0, 0.0, 1));
  }

  /** Some recommendation of `rule` lists `dept` among its departments. */
  predicate Answers(r: seq<Recommendation>, rule: Rule, dept: string)
  {
    exists rec | rec in r :: rec.rule == rule && rec.advice.AffectedDepartments? && dept in rec.advice.departments
  }

  lemma OccupancyAlertAnswered(alerts: seq<Alert>, patients: seq<PatientRow>, i: nat)
    requires i < |alerts| && alerts[i].title == OccupancyTitle + alerts[i].department
    ensures Answers(RecommendationsOf(patients, alerts), CapacityPlan, alerts[i].department)
  {
    PrefixedOccupancy(alerts[i]);
    KeywordRuleIff(alerts, OccupancyKeywords, CapacityPlan);
    var rec := KeywordRule(alerts, OccupancyKeywords, CapacityPlan)[0];
    assert rec in RecommendationsOf(patients, alerts);
  }

  lemma RecoveryAlertAnswered(alerts: seq<Alert>, patients: seq<PatientRow>, i: nat)
    requires i < |alerts| && alerts[i].title == RecoveryTitle + alerts[i].department
    ensures Answers(RecommendationsOf(patients, alerts), RecoveryPlan, alerts[i].department)
  {
    PrefixedRecovery(alerts[i]);
    KeywordRuleIff(alerts, RecoveryKeywords, RecoveryPlan);
    var rec := KeywordRule(alerts, RecoveryKeywords, RecoveryPlan)[0];
    assert rec in RecommendationsOf(patients, alerts);
  }

  lemma StaffingAlertAnswered(alerts: seq<Alert>, patients: seq<PatientRow>, i: nat)
    requires i < |alerts| && alerts[i].title == StaffingTitle + alerts[i].department
    ensures Answers(RecommendationsOf(patients, alerts), StaffPlan, alerts[i].department)
  {
    PrefixedStaffing(alerts[i]);
    KeywordRuleIff(alerts, StaffKeywords, StaffPlan);
    var rec := KeywordRule(alerts, StaffKeywords, StaffPlan)[0];
    assert rec in RecommendationsOf(patients, alerts);
  }

  lemma DeficitAlertAnswered(alerts: seq<Alert>, patients: seq<PatientRow>, i: nat)
    requires i < |alerts| && alerts[i].title == DeficitTitle
    ensures exists rec | rec in RecommendationsOf(patients, alerts) :: rec.rule == FinancePlan
  {
    DeficitAlertMentions(0, 0);
    assert Mentions(alerts[i], FinanceKeywords);
    FinanceRuleIff(alerts);
    var rec := FinanceRule(alerts)[0];
    assert rec in RecommendationsOf(patients, alerts);
  }

  /** The title each alert rule of the generator gives its alert. */
  predicate WellTitled(a: Alert)
  {
    && (a.message.OccupancyMessage? ==> a.title == OccupancyTitle + a.department)
    && (a.message.RecoveryMessage? ==> a.title == RecoveryTitle + a.department)
    && (a.message.StaffingMessage? ==> a.title == StaffingTitle + a.department)
    && (a.message.ImbalanceMessage? ==> a.title == ImbalanceTitle)
    && (a.message.DeficitMessage? ==> a.title == DeficitTitle)
  }

  lemma {:induction false} WellTitledSection(ds: seq<DepartmentRow>)
    requires DepartmentSection(ds).Success?
    ensures forall i | 0 <= i < |DepartmentSection(ds).value| :: WellTitled(DepartmentSection(ds).value[i])
    decreases |ds|
  {
    if ds != [] {
      WellTitledSection(ds[..|ds| - 1]);
    }
  }

  /** Every alert the generator emits carries the title its rule gives it. */
  lemma WellTitledAlerts(ds: seq<DepartmentRow>, daily: seq<DailyRow>)
    requires AlertsOf(ds, daily).Success?
    ensures forall i | 0 <= i < |AlertsOf(ds, daily).value| :: WellTitled(AlertsOf(ds, daily).value[i])
  {
    WellTitledSection(ds);
    WellTitledCross(daily);
    AlertsOfParts(ds, daily);
    WellTitledJoin(DepartmentSection(ds).value, ImbalanceRule(daily) + DeficitRule(daily));
  }

  /** The two warnings over the daily table carry their titles. */
  lemma WellTitledCross(daily: seq<DailyRow>)
    ensures forall i | 0 <= i < |ImbalanceRule(daily) + DeficitRule(daily)| ::
      WellTitled((ImbalanceRule(daily) + DeficitRule(daily))[i])
  {
  }

  lemma WellTitledJoin(a: seq<Alert>, b: seq<Alert>)
    requires forall i | 0 <= i < |a| :: WellTitled(a[i])
    requires forall i | 0 <= i < |b| :: WellTitled(b[i])
    ensures forall i | 0 <= i < |a + b| :: WellTitled((a + b)[i])
  {
    forall i | 0 <= i < |a + b|
      ensures WellTitled((a + b)[i])
    {
      if i >= |a| {
        assert (a + b)[i] == b[i - |a|];
      }
    }
  }

  /**
   * Chaining the two generators: every occupancy, recovery, staffing or
   * deficit alert of `generer_alertes` is answered by a recommendation of
   * `generer_recommandations`, which for the three department rules lists
   * the alert's department.
   */
  lemma GeneratedAlertsAnswered(ds: seq<DepartmentRow>, daily: seq<DailyRow>, patients: seq<PatientRow>, i: nat)
    requires AlertsOf(ds, daily).Success? && i < |AlertsOf(ds, daily).value|
    ensures var a := AlertsOf(ds, daily).value[i];
      var r := RecommendationsOf(patients, AlertsOf(ds, daily).value);
      && (a.message.OccupancyMessage? ==> Answers(r, CapacityPlan, a.department))
      && (a.message.RecoveryMessage? ==> Answers(r, RecoveryPlan, a.department))
      && (a.message.StaffingMessage? ==> Answers(r, StaffPlan, a.department))
      && (a.message.DeficitMessage? ==> exists rec | rec in r :: rec.rule == FinancePlan)
  {
    WellTitledAlerts(ds, daily);
    var alerts := AlertsOf(ds, daily).value;
    assert WellTitled(alerts[i]);
    match alerts[i].message
    case OccupancyMessage(_, _, _) => OccupancyAlertAnswered(alerts, patients, i);
    case RecoveryMessage(_) => RecoveryAlertAnswered(alerts, patients, i);
    case StaffingMessage(_) => StaffingAlertAnswered(alerts, patients, i);
    case DeficitMessage(_, _, _) => DeficitAlertAnswered(alerts, patients, i);
    case ImbalanceMessage(_, _) =>
  }
}
