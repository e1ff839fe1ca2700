# Hospital dashboard insight engine and synthetic data generator

This project models the analytical core of a Streamlit dashboard for a simulated hospital, and proves properties of that model.

The dashboard side (`Health_dash.py`) has these parts:

- **The filter stage.** It narrows the daily, patient, staff and department tables by the sidebar selection: a date range, a department, treatments and outcomes.
- **`generer_alertes`.** It produces critical alerts per department (high occupancy, low recovery, too few doctors) and two warnings over the daily table (an admissions/discharges imbalance in the latest 7 days, and a deficit in the latest 30).
- **`generer_recommandations`.** It produces recommendations, either from keywords in the alert titles or from the patients table (a long mean stay, or unbalanced departments).
- **`generer_resume`.** It produces the summary items: the overview, the best-scoring department, the financial position and the alert counts.
- **The critical-first display order** of the alerts.

The data side (`generate_health_data.py`) holds the deterministic rules of `generate_patient_data` and `generate_staff_data`, and the whole of `generate_department_data`.

Modules:

- `Tables`: the table rows the dashboard hands to the engine, and calendar days.
- `Seqs`: row masks, counts and sums.
- `Numbers`: ratios and Python's `round`.
- `Text`: the lower-casing and substring search the keyword rules use.
- `DailyWindow`: `sort_values('date').tail(k)`.
- `Filters`, `Alerts`, `Recommendations` and `Summary`: the dashboard.
- `HealthData` and `DepartmentData`: the generator.
- `Scenarios`: worked cases.

Each generator is a method with the source's loop or sequence of appends. It is proved equal to a specification function. The properties are then proved about that function.

A department without doctors always trips the staffing rule. Its
report `int(1/ratio_medecins)` then divides by zero (`Health_dash.py:995`), which aborts `generer_alertes`. The patient count is guarded by `max(1, …)` (`Health_dash.py:991`), but the doctor count that line 995 divides by is not. The model follows the code: `AlertsOf` returns `Failure(NoDoctors(name))` for the first such department.

## Model

| member | source | states |
|---|---|---|
| Filters.ApplyFilters | Health_dash.py:922-950 | The four filtered tables are exactly the date, department, treatment and outcome masks, applied in the source's order. The date mask is the source's own comparison of timestamps against midnight of each end day (`DailyViewAsWritten`), not the corrected one of "## Findings". |
| Filters.DailyViewMembers | Health_dash.py:922-932 | Without a two-date selection, the daily table is kept whole by both comparisons. With one, the corrected filter keeps a row if and only if its calendar day lies in the inclusive range. The source's comparison keeps a row if and only if its day lies in the range and, on the last day, it is stamped exactly at midnight. |
| Filters.AsWrittenIsInRangeButLate | Health_dash.py:925-927 | A row passes the source's comparison if and only if its calendar day is in range and it is not a last-day row stamped after midnight. |
| Filters.AsWrittenDropsLateRows | Health_dash.py:922-932 | The daily table the source produces is the corrected calendar-day table with the last day's rows stamped after midnight removed, order kept. |
| Filters.FullRangeKeepsAll | Health_dash.py:922-932 | A range covering every row's day keeps the whole daily table. |
| Filters.AsWrittenDropsLastDay | Health_dash.py:925-927 | The comparison as written drops a row stamped at noon on the last selected day, although that day is in range. |
| Filters.AsWrittenOnLastDay | Health_dash.py:925-927 | On the last day of a longer range, the comparison as written keeps only a row stamped exactly at midnight. Everything it keeps is in range. |
| Filters.DepartmentStage | Health_dash.py:935-942 | The department branch equals one mask that passes every row when "all departments" is selected. |
| Filters.TreatmentStage | Health_dash.py:945-946 | The treatment branch equals one mask that passes every row when no treatment is ticked. |
| Filters.OutcomeStage | Health_dash.py:949-950 | The outcome branch equals one mask that passes every row when no outcome is ticked. |
| Filters.PatientViewIsOneFilter | Health_dash.py:935-950 | The three successive patient masks equal a single mask on their conjunction. |
| Filters.PatientViewMembers | Health_dash.py:935-950 | Every kept patient comes from the table and meets each active criterion. Every patient meeting all of them is kept. |
| Filters.NothingSelectedKeepsPatients | Health_dash.py:939-950 | With nothing selected, the patients table is unchanged. |
| Filters.DepartmentViewsMembers | Health_dash.py:935-942 | The staff and department tables keep exactly the rows of the selected department, or everything when all are selected. |
| DailyWindow.Insert | Health_dash.py:1003 | Insertion into a date-sorted table gives a sorted permutation with one more row. |
| DailyWindow.SortByDate | Health_dash.py:1003 | `sort_values('date')` is sorted by date and is a permutation of the table. |
| DailyWindow.LatestIsMostRecent | Health_dash.py:1016 | `tail(k)` has k rows. With the dropped rows it makes up the table. No dropped row is later than a kept one. |
| DailyWindow.SortOfSorted | Health_dash.py:1003 | An already sorted table is its own sort. |
| DailyWindow.LatestOfSorted | Health_dash.py:1016 | For a sorted table, the window is its last k rows. |
| Alerts.GenerateAlerts | Health_dash.py:956-1027 | The loop over departments, then the two daily rules, returns exactly `AlertsOf`. |
| Alerts.DepartmentStage | Health_dash.py:971-998 | The per-department loop returns the section of all department rows. It stops at the first department without doctors. |
| Alerts.CrossDepartmentStage | Health_dash.py:1000-1025 | The daily-table part appends the imbalance warning, then the deficit warning. |
| Alerts.SectionStep | Health_dash.py:971-998 | One more department row appends that row's alerts to the section. |
| Alerts.SectionFailure | Health_dash.py:991-995 | The section fails if and only if some department has no doctors. The error names the first such department. |
| Alerts.OccupancyThreshold | Health_dash.py:973-979 | With occupancy derived from the counts, the occupancy alert fires if and only if 10·patients > 9·beds. |
| Alerts.StaffingThreshold | Health_dash.py:990-998 | With doctors, the staffing alert fires if and only if 10·doctors < max(1, patients). The reported figure is ⌊max(1, patients)/doctors⌋ ≥ 10. |
| Alerts.NoPatientsNoStaffingAlert | Health_dash.py:991-992 | An empty department with doctors raises no staffing alert, because the ratio uses max(1, …). |
| Alerts.StaffingFailsIffNoDoctors | Health_dash.py:991-995 | One department's rules fail if and only if it has no doctors. |
| Alerts.DepartmentAlertsShape | Health_dash.py:971-998 | At most three alerts, all critical, all for that department, in rule order. Each is present if and only if its threshold is crossed. |
| Alerts.DepartmentAlertsOrder | Health_dash.py:971-998 | At most three critical alerts for that department, in the order occupancy, recovery, staffing. |
| Alerts.DepartmentAlertsPresence | Health_dash.py:973-992 | The occupancy, recovery and staffing alerts are each present exactly when occupancy > 0.9, recovery < 0.7 or ratio < 0.1. |
| Alerts.SectionPrefix | Health_dash.py:971-998 | The alerts of the first n departments are a prefix of the full section. |
| Alerts.SectionShape | Health_dash.py:971-998 | The department section holds at most 3 alerts per department, all critical. |
| Alerts.ImbalanceThreshold | Health_dash.py:1002-1012 | With at least 7 rows, the imbalance warning fires if and only if 10·admissions > 13·discharges over the latest 7 days, for all departments. Otherwise it never fires. |
| Alerts.DeficitThreshold | Health_dash.py:1015-1025 | With at least 30 rows, the deficit warning fires if and only if expenses > revenue over the latest 30 days. Its deficit is expenses − revenue > 0. |
| Alerts.AlertsLayout | Health_dash.py:956-1027 | The generator fails if and only if a department has no doctors. Otherwise: at most 3·departments + 2 alerts, every warning after every critical alert, at most two warnings. |
| Alerts.AlertsOfParts | Health_dash.py:968-1027 | A successful result is the department section followed by the two daily warnings. |
| Alerts.CrossAreWarnings | Health_dash.py:1000-1025 | The daily rules add at most two alerts, all warnings. |
| Alerts.CriticalThenWarnings | Health_dash.py:1356 | Critical alerts followed by warnings are already in display order. |
| Alerts.SeparatedFilters | Health_dash.py:1356 | The critical and warning masks recover the two halves of such a list. |
| Alerts.SplitBySeverity | Health_dash.py:1356 | The critical and the warning alerts together are a permutation of all alerts. |
| Alerts.CriticalFirstIsSortByKey | Health_dash.py:1356 | The display order is a permutation of the alerts with every critical alert before every warning. |
| Alerts.CriticalBeforeWarnings | Health_dash.py:1356 | Critical alerts followed by warnings never put a warning before a critical alert. |
| Alerts.DisplayKeepsGeneratedOrder | Health_dash.py:1356 | Sorting the generated alerts critical-first leaves their order unchanged. |
| Recommendations.GenerateRecommendations | Health_dash.py:1029-1099 | The sequence of guarded appends returns exactly `RecommendationsOf`. |
| Recommendations.RecommendFromAlerts | Health_dash.py:1044-1077 | The four alert-driven rules, in source order. |
| Recommendations.RecommendFromData | Health_dash.py:1079-1097 | The mean-stay and rebalancing rules, in source order. |
| Recommendations.TitlesDistinct | Health_dash.py:1049-1095 | The six recommendation titles are pairwise distinct. |
| Recommendations.AlertDrivenInOrder | Health_dash.py:1044-1077 | The alert-driven recommendations contain at most one per rule, in the order capacity, recovery, staff, finance. |
| Recommendations.KeywordRulesInOrder | Health_dash.py:1044-1069 | The three keyword rules come out in the order capacity, recovery, staff. |
| Recommendations.DataDrivenInOrder | Health_dash.py:1079-1097 | The data-driven recommendations are at most one stay and then one rebalancing item. |
| Recommendations.RecommendationsOrdered | Health_dash.py:1042-1099 | At most six recommendations, in strictly increasing rule order. |
| Recommendations.KeywordRuleIff | Health_dash.py:1045-1069 | A keyword rule emits one recommendation if and only if some alert title mentions a keyword, otherwise none. It lists one department per matching alert, covering all of them. |
| Recommendations.ListedInAlertOrder | Health_dash.py:1047 | The listed departments are empty for no alerts, and one more alert appends its department exactly when its title mentions a keyword. So the list follows alert order and keeps repeats. |
| Recommendations.MatchingIff | Health_dash.py:1045-1046 | The matching alerts are non-empty if and only if some alert mentions a keyword. |
| Recommendations.MatchingListed | Health_dash.py:1047 | Every matching alert's department is listed. |
| Recommendations.FinanceRuleIff | Health_dash.py:1072-1077 | The finance recommendation is present if and only if some title mentions "financier" or "déficit". |
| Recommendations.StayRuleIff | Health_dash.py:1081-1086 | The stay recommendation is present if and only if the table is non-empty and the total stay exceeds 10·patients. Its mean times the count is the total. |
| Recommendations.Distinct | Health_dash.py:1089 | The departments of `value_counts` are pairwise distinct and are exactly those in the column. |
| Recommendations.Busiest | Health_dash.py:1091 | `idxmax` gives a department whose count no other exceeds. |
| Recommendations.Quietest | Health_dash.py:1092 | `idxmin` gives a department whose count no other undercuts. |
| Recommendations.RebalanceRuleIff | Health_dash.py:1089-1097 | Rebalancing is advised if and only if some department has more than three times the patients of another. |
| Recommendations.RebalanceNamesExtremes | Health_dash.py:1091-1096 | The advice names two departments that occur in the table, with the largest and the smallest count. |
| Recommendations.DepartmentsPresent | Health_dash.py:1089 | Every patient's department is among the counted departments, and each counted one occurs. |
| Recommendations.CountBounds | Health_dash.py:1091-1093 | Every department's count lies between the quietest's and the busiest's. |
| Recommendations.OneDepartmentBalanced | Health_dash.py:1090 | With at most one department, no count exceeds three times another. |
| Recommendations.OccupancyAlertMentions | Health_dash.py:975 | Every occupancy alert title contains "occupation" once lower-cased. |
| Recommendations.RecoveryAlertMentions | Health_dash.py:984 | Every recovery alert title contains "rétablissement" once lower-cased. |
| Recommendations.StaffingAlertMentions | Health_dash.py:994 | Every staffing alert title contains "médecins" once lower-cased. |
| Recommendations.DeficitAlertMentions | Health_dash.py:1021 | The deficit alert title contains a finance keyword once lower-cased. |
| Recommendations.ImbalanceAlertMentionsNothing | Health_dash.py:1008 | The imbalance title triggers no keyword rule. |
| Recommendations.LowerImbalanceTitle | Health_dash.py:1008 | The lower-cased imbalance title is "déséquilibre admissions/sorties". |
| Recommendations.ImbalanceLacksRecovery | Health_dash.py:1054 | "rétablissement" does not occur in the lower-cased imbalance title. |
| Recommendations.PrefixedOccupancy | Health_dash.py:1045 | Any title built from the occupancy prefix mentions "occupation". |
| Recommendations.PrefixedRecovery | Health_dash.py:1054 | Any title built from the recovery prefix mentions "rétablissement". |
| Recommendations.PrefixedStaffing | Health_dash.py:1063 | Any title built from the staffing prefix mentions "médecins". |
| Recommendations.OccupancyAlertAnswered | Health_dash.py:1045-1051 | An occupancy alert produces the capacity recommendation listing its department. |
| Recommendations.RecoveryAlertAnswered | Health_dash.py:1054-1060 | A recovery alert produces the recovery recommendation listing its department. |
| Recommendations.StaffingAlertAnswered | Health_dash.py:1063-1069 | A staffing alert produces the staff recommendation listing its department. |
| Recommendations.DeficitAlertAnswered | Health_dash.py:1072-1077 | A deficit alert produces the finance recommendation. |
| Recommendations.WellTitledSection | Health_dash.py:971-998 | Every department alert carries the title of its rule, prefixed to its department. |
| Recommendations.WellTitledAlerts | Health_dash.py:956-1027 | Every generated alert carries the title of its rule. |
| Recommendations.GeneratedAlertsAnswered | Health_dash.py:956-1077 | Every generated occupancy, recovery, staffing or deficit alert is answered by its recommendation, which names its department where the rule lists departments. |
| Summary.GenerateSummary | Health_dash.py:1101-1160 | The guarded appends return exactly `SummaryOf`. |
| Summary.BestIndex | Health_dash.py:1130-1131 | `idxmax` of the score is a row with the highest score, and the first such row. |
| Summary.SectionsShape | Health_dash.py:1128-1158 | The best item exists if and only if there are departments. The financial item exists if and only if there are at least 30 days. The attention item exists if and only if there are alerts. |
| Summary.SummaryLayout | Health_dash.py:1114-1160 | One to four items: the overview first, then the others in fixed order, each present under its own condition. |
| Summary.TitlesDistinct | Health_dash.py:1123-1156 | Two items share a title if and only if they are of the same kind. |
| Summary.OverviewCounts | Health_dash.py:1117-1125 | The overview counts all patients and the hospitalised ones, at most all of them. The means are absent if and only if there are no departments. |
| Summary.MeanBounds | Health_dash.py:1119-1120 | A mean of values in [lo, hi] lies in [lo, hi]. |
| Summary.BestIsFirstHighest | Health_dash.py:1128-1136 | The best department is the first row with the highest score. |
| Summary.FinancialSign | Health_dash.py:1143-1147 | A profit if and only if revenue ≥ expenses. The amount is the absolute difference. |
| Summary.AttentionCountsAll | Health_dash.py:1151-1158 | The critical and warning counts add up to all alerts. |
| Summary.AttentionOfGenerated | Health_dash.py:1151-1158 | For generated alerts: at most two warnings, and the two counts add up to all alerts. |
| Summary.DeficitMatchesLoss | Health_dash.py:1139-1147 | The deficit alert fires exactly when the financial item reports a loss, and its deficit equals the loss. |
| Scenarios.OccupancyBoundary | Health_dash.py:973 | 90% occupancy raises no occupancy alert. 90.1% raises it. |
| Scenarios.CrowdedDepartment | Health_dash.py:971-998 | 46 patients in 50 beds, 95% recovery and 10 doctors give exactly one alert, the occupancy alert at 92%. |
| Scenarios.RisingAdmissions | Health_dash.py:1002-1012 | 140 admissions against 100 discharges raise the imbalance warning. Against 110 they do not. |
| Scenarios.UnevenDepartments | Health_dash.py:1089-1097 | 40 patients against 10 produce rebalancing advice naming the first as busiest and the second as quietest. |
| Scenarios.MonthInDeficit | Health_dash.py:1015-1025 | A month of 3,000,000 revenue against 3,500,000 expenses gives a deficit alert of 500,000, and a summary loss of 500,000. |
| Scenarios.BestOfTwo | Health_dash.py:1128-1136 | Scores of 0.74 against 0.61 make the first department the best. |
| Scenarios.EmptyTables | Health_dash.py:956-1160 | Empty tables give no alerts, no recommendations, and only the overview. |
| HealthData.GeneratePatients | generate_health_data.py:20-77 | The loop over 1000 draws returns exactly `PatientsOf`. |
| HealthData.AdmissionRules | generate_health_data.py:29-74 | A patient is admitted if and only if admission + stay is after now. Then it is "In Treatment", has no discharge date, and has a stay of whole days so far, below the drawn stay. Otherwise it is discharged on the admission day + stay. The admission lies in the window. |
| HealthData.BaseCostAtLeast | generate_health_data.py:46-58 | Every base cost is at least 1000. |
| HealthData.CostBounds | generate_health_data.py:60 | The unrounded cost lies between 0.8 and 1.2 times base × stay, and is at least 800. |
| HealthData.CostRounded | generate_health_data.py:72 | The rounded treatment cost is at least 800. |
| HealthData.InsuranceBounds | generate_health_data.py:73 | The unrounded coverage lies between 0.7 and 0.95 times the cost. |
| HealthData.InsuranceRounded | generate_health_data.py:72-73 | The rounded coverage never exceeds the rounded cost. |
| HealthData.PatientIdsDistinct | generate_health_data.py:63 | Patient ids are distinct. |
| HealthData.GeneratedPatientsValid | generate_health_data.py:28-75 | Every generated patient is in a clinical department, is "In Treatment" and undischarged exactly when admitted, costs at least 800, and is covered for no more than the cost. |
| HealthData.GeneratedStays | generate_health_data.py:69 | Every generated stay lies in 0..30 days. |
| HealthData.BaseSalary | generate_health_data.py:90-100 | A base salary is at least 40000. |
| HealthData.GenerateStaff | generate_health_data.py:80-116 | The loop over 200 draws returns exactly `StaffListOf`. |
| HealthData.SalaryMonotone | generate_health_data.py:102-104 | More years of service never give a lower salary. |
| HealthData.StartingSalary | generate_health_data.py:90-104 | With no service, the salary is the role's base, times 1.2 in surgery and cardiology. |
| HealthData.HandledRule | generate_health_data.py:112 | Only doctors and nurses handle patients, between 10 and 100 of them. |
| DepartmentData.GenerateDepartments | generate_health_data.py:119-170 | The loop over the six clinical departments returns exactly `DepartmentsOf`. |
| DepartmentData.DepartmentsOf | generate_health_data.py:123-168 | Six records, the k-th naming the k-th clinical department, none naming Administration. |
| DepartmentData.Beds | generate_health_data.py:142-149 | Every clinical department has at least 30 beds. |
| DepartmentData.PatientsInMembers | generate_health_data.py:124 | A department's patients are exactly the table's patients of that department. |
| DepartmentData.AverageStayMeaning | generate_health_data.py:127-131 | The average stay times the count is the total stay. With no patients it is 0. |
| DepartmentData.AverageStayWithin | generate_health_data.py:128-131 | Stays in 0..30 average to 0..30. |
| DepartmentData.GeneratedAverageStay | generate_health_data.py:128-131 | Every department's average stay over generated patients lies in 0..30. |
| DepartmentData.RecoveryRateIsProportion | generate_health_data.py:136-139 | The recovery rate lies in [0, 1]. It is 0 when nobody was discharged. |
| DepartmentData.AdmittedAndDischarged | generate_health_data.py:137-151 | Every patient is either admitted or discharged. |
| DepartmentData.RecordCounts | generate_health_data.py:154-167 | A record names its department. Admitted ≤ total, doctors + nurses ≤ staff, and the recovery rate is in [0, 1]. |
| DepartmentData.RecordCosts | generate_health_data.py:142-160 | Operating cost is salaries + 50000..200000. Beds are positive. Utilisation × beds is the admitted count. |
| DepartmentData.ClinicalDepartmentsDistinct | generate_health_data.py:120 | The six clinical departments are distinct and exclude administration. |
| DepartmentData.ClinicalUnlessAdministration | generate_health_data.py:120 | A department is clinical if and only if it is not administration. |
| DepartmentData.RecordOfKey | generate_health_data.py:124-165 | Each record counts exactly the patients and staff of its department. |
| DepartmentData.TableCoversPatients | generate_health_data.py:123-156 | The records' patient totals add up to the patients in clinical departments. |
| DepartmentData.TableCoversStaff | generate_health_data.py:123-165 | The records' staff counts plus the administration staff add up to all staff. |
| DepartmentData.GeneratedTableCountsAllPatients | generate_health_data.py:123-156 | Over generated patients, the records' totals add up to every patient. |

## Left out

- Rendering is not modelled: Streamlit widgets, charts, themes, the translation function `t`, `format_currency` and all message text. Messages are abstracted to the figures they embed, because digit rendering is float formatting.
- Loading data and JSON output are not modelled: `charger_donnees`, `generer_donnees_exemple`, `generate_all_data`. They are I/O. The engine takes the tables as inputs.
- `generate_daily_metrics` is not modelled, because it only draws random numbers. The daily table is an input.
- Random draws are not modelled as randomness: `random_date`, `randint`, `choice`, `choices` and `random`. Each drawn value is an input of the generator (`PatientDraw`, `StaffDraw`, `extraCosts`), constrained by `ValidPatientDraw` or `ValidStaffDraw` where the properties need the draw's range. The outcome weights play no part.
- The clock is an input: `datetime.now()` is the parameter `now`.
- Dates are whole seconds and calendar days, with no time zone. `format_date` is the calendar day.
- Float arithmetic is exact real arithmetic, apart from Python's `round`, which is modelled as round-half-even to an integer.
- HealthData.StaffOf: does not model `performanceScore`, a random float no core rule reads.
- DepartmentData.DepartmentRecordOf: keeps `avgStayDuration`, `recoveryRate` and `bedUtilization` exact rather than rounded to 2 decimals (`round(…, 2)`), because decimal rounding of floats is formatting.
- DepartmentData.RecoveryRateIsProportion: states the bounds and the zero case. It does not state the product "rate × discharged = recovered", because that nonlinear equation is too costly for the solver. The definition of `RecoveryRate` is that quotient.
- DepartmentData.RecordCosts: bed utilisation is not bounded by 1. The source does not bound it either: more admitted patients than beds gives a utilisation above 1.
- HealthData.DepartmentBaseCost: the default of 1200 for an unknown department is kept, but no generated patient can reach it, because patients are drawn from the six clinical departments.
- Alerts.GenerateAlerts: the `patients` parameter, which `generer_alertes` never reads, is dropped.
- Recommendations.GenerateRecommendations: the `departements` and `personnel` parameters, which `generer_recommandations` never reads, are dropped.
- Text.Lower: lower-cases the ASCII and Latin-1 capitals that the titles use. It is not full Unicode case mapping.
- Recommendations.Busiest / Recommendations.Quietest: ties go to the first department in order of first appearance in the patients column. `value_counts` orders ties by its own rule.
- DailyWindow.SortByDate: the model's sort is stable. `sort_values('date')` uses pandas' default sort, which is not guaranteed stable, so rows sharing a timestamp may reach `tail(k)` in another order.
- Alerts.CriticalFirst: `sorted` with a key is stable, so the model is the critical alerts in order, followed by the warnings in order.
- The filters never change their input tables, which holds trivially for values.

## Findings

| source | as written | input that shows it | evidently intended | confidence | as-written member | corrected member |
|---|---|---|---|---|---|---|
| Health_dash.py:925-927 | Daily rows are compared as timestamps against midnight of the end day, and the dashboard's daily rows carry the time of day of `datetime.now()`. So every row of the last selected day after midnight is dropped, including the most recent row with the default full range. | a row stamped at noon on day d, with the range [d, d] | keep every row whose calendar day lies in the inclusive range | not executed | Filters.AsWrittenDropsLastDay | Filters.FullRangeKeepsAll |

`Filters.ApplyFilters` keeps the dashboard's own comparison, so the filter stage is modelled as written. `Filters.DailyView` is the corrected table, and `Filters.AsWrittenDropsLateRows` states exactly what separates the two.
