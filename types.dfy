/** The alert vocabulary and record shapes shared by the whole application (src/types.ts). */
module Types {
  import opened Wrappers

  /** The five statuses the engine reports; there is no sixth, degraded status. */
  datatype AlertStatus = Safe | NearShelter | PreAlert | GoToShelter | InShelter

  /** `ALERT_CATEGORY`: the upstream provider's integer category codes. */
  const MISSILES := 1
  const HOSTILE_AIRCRAFT := 2
  const EARTHQUAKE := 7
  const TERRORIST_INFILTRATION := 10
  const TSUNAMI := 11
  const HAZARDOUS_MATERIALS := 12
  const END := 13
  const PRE_ALERT := 14

  /** The values of `ALERT_CATEGORY`, in declaration order. */
  const ALERT_CATEGORIES: seq<int> :=
    [MISSILES, HOSTILE_AIRCRAFT, EARTHQUAKE, TERRORIST_INFILTRATION, TSUNAMI, HAZARDOUS_MATERIALS, END, PRE_ALERT]

  /** `DANGER_CATEGORIES`: the categories that send people to shelter at once. */
  const DANGER_CATEGORIES: set<int> :=
    {MISSILES, HOSTILE_AIRCRAFT, TERRORIST_INFILTRATION, HAZARDOUS_MATERIALS}

  /** `OrefAlert`: a currently active alert. `data` lists the affected areas; the feed may omit it. */
  datatype OrefAlert = OrefAlert(cat: string, data: Option<seq<string>>, desc: string, title: string)

  /** `HistoryAlert`: one past alert for one area. `time` is the millisecond value of
      `alertDate` (`new Date(alertDate).getTime()`), which the model takes as given. */
  datatype HistoryAlert = HistoryAlert(
    alertDate: string,
    time: int,
    data: string,
    category: int,
    categoryDesc: Option<string>,
    title: Option<string>,
    matrixId: Option<int>,
    rid: Option<int>)

  lemma CategoryCodes()
    ensures ALERT_CATEGORIES == [1, 2, 7, 10, 11, 12, 13, 14]
    ensures forall i, j :: 0 <= i < j < |ALERT_CATEGORIES| ==> ALERT_CATEGORIES[i] < ALERT_CATEGORIES[j]
  {
  }

  lemma DangerCategories()
    ensures DANGER_CATEGORIES == {1, 2, 10, 12}
    ensures forall c :: c in DANGER_CATEGORIES ==> c in ALERT_CATEGORIES
    ensures EARTHQUAKE !in DANGER_CATEGORIES && TSUNAMI !in DANGER_CATEGORIES
    ensures END !in DANGER_CATEGORIES && PRE_ALERT !in DANGER_CATEGORIES
  {
  }

  lemma FiveStatuses(s: AlertStatus)
    ensures s in {Safe, NearShelter, PreAlert, GoToShelter, InShelter}
  {
  }
}
