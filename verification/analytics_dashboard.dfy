/** The analysis form of the dashboard: its static tables, its state, the
    handlers that change that state, and the submit validator.

    Dates are kept abstract: the validator only asks whether a date is set, so
    a date field is an `Option<D>` over an arbitrary type `D`. */
module AnalyticsDashboard {

  import opened Optional
  import MultiSelect

  // ---------------------------------------------------------------------------
  // Static tables
  // ---------------------------------------------------------------------------

  const TXN_SCORECARD: string := "Topline TXN Scorecard"
  const TPV_SCORECARD: string := "Topline TPV Scorecard"

  /** The transaction-share metrics, verbatim (including the entry spelled
      "CQUIRING_SHOPPING3P_TXN_APP_SHARE"). */
  const TXN_METRICS: seq<string> := [
    "APIPL_TXN_APP_SHARE",
    "PAY_TXN_APP_SHARE",
    "EUC_TXN_APP_SHARE",
    "EUC_CORE_TXN_APP_SHARE",
    "GC_CORPRET_TXN_APP_SHARE",
    "GC_INTERNAL_TXN_APP_SHARE",
    "STORES_APP_TXN_APP_SHARE",
    "ACQUIRING_APP_TXN_SHARE",
    "ACQUIRING_PROSTORES3P_TXN_APP_SHARE",
    "CQUIRING_SHOPPING3P_TXN_APP_SHARE",
    "STORES_APP_TXN_SHARE"
  ]

  /** The payment-value-share metrics, verbatim. */
  const TPV_METRICS: seq<string> := [
    "APIPL_TPV_APP_SHARE",
    "PAY_TPV_APP_SHARE",
    "EUC_TPV_APP_SHARE",
    "EUC_CORE_TPV_APP_SHARE",
    "GC_CORPRET_TPV_APP_SHARE",
    "GC_INTERNAL_TPV_APP_SHARE",
    "STORES_APP_TPV_APP_SHARE",
    "ACQUIRING_TPV_APP_SHARE",
    "ACQUIRING_PROSTORES3P_TPV_APP_SHARE",
    "ACQUIRING_SHOPPING3P_TPV_APP_SHARE",
    "STORES_TPV_APP_SHARE"
  ]

  /** Scorecard name to its metric list. */
  const SCORECARD_METRICS: map<string, seq<string>> :=
    map[TXN_SCORECARD := TXN_METRICS, TPV_SCORECARD := TPV_METRICS]

  /** The breakdown dimensions offered by the dimension selector. */
  const DIMENSIONS: seq<string> := ["Overall", "Use_case", "Sub_usecase"]

  /** The dimension a fresh form starts with. */
  const DEFAULT_DIMENSION: string := "Overall"

  const REQUIRED_FIELDS_MESSAGE: string := "Please fill in all required fields"
  const COMPARISON_DATES_MESSAGE: string := "Please select comparison dates"
  const SUBMITTED_MESSAGE: string := "Analysis request submitted! (Backend integration needed)"

  // ---------------------------------------------------------------------------
  // State and outcome
  // ---------------------------------------------------------------------------

  /** The eight pieces of component state. An empty string is an unset
      scorecard or metric. */
  datatype FormState<D> = FormState(
    scorecard: string,
    metric: string,
    dimension: string,
    startDate: Option<D>,
    endDate: Option<D>,
    compareStartDate: Option<D>,
    compareEndDate: Option<D>,
    enableComparison: bool
  )

  /** The analysis parameters assembled on a successful submit. */
  datatype Payload<D> = Payload(
    scorecard: string,
    metric: string,
    dimension: string,
    periodStart: Option<D>,
    periodEnd: Option<D>,
    compareStart: Option<D>,
    compareEnd: Option<D>,
    enableComparison: bool
  )

  /** What a click on "Analyze Data" ends in. */
  datatype Outcome<D> =
    | MissingRequired
    | MissingComparison
    | Accepted(payload: Payload<D>)

  /** Scorecard, metric and both primary dates are set. */
  predicate RequiredFilled<D>(s: FormState<D>) {
    s.scorecard != "" && s.metric != "" && s.startDate.Some? && s.endDate.Some?
  }

  /** Both comparison dates are set. */
  predicate ComparisonFilled<D>(s: FormState<D>) {
    s.compareStartDate.Some? && s.compareEndDate.Some?
  }

  /** The form state a payload was assembled from. */
  function StateOf<D>(p: Payload<D>): FormState<D> {
    FormState(p.scorecard, p.metric, p.dimension, p.periodStart, p.periodEnd,
              p.compareStart, p.compareEnd, p.enableComparison)
  }

  // ---------------------------------------------------------------------------
  // Operations
  // ---------------------------------------------------------------------------

  /** The metric candidates for a scorecard: its table entry, or nothing when
      the scorecard is unset or unknown. */
  function AvailableMetrics(scorecard: string): (r: seq<string>)
    ensures scorecard == "" ==> r == []
    ensures scorecard !in SCORECARD_METRICS ==> r == []
    ensures scorecard in SCORECARD_METRICS ==> r == SCORECARD_METRICS[scorecard] && |r| == 11
    ensures |r| > 0 <==> scorecard == TXN_SCORECARD || scorecard == TPV_SCORECARD
  {
    if scorecard == "" then []
    else if scorecard in SCORECARD_METRICS then SCORECARD_METRICS[scorecard]
    else []
  }

  /** The state the form starts in. */
  function InitialState<D>(): (s: FormState<D>)
    ensures s.scorecard == "" && s.metric == "" && s.dimension == DEFAULT_DIMENSION
    ensures s.startDate == None && s.endDate == None
    ensures s.compareStartDate == None && s.compareEndDate == None
    ensures !s.enableComparison
    ensures AvailableMetrics(s.scorecard) == []
    ensures HandleAnalyze(s) == MissingRequired
    ensures Consistent(s)
  {
    FormState("", "", DEFAULT_DIMENSION, None, None, None, None, false)
  }

  /** Choosing a scorecard: the new scorecard is stored and the metric is
      cleared, since it belonged to the old candidate list. */
  function HandleScorecardChange<D>(s: FormState<D>, value: string): (t: FormState<D>)
    ensures t.scorecard == value && t.metric == ""
    ensures t.dimension == s.dimension && t.enableComparison == s.enableComparison
    ensures t.startDate == s.startDate && t.endDate == s.endDate
    ensures t.compareStartDate == s.compareStartDate && t.compareEndDate == s.compareEndDate
    ensures HandleAnalyze(t) == MissingRequired
  {
    s.(scorecard := value, metric := "")
  }

  /** The submit handler: the required fields are checked first, the
      comparison dates second, and only then is the payload assembled. */
  function HandleAnalyze<D>(s: FormState<D>): (r: Outcome<D>)
    ensures r.MissingRequired? <==> !RequiredFilled(s)
    ensures r.MissingComparison? <==>
              RequiredFilled(s) && s.enableComparison && !ComparisonFilled(s)
    ensures r.Accepted? <==>
              RequiredFilled(s) && (s.enableComparison ==> ComparisonFilled(s))
    ensures r.Accepted? ==> StateOf(r.payload) == s
  {
    if s.scorecard == "" || s.metric == "" || s.startDate.None? || s.endDate.None? then
      MissingRequired
    else if s.enableComparison && (s.compareStartDate.None? || s.compareEndDate.None?) then
      MissingComparison
    else
      Accepted(Payload(
        scorecard := s.scorecard,
        metric := s.metric,
        dimension := s.dimension,
        periodStart := s.startDate,
        periodEnd := s.endDate,
        compareStart := s.compareStartDate,
        compareEnd := s.compareEndDate,
        enableComparison := s.enableComparison))
  }

  /** The alert shown for each outcome. */
  function AlertMessage<D>(r: Outcome<D>): (m: string)
    ensures r.MissingRequired? <==> m == REQUIRED_FIELDS_MESSAGE
    ensures r.MissingComparison? <==> m == COMPARISON_DATES_MESSAGE
    ensures r.Accepted? <==> m == SUBMITTED_MESSAGE
  {
    match r
    case MissingRequired => REQUIRED_FIELDS_MESSAGE
    case MissingComparison => COMPARISON_DATES_MESSAGE
    case Accepted(_) => SUBMITTED_MESSAGE
  }

  // ---------------------------------------------------------------------------
  // Input events
  // ---------------------------------------------------------------------------

  /** A change reported by one of the form's inputs. The date pickers report
      `None` when a picked date is clicked again. */
  datatype Event<D> =
    | ScorecardSelected(scorecard: string)
    | MetricSelected(metric: string)
    | DimensionSelected(dimension: string)
    | StartDatePicked(date: Option<D>)
    | EndDatePicked(date: Option<D>)
    | CompareStartDatePicked(date: Option<D>)
    | CompareEndDatePicked(date: Option<D>)
    | ComparisonToggled(checked: bool)

  /** The state after an input event: each event writes its own field, and a
      scorecard choice also clears the metric. */
  function Step<D>(s: FormState<D>, e: Event<D>): (t: FormState<D>)
    ensures e.ScorecardSelected? ==> t.scorecard == e.scorecard && t.metric == ""
    ensures e.MetricSelected? ==> t.metric == e.metric
    ensures e.DimensionSelected? ==> t.dimension == e.dimension
    ensures e.StartDatePicked? ==> t.startDate == e.date
    ensures e.EndDatePicked? ==> t.endDate == e.date
    ensures e.CompareStartDatePicked? ==> t.compareStartDate == e.date
    ensures e.CompareEndDatePicked? ==> t.compareEndDate == e.date
    ensures e.ComparisonToggled? ==> t.enableComparison == e.checked
    ensures t.scorecard != s.scorecard ==> e.ScorecardSelected?
    ensures t.metric != s.metric ==> e.ScorecardSelected? || e.MetricSelected?
    ensures t.dimension != s.dimension ==> e.DimensionSelected?
    ensures t.startDate != s.startDate ==> e.StartDatePicked?
    ensures t.endDate != s.endDate ==> e.EndDatePicked?
    ensures t.compareStartDate != s.compareStartDate ==> e.CompareStartDatePicked?
    ensures t.compareEndDate != s.compareEndDate ==> e.CompareEndDatePicked?
    ensures t.enableComparison != s.enableComparison ==> e.ComparisonToggled?
  {
    match e
    case ScorecardSelected(v) => HandleScorecardChange(s, v)
    case MetricSelected(m) => s.(metric := m)
    case DimensionSelected(d) => s.(dimension := d)
    case StartDatePicked(d) => s.(startDate := d)
    case EndDatePicked(d) => s.(endDate := d)
    case CompareStartDatePicked(d) => s.(compareStartDate := d)
    case CompareEndDatePicked(d) => s.(compareEndDate := d)
    case ComparisonToggled(b) => s.(enableComparison := b)
  }

  /** The state after a sequence of input events. */
  function Run<D>(s: FormState<D>, es: seq<Event<D>>): FormState<D>
    decreases |es|
  {
    if |es| == 0 then s else Run(Step(s, es[0]), es[1..])
  }

  /** The values the rendered selectors can report: the two scorecards, a
      metric of the current scorecard's list, one of the dimensions. The
      comparison date pickers are offered even while comparison is off, which
      over-approximates the form: it renders them only when comparison is on. */
  predicate Offered<D>(s: FormState<D>, e: Event<D>) {
    match e
    case ScorecardSelected(v) => v in SCORECARD_METRICS
    case MetricSelected(m) => m in AvailableMetrics(s.scorecard)
    case DimensionSelected(d) => d in DIMENSIONS
    case _ => true
  }

  /** Every event of `es` is offered by the form it arrives at, starting
      from `s`. */
  predicate OfferedRun<D>(s: FormState<D>, es: seq<Event<D>>) {
    forall k :: 0 <= k < |es| ==> Offered(Run(s, es[..k]), es[k])
  }

  /** The form's invariant: the scorecard is unset or a table key, the metric
      is unset or belongs to that scorecard's list, and the dimension is one of
      the dimensions. */
  predicate Consistent<D>(s: FormState<D>) {
    && (s.scorecard == "" || s.scorecard in SCORECARD_METRICS)
    && (s.metric == "" || s.metric in AvailableMetrics(s.scorecard))
    && s.dimension in DIMENSIONS
  }

  // ---------------------------------------------------------------------------
  // Lemmas
  // ---------------------------------------------------------------------------

  /** The tables hold two scorecards of eleven distinct, non-empty metrics
      each, no metric shared, and three distinct dimensions including the
      default. */
  lemma TablesWellFormed()
    ensures SCORECARD_METRICS.Keys == {TXN_SCORECARD, TPV_SCORECARD}
    ensures forall k :: k in SCORECARD_METRICS ==>
              |SCORECARD_METRICS[k]| == 11
              && MultiSelect.NoDuplicates(SCORECARD_METRICS[k])
              && "" !in SCORECARD_METRICS[k]
    ensures forall m :: m in TXN_METRICS ==> m !in TPV_METRICS
    ensures MultiSelect.NoDuplicates(DIMENSIONS) && DEFAULT_DIMENSION in DIMENSIONS
  {
  }

  /** The scorecard handler forgets the previous metric entirely. */
  lemma ScorecardChangeIgnoresMetric<D>(s: FormState<D>, metric: string, value: string)
    ensures HandleScorecardChange(s.(metric := metric), value) == HandleScorecardChange(s, value)
  {
  }

  /** A missing required field is reported whatever the comparison settings. */
  lemma RequiredCheckFirst<D>(s: FormState<D>, on: bool, cs: Option<D>, ce: Option<D>)
    requires !RequiredFilled(s)
    ensures HandleAnalyze(s.(enableComparison := on, compareStartDate := cs, compareEndDate := ce))
         == MissingRequired
  {
  }

  /** With comparison off, the comparison dates do not change the verdict; an
      accepted payload still carries whatever dates were stored. */
  lemma ComparisonDatesIgnoredWhenDisabled<D>(s: FormState<D>, cs: Option<D>, ce: Option<D>)
    requires !s.enableComparison
    ensures var t := s.(compareStartDate := cs, compareEndDate := ce);
            && HandleAnalyze(t).MissingRequired? == HandleAnalyze(s).MissingRequired?
            && !HandleAnalyze(t).MissingComparison?
            && (HandleAnalyze(t).Accepted? ==>
                  HandleAnalyze(t).payload.compareStart == cs
                  && HandleAnalyze(t).payload.compareEnd == ce)
  {
  }

  /** The dimension is never inspected: changing it changes the payload's
      dimension and nothing else about the outcome. */
  lemma DimensionNeverRejects<D>(s: FormState<D>, d: string)
    ensures var t := s.(dimension := d);
            && HandleAnalyze(t).MissingRequired? == HandleAnalyze(s).MissingRequired?
            && HandleAnalyze(t).MissingComparison? == HandleAnalyze(s).MissingComparison?
            && (HandleAnalyze(t).Accepted? ==>
                  HandleAnalyze(t).payload == HandleAnalyze(s).payload.(dimension := d))
  {
  }

  /** A payload that passes validation is reproduced by submitting the state
      it describes. */
  lemma PayloadRoundTrip<D>(p: Payload<D>)
    requires p.scorecard != "" && p.metric != ""
    requires p.periodStart.Some? && p.periodEnd.Some?
    requires p.enableComparison ==> p.compareStart.Some? && p.compareEnd.Some?
    ensures HandleAnalyze(StateOf(p)) == Accepted(p)
  {
  }

  /** Every input event the form offers keeps the form consistent. */
  lemma StepKeepsConsistent<D>(s: FormState<D>, e: Event<D>)
    requires Consistent(s) && Offered(s, e)
    ensures Consistent(Step(s, e))
  {
  }

  /** Any sequence of offered events keeps a consistent state consistent. */
  lemma {:induction false} RunKeepsConsistent<D>(s: FormState<D>, es: seq<Event<D>>)
    requires Consistent(s)
    requires OfferedRun(s, es)
    ensures Consistent(Run(s, es))
    decreases |es|
  {
    if |es| > 0 {
      assert Offered(Run(s, es[..0]), es[0]);
      assert es[..0] == [];
      StepKeepsConsistent(s, es[0]);
      var t := Step(s, es[0]);
      forall k | 0 <= k < |es[1..]|
        ensures Offered(Run(t, es[1..][..k]), es[1..][k])
      {
        assert es[..k + 1][0] == es[0];
        assert es[..k + 1][1..] == es[1..][..k];
        assert Offered(Run(s, es[..k + 1]), es[k + 1]);
      }
      assert OfferedRun(t, es[1..]);
      RunKeepsConsistent(t, es[1..]);
    }
  }

  /** Any sequence of offered events from the initial state ends in a
      consistent state. */
  lemma ReachableIsConsistent<D>(es: seq<Event<D>>)
    requires OfferedRun(InitialState(), es)
    ensures Consistent(Run(InitialState(), es))
  {
    var init := InitialState<D>();
    assert Consistent(init);
    RunKeepsConsistent(init, es);
  }

  /** From a consistent state, an accepted payload names a real scorecard, a
      metric of that scorecard and an offered dimension. */
  lemma AcceptedPayloadIsMeaningful<D>(s: FormState<D>)
    requires Consistent(s)
    requires HandleAnalyze(s).Accepted?
    ensures var p := HandleAnalyze(s).payload;
            && p.scorecard in SCORECARD_METRICS
            && p.metric in SCORECARD_METRICS[p.scorecard]
            && p.dimension in DIMENSIONS
  {
  }

  /** A transaction scorecard request with one metric, January 2024 as the
      period and comparison off is accepted as entered. */
  lemma AcceptedScenario()
    ensures var s := InitialState<int>()
                       .(scorecard := TXN_SCORECARD, metric := "APIPL_TXN_APP_SHARE",
                         startDate := Some(20240101), endDate := Some(20240131));
            HandleAnalyze(s)
              == Accepted(Payload(TXN_SCORECARD, "APIPL_TXN_APP_SHARE", "Overall",
                                  Some(20240101), Some(20240131), None, None, false))
  {
  }

  /** Comparison on with a missing comparison start is rejected for the
      comparison dates, even when everything else is filled in. */
  lemma MissingComparisonScenario<D>(s: FormState<D>)
    requires RequiredFilled(s) && s.enableComparison && s.compareStartDate.None?
    ensures HandleAnalyze(s) == MissingComparison
    ensures AlertMessage(HandleAnalyze(s)) == COMPARISON_DATES_MESSAGE
  {
  }
}
