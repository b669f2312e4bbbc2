# Scorecard analysis form: a Dafny model

This project models the two pieces of logic of a front-end screen where a user
configures a scorecard analysis request.

- **Multi-select widget** (`multi_select.dfy`, module `MultiSelect`). The
  parent owns the selection. For each user action the widget computes a new
  list of strings and hands it back: toggle a row, Select All, Clear All, or
  remove a chip. The trigger button shows a placeholder, up to three chips, or
  one "N selected" badge. Each action is a pure function on `seq<string>`. The
  lemmas cover membership, order preservation, duplicate-freedom, staying
  inside the candidate list, and toggle round trips.
- **Analysis form** (`analytics_dashboard.dfy`, module `AnalyticsDashboard`).
  This part holds the static scorecard-to-metrics table and the dimension list.
  The form state has eight fields, and each input event writes its own field.
  Choosing a scorecard also clears the metric. `getAvailableMetrics` looks up
  the table. The submit handler `handleAnalyze` checks in two stages and stops
  at the first failure. It ends in `MissingRequired`, `MissingComparison` or
  `Accepted(payload)`.
- `option.dfy` (module `Optional`) defines `Option`, which stands for a date
  that may be unset. Only whether a date is present matters, so dates range
  over a type parameter `D`.

Some facts about the code shape the model:

- The form holds one metric string and one dimension string.
- The form has no email field and no email check.
- The widget's selection is an ordered list. Nothing in the widget prevents
  duplicates, so duplicate-freedom is proved as a preserved invariant.
- Toggling an option outside the candidate list is not guarded.
  `ToggleOption` appends it, and `ToggleOutsideOptions` states the consequence.

The metric tables are copied verbatim. That includes the transaction entry
spelled `CQUIRING_SHOPPING3P_TXN_APP_SHARE`.

## Model

| member | source | states |
|---|---|---|
| MultiSelect.Without | src/components/MultiSelect.tsx:41 | Filtering by `item !== option` keeps exactly the elements other than the option. Their multiplicities are kept and the option's drops to zero. The result is a subsequence, so relative order is kept. |
| MultiSelect.ToggleOption | src/components/MultiSelect.tsx:25-30 | If the option is selected, every occurrence is removed and the rest keep their counts and order. Otherwise the option is appended after the unchanged list. As a set, the result is `selected \ {o}` or `selected ∪ {o}`. |
| MultiSelect.SelectAll | src/components/MultiSelect.tsx:32-34 | Whatever was selected, the result is the candidate list itself, order included. It holds every candidate, and with unique candidates it is a valid selection. |
| MultiSelect.ClearAll | src/components/MultiSelect.tsx:36-38 | The result contains nothing and is a valid selection for any candidate list. |
| MultiSelect.RemoveSelected | src/components/MultiSelect.tsx:40-42 | The option is absent afterwards. Every other item keeps its count. Nothing is added and the length does not grow. The result is a subsequence of the selection. If the option was not selected, nothing changes. |
| MultiSelect.ShowSelection | src/components/MultiSelect.tsx:59-82 | Length 0 shows the placeholder, 1 to 3 shows one chip per item in order, and more than 3 shows one badge with the count. The three cases are exclusive and cover every length. |
| MultiSelect.EmptySelectionShowsDefaultPlaceholder | src/components/MultiSelect.tsx:20 | A caller that passes no placeholder sees "Select options..." while nothing is selected. |
| MultiSelect.WithoutAbsent | src/components/MultiSelect.tsx:41 | Filtering out a value that does not occur returns the list unchanged. |
| MultiSelect.WithoutAppend | src/components/MultiSelect.tsx:41 | Filtering distributes over concatenation. |
| MultiSelect.WithoutKeepsNoDuplicates | src/components/MultiSelect.tsx:41 | Filtering keeps a duplicate-free list duplicate-free. |
| MultiSelect.ToggleTwiceAbsent | src/components/MultiSelect.tsx:25-29 | Toggling an unselected option twice restores the exact original list, order included. |
| MultiSelect.ToggleTwicePresent | src/components/MultiSelect.tsx:25-29 | Toggling a selected option twice restores the same elements. The option moves to the end after the filtered list. |
| MultiSelect.ToggleKeepsNoDuplicates | src/components/MultiSelect.tsx:26-28 | A duplicate-free selection stays duplicate-free after a toggle. |
| MultiSelect.ToggleKeepsValid | src/components/MultiSelect.tsx:108-115 | Toggling a row drawn from the candidates keeps a selection duplicate-free and inside the candidates. |
| MultiSelect.ToggleOutsideOptions | src/components/MultiSelect.tsx:25-29 | The toggle does not guard its input. An unselected non-candidate is appended, and the result is no longer inside the candidates. |
| MultiSelect.RemoveKeepsValid | src/components/MultiSelect.tsx:40-42 | Removing keeps a selection duplicate-free and inside the candidates. |
| MultiSelect.RemoveIdempotent | src/components/MultiSelect.tsx:40-42 | Removing an option twice gives the same list as removing it once. |
| MultiSelect.RemoveIsToggleWhenSelected | src/components/MultiSelect.tsx:25-42 | For a selected option, removing it and toggling it give the same list. |
| MultiSelect.ChipRemovalIsToggle | src/components/MultiSelect.tsx:62-75 | Every chip shown names a selected item, so its remove cross has the same effect as toggling that item's row. |
| MultiSelect.Apply | src/components/MultiSelect.tsx:25-42 | A row click on an unselected option appends it to the unchanged list. A row click on a selected option, and a chip removal, drop every occurrence of the option and keep the other items' counts and order. Clear All always emits the empty list. Select All emits the candidate list verbatim. |
| MultiSelect.ApplyKeepsValid | src/components/MultiSelect.tsx:93-115 | With unique candidates, every action the rendered widget can produce keeps the selection valid. |
| AnalyticsDashboard.AvailableMetrics | src/components/AnalyticsDashboard.tsx:86-88 | An unset or unknown scorecard gives the empty list. Each of the two table keys gives its 11-entry list. The list is non-empty exactly for the two scorecards. |
| AnalyticsDashboard.TablesWellFormed | src/components/AnalyticsDashboard.tsx:14-43 | The table has exactly the two scorecards. Each has 11 distinct non-empty metrics, and the two lists share none. The three dimensions are distinct and include the default. |
| AnalyticsDashboard.InitialState | src/components/AnalyticsDashboard.tsx:46-53 | The form starts with an empty scorecard and metric, dimension `Overall`, no dates and comparison off. Such a form offers no metrics, satisfies the form's consistency invariant, and is rejected for missing required fields. |
| AnalyticsDashboard.HandleScorecardChange | src/components/AnalyticsDashboard.tsx:55-58 | The scorecard is set and the metric cleared. No other field changes, and the result cannot be submitted until a metric is picked again. |
| AnalyticsDashboard.ScorecardChangeIgnoresMetric | src/components/AnalyticsDashboard.tsx:55-58 | The state after a scorecard change does not depend on the previous metric. |
| AnalyticsDashboard.HandleAnalyze | src/components/AnalyticsDashboard.tsx:60-84 | The result is a required-field rejection exactly when a required field is unset. It is a comparison rejection exactly when those are set, comparison is on and a comparison date is missing. Otherwise it is accepted, with a payload describing the very state submitted. |
| AnalyticsDashboard.AlertMessage | src/components/AnalyticsDashboard.tsx:60-84 | Each outcome gets its own alert text, and the text identifies the outcome. |
| AnalyticsDashboard.RequiredCheckFirst | src/components/AnalyticsDashboard.tsx:61-69 | A missing required field is reported whatever the comparison flag and dates are. |
| AnalyticsDashboard.ComparisonDatesIgnoredWhenDisabled | src/components/AnalyticsDashboard.tsx:66-81 | With comparison off, the comparison dates never cause a rejection. The payload still carries the stored dates. |
| AnalyticsDashboard.DimensionNeverRejects | src/components/AnalyticsDashboard.tsx:60-81 | Changing the dimension leaves the outcome kind unchanged. In the payload it changes only the dimension. |
| AnalyticsDashboard.PayloadRoundTrip | src/components/AnalyticsDashboard.tsx:72-81 | Submitting the state a passing payload describes yields exactly that payload. |
| AnalyticsDashboard.Step | src/components/AnalyticsDashboard.tsx:117-295 | Each input stores its reported value in its own field, and a scorecard choice also clears the metric. No other field changes; in particular, toggling comparison keeps the comparison dates. |
| AnalyticsDashboard.StepKeepsConsistent | src/components/AnalyticsDashboard.tsx:117-165 | Each value the selectors offer keeps the form consistent: a known or unset scorecard, a metric from its list or unset, and a listed dimension. |
| AnalyticsDashboard.RunKeepsConsistent | src/components/AnalyticsDashboard.tsx:117-165 | Any sequence of offered inputs keeps a consistent form consistent. |
| AnalyticsDashboard.ReachableIsConsistent | src/components/AnalyticsDashboard.tsx:46-165 | Every form reached from the initial state by offered inputs is consistent. |
| AnalyticsDashboard.AcceptedPayloadIsMeaningful | src/components/AnalyticsDashboard.tsx:60-81 | From a consistent form, an accepted payload names a real scorecard, one of its metrics and a listed dimension. |
| AnalyticsDashboard.AcceptedScenario | src/components/AnalyticsDashboard.tsx:60-84 | A transaction scorecard with one metric, a January 2024 period and comparison off is accepted as entered, with no comparison dates. |
| AnalyticsDashboard.MissingComparisonScenario | src/components/AnalyticsDashboard.tsx:66-69 | With comparison on and no comparison start date, a form with all required fields is rejected with the comparison-dates alert. |

## Left out

- Rendering is left out: JSX, styling, icons, and the Card, Select, Popover and Calendar components. The widget's own popover `open` state is left out too. All of these are presentational.
- The widget's `disabled` flag disables the trigger button. The popover then cannot open, which blocks toggle, Select All and Clear All. The model describes an enabled widget and does not model this blocking.
- The click on a chip's remove cross calls `stopPropagation`. That is DOM event plumbing; the model keeps only the resulting `RemoveSelected`.
- MultiSelect.ShowSelection: the summary badge carries the count. The literal text "N selected" is not built.
- `alert` and `console.log` are side effects. They appear only as the `Outcome` value and `AlertMessage`.
- Date formatting and calendar behaviour are left out. Dates count only as present or absent.
- AnalyticsDashboard.AvailableMetrics: the table is a plain map. In the source, the lookup is a JavaScript property access. It would also find names inherited from the object prototype, such as `constructor`. The scorecard selector offers only the two table keys, so that case cannot be reached.
- The metric selector is disabled while no scorecard is chosen. This is not modelled separately, because an unset scorecard offers no metrics anyway.
- The code has no email validation, multi-metric selection or backend submission, so none is modelled.
