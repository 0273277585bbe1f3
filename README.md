# Balance screen state machine, in Dafny

This project models the balance screen of the CombineIntro app. The screen fetches a
balance from a service and shows it. It keeps four facts in a `BalanceViewState`
value:

- `lastResponse`: the last successful fetch, if any;
- `didFail`: set when a fetch failed;
- `isRefreshing`: set while a fetch is expected;
- `isRedacted`: set while the application is inactive.

Three things change that value:

- starting a refresh;
- the completion the service delivers;
- the two application-lifecycle signals.

The display reads the value through three projections: `formattedBalance`,
`infoText` and `infoColor`.

The code holds two copies of the transitions, `BalanceViewModel` and
`BalanceViewController`. Both assign one field of `state` at a time. In the view
model, every assignment is published through `@Published`. In the view controller,
every assignment re-renders the screen through `didSet` → `updateView`.

Modules:

- `ViewState` (`view_state.dfy`): the state value, its defaults, the constants and
  the three projections. `infoText` is built, as in the source, by appending parts
  and joining them with a space.
- `Transitions` (`transitions.dfy`): the transitions, defined once.
  - `Steps` gives the states after each single-field assignment, in order.
  - `Apply` gives the state once all of an event's assignments are done.
  - `Run` and `Emitted` fold an event log from the initial state.
  - Lemmas describe each field of `Run(events)` directly in terms of the log, with
    no reference to the fold.
- `ViewModel` (`view_model.dfy`): the class `BalanceViewModel` with its `state`
  field. Ghost fields record the event log, every published value and the number of
  service requests. Its object invariant ties `state` to `Run(events)` and the
  published values to `Emitted(events)`, and says every published value is
  consistent.
- `ViewController` (`view_controller.dfy`): the class `BalanceViewController`.
  - The class `BalanceView` holds the widget attributes that `updateView` writes.
  - `Render` is the projection `updateView` applies.
  - A ghost `renders` log holds one entry per field assignment.
  - The object invariant `Valid` ties `state` to `Run(events)` and `renders` to
    `Emitted(events)`. Every method that changes the state also ends with
    `Shown()`: the widgets show `Render(state)`.
- `Scenarios` (`scenarios.dfy`): the view controller's expected results, one method
  per group of tests. The service stub either completes synchronously with a stored
  result or never completes.

The service is an abstract callback. A refresh counts one request, in the ghost
field `serviceRequests`. A completion is a separate `HandleResult(result)` call that
may never come. The notification and button subscriptions become the direct calls
`BecameInactive`, `BecameActive` and `Tap`. Both formatters are function parameters:

- the date formatter is `Date -> string`;
- the currency formatter is `Balance -> Option<string>`, because
  `NumberFormatter.string(from:)` may yield nothing.

Behaviour of the code worth noting:

- There is no generation counter or stale-completion guard. `handleResult` applies
  every completion, even when no refresh is in flight. `StaleCompletionIsApplied`
  shows that an older completion arriving last wins.
- A success does not clear `didFail`. Only a refresh clears it (see
  `SuccessDoesNotClearFailure`). So `didFail` means "some completion failed since
  the latest refresh", not "the most recent completion failed".
- The info text shows at most one status part. If `didFail` holds, it shows the
  failure text, even while refreshing; otherwise it shows the loading text while
  refreshing. The two never appear together.
- A success replaces `lastResponse` unconditionally. The code never compares it
  with an older response.

## Model

| member | source | states |
|---|---|---|
| `ViewState.FormattedBalance` | CombineIntro/BalanceFeature/BalanceViewState.swift:31-38 | the placeholder `"--"` when there is no response or the currency formatter yields nothing, otherwise the formatter's text for the held balance |
| `ViewState.FormattedBalanceOnlyReadsLastResponse` | CombineIntro/BalanceFeature/BalanceViewState.swift:31-38 | two states with the same last response show the same value label, so refreshing, failing and redacting never change the shown amount |
| `ViewState.InitialScreen` | CombineIntro/BalanceFeature/BalanceViewState.swift:4-14 | a fresh state holds no response and has all three flags false; the screen it gives shows the placeholder `"--"`, an empty info label and the regular colour |
| `ViewState.InfoTexts` | CombineIntro/BalanceFeature/BalanceViewState.swift:41-51 | the parts appended: one status part when failed or refreshing, one last-update part when a response is held, and nothing else; the status part is "Failed to update." whenever `didFail` (the else-if makes failure win), otherwise "Loading..."; the last part is "Last update: <date>." for the held response |
| `ViewState.Joined` | CombineIntro/BalanceFeature/BalanceViewState.swift:53 | `joined(separator:)`: no parts give `""`; the result starts with the first part; with two or more parts it is at least as long as the first part, a separator and the last part together |
| `ViewState.JoinedEndsWithLast` | CombineIntro/BalanceFeature/BalanceViewState.swift:53 | the joined text ends with the last part |
| `ViewState.InfoText` | CombineIntro/BalanceFeature/BalanceViewState.swift:40-54 | the info text is empty exactly when the fetch neither failed nor is in flight and no response is held |
| `ViewState.InfoTextShape` | CombineIntro/BalanceFeature/BalanceViewState.swift:40-54 | the info text is `""` exactly when no part applies; it starts with "Failed to update." when `didFail` (which wins over loading), with "Loading..." when only refreshing, and ends with "Last update: <date>." whenever a response is held |
| `ViewState.InfoTextTable` | CombineIntro/BalanceFeature/BalanceViewState.swift:40-54 | the info text for all six combinations of status and response, as literal strings joined by a single space |
| `ViewState.InfoColor` | CombineIntro/BalanceFeature/BalanceViewState.swift:56-58 | the failure colour (systemRed) iff `didFail`, else the regular colour (systemGray) |
| `Transitions.Steps` | CombineIntro/BalanceFeature/BalanceViewModel.swift:25-40 | every state exposed after a single assignment of a refresh or a completion is consistent (`didFail` and `isRefreshing` are never both set), whatever the starting state; a lifecycle signal keeps a consistent state consistent |
| `Transitions.Apply` | CombineIntro/BalanceFeature/BalanceViewModel.swift:14-40 | the transition table, field by field: a refresh clears `didFail` and sets `isRefreshing`; any completion clears `isRefreshing`; only a success writes `lastResponse`; only a failure sets `didFail`; the signals set and clear `isRedacted`; every other field is carried over |
| `Transitions.Run` | CombineIntro/BalanceFeature/BalanceViewModel.swift:25-40 | every state reachable from the initial state by any sequence of events is consistent |
| `Transitions.Emitted` | CombineIntro/BalanceFeature/BalanceViewModel.swift:25-40 | every intermediate state emitted over any sequence of events is consistent, and the last one is the current state |
| `Transitions.LastResponseIsLatestSuccess` | CombineIntro/BalanceFeature/BalanceViewModel.swift:33-40 | `lastResponse` is absent iff no completion has succeeded, and otherwise is the response of the most recent successful completion |
| `Transitions.DidFailIffFailureSinceRefresh` | CombineIntro/BalanceFeature/BalanceViewModel.swift:25-40 | `didFail` holds iff some completion failed after the latest refresh |
| `Transitions.IsRefreshingIffAwaitingCompletion` | CombineIntro/BalanceFeature/BalanceViewModel.swift:25-40 | `isRefreshing` holds iff a refresh has had no completion after it |
| `Transitions.IsRedactedIffLatestSignalInactive` | CombineIntro/BalanceFeature/BalanceViewModel.swift:14-22 | `isRedacted` holds iff the latest lifecycle signal was "inactive"; it is false before any signal |
| `Transitions.LastResponseNeverCleared` | CombineIntro/BalanceFeature/BalanceViewModel.swift:33-40 | once a response is held, no later sequence of events removes it |
| `Transitions.StaleCompletionIsApplied` | CombineIntro/BalanceFeature/BalanceViewModel.swift:33-36 | after two refreshes, if the newer completion arrives first, the older one still arrives with `isRefreshing` false, is still applied, and its response is what is held |
| `Transitions.SuccessDoesNotClearFailure` | CombineIntro/BalanceFeature/BalanceViewModel.swift:33-40 | a success after a failure, with no refresh between, stores the response and leaves `didFail` set |
| `ViewModel.BalanceViewModel.constructor` | CombineIntro/BalanceFeature/BalanceViewModel.swift:6-23 | the state starts with no response and all three flags false; it is published once; no request has been made |
| `ViewModel.BalanceViewModel.RefreshBalance` | CombineIntro/BalanceFeature/BalanceViewModel.swift:25-31 | publishes the state with `didFail` cleared, then with `isRefreshing` set; keeps `lastResponse` and `isRedacted`; asks the service exactly once; keeps the invariant |
| `ViewModel.BalanceViewModel.HandleResult` | CombineIntro/BalanceFeature/BalanceViewModel.swift:33-40 | with no in-flight precondition, publishes the state with `isRefreshing` cleared, then with the response stored (success) or `didFail` set (failure); makes no request |
| `ViewModel.BalanceViewModel.BecameInactive` | CombineIntro/BalanceFeature/BalanceViewModel.swift:14-17 | sets `isRedacted` and changes nothing else; publishes once |
| `ViewModel.BalanceViewModel.BecameActive` | CombineIntro/BalanceFeature/BalanceViewModel.swift:19-22 | clears `isRedacted` and changes nothing else; publishes once |
| `ViewController.Render` | CombineIntro/BalanceFeature/BalanceViewController.swift:72-85 | the refresh button is hidden and the spinner runs exactly while refreshing; the amount is dimmed exactly while redacted and the overlay is hidden exactly while not; the info label is empty exactly when there is nothing to report and red exactly when `didFail`; with no response the value label shows `"--"` |
| `ViewController.RenderReflectsState` | CombineIntro/BalanceFeature/BalanceViewController.swift:72-88 | the refresh button is hidden iff refreshing; the spinner animates iff refreshing; the value alpha is the redacted constant iff redacted, else 1; the overlay is hidden iff not redacted; for a consistent state the spinner never shows beside the failure colour, and while it spins the info text starts with "Loading..." |
| `ViewController.BalanceViewController.constructor` | CombineIntro/BalanceFeature/BalanceViewController.swift:7-22 | starts from the default state with nothing rendered and no request made, keeping the given formatters |
| `ViewController.BalanceViewController.ViewDidAppear` | CombineIntro/BalanceFeature/BalanceViewController.swift:50-53 | appearing performs one refresh: one service request and one render per assignment |
| `ViewController.BalanceViewController.Tap` | CombineIntro/BalanceFeature/BalanceViewController.swift:35-37 | each tap performs one more refresh and one more service request |
| `ViewController.BalanceViewController.RefreshBalance` | CombineIntro/BalanceFeature/BalanceViewController.swift:55-61 | the same refresh transition as the view model, rendered once after each of its two assignments; keeps the invariant that every rendered state is consistent |
| `ViewController.BalanceViewController.HandleResult` | CombineIntro/BalanceFeature/BalanceViewController.swift:63-70 | the same completion transition as the view model, with no in-flight check, rendered once after each assignment |
| `ViewController.BalanceViewController.BecameInactive` | CombineIntro/BalanceFeature/BalanceViewController.swift:39-42 | sets `isRedacted` only, and renders once |
| `ViewController.BalanceViewController.BecameActive` | CombineIntro/BalanceFeature/BalanceViewController.swift:44-47 | clears `isRedacted` only, and renders once |
| `ViewController.BalanceViewController.UpdateView` | CombineIntro/BalanceFeature/BalanceViewController.swift:9-11 | each `didSet` renders once: the widgets then show `Render` of the current state (`Shown`), and the render is logged |
| `Scenarios.RefreshThroughStub` | CombineIntroTests/CombineIntroTests.swift:228-240 | the stub counts one request and completes synchronously with its stored result, or not at all |
| `Scenarios.MakeSut` | CombineIntroTests/CombineIntroTests.swift:213-226 | a controller that has appeared has made one request and holds the refresh state, settled by the stub's result if there is one |
| `Scenarios.AppearWithoutCompletion` | CombineIntroTests/CombineIntroTests.swift:8-41 | after appearing: the request count is 1 (a ghost result), the placeholder value, the text "Loading...", the spinner animating and the refresh button hidden |
| `Scenarios.TapAfterAppear` | CombineIntroTests/CombineIntroTests.swift:13-19 | a tap after appearing makes the request count 2 (a ghost result), and the screen shows "Loading..." with the refresh button hidden |
| `Scenarios.LoadFromEmpty` | CombineIntroTests/CombineIntroTests.swift:45-81 | a first success shows the formatted amount, "Last update: <date>.", the regular colour, no spinner and a visible button |
| `Scenarios.FailFromEmpty` | CombineIntroTests/CombineIntroTests.swift:85-106 | a first failure shows "Failed to update." in the failure colour, no spinner and a visible button |
| `Scenarios.RefreshAfterLoad` | CombineIntroTests/CombineIntroTests.swift:110-133 | refreshing after a load keeps the old amount and shows "Loading... Last update: <date>." |
| `Scenarios.RefreshAfterFailure` | CombineIntroTests/CombineIntroTests.swift:137-147 | refreshing after a failure returns the info colour to regular |
| `Scenarios.FailureAfterLoad` | CombineIntroTests/CombineIntroTests.swift:151-174 | a failure after a load keeps the old amount and shows "Failed to update. Last update: <date>." |
| `Scenarios.RedactionFollowsLifecycle` | CombineIntroTests/CombineIntroTests.swift:178-205 | alpha 1 with the overlay hidden, then the redacted alpha with the overlay shown while inactive, then alpha 1 and hidden again; the value text never changes |

## Left out

- The widget layout and construction in `CombineIntro/BalanceFeature/BalanceView.swift` are pure UIKit. Only the constant `alphaForRedactedValueLabel` (0.0001) is kept. The widgets' values before the first `updateView` are left unspecified.
- `view.setNeedsLayout()` at the end of `updateView`: layout only.
- The SwiftUI previews, the preview helper and the dynamic-member subscript used by the tests: UI glue.
- The Combine `Future` wrapper `refreshBalance() -> AnyPublisher` and `FakeBalanceService`, which uses dispatch-queue timing and randomness. The service is only an abstract request counter whose completion is a separate call.
- The NotificationCenter and button subscriptions, `cancellables`, and the `[weak self]` captures. A deallocated owner would drop a completion; the model does not capture that. Each subscription is a direct method call.
- The subscriber side of `@Published`, that is, subscribing and cancelling. `published` records what one subscriber attached at construction receives. `@Published` delivers in `willSet`, before the property itself changes; the model does not capture that timing.
- Number and date formatting: locales, `Double` rounding and relative dates. Both formatters are uninterpreted function parameters, so the test's exact "$1.23" is not derivable. The view controller reads the currency formatter from a parameter rather than from the shared static formatter.
- The cause of a failure (`Error`) is dropped, because the screen only records that a fetch failed.
- UILabel text is a plain string; the optional (nil) text of an unset label is not modelled.
- Concurrency: the model assumes every completion arrives on the main thread, as with both services in the repository (`FakeBalanceService` and the synchronous test stub); the `BalanceService` protocol does not require it. Each transition is then one uninterrupted call.

## Findings

No defect was claimed. The missing stale-completion guard is how the code is
written, not an implementation slip; `StaleCompletionIsApplied` records its
consequence.
