/** BalanceViewController: its own copy of the balance state, re-rendered after every
    single field assignment (`didSet`), and the widget attributes `updateView` writes. */
module ViewController {
  import opened ViewState
  import opened Transitions

  /** The value label's opacity while the balance is redacted. */
  const AlphaForRedactedValueLabel: real := 0.0001

  /** The widget attributes of the balance screen that `updateView` sets. */
  datatype ViewAttributes = ViewAttributes(
    refreshButtonIsHidden: bool,
    activityIndicatorIsAnimating: bool,
    valueLabelText: string,
    valueLabelAlpha: real,
    infoLabelText: string,
    infoLabelTextColor: UIColor,
    redactedOverlayIsHidden: bool)

  /** What `updateView` shows for a state: the button is hidden and the spinner runs
      exactly while refreshing, the amount is dimmed and covered exactly while redacted,
      and the info label is empty exactly when there is nothing to report. */
  function Render(s: BalanceViewState, formatDate: Date -> string, formatCurrency: Balance -> Option<string>): (v: ViewAttributes)
    ensures v.refreshButtonIsHidden == v.activityIndicatorIsAnimating == s.isRefreshing
    ensures v.valueLabelAlpha < 1.0 <==> s.isRedacted
    ensures v.redactedOverlayIsHidden <==> !s.isRedacted
    ensures v.infoLabelText == "" <==> !s.didFail && !s.isRefreshing && s.lastResponse.None?
    ensures v.infoLabelTextColor == FailureInfoColor <==> s.didFail
    ensures s.lastResponse.None? ==> v.valueLabelText == ValuePlaceholder
  {
    ViewAttributes(
      refreshButtonIsHidden := s.isRefreshing,
      activityIndicatorIsAnimating := s.isRefreshing,
      valueLabelText := FormattedBalance(s, formatCurrency),
      valueLabelAlpha := if s.isRedacted then AlphaForRedactedValueLabel else 1.0,
      infoLabelText := InfoText(s, formatDate),
      infoLabelTextColor := InfoColor(s),
      redactedOverlayIsHidden := !s.isRedacted)
  }

  /** How each rendered attribute follows the state, and how the attributes agree with
      one another on every screen a consistent state produces. */
  lemma RenderReflectsState(s: BalanceViewState, formatDate: Date -> string, formatCurrency: Balance -> Option<string>)
    ensures var v := Render(s, formatDate, formatCurrency);
            && (v.refreshButtonIsHidden <==> s.isRefreshing)
            && (v.activityIndicatorIsAnimating <==> s.isRefreshing)
            && (v.valueLabelAlpha == AlphaForRedactedValueLabel <==> s.isRedacted)
            && (v.valueLabelAlpha == 1.0 <==> !s.isRedacted)
            && (v.redactedOverlayIsHidden <==> !s.isRedacted)
            && (v.infoLabelTextColor == FailureInfoColor <==> s.didFail)
            && (s.lastResponse.None? ==> v.valueLabelText == ValuePlaceholder)
    ensures Consistent(s) ==>
              var v := Render(s, formatDate, formatCurrency);
              && !(v.activityIndicatorIsAnimating && v.infoLabelTextColor == FailureInfoColor)
              && (v.activityIndicatorIsAnimating ==> LoadingText <= v.infoLabelText)
  {
    InfoTextShape(s, formatDate);
  }

  /** The widgets of the balance screen, as far as `updateView` writes them. Their
      values before the first `updateView` are UIKit's and are left unspecified. */
  class BalanceView {
    var refreshButtonIsHidden: bool
    var activityIndicatorIsAnimating: bool
    var valueLabelText: string
    var valueLabelAlpha: real
    var infoLabelText: string
    var infoLabelTextColor: UIColor
    var redactedOverlayIsHidden: bool

    function Attributes(): ViewAttributes
      reads this
    {
      ViewAttributes(refreshButtonIsHidden, activityIndicatorIsAnimating, valueLabelText,
                     valueLabelAlpha, infoLabelText, infoLabelTextColor, redactedOverlayIsHidden)
    }

    constructor ()
    {
    }
  }

  class BalanceViewController {
    const rootView: BalanceView
    const formatDate: Date -> string
    const formatCurrency: Balance -> Option<string>
    var state: BalanceViewState

    /** Every event applied so far, oldest first. */
    ghost var events: seq<Event>
    /** The state `updateView` rendered, once per field assignment. */
    ghost var renders: seq<BalanceViewState>
    /** How many times the service has been asked for the balance. */
    ghost var serviceRequests: nat

    /** The state is the fold of the events applied so far, and every state rendered
        so far is one of the single-assignment states those events pass through. */
    ghost predicate Valid()
      reads this
    {
      && state == Run(events)
      && renders == Emitted(events)
    }

    /** The widgets show the current state. */
    ghost predicate Shown()
      reads this, rootView
    {
      rootView.Attributes() == Render(state, formatDate, formatCurrency)
    }

    constructor (formatDate: Date -> string, formatCurrency: Balance -> Option<string>)
      ensures Valid() && fresh(rootView)
      ensures this.formatDate == formatDate && this.formatCurrency == formatCurrency
      ensures state == Initial && events == [] && renders == [] && serviceRequests == 0
    {
      rootView := new BalanceView();
      this.formatDate := formatDate;
      this.formatCurrency := formatCurrency;
      state := Initial;
      events := [];
      renders := [];
      serviceRequests := 0;
    }

    /** Appearing starts a refresh. */
    method ViewDidAppear()
      requires Valid()
      modifies this, rootView
      ensures Valid() && Shown()
      ensures events == old(events) + [RefreshRequested]
      ensures state == Apply(old(state), RefreshRequested)
      ensures renders == old(renders) + Steps(old(state), RefreshRequested)
      ensures serviceRequests == old(serviceRequests) + 1
    {
      RefreshBalance();
    }

    /** The sink of the refresh button's touch-up-inside events. */
    method Tap()
      requires Valid()
      modifies this, rootView
      ensures Valid() && Shown()
      ensures events == old(events) + [RefreshRequested]
      ensures state == Apply(old(state), RefreshRequested)
      ensures renders == old(renders) + Steps(old(state), RefreshRequested)
      ensures serviceRequests == old(serviceRequests) + 1
    {
      RefreshBalance();
    }

    /** Clears the failure, marks the refresh in flight, then asks the service once. */
    method RefreshBalance()
      requires Valid()
      modifies this, rootView
      ensures Valid() && Shown()
      ensures events == old(events) + [RefreshRequested]
      ensures state == Apply(old(state), RefreshRequested)
      ensures renders == old(renders) + Steps(old(state), RefreshRequested)
      ensures serviceRequests == old(serviceRequests) + 1
    {
      ghost var steps := Steps(state, RefreshRequested);
      RunAppend(events, RefreshRequested);
      state := state.(didFail := false);
      UpdateView();
      state := state.(isRefreshing := true);
      UpdateView();
      assert steps == [steps[0], state];
      AppendPair(old(renders), steps[0], state);
      serviceRequests := serviceRequests + 1;
      events := events + [RefreshRequested];
    }

    /** Applies a completion of the service, whether or not a refresh is in flight. */
    method HandleResult(result: FetchResult)
      requires Valid()
      modifies this, rootView
      ensures Valid() && Shown()
      ensures events == old(events) + [FetchCompleted(result)]
      ensures state == Apply(old(state), FetchCompleted(result))
      ensures renders == old(renders) + Steps(old(state), FetchCompleted(result))
      ensures serviceRequests == old(serviceRequests)
    {
      ghost var steps := Steps(state, FetchCompleted(result));
      RunAppend(events, FetchCompleted(result));
      state := state.(isRefreshing := false);
      UpdateView();
      match result {
        case Success(response) =>
          state := state.(lastResponse := Some(response));
          UpdateView();
          assert steps == [steps[0], state];
          AppendPair(old(renders), steps[0], state);
        case Failure =>
          state := state.(didFail := true);
          UpdateView();
          assert steps == [steps[0], state];
          AppendPair(old(renders), steps[0], state);
      }
      events := events + [FetchCompleted(result)];
    }

    /** The sink of the will-resign-active notification. */
    method BecameInactive()
      requires Valid()
      modifies this, rootView
      ensures Valid() && Shown()
      ensures events == old(events) + [Transitions.BecameInactive]
      ensures state == old(state).(isRedacted := true)
      ensures renders == old(renders) + [state]
      ensures serviceRequests == old(serviceRequests)
    {
      RunAppend(events, Transitions.BecameInactive);
      state := state.(isRedacted := true);
      UpdateView();
      events := events + [Transitions.BecameInactive];
    }

    /** The sink of the did-become-active notification. */
    method BecameActive()
      requires Valid()
      modifies this, rootView
      ensures Valid() && Shown()
      ensures events == old(events) + [Transitions.BecameActive]
      ensures state == old(state).(isRedacted := false)
      ensures renders == old(renders) + [state]
      ensures serviceRequests == old(serviceRequests)
    {
      RunAppend(events, Transitions.BecameActive);
      state := state.(isRedacted := false);
      UpdateView();
      events := events + [Transitions.BecameActive];
    }

    /** Writes every attribute of the screen from the current state, in the order
        `updateView` does, and records the render. */
    method UpdateView()
      modifies rootView, this`renders
      ensures renders == old(renders) + [state]
      ensures Shown()
    {
      rootView.refreshButtonIsHidden := state.isRefreshing;
      if state.isRefreshing {
        rootView.activityIndicatorIsAnimating := true;
      } else {
        rootView.activityIndicatorIsAnimating := false;
      }
      rootView.valueLabelText := FormattedBalance(state, formatCurrency);
      rootView.valueLabelAlpha := if state.isRedacted then AlphaForRedactedValueLabel else 1.0;
      rootView.infoLabelText := InfoText(state, formatDate);
      rootView.infoLabelTextColor := InfoColor(state);
      rootView.redactedOverlayIsHidden := !state.isRedacted;
      renders := renders + [state];
    }
  }
}
