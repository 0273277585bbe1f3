/** The view controller's expected behaviour, scenario by scenario: a controller is
    built and appears, and its service stub either completes synchronously with a
    stored result or never completes. Each scenario returns what the screen shows. */
module Scenarios {
  import opened ViewState
  import opened Transitions
  import opened ViewController

  /** One refresh through a stub: the request, then the stored result if there is one. */
  method RefreshThroughStub(sut: BalanceViewController, stubResult: Option<FetchResult>)
    requires sut.Valid()
    modifies sut, sut.rootView
    ensures sut.Valid() && sut.Shown()
    ensures sut.serviceRequests == old(sut.serviceRequests) + 1
    ensures sut.state == match stubResult
                         case None => Apply(old(sut.state), RefreshRequested)
                         case Some(r) => Apply(Apply(old(sut.state), RefreshRequested), FetchCompleted(r))
  {
    sut.Tap();
    if stubResult.Some? {
      sut.HandleResult(stubResult.value);
    }
  }

  /** A controller that has been built and has appeared once. */
  method MakeSut(formatDate: Date -> string, formatCurrency: Balance -> Option<string>, stubResult: Option<FetchResult>)
    returns (sut: BalanceViewController)
    ensures fresh(sut) && fresh(sut.rootView) && sut.Valid() && sut.Shown()
    ensures sut.formatDate == formatDate && sut.formatCurrency == formatCurrency
    ensures sut.serviceRequests == 1
    ensures sut.state == match stubResult
                         case None => Apply(Initial, RefreshRequested)
                         case Some(r) => Apply(Apply(Initial, RefreshRequested), FetchCompleted(r))
  {
    sut := new BalanceViewController(formatDate, formatCurrency);
    sut.ViewDidAppear();
    if stubResult.Some? {
      sut.HandleResult(stubResult.value);
    }
  }

  /** Appearing asks for the balance once and shows the loading screen. */
  method AppearWithoutCompletion(formatDate: Date -> string, formatCurrency: Balance -> Option<string>)
    returns (v: ViewAttributes, ghost requests: nat)
    ensures requests == 1
    ensures v.valueLabelText == "--"
    ensures v.infoLabelText == "Loading..."
    ensures v.activityIndicatorIsAnimating && v.refreshButtonIsHidden
    ensures v.infoLabelTextColor == SystemGray
  {
    var sut := MakeSut(formatDate, formatCurrency, None);
    requests := sut.serviceRequests;
    InfoTextTable(sut.state, formatDate);
    v := sut.rootView.Attributes();
  }

  /** A tap asks for the balance a second time. */
  method TapAfterAppear(formatDate: Date -> string, formatCurrency: Balance -> Option<string>)
    returns (v: ViewAttributes, ghost requests: nat)
    ensures requests == 2
    ensures v.infoLabelText == "Loading..."
    ensures v.refreshButtonIsHidden
  {
    var sut := MakeSut(formatDate, formatCurrency, None);
    RefreshThroughStub(sut, None);
    requests := sut.serviceRequests;
    InfoTextTable(sut.state, formatDate);
    v := sut.rootView.Attributes();
  }

  /** A first successful load shows the formatted amount and its date. */
  method LoadFromEmpty(formatDate: Date -> string, formatCurrency: Balance -> Option<string>, response: BalanceResponse)
    returns (v: ViewAttributes)
    ensures v.valueLabelText == FormattedBalance(Initial.(lastResponse := Some(response)), formatCurrency)
    ensures v.infoLabelText == "Last update: " + formatDate(response.date) + "."
    ensures v.infoLabelTextColor == SystemGray
    ensures !v.activityIndicatorIsAnimating && !v.refreshButtonIsHidden
  {
    var sut := MakeSut(formatDate, formatCurrency, Some(Success(response)));
    InfoTextTable(sut.state, formatDate);
    v := sut.rootView.Attributes();
  }

  /** A first failed load shows the failure text in the failure colour. */
  method FailFromEmpty(formatDate: Date -> string, formatCurrency: Balance -> Option<string>)
    returns (v: ViewAttributes)
    ensures v.valueLabelText == "--"
    ensures v.infoLabelText == "Failed to update."
    ensures v.infoLabelTextColor == SystemRed
    ensures !v.activityIndicatorIsAnimating && !v.refreshButtonIsHidden
  {
    var sut := MakeSut(formatDate, formatCurrency, Some(Failure));
    InfoTextTable(sut.state, formatDate);
    v := sut.rootView.Attributes();
  }

  /** Refreshing after a load keeps the old amount and shows loading before its date. */
  method RefreshAfterLoad(formatDate: Date -> string, formatCurrency: Balance -> Option<string>, response: BalanceResponse)
    returns (v: ViewAttributes)
    ensures v.valueLabelText == FormattedBalance(Initial.(lastResponse := Some(response)), formatCurrency)
    ensures v.infoLabelText == "Loading... Last update: " + formatDate(response.date) + "."
  {
    var sut := MakeSut(formatDate, formatCurrency, Some(Success(response)));
    RefreshThroughStub(sut, None);
    InfoTextTable(sut.state, formatDate);
    FormattedBalanceOnlyReadsLastResponse(sut.state, Initial.(lastResponse := Some(response)), formatCurrency);
    v := sut.rootView.Attributes();
  }

  /** Refreshing after a failure returns the info label to the regular colour. */
  method RefreshAfterFailure(formatDate: Date -> string, formatCurrency: Balance -> Option<string>)
    returns (v: ViewAttributes)
    ensures v.infoLabelTextColor == SystemGray
    ensures v.infoLabelText == "Loading..."
  {
    var sut := MakeSut(formatDate, formatCurrency, Some(Failure));
    RefreshThroughStub(sut, None);
    InfoTextTable(sut.state, formatDate);
    v := sut.rootView.Attributes();
  }

  /** A failure after a load keeps the old amount and shows the failure before its date. */
  method FailureAfterLoad(formatDate: Date -> string, formatCurrency: Balance -> Option<string>, response: BalanceResponse)
    returns (v: ViewAttributes)
    ensures v.valueLabelText == FormattedBalance(Initial.(lastResponse := Some(response)), formatCurrency)
    ensures v.infoLabelText == "Failed to update. Last update: " + formatDate(response.date) + "."
    ensures v.infoLabelTextColor == SystemRed
  {
    var sut := MakeSut(formatDate, formatCurrency, Some(Success(response)));
    RefreshThroughStub(sut, Some(Failure));
    InfoTextTable(sut.state, formatDate);
    FormattedBalanceOnlyReadsLastResponse(sut.state, Initial.(lastResponse := Some(response)), formatCurrency);
    v := sut.rootView.Attributes();
  }

  /** The amount is dimmed and covered while the application is inactive, and shown
      again once it is active. */
  method RedactionFollowsLifecycle(formatDate: Date -> string, formatCurrency: Balance -> Option<string>, response: BalanceResponse)
    returns (before: ViewAttributes, inactive: ViewAttributes, active: ViewAttributes)
    ensures before.valueLabelAlpha == 1.0 && before.redactedOverlayIsHidden
    ensures inactive.valueLabelAlpha == AlphaForRedactedValueLabel && !inactive.redactedOverlayIsHidden
    ensures active.valueLabelAlpha == 1.0 && active.redactedOverlayIsHidden
    ensures inactive.valueLabelText == before.valueLabelText == active.valueLabelText
  {
    var sut := MakeSut(formatDate, formatCurrency, Some(Success(response)));
    before := sut.rootView.Attributes();
    sut.BecameInactive();
    inactive := sut.rootView.Attributes();
    sut.BecameActive();
    active := sut.rootView.Attributes();
  }
}
