/** The transitions the balance screen makes, written once. BalanceViewModel and
    BalanceViewController both carry a copy of them; each copy assigns one field of
    `state` at a time, and every single assignment is observable (a `@Published`
    emission in the view model, a `didSet` re-render in the view controller). */
module Transitions {
  import opened ViewState

  /** What drives the screen: the refresh it starts, the completion its service
      delivers, and the two application-lifecycle signals. */
  datatype Event =
    | RefreshRequested
    | FetchCompleted(result: FetchResult)
    | BecameInactive
    | BecameActive

  predicate IsSuccess(e: Event) {
    e.FetchCompleted? && e.result.Success?
  }

  function Last<T>(s: seq<T>): T
    requires |s| > 0
  {
    s[|s| - 1]
  }

  /** The states after each single-field assignment the event performs, in order.
      There are at most two, so the first and the last are all of them: a refresh and
      a completion pass only through consistent states whatever they start from, and a
      lifecycle signal keeps a consistent state consistent. */
  function Steps(s: BalanceViewState, e: Event): (steps: seq<BalanceViewState>)
    ensures 1 <= |steps| <= 2
    ensures !e.BecameInactive? && !e.BecameActive? ==> Consistent(steps[0]) && Consistent(Last(steps))
    ensures Consistent(s) ==> Consistent(steps[0]) && Consistent(Last(steps))
  {
    match e
    case RefreshRequested =>
      var cleared := s.(didFail := false);
      var refreshing := cleared.(isRefreshing := true);
      [cleared, refreshing]
    case FetchCompleted(result) =>
      var settled := s.(isRefreshing := false);
      var recorded :=
        match result
        case Success(response) => settled.(lastResponse := Some(response))
        case Failure => settled.(didFail := true);
      [settled, recorded]
    case BecameInactive =>
      [s.(isRedacted := true)]
    case BecameActive =>
      [s.(isRedacted := false)]
  }

  /** The state once the event's assignments are all done. A completion is applied
      whatever `isRefreshing` is: there is no check that a fetch is in flight. */
  function Apply(s: BalanceViewState, e: Event): (t: BalanceViewState)
    ensures t.lastResponse == (if IsSuccess(e) then Some(e.result.response) else s.lastResponse)
    ensures t.didFail == (if e.RefreshRequested? then false
                          else if e == FetchCompleted(Failure) then true
                          else s.didFail)
    ensures t.isRefreshing == (if e.RefreshRequested? then true
                               else if e.FetchCompleted? then false
                               else s.isRefreshing)
    ensures t.isRedacted == (if e.BecameInactive? then true
                             else if e.BecameActive? then false
                             else s.isRedacted)
    ensures Consistent(s) ==> Consistent(t)
  {
    Last(Steps(s, e))
  }

  /** The state after a whole log of events, starting from the initial state. */
  function Run(events: seq<Event>): (s: BalanceViewState)
    ensures Consistent(s)
    decreases |events|
  {
    if events == [] then Initial
    else Apply(Run(events[..|events| - 1]), Last(events))
  }

  /** Every state observable after a single assignment, over a whole log of events. */
  function Emitted(events: seq<Event>): (states: seq<BalanceViewState>)
    ensures |states| >= |events|
    ensures forall i | 0 <= i < |states| :: Consistent(states[i])
    ensures events != [] ==> Last(states) == Run(events)
    decreases |events|
  {
    if events == [] then []
    else
      var before := events[..|events| - 1];
      Emitted(before) + Steps(Run(before), Last(events))
  }

  /** Unfolds Run and Emitted on a log that grows by one event. */
  lemma RunAppend(events: seq<Event>, e: Event)
    ensures Run(events + [e]) == Apply(Run(events), e)
    ensures Emitted(events + [e]) == Emitted(events) + Steps(Run(events), e)
  {
    assert (events + [e])[..|events|] == events;
  }

  lemma AppendPair<T>(xs: seq<T>, a: T, b: T)
    ensures xs + [a] + [b] == xs + [a, b]
  {
  }

  /** What a subscriber attached from the start has seen after a log of events: the
      initial value, then every single-assignment state. */
  ghost predicate PublishedFor(published: seq<BalanceViewState>, events: seq<Event>) {
    && published == [Initial] + Emitted(events)
    && forall i | 0 <= i < |published| :: Consistent(published[i])
  }

  /** A new event extends what has been published by exactly its steps. */
  lemma PublishedAppend(published: seq<BalanceViewState>, events: seq<Event>, e: Event)
    requires PublishedFor(published, events)
    ensures Run(events + [e]) == Apply(Run(events), e)
    ensures PublishedFor(published + Steps(Run(events), e), events + [e])
  {
    RunAppend(events, e);
    var steps := Steps(Run(events), e);
    var next := published + steps;
    assert next == [Initial] + Emitted(events + [e]);
    forall i | 0 <= i < |next| ensures Consistent(next[i]) {
      if i >= |published| {
        assert next[i] == steps[i - |published|];
      }
    }
  }

  ghost predicate NoSuccessAfter(events: seq<Event>, i: int) {
    forall j | 0 <= j < |events| && i < j :: !IsSuccess(events[j])
  }

  ghost predicate NoRefreshAfter(events: seq<Event>, i: int) {
    forall j | 0 <= j < |events| && i < j :: !events[j].RefreshRequested?
  }

  ghost predicate NoCompletionAfter(events: seq<Event>, i: int) {
    forall j | 0 <= j < |events| && i < j :: !events[j].FetchCompleted?
  }

  ghost predicate NoSignalAfter(events: seq<Event>, i: int) {
    forall j | 0 <= j < |events| && i < j :: !events[j].BecameInactive? && !events[j].BecameActive?
  }

  /** `lastResponse` is the response of the most recent successful completion, and
      absent exactly while no completion has succeeded. */
  lemma {:induction false} LastResponseIsLatestSuccess(events: seq<Event>)
    ensures Run(events).lastResponse.None? <==> NoSuccessAfter(events, -1)
    ensures forall i | 0 <= i < |events| && IsSuccess(events[i]) && NoSuccessAfter(events, i) ::
              Run(events).lastResponse == Some(events[i].result.response)
  {
    if events != [] {
      var before := events[..|events| - 1];
      var n := |before|;
      LastResponseIsLatestSuccess(before);
      assert forall j | 0 <= j < n :: events[j] == before[j];
      if IsSuccess(events[n]) {
        forall i | 0 <= i < |events| && IsSuccess(events[i]) && NoSuccessAfter(events, i)
          ensures i == n
        {
        }
      } else {
        forall i | 0 <= i < |events| && IsSuccess(events[i]) && NoSuccessAfter(events, i)
          ensures i < n && NoSuccessAfter(before, i)
        {
        }
      }
    }
  }

  /** `didFail` holds exactly when some completion failed after the latest refresh. */
  lemma {:induction false} DidFailIffFailureSinceRefresh(events: seq<Event>)
    ensures Run(events).didFail <==>
              exists i | 0 <= i < |events| :: events[i] == FetchCompleted(Failure) && NoRefreshAfter(events, i)
  {
    if events != [] {
      var before := events[..|events| - 1];
      var n := |before|;
      DidFailIffFailureSinceRefresh(before);
      assert forall j | 0 <= j < n :: events[j] == before[j];
      if events[n] == FetchCompleted(Failure) {
        assert NoRefreshAfter(events, n);
      } else if !events[n].RefreshRequested? && Run(before).didFail {
        var i :| 0 <= i < n && before[i] == FetchCompleted(Failure) && NoRefreshAfter(before, i);
        assert NoRefreshAfter(events, i);
      }
    }
  }

  /** `isRefreshing` holds exactly when no completion has arrived since the latest refresh. */
  lemma {:induction false} IsRefreshingIffAwaitingCompletion(events: seq<Event>)
    ensures Run(events).isRefreshing <==>
              exists i | 0 <= i < |events| :: events[i].RefreshRequested? && NoCompletionAfter(events, i)
  {
    if events != [] {
      var before := events[..|events| - 1];
      var n := |before|;
      IsRefreshingIffAwaitingCompletion(before);
      assert forall j | 0 <= j < n :: events[j] == before[j];
      if events[n].RefreshRequested? {
        assert NoCompletionAfter(events, n);
      } else if !events[n].FetchCompleted? && Run(before).isRefreshing {
        var i :| 0 <= i < n && before[i].RefreshRequested? && NoCompletionAfter(before, i);
        assert NoCompletionAfter(events, i);
      }
    }
  }

  /** `isRedacted` follows the latest lifecycle signal and is false before the first one. */
  lemma {:induction false} IsRedactedIffLatestSignalInactive(events: seq<Event>)
    ensures Run(events).isRedacted <==>
              exists i | 0 <= i < |events| :: events[i].BecameInactive? && NoSignalAfter(events, i)
  {
    if events != [] {
      var before := events[..|events| - 1];
      var n := |before|;
      IsRedactedIffLatestSignalInactive(before);
      assert forall j | 0 <= j < n :: events[j] == before[j];
      if events[n].BecameInactive? {
        assert NoSignalAfter(events, n);
      } else if !events[n].BecameActive? && Run(before).isRedacted {
        var i :| 0 <= i < n && before[i].BecameInactive? && NoSignalAfter(before, i);
        assert NoSignalAfter(events, i);
      }
    }
  }

  /** Once a response is held it is never dropped, whatever follows. */
  lemma {:induction false} LastResponseNeverCleared(events: seq<Event>, later: seq<Event>)
    requires Run(events).lastResponse.Some?
    ensures Run(events + later).lastResponse.Some?
    decreases |later|
  {
    if later == [] {
      assert events + later == events;
    } else {
      var front := later[..|later| - 1];
      LastResponseNeverCleared(events, front);
      RunAppend(events + front, Last(later));
      assert events + front + [Last(later)] == events + later;
    }
  }

  /** Two refreshes whose completions arrive in reverse order: with no in-flight
      check, the completion of the first, older request is applied last and wins. */
  lemma StaleCompletionIsApplied(s: BalanceViewState, older: BalanceResponse, newer: BalanceResponse)
    ensures var afterBoth := Apply(Apply(s, RefreshRequested), RefreshRequested);
            var afterNewer := Apply(afterBoth, FetchCompleted(Success(newer)));
            !afterNewer.isRefreshing &&
            Apply(afterNewer, FetchCompleted(Success(older))).lastResponse == Some(older)
  {
  }

  /** A success arriving after a failure, with no refresh between, leaves `didFail` set:
      only a refresh clears it. */
  lemma SuccessDoesNotClearFailure(s: BalanceViewState, response: BalanceResponse)
    ensures var failed := Apply(Apply(s, RefreshRequested), FetchCompleted(Failure));
            var after := Apply(failed, FetchCompleted(Success(response)));
            after.didFail && after.lastResponse == Some(response) && !after.isRefreshing
  {
  }
}
