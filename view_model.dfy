/** BalanceViewModel: owns a `@Published` balance state and mutates it one field at a
    time. The balance service is an abstract callback: a refresh counts one request to
    it, and the completion it eventually delivers arrives as a separate HandleResult
    call (or never). */
module ViewModel {
  import opened ViewState
  import opened Transitions

  class BalanceViewModel {
    var state: BalanceViewState

    /** Every event applied so far, oldest first. */
    ghost var events: seq<Event>
    /** Every value `$state` has published to a subscriber attached at construction:
        the initial value, then one value per field assignment. */
    ghost var published: seq<BalanceViewState>
    /** How many times the service has been asked for the balance. */
    ghost var serviceRequests: nat

    ghost predicate Valid()
      reads this
    {
      && state == Run(events)
      && PublishedFor(published, events)
    }

    constructor ()
      ensures Valid()
      ensures state == Initial && events == [] && published == [Initial] && serviceRequests == 0
    {
      state := Initial;
      events := [];
      published := [Initial];
      serviceRequests := 0;
    }

    /** Clears the failure, marks the refresh in flight, then asks the service once. */
    method RefreshBalance()
      requires Valid()
      modifies this
      ensures Valid()
      ensures events == old(events) + [RefreshRequested]
      ensures state == Apply(old(state), RefreshRequested)
      ensures published == old(published) + Steps(old(state), RefreshRequested)
      ensures serviceRequests == old(serviceRequests) + 1
    {
      ghost var steps := Steps(state, RefreshRequested);
      PublishedAppend(published, events, RefreshRequested);
      state := state.(didFail := false);
      published := published + [state];
      state := state.(isRefreshing := true);
      published := published + [state];
      assert steps == [steps[0], state];
      AppendPair(old(published), steps[0], state);
      serviceRequests := serviceRequests + 1;
      events := events + [RefreshRequested];
    }

    /** Applies a completion of the service, whether or not a refresh is in flight. */
    method HandleResult(result: FetchResult)
      requires Valid()
      modifies this
      ensures Valid()
      ensures events == old(events) + [FetchCompleted(result)]
      ensures state == Apply(old(state), FetchCompleted(result))
      ensures published == old(published) + Steps(old(state), FetchCompleted(result))
      ensures serviceRequests == old(serviceRequests)
    {
      ghost var steps := Steps(state, FetchCompleted(result));
      PublishedAppend(published, events, FetchCompleted(result));
      state := state.(isRefreshing := false);
      published := published + [state];
      match result {
        case Success(response) =>
          state := state.(lastResponse := Some(response));
          published := published + [state];
          assert steps == [steps[0], state];
          AppendPair(old(published), steps[0], state);
        case Failure =>
          state := state.(didFail := true);
          published := published + [state];
          assert steps == [steps[0], state];
          AppendPair(old(published), steps[0], state);
      }
      events := events + [FetchCompleted(result)];
    }

    /** The sink of the will-resign-active notification. */
    method BecameInactive()
      requires Valid()
      modifies this
      ensures Valid()
      ensures events == old(events) + [Transitions.BecameInactive]
      ensures state == old(state).(isRedacted := true)
      ensures published == old(published) + [state]
      ensures serviceRequests == old(serviceRequests)
    {
      ghost var steps := Steps(state, Transitions.BecameInactive);
      PublishedAppend(published, events, Transitions.BecameInactive);
      state := state.(isRedacted := true);
      published := published + [state];
      assert published == old(published) + steps;
      events := events + [Transitions.BecameInactive];
    }

    /** The sink of the did-become-active notification. */
    method BecameActive()
      requires Valid()
      modifies this
      ensures Valid()
      ensures events == old(events) + [Transitions.BecameActive]
      ensures state == old(state).(isRedacted := false)
      ensures published == old(published) + [state]
      ensures serviceRequests == old(serviceRequests)
    {
      ghost var steps := Steps(state, Transitions.BecameActive);
      PublishedAppend(published, events, Transitions.BecameActive);
      state := state.(isRedacted := false);
      published := published + [state];
      assert published == old(published) + steps;
      events := events + [Transitions.BecameActive];
    }
  }
}
