/** The value a balance screen renders from, and the pure read-outs of it. */
module ViewState {

  datatype Option<+T> = None | Some(value: T)

  /** The fetched amount. Only the currency formatter interprets it. */
  type Balance = real

  /** The moment a balance was observed. Only the date formatter interprets it. */
  type Date = int

  /** What one successful fetch yields. */
  datatype BalanceResponse = BalanceResponse(balance: Balance, date: Date)

  /** The outcome of one fetch. The cause of a failure is not kept: the screen only records that it failed. */
  datatype FetchResult = Success(response: BalanceResponse) | Failure

  /** The two info-label colours the screen uses. */
  datatype UIColor = SystemGray | SystemRed

  datatype BalanceViewState = BalanceViewState(
    lastResponse: Option<BalanceResponse>,
    didFail: bool,
    isRefreshing: bool,
    isRedacted: bool)

  /** The state a freshly built view model or view controller starts from. */
  const Initial := BalanceViewState(None, false, false, false)

  const ValuePlaceholder: string := "--"
  const RegularInfoColor := SystemGray
  const FailureInfoColor := SystemRed
  const FailureText: string := "Failed to update."
  const LoadingText: string := "Loading..."

  function LastUpdateText(formattedDate: string): string {
    "Last update: " + formattedDate + "."
  }

  /** A fresh state holds no response and no flag, so the screen starts with the
      placeholder, an empty info label in the regular colour, and nothing else applies. */
  lemma InitialScreen(formatDate: Date -> string, formatCurrency: Balance -> Option<string>)
    ensures Initial.lastResponse.None? && !Initial.didFail && !Initial.isRefreshing && !Initial.isRedacted
    ensures FormattedBalance(Initial, formatCurrency) == ValuePlaceholder
    ensures InfoText(Initial, formatDate) == ""
    ensures InfoColor(Initial) == RegularInfoColor
  {
  }

  /** A failed fetch and a fetch in flight are never shown together. */
  predicate Consistent(s: BalanceViewState) {
    !(s.didFail && s.isRefreshing)
  }

  /** The value label: the formatted amount of the last response, or the placeholder
      when there is none or the formatter yields nothing. */
  function FormattedBalance(s: BalanceViewState, formatCurrency: Balance -> Option<string>): (r: string)
    ensures s.lastResponse.None? ==> r == ValuePlaceholder
    ensures s.lastResponse.Some? && formatCurrency(s.lastResponse.value.balance).None? ==> r == ValuePlaceholder
    ensures s.lastResponse.Some? && formatCurrency(s.lastResponse.value.balance).Some? ==>
              r == formatCurrency(s.lastResponse.value.balance).value
  {
    match s.lastResponse
    case None => ValuePlaceholder
    case Some(response) =>
      match formatCurrency(response.balance)
      case None => ValuePlaceholder
      case Some(text) => text
  }

  /** The value label depends on the last response alone, so refreshing, failing and
      redacting never change it. */
  lemma FormattedBalanceOnlyReadsLastResponse(s: BalanceViewState, t: BalanceViewState, formatCurrency: Balance -> Option<string>)
    requires s.lastResponse == t.lastResponse
    ensures FormattedBalance(s, formatCurrency) == FormattedBalance(t, formatCurrency)
  {
  }

  /** The parts of the info label in the order they are appended: at most one status
      part (failure before loading), then the last-update part. */
  function InfoTexts(s: BalanceViewState, formatDate: Date -> string): (parts: seq<string>)
    ensures |parts| == (if s.didFail || s.isRefreshing then 1 else 0) + (if s.lastResponse.Some? then 1 else 0)
    ensures s.didFail ==> parts[0] == FailureText
    ensures !s.didFail && s.isRefreshing ==> parts[0] == LoadingText
    ensures s.lastResponse.Some? ==>
              parts[|parts| - 1] == LastUpdateText(formatDate(s.lastResponse.value.date))
  {
    var status := if s.didFail then [FailureText] else if s.isRefreshing then [LoadingText] else [];
    var lastUpdate :=
      match s.lastResponse
      case Some(response) => [LastUpdateText(formatDate(response.date))]
      case None => [];
    status + lastUpdate
  }

  /** The parts separated by `separator`, as Swift's `joined(separator:)` does. */
  function Joined(parts: seq<string>, separator: string): (r: string)
    ensures |parts| == 0 ==> r == ""
    ensures |parts| > 0 ==> parts[0] <= r
    ensures |parts| >= 2 ==> |parts[0]| + |separator| + |parts[|parts| - 1]| <= |r|
  {
    if |parts| == 0 then ""
    else if |parts| == 1 then parts[0]
    else
      var rest := Joined(parts[1..], separator);
      assert parts[1..][|parts| - 2] == parts[|parts| - 1];
      parts[0] + separator + rest
  }

  /** The joined text ends with the last part. */
  lemma {:induction false} JoinedEndsWithLast(parts: seq<string>, separator: string)
    requires |parts| > 0
    ensures var r := Joined(parts, separator);
            var tail := parts[|parts| - 1];
            |tail| <= |r| && r[|r| - |tail|..] == tail
    decreases |parts|
  {
    if |parts| >= 2 {
      JoinedEndsWithLast(parts[1..], separator);
      assert parts[1..][|parts| - 2] == parts[|parts| - 1];
    }
  }

  lemma JoinedPair(parts: seq<string>, separator: string)
    ensures |parts| == 1 ==> Joined(parts, separator) == parts[0]
    ensures |parts| == 2 ==> Joined(parts, separator) == parts[0] + separator + parts[1]
  {
    if |parts| == 2 {
      assert parts[1..] == [parts[1]];
    }
  }

  /** The info label: its parts joined with single spaces. */
  function InfoText(s: BalanceViewState, formatDate: Date -> string): (r: string)
    ensures r == "" <==> !s.didFail && !s.isRefreshing && s.lastResponse.None?
  {
    Joined(InfoTexts(s, formatDate), " ")
  }

  /** The info label is empty exactly when no part applies; it starts with the
      failure text when the last fetch failed (which wins over loading), with the
      loading text otherwise while a fetch is in flight, and it ends with the
      last-update text whenever a response is held. */
  lemma InfoTextShape(s: BalanceViewState, formatDate: Date -> string)
    ensures var r := InfoText(s, formatDate);
            && (r == "" <==> !s.didFail && !s.isRefreshing && s.lastResponse.None?)
            && (s.didFail ==> FailureText <= r)
            && (!s.didFail && s.isRefreshing ==> LoadingText <= r)
            && (s.lastResponse.Some? ==>
                  var tail := LastUpdateText(formatDate(s.lastResponse.value.date));
                  |tail| <= |r| && r[|r| - |tail|..] == tail)
  {
    JoinedPair(InfoTexts(s, formatDate), " ");
  }

  /** The info label for every combination of the fields it reads, written out. */
  lemma InfoTextTable(s: BalanceViewState, formatDate: Date -> string)
    ensures s.didFail && s.lastResponse.None? ==>
              InfoText(s, formatDate) == "Failed to update."
    ensures s.didFail && s.lastResponse.Some? ==>
              InfoText(s, formatDate) == "Failed to update. Last update: " + formatDate(s.lastResponse.value.date) + "."
    ensures !s.didFail && s.isRefreshing && s.lastResponse.None? ==>
              InfoText(s, formatDate) == "Loading..."
    ensures !s.didFail && s.isRefreshing && s.lastResponse.Some? ==>
              InfoText(s, formatDate) == "Loading... Last update: " + formatDate(s.lastResponse.value.date) + "."
    ensures !s.didFail && !s.isRefreshing && s.lastResponse.None? ==>
              InfoText(s, formatDate) == ""
    ensures !s.didFail && !s.isRefreshing && s.lastResponse.Some? ==>
              InfoText(s, formatDate) == "Last update: " + formatDate(s.lastResponse.value.date) + "."
  {
    if s.didFail {
      FailedInfoText(s, formatDate);
    } else if s.isRefreshing {
      LoadingInfoText(s, formatDate);
    } else {
      JoinedPair(InfoTexts(s, formatDate), " ");
    }
  }

  lemma FailedInfoText(s: BalanceViewState, formatDate: Date -> string)
    requires s.didFail
    ensures s.lastResponse.None? ==> InfoText(s, formatDate) == "Failed to update."
    ensures s.lastResponse.Some? ==>
              InfoText(s, formatDate) == "Failed to update. Last update: " + formatDate(s.lastResponse.value.date) + "."
  {
    JoinedPair(InfoTexts(s, formatDate), " ");
  }

  lemma LoadingInfoText(s: BalanceViewState, formatDate: Date -> string)
    requires !s.didFail && s.isRefreshing
    ensures s.lastResponse.None? ==> InfoText(s, formatDate) == "Loading..."
    ensures s.lastResponse.Some? ==>
              InfoText(s, formatDate) == "Loading... Last update: " + formatDate(s.lastResponse.value.date) + "."
  {
    JoinedPair(InfoTexts(s, formatDate), " ");
  }

  /** The info label colour. */
  function InfoColor(s: BalanceViewState): (c: UIColor)
    ensures c == FailureInfoColor <==> s.didFail
    ensures c == RegularInfoColor <==> !s.didFail
  {
    if s.didFail then FailureInfoColor else RegularInfoColor
  }
}
