/** Which of the three screens the component renders, chosen from its state. */
module Screens {
  import opened Search

  /** The loading spinner, the error message with its retry button, or the list with its
      pull-to-refresh control (whose spinner shows `refreshing`). */
  datatype Screen =
    | LoadingScreen
    | ErrorScreen(message: string)
    | ListScreen(items: seq<Character>, refreshing: bool)

  /** `error` in a JavaScript condition: absent and empty messages are falsy, every other
      message is truthy. */
  predicate Truthy(error: Option<string>) {
    error.Some? && error.value != ""
  }

  /** The two early returns and the final list of the component's render. */
  function SelectScreen(loading: bool, refreshing: bool, error: Option<string>, items: seq<Character>): (s: Screen)
    ensures s.LoadingScreen? <==> loading && !refreshing
    ensures s.ErrorScreen? <==> !(loading && !refreshing) && Truthy(error) && !refreshing
    ensures s.ErrorScreen? ==> Some(s.message) == error
    ensures s.ListScreen? <==> refreshing || (!loading && !Truthy(error))
    ensures s.ListScreen? ==> s.items == items && s.refreshing == refreshing
  {
    if loading && !refreshing then LoadingScreen
    else if Truthy(error) && !refreshing then ErrorScreen(error.value)
    else ListScreen(items, refreshing)
  }

  /** While a pull-to-refresh is in progress the previous list stays on screen, whatever the
      loading flag or a stored error say. */
  lemma RefreshKeepsList(loading: bool, error: Option<string>, items: seq<Character>)
    ensures SelectScreen(loading, true, error, items) == ListScreen(items, true)
  {
  }

  /** The only screens from which a new request can be started (the retry button, and the
      pull gesture on a list that is not already refreshing) are shown only when no ordinary
      load is in progress. */
  lemma StartableScreensAreIdle(loading: bool, refreshing: bool, error: Option<string>, items: seq<Character>)
    requires SelectScreen(loading, refreshing, error, items).ErrorScreen?
          || (SelectScreen(loading, refreshing, error, items).ListScreen? && !refreshing)
    ensures !loading && !refreshing
  {
  }
}
