/** The state of the character-list component and the events that change it: mounting,
    starting a request, a request ending, pull-to-refresh, typing, clearing the search and
    the debounce timer firing. Each `set...` call of the component becomes a field update;
    a re-render that re-runs the debounce effect becomes a new pending recompute. */
module Controller {
  import opened Text
  import opened Search
  import opened Fetch
  import opened Screens

  /** The values a scheduled recompute captured in its closure when it was scheduled. */
  datatype Snapshot = Snapshot(chars: seq<Character>, query: string)

  class CharacterList {
    var allChars: seq<Character>
    var filteredChars: seq<Character>
    var loading: bool
    var refreshing: bool
    var error: Option<string>
    var searchQuery: string
    /** The one outstanding 300 ms timeout, if any: re-running the effect clears the old one
        before it sets the new one, so there is never more than one. */
    var pending: Option<Snapshot>
    /** Requests started and not yet ended. The component keeps no such count. */
    ghost var inFlight: nat

    /** The component's invariant:
        - a pending recompute captured the current list and query (it is never stale);
        - with nothing pending, the shown view is the filter of the current list by the
          current query (the search has settled);
        - the shown view is always a subsequence of the current list;
        - the loading and refreshing flags are only up while some request is outstanding. */
    ghost predicate Valid()
      reads this
    {
      (pending.Some? ==> pending.value == Snapshot(allChars, searchQuery))
      && (pending.None? ==> filteredChars == FilterCharacters(allChars, searchQuery))
      && IsSubsequence(filteredChars, allChars)
      && (loading || refreshing ==> inFlight > 0)
    }

    /** At most one request is outstanding, and it is outstanding exactly while `loading`;
        a refresh is a kind of load. */
    ghost predicate Sequential()
      reads this
    {
      inFlight == (if loading then 1 else 0) && (refreshing ==> loading)
    }

    /** The screen the component renders now: the spinner while an ordinary load runs, the
        error while one is stored and no refresh runs, otherwise the current view. */
    function View(): (s: Screen)
      reads this
      ensures s.LoadingScreen? <==> loading && !refreshing
      ensures s.ErrorScreen? <==> !loading && !refreshing && Truthy(error)
      ensures s.ErrorScreen? ==> error == Some(s.message)
      ensures s.ListScreen? ==> s.items == filteredChars && s.refreshing == refreshing
      ensures refreshing ==> s == ListScreen(filteredChars, true)
    {
      SelectScreen(loading, refreshing, error, filteredChars)
    }

    /** Mounting: the initial `useState` values, then the two mount effects in their order,
        which start the first request and schedule the first recompute. */
    constructor ()
      ensures Valid() && Sequential()
      ensures allChars == [] && filteredChars == [] && searchQuery == ""
      ensures loading && !refreshing && error == None && inFlight == 1
      ensures pending == Some(Snapshot([], ""))
      ensures View() == LoadingScreen
    {
      allChars := [];
      filteredChars := [];
      loading := true;
      refreshing := false;
      error := None;
      searchQuery := "";
      pending := None;
      inFlight := 0;
      new;
      // the fetch effect: `fetchChars()` raises `loading` (already up) and clears `error`
      loading := true;
      error := None;
      inFlight := inFlight + 1;
      // the debounce effect
      pending := Some(Snapshot(allChars, searchQuery));
    }

    /** The synchronous start of `fetchChars` (also what the retry button calls): raise
        `loading`, clear `error`, and send the request. The list, the view, the query and
        the pending recompute stay as they were. */
    method StartFetch()
      requires Valid()
      modifies this
      ensures Valid()
      ensures loading && error == None && inFlight == old(inFlight) + 1
      ensures refreshing == old(refreshing)
      ensures allChars == old(allChars) && filteredChars == old(filteredChars)
      ensures searchQuery == old(searchQuery) && pending == old(pending)
      ensures old(Sequential() && View().ErrorScreen?) ==> Sequential()
    {
      loading := true;
      error := None;
      inFlight := inFlight + 1;
    }

    /** The rest of `fetchChars`, when one outstanding request ends. A loaded list replaces
        both the list and the view as it is, without the current query; because the list
        changed, the debounce effect re-runs and a recompute with the current query is
        pending. A failure stores its message and leaves list, view and pending recompute
        alone; a success leaves any earlier error in place. Either way the `finally` lowers
        both flags. There is no request numbering: whichever response ends last wins. */
    method CompleteFetch(o: Outcome)
      requires Valid() && inFlight > 0
      modifies this
      ensures Valid()
      ensures !loading && !refreshing && inFlight == old(inFlight) - 1
      ensures searchQuery == old(searchQuery)
      ensures Run(o).Loaded? ==>
                allChars == Run(o).chars && filteredChars == Run(o).chars && error == old(error)
                && pending == Some(Snapshot(allChars, searchQuery))
      ensures Run(o).Failed? ==>
                error == Run(o).message && allChars == old(allChars)
                && filteredChars == old(filteredChars) && pending == old(pending)
      ensures old(Sequential()) ==> Sequential()
    {
      var attempt := Run(o);
      match attempt {
        case Loaded(chars) =>
          allChars := chars;
          filteredChars := chars;
          SubsequenceReflexive(chars);
          pending := Some(Snapshot(allChars, searchQuery));
        case Failed(message) =>
          error := message;
      }
      loading := false;
      refreshing := false;
      inFlight := inFlight - 1;
    }

    /** `onRefresh`: raise `refreshing`, then start a request (both updates land in the same
        render, so their order does not show). The current list stays on screen with its
        refresh spinner until the request ends. */
    method Refresh()
      requires Valid()
      modifies this
      ensures Valid()
      ensures refreshing && loading && error == None && inFlight == old(inFlight) + 1
      ensures allChars == old(allChars) && filteredChars == old(filteredChars)
      ensures searchQuery == old(searchQuery) && pending == old(pending)
      ensures View() == ListScreen(old(filteredChars), true)
      ensures old(Sequential() && View().ListScreen? && !refreshing) ==> Sequential()
    {
      StartFetch();
      refreshing := true;
    }

    /** `onChangeText={setSearchQuery}` and the effect on `[searchQuery, allChars]`: a new
        query replaces any pending recompute by one that captured it; the same query changes
        nothing. The view itself is not touched until the timer fires. */
    method SetSearchQuery(query: string)
      requires Valid()
      modifies this
      ensures Valid()
      ensures searchQuery == query
      ensures pending == if query == old(searchQuery) then old(pending) else Some(Snapshot(allChars, query))
      ensures allChars == old(allChars) && filteredChars == old(filteredChars)
      ensures loading == old(loading) && refreshing == old(refreshing) && error == old(error)
      ensures inFlight == old(inFlight)
    {
      if query != searchQuery {
        searchQuery := query;
        pending := Some(Snapshot(allChars, searchQuery));
      }
    }

    /** `clearSearch`: empties the query (dismissing the keyboard is not modelled). The view
        widens back to the whole list only when the recompute this schedules fires. */
    method ClearSearch()
      requires Valid()
      modifies this
      ensures Valid()
      ensures searchQuery == ""
      ensures filteredChars == old(filteredChars) && allChars == old(allChars)
      ensures old(searchQuery) != "" ==> pending == Some(Snapshot(allChars, ""))
      ensures old(searchQuery) == "" ==> pending == old(pending)
      ensures loading == old(loading) && refreshing == old(refreshing) && error == old(error)
      ensures inFlight == old(inFlight)
    {
      SetSearchQuery("");
    }

    /** The pending timeout fires and runs `filterCharacters` with the list and query it
        captured. Because every change to either replaced it, those are the current ones:
        the view becomes exactly the filter of the current list by the current query. */
    method FireDebounce()
      requires Valid() && pending.Some?
      modifies this
      ensures Valid()
      ensures pending == None
      ensures filteredChars == FilterCharacters(allChars, searchQuery)
      ensures allChars == old(allChars) && searchQuery == old(searchQuery)
      ensures loading == old(loading) && refreshing == old(refreshing) && error == old(error)
      ensures inFlight == old(inFlight)
    {
      var captured := pending.value;
      pending := None;
      if IsBlank(captured.query) {
        filteredChars := captured.chars;
      } else {
        filteredChars := Select(captured.chars, captured.query);
      }
    }
  }

  /** The message a 500 response produces. */
  lemma Status500Message()
    ensures StatusMessage(500) == "Error 500: No se pudo conectar"
  {
    assert Decimal(5) == "5";
    assert Decimal(50) == "50";
    assert Decimal(500) == "500";
  }

  /** Two records used by the scenarios below. */
  function Seiya(): Character {
    Character(None, Some("Seiya"), None, None, None)
  }

  function Shiryu(): Character {
    Character(None, Some("Shiryu"), None, None, None)
  }

  /** Searching "shi" in [Seiya, Shiryu] keeps only Shiryu. */
  lemma SearchShiKeepsShiryu()
    ensures FilterCharacters([Seiya(), Shiryu()], "shi") == [Shiryu()]
  {
    ShiIsNotBlank();
    SeiyaMissesShi();
    ShiryuHasShi();
    assert [Seiya(), Shiryu()][1..] == [Shiryu()];
  }

  lemma ShiIsNotBlank()
    ensures !IsBlank("shi")
  {
    BlankIffAllWhitespace("shi");
    assert !IsJsWhitespace("shi"[0]);
  }

  lemma ShiryuHasShi()
    ensures Matches(Shiryu(), "shi")
  {
    LowerLiteral("Shiryu", "shiryu");
    LowerLiteral("shi", "shi");
    assert "shiryu"[..3] == "shi";
  }

  lemma SeiyaMissesShi()
    ensures !Matches(Seiya(), "shi")
  {
    LowerLiteral("Seiya", "seiya");
    LowerLiteral("shi", "shi");
    assert "seiya"[..3] != "shi" by { assert "seiya"[..3][1] != "shi"[1]; }
    assert "seiya"[1..] == "eiya";
    assert "eiya"[..3] != "shi" by { assert "eiya"[..3][0] != "shi"[0]; }
    assert "eiya"[1..] == "iya";
    assert "iya"[..3] != "shi" by { assert "iya"[..3][0] != "shi"[0]; }
    assert "iya"[1..] == "ya";
    assert !Contains("seiya", "shi");
  }

  /** The search session of a user: the list [Seiya, Shiryu] loads, the user types "shi" and
      the timer fires, then the user clears the search. The view is [Shiryu] after the first
      recompute, still [Shiryu] right after clearing, and the whole list once the recompute
      that clearing scheduled has fired. */
  method SearchThenClear() returns (typed: seq<Character>, cleared: seq<Character>, settled: seq<Character>)
    ensures typed == [Shiryu()]
    ensures cleared == [Shiryu()]
    ensures settled == [Seiya(), Shiryu()]
  {
    var list := new CharacterList();
    list.CompleteFetch(Response(200, JsonArray([Seiya(), Shiryu()])));
    list.SetSearchQuery("shi");
    list.FireDebounce();
    SearchShiKeepsShiryu();
    typed := list.filteredChars;
    list.ClearSearch();
    cleared := list.filteredChars;
    list.FireDebounce();
    assert IsBlank("");
    settled := list.filteredChars;
  }

  /** Two requests outstanding at once, both succeeding: the response that ends last decides
      the list. A completion carries no request identity, so which request it answers plays
      no part. */
  method LastResponseWins(endsFirst: seq<Character>, endsLast: seq<Character>) returns (shown: seq<Character>)
    ensures shown == endsLast
  {
    var list := new CharacterList();
    list.StartFetch();
    list.CompleteFetch(Response(200, JsonArray(endsFirst)));
    list.CompleteFetch(Response(200, JsonArray(endsLast)));
    shown := list.allChars;
  }

  /** Two requests outstanding at once, the first failing and the second succeeding: the new
      list is stored but the earlier error is not cleared, so the error screen hides it. */
  method FailureOutlivesLaterSuccess(chars: seq<Character>) returns (stored: seq<Character>, screen: Screen)
    ensures stored == chars
    ensures screen == ErrorScreen("Error 500: No se pudo conectar")
  {
    var list := new CharacterList();
    list.StartFetch();
    list.CompleteFetch(Response(500, JsonOther));
    list.CompleteFetch(Response(200, JsonArray(chars)));
    stored := list.allChars;
    screen := list.View();
    Status500Message();
  }
}
