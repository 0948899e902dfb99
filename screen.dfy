/** The screen component's state (its five `useState` fields) and the events
    that change it: the start and the completion of a fetch, the delayed fetch
    button, the unfetch button and typing in the search box. The network call
    is replaced by its outcome, given to the completion event as a parameter. */
module Screen {
  import opened UserFilter

  /** How `fetch(url)` followed by `response.json()` ended. A non-ok status, a
      network error and a decoding error all end in the same catch block. */
  datatype FetchOutcome = Success(users: seq<User>) | Failure

  class ScreenState {
    var data: seq<User>
    var filteredData: seq<User>
    var isFetching: bool
    var showUnfetchButton: bool
    var searchText: string

    /** The derived list always agrees with the full list and the search text. */
    ghost predicate Valid()
      reads this
    {
      filteredData == FilterData(data, searchText)
    }

    /** What holds in every state the screen can reach through its own controls:
        the search text can only be non-empty while the search box is shown, and
        the box is hidden while a fetch is under way. */
    ghost predicate Reachable()
      reads this
    {
      && Valid()
      && (!showUnfetchButton ==> searchText == "")
      && (isFetching ==> !showUnfetchButton)
    }

    /** The fetch button is rendered when the unfetch button is not, and is disabled
        while fetching; it is never usable together with the search box. */
    predicate FetchButtonEnabled(): (enabled: bool)
      reads this
      ensures enabled ==> !SearchBoxShown() && !isFetching
    {
      !showUnfetchButton && !isFetching
    }

    /** The unfetch button is rendered with `showUnfetchButton` and disabled while
        `data` is empty; it shows beside the search box, never beside the fetch button. */
    predicate UnfetchButtonEnabled(): (enabled: bool)
      reads this
      ensures enabled ==> SearchBoxShown() && !FetchButtonEnabled() && data != []
    {
      showUnfetchButton && |data| > 0
    }

    /** The unfetch button enabled whenever it is shown, without the `data.length` test. */
    predicate IntendedUnfetchButtonEnabled()
      reads this
    {
      showUnfetchButton
    }

    /** The search box is rendered with `showUnfetchButton`. */
    predicate SearchBoxShown()
      reads this
    {
      showUnfetchButton
    }

    /** The initial values of the five `useState` hooks. */
    constructor ()
      ensures data == [] && filteredData == [] && searchText == ""
      ensures !isFetching && !showUnfetchButton
      ensures Reachable() && FetchButtonEnabled()
    {
      data, filteredData := [], [];
      isFetching, showUnfetchButton := false, false;
      searchText := "";
    }

    /** The synchronous part of `fetchUserData`, before the request is awaited. */
    method BeginFetch()
      requires Valid()
      modifies this
      ensures isFetching && !showUnfetchButton
      ensures data == old(data) && filteredData == old(filteredData) && searchText == old(searchText)
      ensures Valid()
      ensures old(Reachable()) && !old(showUnfetchButton) ==> Reachable()
    {
      isFetching := true;
      showUnfetchButton := false;
    }

    /** The part of `fetchUserData` after the request: on success the result replaces
        `data` and is filtered with the search text, and the unfetch button appears;
        on any failure nothing but the loading flag changes. Either way the
        `finally` block clears `isFetching`. */
    method FinishFetch(outcome: FetchOutcome)
      requires Valid()
      modifies this
      ensures !isFetching && searchText == old(searchText)
      ensures outcome.Success? ==>
        && data == outcome.users
        && filteredData == FilterData(outcome.users, searchText)
        && showUnfetchButton
      ensures outcome.Failure? ==>
        && data == old(data) && filteredData == old(filteredData)
        && showUnfetchButton == old(showUnfetchButton)
      ensures Valid()
      ensures old(Reachable()) && !old(showUnfetchButton) ==> Reachable()
      ensures old(Reachable()) && !old(showUnfetchButton) && outcome.Success? ==>
        filteredData == outcome.users
    {
      match outcome {
        case Success(users) =>
          data := users;
          filteredData := FilterData(users, searchText);
          showUnfetchButton := true;
          if !old(showUnfetchButton) && old(Reachable()) {
            FilterEmptyQuery(users);
          }
        case Failure =>
      }
      isFetching := false;
    }

    /** The whole of `fetchUserData` when nothing happens while the request is awaited:
        this is what runs on mount and when the delay timer fires. */
    method FetchUserData(outcome: FetchOutcome)
      requires Valid()
      modifies this
      ensures !isFetching && searchText == old(searchText)
      ensures outcome.Success? ==>
        && data == outcome.users
        && filteredData == FilterData(outcome.users, searchText)
        && showUnfetchButton
      ensures outcome.Failure? ==>
        && data == old(data) && filteredData == old(filteredData)
        && !showUnfetchButton
      ensures Valid()
      ensures old(Reachable()) && !old(showUnfetchButton) ==> Reachable()
      ensures old(Reachable()) && !old(showUnfetchButton) && outcome.Success? ==>
        filteredData == outcome.users
    {
      BeginFetch();
      FinishFetch(outcome);
    }

    /** The fetch button's handler: the spinner starts at once; the fetch itself
        runs two seconds later, as a separate FetchUserData event. */
    method FetchUserDataWithDelay()
      requires Valid()
      modifies this
      ensures isFetching
      ensures data == old(data) && filteredData == old(filteredData) && searchText == old(searchText)
      ensures showUnfetchButton == old(showUnfetchButton)
      ensures Valid()
      ensures old(Reachable()) && old(FetchButtonEnabled()) ==> Reachable()
    {
      isFetching := true;
    }

    /** The unfetch button's handler: back to the initial state. */
    method UnfetchUserData()
      modifies this
      ensures data == [] && filteredData == [] && searchText == ""
      ensures !isFetching && !showUnfetchButton
      ensures Reachable() && FetchButtonEnabled()
    {
      isFetching := false;
      data := [];
      filteredData := [];
      showUnfetchButton := false;
      searchText := "";
    }

    /** The search box's `onChangeText` handler: re-filter the full list with the new text. */
    method ChangeSearchText(text: string)
      modifies this
      ensures searchText == text && filteredData == FilterData(data, text)
      ensures data == old(data)
      ensures isFetching == old(isFetching) && showUnfetchButton == old(showUnfetchButton)
      ensures Valid()
      ensures old(Reachable()) && old(SearchBoxShown()) ==> Reachable()
    {
      searchText := text;
      filteredData := FilterData(data, text);
    }
  }

  /** The value of a JSX child expression built from `?:`, `&&` and `||`: a
      boolean, which React renders as nothing, the hint's text element, or the list. */
  datatype Child = Bool(b: bool) | HintText | UserList

  predicate ShowsHintText(c: Child) {
    c.HintText?
  }

  /** The hint under the spinner, exactly as written:
      `!isFetching && filteredData.length === 0 || filteredData.length === 0 && <Text/>`.
      `&&` binds tighter than `||`, and `a || b` yields `a` when `a` is true. */
  function EmptyHint(isFetching: bool, filteredCount: nat): Child {
    if !isFetching && filteredCount == 0 then Bool(true)
    else if filteredCount == 0 then HintText
    else Bool(false)
  }

  /** As written, the hint "No matching users found. Please fetch user data again."
      appears only while a fetch is running and the list is empty, and never when idle. */
  function EmptyHintShown(isFetching: bool, filteredCount: nat): (shown: bool)
    ensures shown <==> isFetching && filteredCount == 0
  {
    ShowsHintText(EmptyHint(isFetching, filteredCount))
  }

  /** The intended hint: shown whenever nothing is listed and no fetch is running. */
  function IntendedEmptyHint(isFetching: bool, filteredCount: nat): Child {
    if !isFetching && filteredCount == 0 then HintText else Bool(false)
  }

  function IntendedEmptyHintShown(isFetching: bool, filteredCount: nat): (shown: bool)
    ensures shown <==> !isFetching && filteredCount == 0
  {
    ShowsHintText(IntendedEmptyHint(isFetching, filteredCount))
  }

  /** On an idle screen the corrected hint tells the user that nothing was fetched:
      whenever the fetch button can be pressed, it shows exactly when `data` is
      empty, while the hint as written never shows there. */
  lemma IntendedHintWhenIdle(s: ScreenState)
    requires s.Reachable() && s.FetchButtonEnabled()
    ensures IntendedEmptyHintShown(s.isFetching, |s.filteredData|) <==> s.data == []
    ensures !EmptyHintShown(s.isFetching, |s.filteredData|)
  {
  }

  /** With the unfetch button usable whenever it is shown, an idle screen always
      offers a way to fetch again: the fetch button, or unfetch followed by it. */
  lemma IdleScreenNeverStuck(s: ScreenState)
    requires s.Reachable() && !s.isFetching
    ensures s.FetchButtonEnabled() || s.IntendedUnfetchButtonEnabled()
  {
  }

  /** The two readings disagree in every state with an empty list: the written one
      shows the hint exactly when the intended one hides it. */
  lemma EmptyHintInverted(isFetching: bool)
    ensures EmptyHintShown(isFetching, 0) != IntendedEmptyHintShown(isFetching, 0)
  {
  }

  /** The hint at the bottom of the list: `filteredData.length > 0 ? <FlatList/> :
      (searchText.length > 0 && <Text/>)`. */
  function NoMatchHint(filteredCount: nat, searchLength: nat): Child {
    if filteredCount > 0 then UserList
    else if searchLength > 0 then HintText
    else Bool(false)
  }

  /** "No matching users found." shows iff the search text is non-empty and nothing matches it. */
  function NoMatchHintShown(filteredCount: nat, searchLength: nat): (shown: bool)
    ensures shown <==> filteredCount == 0 && searchLength > 0
  {
    ShowsHintText(NoMatchHint(filteredCount, searchLength))
  }
}
