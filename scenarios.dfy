/** The screen driven through the sessions the component is built for. */
module Scenarios {
  import opened AsciiText
  import opened UserFilter
  import opened Screen

  /** Mount, fetch one user, search for it by part of its name, search for someone
      absent, then unfetch. */
  method LoadSearchAndReset() {
    var alice := User(1, "Alice", "a@x.com");
    var s := new ScreenState();
    s.FetchUserData(Success([alice]));
    assert s.filteredData == [alice];
    assert s.SearchBoxShown() && s.UnfetchButtonEnabled();

    assert Lower("ali") == "ali";
    assert Lower("Alice") == "alice";
    assert "alice"[..3] == "ali";
    s.ChangeSearchText("ali");
    assert s.filteredData == [alice];

    assert Lower("bob") == "bob";
    assert !Includes("alice", "bob");
    s.ChangeSearchText("bob");
    assert s.filteredData == [];
    assert NoMatchHintShown(|s.filteredData|, |s.searchText|);
    assert !EmptyHintShown(s.isFetching, |s.filteredData|);

    s.UnfetchUserData();
    assert s.data == [] && s.filteredData == [] && s.searchText == "";
    assert s.FetchButtonEnabled();
  }

  /** Mount with a failing request, then press the fetch button and let the delayed
      request fail too: the screen stays idle with its fetch button usable, and the
      empty-list hint, as written, is not shown. */
  method FailedFetches() {
    var s := new ScreenState();
    s.FetchUserData(Failure);
    assert s.data == [] && s.filteredData == [] && s.FetchButtonEnabled();
    s.FetchUserDataWithDelay();
    assert s.isFetching && !s.FetchButtonEnabled();
    assert EmptyHintShown(s.isFetching, |s.filteredData|);
    s.FetchUserData(Failure);
    assert s.Reachable() && s.FetchButtonEnabled();
    assert !EmptyHintShown(s.isFetching, |s.filteredData|);
    assert IntendedEmptyHintShown(s.isFetching, |s.filteredData|);
  }

  /** A fetch that succeeds with an empty list leaves the screen with the fetch
      button hidden and the unfetch button disabled; typing in the search box, the
      only control left, changes neither. */
  method EmptyFetchDeadEnd() returns (s: ScreenState)
    ensures s.Reachable() && !s.isFetching && s.SearchBoxShown()
    ensures !s.FetchButtonEnabled() && !s.UnfetchButtonEnabled()
  {
    s := new ScreenState();
    s.FetchUserData(Success([]));
    s.ChangeSearchText("x");
  }
}
