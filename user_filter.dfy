/** The user record fetched from the server and the screen's name filter
    (`filterData`): keep the users whose lower-cased name includes the
    lower-cased search text, in their original order. */
module UserFilter {
  import opened AsciiText

  /** One record of the `/users` response (`interface UserData`). */
  datatype User = User(id: int, name: string, email: string)

  /** The per-user test inside `filterData`. */
  predicate Matches(u: User, query: string) {
    Includes(Lower(u.name), Lower(query))
  }

  /** The intended test, stated without Includes: the lower-cased query occurs
      somewhere in the lower-cased name. */
  ghost predicate NameContains(name: string, query: string) {
    exists k :: OccursAt(Lower(name), Lower(query), k)
  }

  /** `filterData(data, searchText)`: `data.filter(...)`, front to back. */
  function FilterData(users: seq<User>, query: string): (r: seq<User>)
    ensures |r| <= |users|
    ensures forall u :: u in r ==> u in users && Matches(u, query)
  {
    if users == [] then []
    else if Matches(users[0], query) then [users[0]] + FilterData(users[1..], query)
    else FilterData(users[1..], query)
  }

  /** `a` is `b` with some elements dropped, the rest kept in order. */
  ghost predicate IsSubsequence<T>(a: seq<T>, b: seq<T>)
    decreases |b|
  {
    if a == [] then true
    else if b == [] then false
    else (a[0] == b[0] && IsSubsequence(a[1..], b[1..])) || IsSubsequence(a, b[1..])
  }

  /** The reference meaning of a filter, independent of how FilterData walks the list:
      an order-preserving selection that keeps every occurrence of a matching user
      and no occurrence of any other user. */
  ghost predicate IsFilterOf(r: seq<User>, users: seq<User>, query: string) {
    && IsSubsequence(r, users)
    && forall u :: multiset(r)[u] == (if Matches(u, query) then multiset(users)[u] else 0)
  }

  lemma {:induction false} SubsequenceMultiset<T>(a: seq<T>, b: seq<T>)
    requires IsSubsequence(a, b)
    ensures multiset(a) <= multiset(b)
    decreases |b|
  {
    if a == [] {
    } else if a[0] == b[0] && IsSubsequence(a[1..], b[1..]) {
      SubsequenceMultiset(a[1..], b[1..]);
      assert a == [a[0]] + a[1..];
      assert b == [b[0]] + b[1..];
    } else {
      SubsequenceMultiset(a, b[1..]);
      assert b == [b[0]] + b[1..];
    }
  }

  /** The filter's result is a subsequence of its input: only input users, in input order. */
  lemma {:induction false} FilterIsSubsequence(users: seq<User>, query: string)
    ensures IsSubsequence(FilterData(users, query), users)
  {
    if users != [] {
      FilterIsSubsequence(users[1..], query);
      var r := FilterData(users, query);
      if Matches(users[0], query) {
        assert r[0] == users[0] && r[1..] == FilterData(users[1..], query);
      } else if r != [] {
        assert r == FilterData(users[1..], query);
      }
    }
  }

  /** A user occurs in the result exactly as often as in the input when it matches, and never otherwise. */
  lemma {:induction false} FilterCounts(users: seq<User>, query: string, u: User)
    ensures multiset(FilterData(users, query))[u] ==
            (if Matches(u, query) then multiset(users)[u] else 0)
  {
    if users != [] {
      FilterCounts(users[1..], query, u);
      assert users == [users[0]] + users[1..];
    }
  }

  /** FilterData meets the reference meaning of a filter. */
  lemma FilterIsFilterOf(users: seq<User>, query: string)
    ensures IsFilterOf(FilterData(users, query), users, query)
  {
    FilterIsSubsequence(users, query);
    forall u ensures multiset(FilterData(users, query))[u] ==
                     (if Matches(u, query) then multiset(users)[u] else 0) {
      FilterCounts(users, query, u);
    }
  }

  /** The reference meaning determines the result: any list that is a filter of `users`
      for `query` is the one FilterData returns. */
  lemma {:induction false} FilterOfIsUnique(r: seq<User>, users: seq<User>, query: string)
    requires IsFilterOf(r, users, query)
    ensures r == FilterData(users, query)
    decreases |users|
  {
    if users == [] {
      assert r == [];
    } else {
      var x, rest := users[0], users[1..];
      assert users == [x] + rest;
      if Matches(x, query) {
        // x must be kept, and as the first element of r
        assert multiset(r)[x] == multiset(users)[x] > multiset(rest)[x];
        assert r != [];
        if !(r[0] == x && IsSubsequence(r[1..], rest)) {
          SubsequenceMultiset(r, rest);
          assert false;
        }
        assert r == [x] + r[1..];
        forall u ensures multiset(r[1..])[u] ==
                         (if Matches(u, query) then multiset(rest)[u] else 0) {
        }
        FilterOfIsUnique(r[1..], rest, query);
      } else {
        // x must be dropped, so r selects from the tail
        assert multiset(r)[x] == 0;
        assert r != [] ==> r[0] != x && r[0] in multiset(r);
        assert IsSubsequence(r, rest);
        forall u ensures multiset(r)[u] ==
                         (if Matches(u, query) then multiset(rest)[u] else 0) {
        }
        FilterOfIsUnique(r, rest, query);
      }
    }
  }

  /** A user is in the result iff it is in the input and its lower-cased name
      includes the lower-cased query at some position. */
  lemma FilterMembership(users: seq<User>, query: string, u: User)
    ensures u in FilterData(users, query) <==> u in users && NameContains(u.name, query)
  {
    FilterCounts(users, query, u);
    IncludesIffOccurs(Lower(u.name), Lower(query));
    assert u in FilterData(users, query) <==> u in multiset(FilterData(users, query));
    assert u in users <==> u in multiset(users);
  }

  /** With an empty search text every user is kept: the list comes back unchanged. */
  lemma {:induction false} FilterEmptyQuery(users: seq<User>)
    ensures FilterData(users, "") == users
  {
    if users != [] {
      IncludesEmpty(Lower(users[0].name));
      FilterEmptyQuery(users[1..]);
    }
  }

  /** Two queries that lower-case to the same text select the same users. */
  lemma {:induction false} FilterCaseInsensitive(users: seq<User>, q1: string, q2: string)
    requires Lower(q1) == Lower(q2)
    ensures FilterData(users, q1) == FilterData(users, q2)
  {
    if users != [] {
      FilterCaseInsensitive(users[1..], q1, q2);
    }
  }

  /** In particular the upper-cased query selects the same users as the query itself. */
  lemma FilterUpperQuery(users: seq<User>, query: string)
    ensures FilterData(users, Upper(query)) == FilterData(users, query)
  {
    LowerOfUpper(query);
    FilterCaseInsensitive(users, Upper(query), query);
  }

  /** Filtering the filtered list again with the same query changes nothing. */
  lemma {:induction false} FilterIdempotent(users: seq<User>, query: string)
    ensures FilterData(FilterData(users, query), query) == FilterData(users, query)
  {
    if users != [] {
      FilterIdempotent(users[1..], query);
    }
  }
}
