/**
 The pure computations inside the dashboard page: the search filter over
 the stored users, the per-country tally that feeds the pie chart, and the
 "show details" toggle of the user cards. Rendering, the chart and the
 fetch effect are not modelled.
 */
module Dashboard {
  import opened Users
  import opened Seqs
  import opened Text
  import UserSlice

  datatype Option<T> = None | Some(value: T)

  // ---------------------------------------------------------------------
  // Search filter
  // ---------------------------------------------------------------------

  /** The text the search compares against the name: first name, a space, last name. */
  function FullName(u: User): string {
    u.first + " " + u.last
  }

  /**
   The meaning of a match, stated with substring positions: the lower-cased
   search text occurs in the lower-cased full name or in the lower-cased
   e-mail address.
   */
  ghost predicate MatchesSpec(u: User, search: string) {
    || (exists i :: OccursAt(Lower(FullName(u)), Lower(search), i))
    || (exists i :: OccursAt(Lower(u.email), Lower(search), i))
  }

  /** The search test the page applies to each user. */
  function Matches(search: string): (r: User -> bool)
    ensures forall u :: r(u) <==> MatchesSpec(u, search)
  {
    (u: User) => Contains(Lower(FullName(u)), Lower(search))
              || Contains(Lower(u.email), Lower(search))
  }

  /** `filteredUsers`: the users, in store order, that match the search text. */
  function FilterUsers(users: seq<User>, search: string): (r: seq<User>)
    ensures forall u :: u in r <==> u in users && MatchesSpec(u, search)
    ensures forall u :: multiset(r)[u] == if MatchesSpec(u, search) then multiset(users)[u] else 0
    ensures |r| <= |users|
  {
    Filter(Matches(search), users)
  }

  /** The filter never reorders or duplicates: its result is a subsequence of the users. */
  lemma FilterUsersIsSubsequence(users: seq<User>, search: string)
    ensures IsSubsequence(FilterUsers(users, search), users)
  {
    FilterIsSubsequence(Matches(search), users);
  }

  /** An empty search box shows every user, in order. */
  lemma FilterUsersEmptySearch(users: seq<User>)
    ensures FilterUsers(users, "") == users
  {
    forall i | 0 <= i < |users|
      ensures Matches("")(users[i])
    {
      ContainsEmpty(Lower(FullName(users[i])));
    }
    FilterKeepsAll(Matches(""), users);
  }

  /** Filtering the filtered list again with the same search text changes nothing. */
  lemma FilterUsersIdempotent(users: seq<User>, search: string)
    ensures FilterUsers(FilterUsers(users, search), search) == FilterUsers(users, search)
  {
    FilterIdempotent(Matches(search), users);
  }

  /** The search is case-insensitive: lower-casing the search text first changes nothing. */
  lemma FilterUsersCaseInsensitive(users: seq<User>, search: string)
    ensures FilterUsers(users, Lower(search)) == FilterUsers(users, search)
  {
    LowerIdempotent(search);
    FilterCongruent(Matches(Lower(search)), Matches(search), users);
  }

  /** Searching for a user's full name, space included, always finds that user. */
  lemma FullNameSearchFindsUser(users: seq<User>, u: User)
    requires u in users
    ensures u in FilterUsers(users, FullName(u))
  {
    var name := Lower(FullName(u));
    assert name[0..|name|] == name;
    assert OccursAt(name, name, 0);
  }

  // ---------------------------------------------------------------------
  // Country tally
  // ---------------------------------------------------------------------

  /** A tally's count for `c`; a country without an entry counts zero (`acc[c] || 0`). */
  function Get(m: map<string, nat>, c: string): nat {
    if c in m then m[c] else 0
  }

  /** One step of the tally: add one to the entry for `c`, creating it at one. */
  function Bump(acc: map<string, nat>, c: string): (r: map<string, nat>)
    ensures r.Keys == acc.Keys + {c}
    ensures forall k :: Get(r, k) == Get(acc, k) + (if k == c then 1 else 0)
  {
    acc[c := Get(acc, c) + 1]
  }

  /** The tally as `reduce` computes it: users are visited from the first to the last. */
  function CountFrom(acc: map<string, nat>, us: seq<User>): map<string, nat>
    decreases |us|
  {
    if us == [] then acc else CountFrom(Bump(acc, us[0].country), us[1..])
  }

  /** The country of each user, in store order. */
  function Countries(users: seq<User>): (r: seq<string>)
    ensures |r| == |users|
    ensures forall i :: 0 <= i < |users| ==> r[i] == users[i].country
  {
    seq(|users|, i requires 0 <= i < |users| => users[i].country)
  }

  /** A country is in the list of countries exactly when some user has it. */
  lemma CountriesMembership(users: seq<User>)
    ensures forall c :: c in Countries(users) <==> exists i :: 0 <= i < |users| && users[i].country == c
  {
  }

  /** The tally adds, to what `acc` held, one per user for that user's country. */
  lemma {:induction false} CountFromSpec(acc: map<string, nat>, us: seq<User>)
    ensures forall c :: Get(CountFrom(acc, us), c) == Get(acc, c) + multiset(Countries(us))[c]
    ensures forall c :: c in CountFrom(acc, us) <==> c in acc || c in Countries(us)
    decreases |us|
  {
    if us != [] {
      CountFromSpec(Bump(acc, us[0].country), us[1..]);
      assert Countries(us) == [us[0].country] + Countries(us[1..]);
    }
  }

  /**
   `countryCount`: each country's count is the number of users from that
   country, and the tally has an entry exactly for the countries that some
   user has.
   */
  function CountryCount(users: seq<User>): (r: map<string, nat>)
    ensures forall c :: Get(r, c) == multiset(Countries(users))[c]
    ensures forall c :: c in r <==> exists i :: 0 <= i < |users| && users[i].country == c
  {
    CountFromSpec(map[], users);
    CountriesMembership(users);
    CountFrom(map[], users)
  }

  /** Every entry of the tally is at least one: no pie slice is empty. */
  lemma CountryCountPositive(users: seq<User>)
    ensures forall c :: c in CountryCount(users) ==> CountryCount(users)[c] >= 1
  {
    var m := CountryCount(users);
    forall c | c in m
      ensures m[c] >= 1
    {
      assert c in Countries(users);
      assert Get(m, c) == m[c];
    }
  }

  /** The sum of all the counts of a tally. */
  ghost function SumValues(m: map<string, nat>): nat
    decreases |m|
  {
    if m == map[] then 0
    else
      var k :| k in m;
      m[k] + SumValues(m - {k})
  }

  /** The sum can be taken starting from any entry. */
  lemma {:induction false} SumValuesRemove(m: map<string, nat>, k: string)
    requires k in m
    ensures SumValues(m) == m[k] + SumValues(m - {k})
    decreases |m|
  {
    var j :| j in m && SumValues(m) == m[j] + SumValues(m - {j});
    if j != k {
      SumValuesRemove(m - {j}, k);
      SumValuesRemove(m - {k}, j);
      assert m - {j} - {k} == m - {k} - {j};
    }
  }

  /** One tally step raises the sum of the counts by exactly one. */
  lemma SumValuesBump(m: map<string, nat>, c: string)
    ensures SumValues(Bump(m, c)) == SumValues(m) + 1
  {
    var r := Bump(m, c);
    SumValuesRemove(r, c);
    if c in m {
      SumValuesRemove(m, c);
      assert r - {c} == m - {c};
    } else {
      assert r - {c} == m;
    }
  }

  /** Folding a list of users into a tally adds one to the sum of the counts per user. */
  lemma {:induction false} CountFromSum(acc: map<string, nat>, us: seq<User>)
    ensures SumValues(CountFrom(acc, us)) == SumValues(acc) + |us|
    decreases |us|
  {
    if us != [] {
      SumValuesBump(acc, us[0].country);
      CountFromSum(Bump(acc, us[0].country), us[1..]);
    }
  }

  /** The pie chart's slices add up to the "Total Users" figure, `users.length`. */
  lemma CountryCountSumIsTotal(users: seq<User>)
    ensures SumValues(CountryCount(users)) == |users|
  {
    CountFromSum(map[], users);
  }

  // ---------------------------------------------------------------------
  // Card expansion
  // ---------------------------------------------------------------------

  /** A card shows its details when the expanded e-mail is that card's e-mail. */
  predicate IsOpen(expanded: Option<string>, u: User) {
    expanded == Some(u.email)
  }

  /** The "Show Details" / "Hide Details" button of the card with e-mail `email`. */
  function Toggle(expanded: Option<string>, email: string): (r: Option<string>)
    ensures r == None <==> expanded == Some(email)
    ensures forall e :: r == Some(e) ==> e == email
  {
    if expanded == Some(email) then None else Some(email)
  }

  /** The positions of the cards that show their details. */
  function OpenCards(cards: seq<User>, expanded: Option<string>): set<nat> {
    set i: nat | i < |cards| && IsOpen(expanded, cards[i])
  }

  /** No two cards carry the same e-mail address. */
  predicate DistinctEmails(cards: seq<User>) {
    forall i, j :: 0 <= i < j < |cards| ==> cards[i].email != cards[j].email
  }

  /** When no two cards share an e-mail address, at most one card is open. */
  lemma AtMostOneOpen(cards: seq<User>, expanded: Option<string>)
    requires DistinctEmails(cards)
    ensures |OpenCards(cards, expanded)| <= 1
  {
    var open := OpenCards(cards, expanded);
    if open != {} {
      var i :| i in open;
      assert open == {i};
    }
  }

  /**
   Clicking card `i` closes every card if card `i` was open, and otherwise
   opens exactly the cards with card `i`'s e-mail address, closing all others.
   */
  lemma ToggleCard(cards: seq<User>, expanded: Option<string>, i: nat)
    requires i < |cards|
    ensures i in OpenCards(cards, expanded) ==>
              OpenCards(cards, Toggle(expanded, cards[i].email)) == {}
    ensures i !in OpenCards(cards, expanded) ==>
              OpenCards(cards, Toggle(expanded, cards[i].email))
                == set j: nat | j < |cards| && cards[j].email == cards[i].email
  {
  }

  /**
   Two cards that share an e-mail address open together: the "one card at
   a time" behaviour depends on e-mail addresses being distinct.
   */
  lemma SharedEmailOpensTwoCards()
    ensures
      var a := User("1", "Ann", "Lee", "a@x.com", "US");
      var b := User("2", "Bob", "Ray", "a@x.com", "FR");
      OpenCards([a, b], Toggle(None, "a@x.com")) == {0, 1}
  {
    var a := User("1", "Ann", "Lee", "a@x.com", "US");
    var b := User("2", "Bob", "Ray", "a@x.com", "FR");
    var open := OpenCards([a, b], Toggle(None, "a@x.com"));
    assert 0 in open && 1 in open;
  }

  // ---------------------------------------------------------------------
  // A worked scenario
  // ---------------------------------------------------------------------

  /**
   Three fetched users from the US, the US and Canada: the total is three
   and the tally is {US: 2, CA: 1}.
   */
  lemma ThreeUserTally(ann: User, bob: User, joe: User)
    requires ann.country == "US" && bob.country == "US" && joe.country == "CA"
    ensures
      var users := UserSlice.SetUsers(UserSlice.Initial(), [ann, bob, joe]).users;
      && SumValues(CountryCount(users)) == 3
      && CountryCount(users) == map["US" := 2, "CA" := 1]
  {
    var users := [ann, bob, joe];
    assert users[1..] == [bob, joe] && users[1..][1..] == [joe];
    var m1 := Bump(map[], "US");
    var m2 := Bump(m1, "US");
    var m3 := Bump(m2, "CA");
    assert CountryCount(users) == CountFrom(m1, [bob, joe]);
    assert CountFrom(m1, [bob, joe]) == CountFrom(m2, [joe]);
    assert CountFrom(m2, [joe]) == CountFrom(m3, []);
    assert m3 == map["US" := 2, "CA" := 1];
    CountryCountSumIsTotal(users);
  }

  /** Searching "ca" finds a user through the e-mail address "joe@canada.com". */
  lemma SearchMatchesEmail(users: seq<User>, joe: User)
    requires joe in users && joe.email == "joe@canada.com"
    ensures joe in FilterUsers(users, "ca")
  {
    var mail := Lower(joe.email);
    assert mail[4..6] == "ca";
    assert OccursAt(mail, Lower("ca"), 4);
  }
}
