/** The friends page (pages/Friends.tsx): the friend list built from the two
    accepted-friendship queries, user search, the lists after a request, a
    response or a removal, and avatar initials. Query answers are parameters;
    the client-side work on them is modelled. */
module FriendsPage {
  import opened Wrappers
  import opened Seqs
  import opened Text
  import opened Entities

  /** A user as the joined `users` column delivers it. */
  datatype Profile = Profile(id: UserId, name: Option<string>, email: Option<string>, photos: Option<seq<string>>)

  /** A friendship row with the other party joined in (absent when the join
      found nobody). */
  datatype JoinedFriendship = JoinedFriendship(id: string, users: Option<Profile>)

  /** An entry of the friend list. */
  datatype FriendCard = FriendCard(id: Option<UserId>, name: Option<string>, email: Option<string>, photos: seq<string>, friendshipId: string)

  /** An entry of the pending-request list. */
  datatype RequestCard = RequestCard(id: string, sender: Option<Profile>)

  /** An entry of the search results. */
  datatype SearchResult = SearchResult(id: UserId, name: string, email: string, photos: seq<string>)

  /** JavaScript's `s || fallback` on an optional string. */
  function NonEmptyOr(s: Option<string>, fallback: string): (r: string)
    ensures r == fallback || (s.Some? && r == s.value && r != [])
    ensures s.Some? && s.value != [] ==> r == s.value
  {
    if s.Some? && s.value != [] then s.value else fallback
  }

  /** `c` shows friendship `f`: its id, and the joined user's id, name,
      e-mail and photos (`users?.photos || []`), all absent when the join
      found nobody. */
  predicate ShowsRow(c: FriendCard, f: JoinedFriendship) {
    && c.friendshipId == f.id
    && (c.id.Some? <==> f.users.Some?)
    && (f.users.Some? ==>
          c.id.value == f.users.value.id && c.name == f.users.value.name
          && c.email == f.users.value.email && c.photos == f.users.value.photos.GetOr([]))
    && (f.users.None? ==> c.name.None? && c.email.None? && c.photos == [])
  }

  function ToCard(f: JoinedFriendship): FriendCard {
    match f.users
    case None => FriendCard(None, None, None, [], f.id)
    case Some(p) => FriendCard(Some(p.id), p.name, p.email, p.photos.GetOr([]), f.id)
  }

  /** The friend list: one card per accepted friendship the user sent, then
      one per accepted friendship the user received, each in query order. */
  function CombineFriends(sent: seq<JoinedFriendship>, received: seq<JoinedFriendship>): (r: seq<FriendCard>)
    ensures |r| == |sent| + |received|
    ensures forall i :: 0 <= i < |sent| ==> r[i].friendshipId == sent[i].id
    ensures forall j :: 0 <= j < |received| ==> r[|sent| + j].friendshipId == received[j].id
    ensures forall i :: 0 <= i < |r| ==> r[i].id.Some? ==>
      (i < |sent| && sent[i].users.Some? && r[i].id.value == sent[i].users.value.id)
      || (i >= |sent| && received[i - |sent|].users.Some? && r[i].id.value == received[i - |sent|].users.value.id)
    ensures forall i :: 0 <= i < |sent| ==> ShowsRow(r[i], sent[i])
    ensures forall j :: 0 <= j < |received| ==> ShowsRow(r[|sent| + j], received[j])
  {
    var all := sent + received;
    seq(|all|, i requires 0 <= i < |all| => ToCard(all[i]))
  }

  // ---- search ----

  /** A row of the main search query (`users` with its metadata). */
  datatype AuthUserRow = AuthUserRow(id: UserId, email: Option<string>, metaName: Option<string>, metaPhotos: Option<seq<string>>)

  /** A row of the fallback query (`select('*')` on `users`). */
  datatype UserRow = UserRow(id: UserId, name: Option<string>, email: Option<string>, photos: Option<seq<string>>)

  /** `friends.map(friend => friend.id).includes(id)`. */
  predicate IsFriend(friends: seq<FriendCard>, id: UserId) {
    exists i :: 0 <= i < |friends| && friends[i].id == Some(id)
  }

  /** `field && field.toLowerCase().includes(term.toLowerCase())`. */
  predicate Mentions(field: Option<string>, term: string) {
    field.Some? && field.value != [] && ContainsIgnoringCase(field.value, term)
  }

  /** The main path keeps a row when it is not the current user, its name or
      e-mail mentions the term, and it is not already a friend. */
  predicate MainMatch(term: string, me: Option<UserId>, friends: seq<FriendCard>, u: AuthUserRow) {
    me != Some(u.id) && (Mentions(u.metaName, term) || Mentions(u.email, term)) && !IsFriend(friends, u.id)
  }

  /** The fallback path keeps a row when its name mentions the term, it is
      not the current user and not already a friend. */
  predicate FallbackMatch(term: string, me: Option<UserId>, friends: seq<FriendCard>, u: UserRow) {
    Mentions(u.name, term) && me != Some(u.id) && !IsFriend(friends, u.id)
  }

  function FromAuthRow(u: AuthUserRow): (r: SearchResult)
    ensures r.id == u.id
  {
    SearchResult(u.id, NonEmptyOr(u.metaName, "Unknown"), NonEmptyOr(u.email, ""), u.metaPhotos.GetOr([]))
  }

  function FromUserRow(u: UserRow): (r: SearchResult)
    ensures r.id == u.id
  {
    SearchResult(u.id, NonEmptyOr(u.name, "Unknown"), NonEmptyOr(u.email, ""), u.photos.GetOr([]))
  }

  /** Every row of the main query in result form. */
  function AuthResultsOf(rows: seq<AuthUserRow>): (r: seq<SearchResult>)
    ensures |r| == |rows| && forall i :: 0 <= i < |rows| ==> r[i] == FromAuthRow(rows[i])
  {
    seq(|rows|, i requires 0 <= i < |rows| => FromAuthRow(rows[i]))
  }

  /** Every row of the fallback query in result form. */
  function UserResultsOf(rows: seq<UserRow>): (r: seq<SearchResult>)
    ensures |r| == |rows| && forall i :: 0 <= i < |rows| ==> r[i] == FromUserRow(rows[i])
  {
    seq(|rows|, i requires 0 <= i < |rows| => FromUserRow(rows[i]))
  }

  /** The rows of the main query that the page keeps, as results, in order:
      each shown user comes from a row, is neither the current user nor a
      friend, and shows a name or e-mail containing the term; no matching
      row is missed. */
  function MainResults(rows: seq<AuthUserRow>, term: string, me: Option<UserId>, friends: seq<FriendCard>): (r: seq<SearchResult>)
    ensures |r| <= |rows|
    ensures forall i :: 0 <= i < |r| ==>
      && r[i] in AuthResultsOf(rows)
      && me != Some(r[i].id) && !IsFriend(friends, r[i].id)
      && (Mentions(Some(r[i].name), term) || Mentions(Some(r[i].email), term))
    ensures forall u :: u in rows && MainMatch(term, me, friends, u) ==> FromAuthRow(u) in r
    ensures var ix := FilterIndices(rows, (u: AuthUserRow) => MainMatch(term, me, friends, u));
      |r| == |ix| && forall k :: 0 <= k < |r| ==> r[k] == FromAuthRow(rows[ix[k]])
  {
    MainKeptSound(rows, term, me, friends);
    MainKeptComplete(rows, term, me, friends);
    MainKeptInOrder(rows, term, me, friends);
    AuthResultsOf(MainKept(rows, term, me, friends))
  }

  /** The `filter` step of this path. */
  function MainKept(rows: seq<AuthUserRow>, term: string, me: Option<UserId>, friends: seq<FriendCard>): seq<AuthUserRow> {
    Filter(rows, u => MainMatch(term, me, friends, u))
  }

  lemma MainKeptSound(rows: seq<AuthUserRow>, term: string, me: Option<UserId>, friends: seq<FriendCard>)
    ensures var r := AuthResultsOf(MainKept(rows, term, me, friends));
      forall i :: 0 <= i < |r| ==>
        && r[i] in AuthResultsOf(rows)
        && me != Some(r[i].id) && !IsFriend(friends, r[i].id)
        && (Mentions(Some(r[i].name), term) || Mentions(Some(r[i].email), term))
  {
    var kept := MainKept(rows, term, me, friends);
    var r := AuthResultsOf(kept);
    forall i | 0 <= i < |r|
      ensures r[i] in AuthResultsOf(rows)
      ensures me != Some(r[i].id) && !IsFriend(friends, r[i].id) && (Mentions(Some(r[i].name), term) || Mentions(Some(r[i].email), term))
    {
      FilterMember(rows, u => MainMatch(term, me, friends, u), kept[i]);
      var k :| 0 <= k < |rows| && rows[k] == kept[i];
      assert AuthResultsOf(rows)[k] == r[i];
      AuthRowShown(term, me, friends, kept[i]);
    }
  }

  lemma MainKeptInOrder(rows: seq<AuthUserRow>, term: string, me: Option<UserId>, friends: seq<FriendCard>)
    ensures var r, ix := AuthResultsOf(MainKept(rows, term, me, friends)), FilterIndices(rows, (u: AuthUserRow) => MainMatch(term, me, friends, u));
      |r| == |ix| && forall k :: 0 <= k < |r| ==> r[k] == FromAuthRow(rows[ix[k]])
  {
    FilterInOrder(rows, (u: AuthUserRow) => MainMatch(term, me, friends, u));
  }

  lemma MainKeptComplete(rows: seq<AuthUserRow>, term: string, me: Option<UserId>, friends: seq<FriendCard>)
    ensures forall u :: u in rows && MainMatch(term, me, friends, u) ==> FromAuthRow(u) in AuthResultsOf(MainKept(rows, term, me, friends))
  {
    var kept := MainKept(rows, term, me, friends);
    var r := AuthResultsOf(kept);
    forall u | u in rows && MainMatch(term, me, friends, u)
      ensures FromAuthRow(u) in r
    {
      assert u in kept;
      var k :| 0 <= k < |kept| && kept[k] == u;
      assert r[k] == FromAuthRow(u);
    }
  }

  /** The rows of the fallback query that the page keeps, as results, in
      order; on this path the shown name must contain the term. */
  function FallbackResults(rows: seq<UserRow>, term: string, me: Option<UserId>, friends: seq<FriendCard>): (r: seq<SearchResult>)
    ensures |r| <= |rows|
    ensures forall i :: 0 <= i < |r| ==>
      && r[i] in UserResultsOf(rows)
      && me != Some(r[i].id) && !IsFriend(friends, r[i].id)
      && Mentions(Some(r[i].name), term)
    ensures forall u :: u in rows && FallbackMatch(term, me, friends, u) ==> FromUserRow(u) in r
    ensures var ix := FilterIndices(rows, (u: UserRow) => FallbackMatch(term, me, friends, u));
      |r| == |ix| && forall k :: 0 <= k < |r| ==> r[k] == FromUserRow(rows[ix[k]])
  {
    FallbackKeptSound(rows, term, me, friends);
    FallbackKeptComplete(rows, term, me, friends);
    FallbackKeptInOrder(rows, term, me, friends);
    UserResultsOf(FallbackKept(rows, term, me, friends))
  }

  /** The `filter` step of this path. */
  function FallbackKept(rows: seq<UserRow>, term: string, me: Option<UserId>, friends: seq<FriendCard>): seq<UserRow> {
    Filter(rows, u => FallbackMatch(term, me, friends, u))
  }

  lemma FallbackKeptSound(rows: seq<UserRow>, term: string, me: Option<UserId>, friends: seq<FriendCard>)
    ensures var r := UserResultsOf(FallbackKept(rows, term, me, friends));
      forall i :: 0 <= i < |r| ==>
        && r[i] in UserResultsOf(rows)
        && me != Some(r[i].id) && !IsFriend(friends, r[i].id)
        && Mentions(Some(r[i].name), term)
  {
    var kept := FallbackKept(rows, term, me, friends);
    var r := UserResultsOf(kept);
    forall i | 0 <= i < |r|
      ensures r[i] in UserResultsOf(rows)
      ensures me != Some(r[i].id) && !IsFriend(friends, r[i].id) && Mentions(Some(r[i].name), term)
    {
      FilterMember(rows, u => FallbackMatch(term, me, friends, u), kept[i]);
      var k :| 0 <= k < |rows| && rows[k] == kept[i];
      assert UserResultsOf(rows)[k] == r[i];
      UserRowShown(term, me, friends, kept[i]);
    }
  }

  lemma FallbackKeptInOrder(rows: seq<UserRow>, term: string, me: Option<UserId>, friends: seq<FriendCard>)
    ensures var r, ix := UserResultsOf(FallbackKept(rows, term, me, friends)), FilterIndices(rows, (u: UserRow) => FallbackMatch(term, me, friends, u));
      |r| == |ix| && forall k :: 0 <= k < |r| ==> r[k] == FromUserRow(rows[ix[k]])
  {
    FilterInOrder(rows, (u: UserRow) => FallbackMatch(term, me, friends, u));
  }

  lemma FallbackKeptComplete(rows: seq<UserRow>, term: string, me: Option<UserId>, friends: seq<FriendCard>)
    ensures forall u :: u in rows && FallbackMatch(term, me, friends, u) ==> FromUserRow(u) in UserResultsOf(FallbackKept(rows, term, me, friends))
  {
    var kept := FallbackKept(rows, term, me, friends);
    var r := UserResultsOf(kept);
    forall u | u in rows && FallbackMatch(term, me, friends, u)
      ensures FromUserRow(u) in r
    {
      assert u in kept;
      var k :| 0 <= k < |kept| && kept[k] == u;
      assert r[k] == FromUserRow(u);
    }
  }

  /** A row the main path keeps is shown as a result that is neither the
      current user nor a friend and whose name or e-mail mentions the term. */
  lemma AuthRowShown(term: string, me: Option<UserId>, friends: seq<FriendCard>, u: AuthUserRow)
    requires MainMatch(term, me, friends, u)
    ensures var x := FromAuthRow(u);
      me != Some(x.id) && !IsFriend(friends, x.id) && (Mentions(Some(x.name), term) || Mentions(Some(x.email), term))
  {
  }

  /** A row the fallback path keeps is shown as a result that is neither
      the current user nor a friend and whose name mentions the term. */
  lemma UserRowShown(term: string, me: Option<UserId>, friends: seq<FriendCard>, u: UserRow)
    requires FallbackMatch(term, me, friends, u)
    ensures var x := FromUserRow(u);
      me != Some(x.id) && !IsFriend(friends, x.id) && Mentions(Some(x.name), term)
  {
  }

  datatype SearchOutcome =
    | Cleared                     // empty term: results emptied, no query made
    | Found(results: seq<SearchResult>)
    | SearchFailed(message: string)   // 'Search error: ' + message, results emptied
  {
    /** The search results the page shows afterwards. */
    function Shown(): seq<SearchResult> {
      if Found? then results else []
    }
  }

  /** `searchUsers`: an empty term clears the results; otherwise the main
      query's rows are filtered, or, when it failed, the fallback query's. */
  function SearchUsers(term: string, me: Option<UserId>, friends: seq<FriendCard>,
                       main: Result<seq<AuthUserRow>, string>, fallback: Result<seq<UserRow>, string>): (o: SearchOutcome)
    ensures o == Cleared <==> term == []
    ensures o.SearchFailed? <==> term != [] && main.Err? && fallback.Err?
    ensures o.SearchFailed? ==> o.message == main.error
    ensures o.Found? && main.Ok? ==> o.results == MainResults(main.value, term, me, friends)
    ensures o.Found? && main.Err? ==> o.results == FallbackResults(fallback.value, term, me, friends)
  {
    if term == [] then Cleared
    else if main.Ok? then Found(MainResults(main.value, term, me, friends))
    else if fallback.Ok? then Found(FallbackResults(fallback.value, term, me, friends))
    else SearchFailed(main.error)
  }

  /** Whatever path the search takes, it never shows the current user or
      anyone already on the friend list. */
  lemma SearchExcludesSelfAndFriends(term: string, me: Option<UserId>, friends: seq<FriendCard>,
                                     main: Result<seq<AuthUserRow>, string>, fallback: Result<seq<UserRow>, string>)
    ensures var shown := SearchUsers(term, me, friends, main, fallback).Shown();
      forall i :: 0 <= i < |shown| ==> me != Some(shown[i].id) && !IsFriend(friends, shown[i].id)
  {
  }

  /** On the main path every shown user has the term in the name or e-mail
      shown; on the fallback path, in the name shown. */
  lemma SearchResultsMentionTerm(term: string, me: Option<UserId>, friends: seq<FriendCard>,
                                 main: Result<seq<AuthUserRow>, string>, fallback: Result<seq<UserRow>, string>)
    ensures var shown := SearchUsers(term, me, friends, main, fallback).Shown();
      forall i :: 0 <= i < |shown| ==>
        if main.Ok? then Mentions(Some(shown[i].name), term) || Mentions(Some(shown[i].email), term)
        else Mentions(Some(shown[i].name), term)
  {
  }

  // ---- local list updates ----

  /** After a request to `receiverId` succeeds that user leaves the results;
      on failure the results stay. */
  function AfterRequestSent(results: seq<SearchResult>, receiverId: UserId, succeeded: bool): (r: seq<SearchResult>)
    ensures !succeeded ==> r == results
    ensures succeeded ==> forall i :: 0 <= i < |r| ==> r[i].id != receiverId && r[i] in results
    ensures succeeded ==> forall i :: 0 <= i < |results| && results[i].id != receiverId ==> results[i] in r
    ensures succeeded ==> var ix := FilterIndices(results, (u: SearchResult) => u.id != receiverId);
      |r| == |ix| && forall k :: 0 <= k < |r| ==> r[k] == results[ix[k]]
  {
    if succeeded then
      FilterInOrder(results, (u: SearchResult) => u.id != receiverId);
      Filter(results, (u: SearchResult) => u.id != receiverId)
    else results
  }

  /** A sent request keeps every other result exactly as often as before. */
  lemma AfterRequestSentCounts(results: seq<SearchResult>, receiverId: UserId, u: SearchResult)
    ensures multiset(AfterRequestSent(results, receiverId, true))[u] ==
      if u.id != receiverId then multiset(results)[u] else 0
  {
    FilterMultiset(results, (v: SearchResult) => v.id != receiverId, u);
  }

  /** After a response to request `requestId` succeeds that request leaves
      the pending list. */
  function AfterRespond(requests: seq<RequestCard>, requestId: string, succeeded: bool): (r: seq<RequestCard>)
    ensures !succeeded ==> r == requests
    ensures succeeded ==> forall i :: 0 <= i < |r| ==> r[i].id != requestId && r[i] in requests
    ensures succeeded ==> forall i :: 0 <= i < |requests| && requests[i].id != requestId ==> requests[i] in r
    ensures succeeded ==> var ix := FilterIndices(requests, (q: RequestCard) => q.id != requestId);
      |r| == |ix| && forall k :: 0 <= k < |r| ==> r[k] == requests[ix[k]]
  {
    if succeeded then
      FilterInOrder(requests, (q: RequestCard) => q.id != requestId);
      Filter(requests, (q: RequestCard) => q.id != requestId)
    else requests
  }

  /** After removing friendship `friendshipId` succeeds its entries leave the
      friend list. */
  function AfterRemove(friends: seq<FriendCard>, friendshipId: string, succeeded: bool): (r: seq<FriendCard>)
    ensures !succeeded ==> r == friends
    ensures succeeded ==> forall i :: 0 <= i < |r| ==> r[i].friendshipId != friendshipId && r[i] in friends
    ensures succeeded ==> forall i :: 0 <= i < |friends| && friends[i].friendshipId != friendshipId ==> friends[i] in r
    ensures succeeded ==> var ix := FilterIndices(friends, (f: FriendCard) => f.friendshipId != friendshipId);
      |r| == |ix| && forall k :: 0 <= k < |r| ==> r[k] == friends[ix[k]]
  {
    if succeeded then
      FilterInOrder(friends, (f: FriendCard) => f.friendshipId != friendshipId);
      Filter(friends, (f: FriendCard) => f.friendshipId != friendshipId)
    else friends
  }

  /** Each entry kept by a list update is kept as often as it occurred. */
  lemma AfterRemoveCounts(friends: seq<FriendCard>, friendshipId: string, f: FriendCard)
    ensures multiset(AfterRemove(friends, friendshipId, true))[f] ==
      if f.friendshipId != friendshipId then multiset(friends)[f] else 0
  {
    FilterMultiset(friends, (g: FriendCard) => g.friendshipId != friendshipId, f);
  }

  // ---- initials ----

  /** The first character of each non-empty word (`n[0]` of an empty word is
      `undefined`, which `join('')` drops). */
  function Heads(words: seq<string>): (r: string)
    ensures |r| <= |words|
  {
    if words == [] then []
    else (if words[0] == [] then [] else [words[0][0]]) + Heads(words[1..])
  }

  /** The heads of a list of words are the heads of its two halves, one
      after the other. */
  lemma {:induction false} HeadsAppend(a: seq<string>, b: seq<string>)
    ensures Heads(a + b) == Heads(a) + Heads(b)
  {
    if a != [] {
      HeadsAppend(a[1..], b);
      assert (a + b)[1..] == a[1..] + b;
    } else {
      assert a + b == b;
    }
  }

  /** A single word contributes its first character, an empty one nothing. */
  lemma HeadsSingle(w: string)
    ensures Heads([w]) == if w == [] then [] else [w[0]]
  {
  }

  /** `getUserInitials`: the first letters of the space-separated words,
      upper-cased. */
  function Initials(name: string): (r: string)
    ensures forall i :: 0 <= i < |r| ==> !('a' <= r[i] <= 'z')
    ensures name == [] ==> r == []
  {
    Upper(Heads(Split(name, " ")))
  }

  /** A name made of words joined by single spaces (a word may be empty, as
      between two consecutive spaces) gives the upper-cased first letters of
      its non-empty words, in order. */
  lemma InitialsOfWords(words: seq<string>)
    requires |words| >= 1 && forall i :: 0 <= i < |words| ==> ' ' !in words[i]
    ensures Initials(Join(words, " ")) == Upper(Heads(words))
  {
    SplitJoin(words, ' ');
  }

  /** A one-word name gives its first letter, upper-cased. */
  lemma InitialsOneWord(name: string)
    requires name != [] && ' ' !in name
    ensures Initials(name) == [ToUpperChar(name[0])]
  {
    SplitWithoutChar(name, ' ');
  }

  /** A first and last name give their two first letters, upper-cased. */
  lemma InitialsTwoWords(first: string, last: string)
    requires first != [] && last != [] && ' ' !in first && ' ' !in last
    ensures Initials(first + " " + last) == [ToUpperChar(first[0]), ToUpperChar(last[0])]
  {
    SplitAfterWord(first, ' ', last);
    SplitWithoutChar(last, ' ');
    assert Split(first + " " + last, " ") == [first, last];
    assert Heads([first, last]) == [first[0], last[0]];
  }
}
