/**
 * User search: users other than the requester whose display name contains
 * the query (ignoring case), at most twenty of them, in store order. The
 * service also builds a phone-number clause from the query's digits, but
 * the connection runs with strictQuery and phoneNumber is not a path of the
 * user schema, so the cast of the filter removes that clause before the
 * query reaches the store.
 */
module UserService {
  import opened Common
  import opened JsString
  import opened Store

  const SearchLimit := 20

  /** The fields the search selects. */
  datatype UserSummary = UserSummary(
    id: Id,
    displayName: string,
    avatarUrl: Option<string>,
    phoneNumber: Option<string>,
    statusMessage: Option<string>)

  /** One clause of the query's $or. */
  datatype Criterion =
    | NameContains(pattern: string)   // displayName matches the escaped pattern, case-insensitively
    | PhoneContains(digits: string)   // phoneNumber matches the digit string

  /** The name clause always; the phone clause when the query has digits. */
  function Criteria(trimmed: string): (r: seq<Criterion>)
    ensures |r| >= 1 && r[0] == NameContains(trimmed)
    ensures |r| == 2 <==> Digits(trimmed) != []
    ensures |r| <= 2 && (|r| == 2 ==> r[1] == PhoneContains(Digits(trimmed)))
  {
    var digits := Digits(trimmed);
    [NameContains(trimmed)] + (if |digits| > 0 then [PhoneContains(digits)] else [])
  }

  /** The criteria array as the service builds it, one push at a time. The
      source's later check for an empty array never fires: the name clause
      is always pushed. */
  method BuildCriteria(trimmed: string) returns (criteria: seq<Criterion>)
    ensures criteria == Criteria(trimmed)
    ensures |criteria| > 0
  {
    criteria := [];
    criteria := criteria + [NameContains(trimmed)];
    var digits := Digits(trimmed);
    if |digits| > 0 {
      criteria := criteria + [PhoneContains(digits)];
    }
  }

  /** Whether a clause's path is declared by the user schema (email,
      displayName, avatarUrl, password, statusMessage). */
  predicate OnSchemaPath(c: Criterion) {
    c.NameContains?
  }

  /** The cast of $or under strictQuery: a condition on a path the schema
      does not declare is deleted, and a branch left empty by that is
      removed from the $or. The surviving clauses keep their order. */
  function CastCriteria(criteria: seq<Criterion>): (r: seq<Criterion>)
    ensures forall c :: c in r <==> c in criteria && OnSchemaPath(c)
    ensures |r| <= |criteria|
  {
    Filter(criteria, OnSchemaPath)
  }

  /** The phone clause is built exactly when the query has digits, and the
      cast always leaves the name clause alone. */
  lemma CastDropsPhoneClause(trimmed: string)
    ensures PhoneContains(Digits(trimmed)) in Criteria(trimmed) <==> Digits(trimmed) != []
    ensures CastCriteria(Criteria(trimmed)) == [NameContains(trimmed)]
  {
    var cs := Criteria(trimmed);
    var name := NameContains(trimmed);
    assert OnSchemaPath(cs[0]);
    assert Filter(cs, OnSchemaPath) == [name] + Filter(cs[1..], OnSchemaPath);
    if Digits(trimmed) != [] {
      var phone := PhoneContains(Digits(trimmed));
      assert cs[1..] == [phone] && !OnSchemaPath(phone);
      assert Filter([phone], OnSchemaPath) == Filter([phone][1..], OnSchemaPath);
      assert [phone][1..] == [];
    } else {
      assert cs[1..] == [];
    }
  }

  predicate Satisfies(u: User, c: Criterion) {
    match c
    case NameContains(pattern) => Contains(ToLower(u.displayName), ToLower(pattern))
    case PhoneContains(digits) => u.phoneNumber.Some? && Contains(u.phoneNumber.value, digits)
  }

  /** The filter { _id: { $ne: requesterId }, $or: criteria } as it reaches the store. */
  function Selects(requesterId: Id, criteria: seq<Criterion>): User -> bool {
    (u: User) => u.id != requesterId && exists c :: c in criteria && Satisfies(u, c)
  }

  function Summarize(u: User): UserSummary {
    UserSummary(u.id, u.displayName, u.avatarUrl, u.phoneNumber, u.statusMessage)
  }

  function SummarizeAll(us: seq<User>): (r: seq<UserSummary>)
    ensures |r| == |us| && forall i :: 0 <= i < |us| ==> r[i] == Summarize(us[i])
  {
    seq(|us|, i requires 0 <= i < |us| => Summarize(us[i]))
  }

  /** searchUsers(requesterId, query). */
  function SearchUsers(users: seq<User>, requesterId: Id, query: string): seq<UserSummary> {
    var trimmed := Trim(query);
    if trimmed == [] then []
    else SummarizeAll(Take(Filter(users, Selects(requesterId, CastCriteria(Criteria(trimmed)))), SearchLimit))
  }

  /** The declarative reading of the search: the query is not blank, the
      user is not the requester, and its name contains the query ignoring
      case. The phone number takes no part. */
  predicate Wanted(u: User, requesterId: Id, query: string) {
    var q := Trim(query);
    && q != []
    && u.id != requesterId
    && Contains(ToLower(u.displayName), ToLower(q))
  }

  /** The cast filter selects exactly the wanted users. */
  lemma SelectsIsWanted(u: User, requesterId: Id, query: string)
    requires Trim(query) != []
    ensures Selects(requesterId, CastCriteria(Criteria(Trim(query))))(u) <==> Wanted(u, requesterId, query)
  {
    var q := Trim(query);
    CastDropsPhoneClause(q);
    var cs := CastCriteria(Criteria(q));
    assert cs == [NameContains(q)];
    assert (exists c :: c in cs && Satisfies(u, c)) <==> Satisfies(u, cs[0]);
  }

  /** The users the search finds before its limit is applied, in store order. */
  function AllWanted(users: seq<User>, requesterId: Id, query: string): (r: seq<User>)
    ensures forall u :: u in r <==> u in users && Wanted(u, requesterId, query)
  {
    Filter(users, (u: User) => Wanted(u, requesterId, query))
  }

  /** The search is the first twenty wanted users, summarized. */
  lemma SearchIsFirstWanted(users: seq<User>, requesterId: Id, query: string)
    ensures SearchUsers(users, requesterId, query) == SummarizeAll(Take(AllWanted(users, requesterId, query), SearchLimit))
  {
    var q := Trim(query);
    var w := AllWanted(users, requesterId, query);
    if q != [] {
      var p := Selects(requesterId, CastCriteria(Criteria(q)));
      forall u ensures p(u) <==> Wanted(u, requesterId, query) {
        SelectsIsWanted(u, requesterId, query);
      }
      FilterAgrees(users, p, (u: User) => Wanted(u, requesterId, query));
    } else {
      assert w == [] by {
        HeadFacts(w);
      }
    }
  }

  /** The summaries of the first twenty of w: at most twenty, the i-th that
      of the i-th user of w, and all of them when w has at most twenty users. */
  lemma SummariesOfFirst(w: seq<User>, r: seq<UserSummary>)
    requires r == SummarizeAll(Take(w, SearchLimit))
    ensures |r| <= SearchLimit && |r| <= |w|
    ensures forall i :: 0 <= i < |r| ==> r[i] == Summarize(w[i])
    ensures |w| <= SearchLimit ==> forall u :: u in w ==> Summarize(u) in r
  {
    if |w| <= SearchLimit {
      forall u | u in w ensures Summarize(u) in r {
        var j :| 0 <= j < |w| && w[j] == u;
        assert r[j] == Summarize(u);
      }
    }
  }

  /** The search returns the first twenty wanted users, summarized: a blank
      query returns nothing, every result is the summary of a wanted user
      other than the requester, and when at most twenty users are wanted all
      of them are returned. */
  lemma SearchUsersCorrect(users: seq<User>, requesterId: Id, query: string)
    ensures var r := SearchUsers(users, requesterId, query);
            && r == SummarizeAll(Take(AllWanted(users, requesterId, query), SearchLimit))
            && |r| <= SearchLimit
            && (AllWhitespace(query) ==> r == [])
            && (forall s :: s in r ==> exists u :: u in users && Wanted(u, requesterId, query) && s == Summarize(u))
            && (|AllWanted(users, requesterId, query)| <= SearchLimit ==>
                  forall u :: u in users && Wanted(u, requesterId, query) ==> Summarize(u) in r)
  {
    SearchIsFirstWanted(users, requesterId, query);
    SearchBlankQuery(users, requesterId, query);
    var w := AllWanted(users, requesterId, query);
    var r := SummarizeAll(Take(w, SearchLimit));
    SummariesOfFirst(w, r);
    ResultsAreWanted(users, requesterId, query, w, r);
  }

  /** Each summary among the first twenty is that of a wanted user. */
  lemma ResultsAreWanted(users: seq<User>, requesterId: Id, query: string, w: seq<User>, r: seq<UserSummary>)
    requires w == AllWanted(users, requesterId, query)
    requires |r| <= |w| && forall i :: 0 <= i < |r| ==> r[i] == Summarize(w[i])
    ensures forall s :: s in r ==> exists u :: u in users && Wanted(u, requesterId, query) && s == Summarize(u)
  {
    forall s | s in r ensures exists u :: u in users && Wanted(u, requesterId, query) && s == Summarize(u) {
      var i :| 0 <= i < |r| && r[i] == s;
      assert w[i] in w;
    }
  }

  /** A blank query finds nothing. */
  lemma SearchBlankQuery(users: seq<User>, requesterId: Id, query: string)
    ensures AllWhitespace(query) ==> SearchUsers(users, requesterId, query) == []
  {
    TrimEmptyIff(query);
  }

  /** The requester never finds themself. */
  lemma SearchExcludesRequester(users: seq<User>, requesterId: Id, query: string)
    ensures forall s :: s in SearchUsers(users, requesterId, query) ==> s.id != requesterId
  {
    SearchUsersCorrect(users, requesterId, query);
  }

  /** Every user found matches by name: a user whose phone number contains
      the query's digits but whose name does not contain the query is never
      returned. */
  lemma SearchMatchesByName(users: seq<User>, requesterId: Id, query: string)
    ensures forall s :: s in SearchUsers(users, requesterId, query) ==>
              Contains(ToLower(s.displayName), ToLower(Trim(query)))
    ensures forall u :: u in users && !Contains(ToLower(u.displayName), ToLower(Trim(query))) ==>
              Summarize(u) !in SearchUsers(users, requesterId, query)
  {
    SearchUsersCorrect(users, requesterId, query);
  }
}
