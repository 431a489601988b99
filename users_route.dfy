/** `GET /users?query=`: lists or searches the users, leaving out the caller, at most
    fifty at a time, without their passwords. */
module UsersRoute {
  import opened Wrappers
  import opened Db
  import Seqs
  import Text

  const UsersFetched: string := "Users fetched successfully"
  const UsersFailed: string := "Failed to fetch users"

  /** `.limit(50)`. */
  const MaxUsers: nat := 50

  /** The fields `.select(...)` keeps of a user that this model stores: no password. */
  datatype Profile = Profile(id: Id, userName: string, email: string)

  /** The query object the route builds: the search text when the `query` parameter is a
      non-empty string, and the caller's id when the token carried one. */
  datatype UserFilter = UserFilter(search: Option<string>, exclude: Option<Id>)

  function BuildFilter(query: Option<string>, requester: Option<Id>): (f: UserFilter)
    ensures f.search.Some? <==> query.Some? && query.value != ""
    ensures f.search.Some? ==> f.search == query
    ensures f.exclude == requester
  {
    UserFilter(if query.Some? && query.value != "" then query else None, requester)
  }

  /** A user satisfies the filter: the name or the email contains the search text, ignoring
      case, and the user is not the excluded one. */
  predicate Matches(f: UserFilter, u: User) {
    && (f.search.None? || Text.IncludesIgnoringCase(u.userName, f.search.value)
                       || Text.IncludesIgnoringCase(u.email, f.search.value))
    && (f.exclude.None? || u.id != f.exclude.value)
  }

  function MatchFilter(f: UserFilter): User -> bool {
    (u: User) => Matches(f, u)
  }

  function ProfileOf(u: User): Profile {
    Profile(u.id, u.userName, u.email)
  }

  /** `User.find(filter).select(...).limit(50)` over the users in store order. */
  function FindUsers(users: seq<User>, query: Option<string>, requester: Option<Id>): (r: seq<Profile>)
    ensures |r| <= MaxUsers
    ensures requester.Some? ==> forall p :: p in r ==> p.id != requester.value
    ensures forall p :: p in r ==> exists u :: u in users && Matches(BuildFilter(query, requester), u) && p == ProfileOf(u)
    ensures var matching := Seqs.Filter(users, MatchFilter(BuildFilter(query, requester)));
      && |r| == (if |matching| < MaxUsers then |matching| else MaxUsers)
      && forall i :: 0 <= i < |r| ==> r[i] == ProfileOf(matching[i])
  {
    var f := BuildFilter(query, requester);
    var matching := Seqs.Filter(users, MatchFilter(f));
    var limited := Seqs.Take(matching, MaxUsers);
    var r := seq(|limited|, i requires 0 <= i < |limited| => ProfileOf(limited[i]));
    assert forall i :: 0 <= i < |limited| ==> limited[i] in matching;
    r
  }

  /** Without a search text every user but the caller is listed, up to the limit. */
  lemma {:induction false} NoQueryListsEveryone(users: seq<User>, requester: Option<Id>)
    requires forall i :: 0 <= i < |users| ==> requester.None? || users[i].id != requester.value
    requires |users| <= MaxUsers
    ensures FindUsers(users, None, requester) == seq(|users|, i requires 0 <= i < |users| => ProfileOf(users[i]))
  {
    Seqs.FilterAll(users, MatchFilter(BuildFilter(None, requester)));
  }

  /** A user within the first fifty matches is listed, and one that does not match never is. */
  lemma ListedIffMatches(users: seq<User>, query: Option<string>, requester: Option<Id>, u: User)
    requires u in users
    requires |Seqs.Filter(users, MatchFilter(BuildFilter(query, requester)))| <= MaxUsers
    ensures ProfileOf(u) in FindUsers(users, query, requester) <==> Matches(BuildFilter(query, requester), u)
  {
    if Matches(BuildFilter(query, requester), u) {
      ListedWhenMatches(users, query, requester, u);
    }
  }

  lemma ListedWhenMatches(users: seq<User>, query: Option<string>, requester: Option<Id>, u: User)
    requires u in users && Matches(BuildFilter(query, requester), u)
    requires |Seqs.Filter(users, MatchFilter(BuildFilter(query, requester)))| <= MaxUsers
    ensures ProfileOf(u) in FindUsers(users, query, requester)
  {
    var matching := Seqs.Filter(users, MatchFilter(BuildFilter(query, requester)));
    var r := FindUsers(users, query, requester);
    assert u in matching;
    var i :| 0 <= i < |matching| && matching[i] == u;
    assert r[i] == ProfileOf(u);
  }

  /** The filter as the route writes it. Its name clause tests `user_name`, a field no User
      document has (the schema calls it `userName`), and a `$regex` on a missing field
      matches nothing: only the email clause can hold. */
  predicate MatchesAsWritten(f: UserFilter, u: User) {
    && (f.search.None? || Text.IncludesIgnoringCase(u.email, f.search.value))
    && (f.exclude.None? || u.id != f.exclude.value)
  }

  function MatchFilterAsWritten(f: UserFilter): User -> bool {
    (u: User) => MatchesAsWritten(f, u)
  }

  /** A listed user as the route's projection returns it: `.select(...)` names `user_name`,
      so the name is not among the returned fields. */
  datatype BareProfile = BareProfile(id: Id, email: string)

  /** `User.find(filter).select(...).limit(50)` as written. */
  function FindUsersAsWritten(users: seq<User>, query: Option<string>, requester: Option<Id>)
    : (r: seq<BareProfile>)
    ensures |r| <= MaxUsers
    ensures requester.Some? ==> forall p :: p in r ==> p.id != requester.value
    ensures forall p :: p in r ==>
      exists u :: u in users && MatchesAsWritten(BuildFilter(query, requester), u) && p == BareProfile(u.id, u.email)
    ensures var matching := Seqs.Filter(users, MatchFilterAsWritten(BuildFilter(query, requester)));
      && |r| == (if |matching| < MaxUsers then |matching| else MaxUsers)
      && forall i :: 0 <= i < |r| ==> r[i] == BareProfile(matching[i].id, matching[i].email)
  {
    var matching := Seqs.Filter(users, MatchFilterAsWritten(BuildFilter(query, requester)));
    var limited := Seqs.Take(matching, MaxUsers);
    assert forall i :: 0 <= i < |limited| ==> limited[i] in matching;
    seq(|limited|, i requires 0 <= i < |limited| => BareProfile(limited[i].id, limited[i].email))
  }

  /** As written, a user whose name contains the search text but whose email does not is
      never listed, although the corrected search lists it (`ListedIffMatches`). */
  lemma NameOnlyMatchUnlistedAsWritten(users: seq<User>, nextId: Id, query: string, requester: Option<Id>, u: User)
    requires UsersOk(users, nextId) && u in users && query != ""
    requires Text.IncludesIgnoringCase(u.userName, query) && !Text.IncludesIgnoringCase(u.email, query)
    ensures forall p :: p in FindUsersAsWritten(users, Some(query), requester) ==> p.id != u.id
    ensures requester.None? || u.id != requester.value ==> Matches(BuildFilter(Some(query), requester), u)
  {
    var r := FindUsersAsWritten(users, Some(query), requester);
    var f := BuildFilter(Some(query), requester);
    forall p | p in r ensures p.id != u.id {
      var v :| v in users && MatchesAsWritten(f, v) && p == BareProfile(v.id, v.email);
      var i :| 0 <= i < |users| && users[i] == v;
      var j :| 0 <= j < |users| && users[j] == u;
      assert i != j;
    }
  }

  /** The route's answer with the corrected search (`FindUsers`); the one store call may throw. */
  function List(users: seq<User>, query: Option<string>, requester: Option<Id>, fault: Fault)
    : (reply: Reply<seq<Profile>>)
    ensures !Survives(fault, 1) ==> reply == Reply(ServerError, UsersFailed, None)
    ensures Survives(fault, 1) ==> reply == Reply(Ok, UsersFetched, Some(FindUsers(users, query, requester)))
  {
    if !Survives(fault, 1) then Reply(ServerError, UsersFailed, None)
    else Reply(Ok, UsersFetched, Some(FindUsers(users, query, requester)))
  }

  /** The route's answer as written: the search and the projection of `FindUsersAsWritten`. */
  function ListAsWritten(users: seq<User>, query: Option<string>, requester: Option<Id>, fault: Fault)
    : (reply: Reply<seq<BareProfile>>)
    ensures !Survives(fault, 1) ==> reply == Reply(ServerError, UsersFailed, None)
    ensures Survives(fault, 1) ==> reply.status == Ok && reply.message == UsersFetched && reply.data.Some?
    ensures Survives(fault, 1) ==>
      var matching := Seqs.Filter(users, MatchFilterAsWritten(BuildFilter(query, requester)));
      && |reply.data.value| == (if |matching| < MaxUsers then |matching| else MaxUsers)
      && forall i :: 0 <= i < |reply.data.value| ==>
           reply.data.value[i] == BareProfile(matching[i].id, matching[i].email)
  {
    if !Survives(fault, 1) then Reply(ServerError, UsersFailed, None)
    else Reply(Ok, UsersFetched, Some(FindUsersAsWritten(users, query, requester)))
  }

  /** As written, a user whose name contains the search text but whose email does not is
      missing from a successful answer, while the corrected route lists it whenever the
      matches fit under the cap and it is not the caller. */
  lemma NameOnlyMatchMissingFromListAsWritten(users: seq<User>, nextId: Id, query: string, requester: Option<Id>, u: User)
    requires UsersOk(users, nextId) && u in users && query != ""
    requires Text.IncludesIgnoringCase(u.userName, query) && !Text.IncludesIgnoringCase(u.email, query)
    requires requester.None? || u.id != requester.value
    requires |Seqs.Filter(users, MatchFilter(BuildFilter(Some(query), requester)))| <= MaxUsers
    ensures forall p :: p in ListAsWritten(users, Some(query), requester, Healthy).data.value ==> p.id != u.id
    ensures ProfileOf(u) in List(users, Some(query), requester, Healthy).data.value
  {
    NameOnlyMatchUnlistedAsWritten(users, nextId, query, requester, u);
    ListedWhenMatches(users, Some(query), requester, u);
  }
}
