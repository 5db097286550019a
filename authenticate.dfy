/**
 * The authentication middleware: the decision taken on a request's
 * Authorization header, and the request and continuation it acts on.
 * Token verification is a parameter: it gives the subject of a valid token
 * and None where verification throws.
 */
module Authenticate {
  import opened Common
  import opened JsString
  import opened Store

  const MissingHeader := HttpError(401, "Missing authorization header")
  const InvalidToken := HttpError(401, "Invalid token")
  const UserNotFound := HttpError(401, "User not found")
  const BearerPrefix := "Bearer "

  /** What the middleware attaches to the request. */
  datatype AuthenticatedUser = AuthenticatedUser(id: Id, email: string, displayName: string)

  /** The error next is called with (None for success), the user to attach,
      and the token handed to verification, if it was called. */
  datatype Decision = Decision(error: Option<Error>, user: Option<AuthenticatedUser>, verified: Option<string>)

  /** header.replace("Bearer ", ""). */
  function Token(header: string): string {
    ReplaceFirst(header, BearerPrefix, "")
  }

  /** The decision on a header. lookupThrows says whether the user lookup
      by the token's subject throws. */
  function Decide(header: Option<string>, verify: string -> Option<Id>, users: seq<User>,
                  lookupThrows: bool): Decision
  {
    if header.None? || !StartsWith(header.value, BearerPrefix) then Decision(Some(MissingHeader), None, None)
    else
      var token := Token(header.value);
      match verify(token)
      case None => Decision(Some(InvalidToken), None, Some(token))
      case Some(subject) =>
        if lookupThrows then Decision(Some(InvalidToken), None, Some(token))
        else match UserIndex(users, subject)
          case None => Decision(Some(UserNotFound), None, Some(token))
          case Some(i) =>
            var u := users[i];
            Decision(None, Some(AuthenticatedUser(u.id, u.email, u.displayName)), Some(token))
  }

  /** Without a "Bearer " header (the prefix is case-sensitive and includes
      the space) the request is refused and no token is verified. */
  lemma NoBearerHeader(header: Option<string>, verify: string -> Option<Id>, users: seq<User>, lookupThrows: bool)
    requires header.None? || !StartsWith(header.value, BearerPrefix)
    ensures Decide(header, verify, users, lookupThrows) == Decision(Some(MissingHeader), None, None)
  {
  }

  /** With one, the token verified is the header without its leading "Bearer ". */
  lemma TokenIsRestOfHeader(header: string, verify: string -> Option<Id>, users: seq<User>, lookupThrows: bool)
    requires StartsWith(header, BearerPrefix)
    ensures Decide(Some(header), verify, users, lookupThrows).verified == Some(header[7..])
  {
    ReplacePrefix(header, BearerPrefix);
  }

  /** The outcomes after a bearer header: "Invalid token" when verification
      or the lookup throws, "User not found" for a subject with no user, and
      otherwise success with that user's id, email and display name; next
      gets an error exactly when no user is attached. */
  lemma BearerOutcome(header: string, verify: string -> Option<Id>, users: seq<User>, lookupThrows: bool)
    requires StartsWith(header, BearerPrefix)
    requires forall i, j :: 0 <= i < j < |users| ==> users[i].id != users[j].id
    ensures var d := Decide(Some(header), verify, users, lookupThrows);
            var subject := verify(header[7..]);
            && (d.error.None? <==> d.user.Some?)
            && (d.error == Some(InvalidToken) <==> subject.None? || lookupThrows)
            && (d.error == Some(UserNotFound) <==>
                  subject.Some? && !lookupThrows && forall u :: u in users ==> u.id != subject.value)
            && (forall u :: subject.Some? && !lookupThrows && u in users && u.id == subject.value ==>
                  d == Decision(None, Some(AuthenticatedUser(u.id, u.email, u.displayName)), Some(header[7..])))
  {
    ReplacePrefix(header, BearerPrefix);
    var subject := verify(header[7..]);
    if subject.Some? {
      var found := UserIndex(users, subject.value);
      if found.Some? {
        forall u | u in users && u.id == subject.value ensures u == users[found.value] {
          var j :| 0 <= j < |users| && users[j] == u;
        }
        assert users[found.value] in users;
      } else {
        forall u | u in users ensures u.id != subject.value {
          var j :| 0 <= j < |users| && users[j] == u;
        }
      }
    }
  }

  /** The request: its Authorization header and the user attached to it. */
  class Request {
    var authorization: Option<string>
    var user: Option<AuthenticatedUser>

    constructor (authorization: Option<string>)
      ensures this.authorization == authorization && user == None
    {
      this.authorization := authorization;
      user := None;
    }
  }

  /** The calls made to next, each with its error argument. */
  class NextCalls {
    var calls: seq<Option<Error>>

    constructor ()
      ensures calls == []
    {
      calls := [];
    }
  }

  /** authenticate: next is called exactly once, with the decision's error,
      and the user is attached to the request only on success. */
  method AuthenticateRequest(req: Request, next: NextCalls, verify: string -> Option<Id>, users: seq<User>,
                             lookupThrows: bool)
    modifies req, next
    ensures var d := Decide(old(req.authorization), verify, users, lookupThrows);
            && next.calls == old(next.calls) + [d.error]
            && req.user == (if d.user.Some? then d.user else old(req.user))
            && req.authorization == old(req.authorization)
  {
    var header := req.authorization;
    if header.None? || !StartsWith(header.value, BearerPrefix) {
      next.calls := next.calls + [Some(MissingHeader)];
      return;
    }
    var token := Token(header.value);
    var subject := verify(token);
    if subject.None? || lookupThrows {
      next.calls := next.calls + [Some(InvalidToken)];
      return;
    }
    var found := UserIndex(users, subject.value);
    if found.None? {
      next.calls := next.calls + [Some(UserNotFound)];
      return;
    }
    var u := users[found.value];
    req.user := Some(AuthenticatedUser(u.id, u.email, u.displayName));
    next.calls := next.calls + [None];
  }
}
