/**
 * Shared vocabulary of the chat backend model: identifiers, optional values,
 * results and the errors the services raise.
 */
module Common {

  /** Every stored document (user, conversation, message) is addressed by an
      abstract identifier; the store hands them out from a counter. */
  type Id = nat

  datatype Option<+T> = None | Some(value: T)

  /** One segment of the path of a schema-validation issue: an object key or
      an array position. */
  datatype PathSegment = Key(name: string) | Index(position: nat)

  /** One issue reported by a schema validation, with its path and message. */
  datatype Issue = Issue(path: seq<PathSegment>, message: string)

  /** The errors the services and middlewares throw:
      - HttpError: built with a status and a message (http-errors);
      - ValidationError: a document failed the persistence layer's schema
        check on the listed paths (it carries no HTTP status);
      - SchemaError: a request body failed schema validation. */
  datatype Error =
    | HttpError(status: int, message: string)
    | ValidationError(paths: seq<string>)
    | SchemaError(issues: seq<Issue>)

  datatype Result<+T> = Ok(value: T) | Err(error: Error)

  /** True if no element occurs twice. */
  predicate NoDuplicates<T(==)>(s: seq<T>) {
    forall i, j :: 0 <= i < j < |s| ==> s[i] != s[j]
  }

  /** Small facts about the first elements of a sequence, stated so that
      callers can use them whatever the length. */
  lemma HeadFacts<T>(s: seq<T>)
    ensures |s| > 0 ==> s[0] in s
    ensures |s| == 1 ==> s == [s[0]]
    ensures NoDuplicates(s) && |s| >= 2 ==> s[1] in s && s[0] != s[1]
  {
  }

  /** The elements of s that satisfy p, in their original order. */
  function Filter<T(!new)>(s: seq<T>, p: T -> bool): (r: seq<T>)
    ensures |r| <= |s|
    ensures forall x :: x in r <==> x in s && p(x)
    ensures forall i :: 0 <= i < |r| ==> p(r[i])
  {
    if s == [] then []
    else if p(s[0]) then [s[0]] + Filter(s[1..], p)
    else Filter(s[1..], p)
  }

  /** Predicates that agree on the elements of s filter it alike. */
  lemma {:induction false} FilterAgrees<T(!new)>(s: seq<T>, p: T -> bool, q: T -> bool)
    requires forall j :: 0 <= j < |s| ==> (p(s[j]) <==> q(s[j]))
    ensures Filter(s, p) == Filter(s, q)
  {
    if s != [] {
      assert forall j :: 0 <= j < |s[1..]| ==> s[1..][j] == s[j + 1];
      FilterAgrees(s[1..], p, q);
    }
  }

  /** Filtering a sequence with one more element at the end. */
  lemma {:induction false} FilterSnoc<T(!new)>(s: seq<T>, x: T, p: T -> bool)
    ensures Filter(s + [x], p) == Filter(s, p) + (if p(x) then [x] else [])
  {
    if s != [] {
      assert (s + [x])[1..] == s[1..] + [x];
      FilterSnoc(s[1..], x, p);
    }
  }

  lemma {:induction false} FilterMultiset<T(!new)>(s: seq<T>, p: T -> bool)
    ensures forall x :: multiset(Filter(s, p))[x] == if p(x) then multiset(s)[x] else 0
  {
    if s != [] {
      FilterMultiset(s[1..], p);
      assert s == [s[0]] + s[1..];
    }
  }

  /** Concatenation is associative. */
  lemma AppendAssoc<T>(x: seq<T>, y: seq<T>, z: seq<T>)
    ensures x + (y + z) == (x + y) + z
  {
  }

  /** The first n elements of s, or all of s when it is shorter. */
  function Take<T>(s: seq<T>, n: nat): (r: seq<T>)
    ensures |r| == if |s| <= n then |s| else n
    ensures r == s[..|r|]
  {
    if |s| <= n then s else s[..n]
  }

  /** The position of the first element of s that satisfies p. */
  function FirstIndex<T>(s: seq<T>, p: T -> bool): (r: Option<nat>)
    ensures r.Some? ==> r.value < |s| && p(s[r.value])
    ensures r.Some? ==> forall j :: 0 <= j < r.value ==> !p(s[j])
    ensures r.None? <==> forall j :: 0 <= j < |s| ==> !p(s[j])
  {
    if s == [] then None
    else if p(s[0]) then Some(0)
    else match FirstIndex(s[1..], p)
      case None => None
      case Some(k) => Some(k + 1)
  }

  /** Two predicates that agree on every element of s find the same first element. */
  lemma FirstIndexAgrees<T>(s: seq<T>, p: T -> bool, q: T -> bool)
    requires forall j :: 0 <= j < |s| ==> (p(s[j]) <==> q(s[j]))
    ensures FirstIndex(s, p) == FirstIndex(s, q)
  {
  }
}
