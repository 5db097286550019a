/**
 * The part of the zod schema library the validators use: JSON values, the
 * issues a failed parse reports (path and message), string and array
 * schemas with their checks, and ZodError.flatten.
 */
module Zod {
  import opened Common
  import JsString

  /** A parsed JSON request body. Numbers are kept as integers. */
  datatype Json =
    | JNull
    | JBool(b: bool)
    | JNumber(n: int)
    | JString(s: string)
    | JArray(items: seq<Json>)
    | JObject(fields: map<string, Json>)

  /** The name zod reports for the type of a value it received. */
  function TypeName(j: Json): string {
    match j
    case JNull => "null"
    case JBool(_) => "boolean"
    case JNumber(_) => "number"
    case JString(_) => "string"
    case JArray(_) => "array"
    case JObject(_) => "object"
  }

  /** The value of an object's key; None stands for undefined. */
  function Get(fields: map<string, Json>, key: string): Option<Json> {
    if key in fields then Some(fields[key]) else None
  }

  /** The invalid_type issue: "Required" for undefined, otherwise
      "Expected <type>, received <type>". */
  function InvalidType(path: seq<PathSegment>, expected: string, got: Option<Json>): Issue {
    if got.None? then Issue(path, "Required")
    else Issue(path, "Expected " + expected + ", received " + TypeName(got.value))
  }

  /** A check chained onto z.string(). A regex is given by the predicate it
      decides. */
  datatype StringCheck =
    | MinLength(min: nat, message: string)
    | MaxLength(max: nat, message: string)
    | Pattern(test: string -> bool, message: string)
    | Url(message: string)

  /** The messages zod uses when a check is given none. */
  const DefaultMinOne := "String must contain at least 1 character(s)"
  const DefaultArrayMinOne := "Array must contain at least 1 element(s)"
  const DefaultUrl := "Invalid url"

  function CheckMessage(check: StringCheck): string {
    match check
    case MinLength(_, m) => m
    case MaxLength(_, m) => m
    case Pattern(_, m) => m
    case Url(m) => m
  }

  predicate Passes(s: string, check: StringCheck, isUrl: string -> bool) {
    match check
    case MinLength(n, _) => |s| >= n
    case MaxLength(n, _) => |s| <= n
    case Pattern(test, _) => test(s)
    case Url(_) => isUrl(s)
  }

  /** Every check runs; each one that fails reports its message, in order. */
  function CheckString(path: seq<PathSegment>, s: string, checks: seq<StringCheck>,
                       isUrl: string -> bool): (r: seq<Issue>)
    ensures r == [] <==> forall k :: 0 <= k < |checks| ==> Passes(s, checks[k], isUrl)
    ensures forall i :: 0 <= i < |r| ==> r[i].path == path
  {
    if checks == [] then []
    else
      var rest := CheckString(path, s, checks[1..], isUrl);
      assert forall k :: 1 <= k < |checks| ==> checks[k] == checks[1..][k - 1];
      (if Passes(s, checks[0], isUrl) then [] else [Issue(path, CheckMessage(checks[0]))]) + rest
  }

  /** Each failing check reports its message, and every issue reported is
      the message of a failing check. */
  lemma {:induction false} CheckStringIssues(path: seq<PathSegment>, s: string, checks: seq<StringCheck>,
                                             isUrl: string -> bool)
    ensures forall k :: 0 <= k < |checks| && !Passes(s, checks[k], isUrl) ==>
              Issue(path, CheckMessage(checks[k])) in CheckString(path, s, checks, isUrl)
    ensures forall m :: m in CheckString(path, s, checks, isUrl) ==>
              exists k :: 0 <= k < |checks| && !Passes(s, checks[k], isUrl) && m.message == CheckMessage(checks[k])
    decreases |checks|
  {
    if checks != [] {
      var rest := checks[1..];
      CheckStringIssues(path, s, rest, isUrl);
      var r := CheckString(path, s, checks, isUrl);
      var head := if Passes(s, checks[0], isUrl) then [] else [Issue(path, CheckMessage(checks[0]))];
      var tail := CheckString(path, s, rest, isUrl);
      assert r == head + tail;
      forall k | 0 <= k < |checks| && !Passes(s, checks[k], isUrl)
        ensures Issue(path, CheckMessage(checks[k])) in r
      {
        if k > 0 {
          assert checks[k] == rest[k - 1];
        }
      }
      forall m | m in r
        ensures exists k :: 0 <= k < |checks| && !Passes(s, checks[k], isUrl) && m.message == CheckMessage(checks[k])
      {
        if m in head {
          assert !Passes(s, checks[0], isUrl) && m.message == CheckMessage(checks[0]);
        } else {
          assert m in tail;
          var j :| 0 <= j < |rest| && !Passes(s, rest[j], isUrl) && m.message == CheckMessage(rest[j]);
          assert rest[j] == checks[j + 1];
        }
      }
    }
  }

  /** The issues of a check list are those of its first check followed by
      those of the rest. */
  lemma CheckStringCons(path: seq<PathSegment>, s: string, check: StringCheck, rest: seq<StringCheck>,
                        isUrl: string -> bool)
    ensures CheckString(path, s, [check] + rest, isUrl)
            == (if Passes(s, check, isUrl) then [] else [Issue(path, CheckMessage(check))])
               + CheckString(path, s, rest, isUrl)
  {
    assert ([check] + rest)[1..] == rest;
  }

  /** z.string() followed by its checks. */
  function ParseString(path: seq<PathSegment>, v: Option<Json>, checks: seq<StringCheck>,
                       isUrl: string -> bool): (r: seq<Issue>)
    ensures r == [] <==> v.Some? && v.value.JString?
                         && forall k :: 0 <= k < |checks| ==> Passes(v.value.s, checks[k], isUrl)
    ensures forall i :: 0 <= i < |r| ==> r[i].path == path
  {
    if v.Some? && v.value.JString? then CheckString(path, v.value.s, checks, isUrl)
    else [InvalidType(path, "string", v)]
  }

  /** An array element the element schema accepts: a string passing every check. */
  predicate StringPasses(item: Json, checks: seq<StringCheck>, isUrl: string -> bool) {
    item.JString? && forall k :: 0 <= k < |checks| ==> Passes(item.s, checks[k], isUrl)
  }

  /** The element issues of an array whose first element sits at index start. */
  function ElementIssues(path: seq<PathSegment>, items: seq<Json>, start: nat,
                         checks: seq<StringCheck>, isUrl: string -> bool): (r: seq<Issue>)
    ensures r == [] <==> forall j :: 0 <= j < |items| ==> StringPasses(items[j], checks, isUrl)
    ensures forall i :: 0 <= i < |r| ==> |r[i].path| > |path| && r[i].path[..|path|] == path
  {
    if items == [] then []
    else
      var here := path + [Index(start)];
      var head := ParseString(here, Some(items[0]), checks, isUrl);
      var rest := ElementIssues(path, items[1..], start + 1, checks, isUrl);
      assert here[..|path|] == path;
      assert head == [] <==> StringPasses(items[0], checks, isUrl);
      assert forall j :: 1 <= j < |items| ==> items[j] == items[1..][j - 1];
      head + rest
  }

  /** z.array(z.string() with checks).min(minItems): the length check first,
      then every element. */
  function ParseStringArray(path: seq<PathSegment>, v: Option<Json>, minItems: nat, minMessage: string,
                            checks: seq<StringCheck>, isUrl: string -> bool): (r: seq<Issue>)
    ensures r == [] <==> v.Some? && v.value.JArray? && |v.value.items| >= minItems
                         && forall j :: 0 <= j < |v.value.items| ==> StringPasses(v.value.items[j], checks, isUrl)
    ensures forall i :: 0 <= i < |r| ==> |r[i].path| >= |path| && r[i].path[..|path|] == path
  {
    if v.Some? && v.value.JArray? then
      (if |v.value.items| < minItems then [Issue(path, minMessage)] else [])
      + ElementIssues(path, v.value.items, 0, checks, isUrl)
    else [InvalidType(path, "array", v)]
  }

  /** The issue of a body that is not an object at all. */
  function NotAnObject(body: Json): seq<Issue> {
    [InvalidType([], "object", Some(body))]
  }

  // ---------------------------------------------------------------------
  // ZodError.flatten
  // ---------------------------------------------------------------------

  /** The key under which flatten files an issue whose path is not empty. */
  function SegmentName(seg: PathSegment): string {
    match seg
    case Key(name) => name
    case Index(position) => JsString.NatToString(position)
  }

  datatype Flattened = Flattened(formErrors: seq<string>, fieldErrors: map<string, seq<string>>)

  function Messages(issues: seq<Issue>): (r: seq<string>)
    ensures |r| == |issues| && forall i :: 0 <= i < |issues| ==> r[i] == issues[i].message
  {
    seq(|issues|, i requires 0 <= i < |issues| => issues[i].message)
  }

  predicate AtForm(issue: Issue) {
    issue.path == []
  }

  function UnderField(key: string): Issue -> bool {
    (issue: Issue) => issue.path != [] && SegmentName(issue.path[0]) == key
  }

  /** flatten(): issues with an empty path go to formErrors, the others to
      fieldErrors under the name of their first path segment, each list in
      issue order. */
  function Flatten(issues: seq<Issue>): Flattened
    decreases |issues|
  {
    if issues == [] then Flattened([], map[])
    else
      var prev := Flatten(issues[..|issues| - 1]);
      var last := issues[|issues| - 1];
      if last.path == [] then prev.(formErrors := prev.formErrors + [last.message])
      else
        var k := SegmentName(last.path[0]);
        var existing := if k in prev.fieldErrors then prev.fieldErrors[k] else [];
        prev.(fieldErrors := prev.fieldErrors[k := existing + [last.message]])
  }

  /** formErrors are the messages of the pathless issues, in order. */
  lemma {:induction false} FlattenFormErrors(issues: seq<Issue>)
    ensures Flatten(issues).formErrors == Messages(Filter(issues, AtForm))
    decreases |issues|
  {
    if issues != [] {
      var init, last := issues[..|issues| - 1], issues[|issues| - 1];
      assert issues == init + [last];
      FlattenFormErrors(init);
      FilterSnoc(init, last, AtForm);
      assert Messages(Filter(init, AtForm) + [last]) == Messages(Filter(init, AtForm)) + [last.message];
    }
  }

  /** A field has an entry exactly when some issue is filed under it. */
  lemma {:induction false} FlattenFieldKeys(issues: seq<Issue>, k: string)
    ensures k in Flatten(issues).fieldErrors <==> exists i :: 0 <= i < |issues| && UnderField(k)(issues[i])
    decreases |issues|
  {
    if issues != [] {
      var init, last := issues[..|issues| - 1], issues[|issues| - 1];
      FlattenFieldKeys(init, k);
      if exists i :: 0 <= i < |init| && UnderField(k)(init[i]) {
        var i :| 0 <= i < |init| && UnderField(k)(init[i]);
        assert issues[i] == init[i];
      }
      if exists i :: 0 <= i < |issues| && UnderField(k)(issues[i]) {
        var i :| 0 <= i < |issues| && UnderField(k)(issues[i]);
        assert i < |init| ==> init[i] == issues[i];
      }
    }
  }

  /** The entry of a field holds the messages of the issues under it, in order. */
  lemma {:induction false} FlattenFieldErrors(issues: seq<Issue>, k: string)
    requires k in Flatten(issues).fieldErrors
    ensures Flatten(issues).fieldErrors[k] == Messages(Filter(issues, UnderField(k)))
    decreases |issues|
  {
    var init, last := issues[..|issues| - 1], issues[|issues| - 1];
    assert issues == init + [last];
    FilterSnoc(init, last, UnderField(k));
    var fi := Filter(init, UnderField(k));
    assert Messages(fi + [last]) == Messages(fi) + [last.message];
    if k in Flatten(init).fieldErrors {
      FlattenFieldErrors(init, k);
    } else {
      FlattenFieldKeys(init, k);
      assert fi == [] by { HeadFacts(fi); }
    }
  }
}
