/**
 * The request schemas of the authentication routes: a phone-number rule,
 * requestOtpSchema and loginSchema.
 */
module AuthValidator {
  import opened Common
  import opened JsString
  import opened Zod

  const PhoneTooShort := "Phone number must contain at least 10 digits"
  const PhoneTooLong := "Phone number is too long"
  const PhoneInvalid := "Phone number contains invalid characters"
  const OtpInvalid := "OTP must be a 6-digit code"
  const NameTooShort := "Display name must contain at least 2 characters"
  const NameTooLong := "Display name is too long"

  /** A character of the class [\d+\-\s()]. */
  predicate PhoneChar(c: char) {
    IsDigit(c) || c == '+' || c == '-' || IsWhitespace(c) || c == '(' || c == ')'
  }

  /** The regular expression ^[\d+\-\s()]+$. */
  predicate PhonePattern(s: string) {
    |s| > 0 && forall i :: 0 <= i < |s| ==> PhoneChar(s[i])
  }

  /** The regular expression ^\d{6}$. */
  predicate OtpPattern(s: string) {
    |s| == 6 && forall i :: 0 <= i < |s| ==> IsDigit(s[i])
  }

  /** None of these schemas has a url check. */
  const NoUrl: string -> bool := (s: string) => false

  const PhoneChecks := [MinLength(10, PhoneTooShort), MaxLength(20, PhoneTooLong), Pattern(PhonePattern, PhoneInvalid)]
  const CodeChecks := [Pattern(OtpPattern, OtpInvalid)]
  const NameChecks := [MinLength(2, NameTooShort), MaxLength(64, NameTooLong)]

  /** The issues the phone-number schema reports for a string: one per broken
      rule, in the order too short, too long, bad characters. */
  lemma PhoneIssues(path: seq<PathSegment>, s: string)
    ensures CheckString(path, s, PhoneChecks, NoUrl)
            == (if |s| < 10 then [Issue(path, PhoneTooShort)] else [])
               + (if |s| > 20 then [Issue(path, PhoneTooLong)] else [])
               + (if !PhonePattern(s) then [Issue(path, PhoneInvalid)] else [])
  {
    var tooShort, tooLong, invalid := PhoneChecks[0], PhoneChecks[1], PhoneChecks[2];
    assert PhoneChecks == [tooShort] + ([tooLong] + ([invalid] + []));
    CheckStringCons(path, s, invalid, [], NoUrl);
    CheckStringCons(path, s, tooLong, [invalid], NoUrl);
    CheckStringCons(path, s, tooShort, [tooLong, invalid], NoUrl);
  }

  /** A phone number is accepted exactly when it is 10 to 20 characters of
      digits, '+', '-', whitespace and parentheses. */
  lemma PhoneAcceptedIff(path: seq<PathSegment>, s: string)
    ensures CheckString(path, s, PhoneChecks, NoUrl) == [] <==> 10 <= |s| <= 20 && PhonePattern(s)
  {
    assert Passes(s, PhoneChecks[0], NoUrl) <==> |s| >= 10;
    assert Passes(s, PhoneChecks[1], NoUrl) <==> |s| <= 20;
    assert Passes(s, PhoneChecks[2], NoUrl) <==> PhonePattern(s);
  }

  /** The length rule counts formatting characters: this ten-character
      number with seven digits is accepted. */
  lemma PhoneLengthCountsFormatting()
    ensures CheckString([Key("phoneNumber")], "(555) 1234", PhoneChecks, NoUrl) == []
    ensures |Digits("(555) 1234")| < 10
  {
    var s := "(555) 1234";
    PhoneAcceptedIff([Key("phoneNumber")], s);
    assert PhonePattern(s) by {
      forall i | 0 <= i < |s| ensures PhoneChar(s[i]) {
      }
    }
    assert !IsDigit(s[0]);
  }

  /** requestOtpSchema: { phoneNumber }. */
  function RequestOtpIssues(body: Json): seq<Issue> {
    if !body.JObject? then NotAnObject(body)
    else ParseString([Key("phoneNumber")], Get(body.fields, "phoneNumber"), PhoneChecks, NoUrl)
  }

  /** loginSchema: { phoneNumber, code, displayName? }. */
  function LoginIssues(body: Json): seq<Issue> {
    if !body.JObject? then NotAnObject(body)
    else
      var name := Get(body.fields, "displayName");
      ParseString([Key("phoneNumber")], Get(body.fields, "phoneNumber"), PhoneChecks, NoUrl)
      + ParseString([Key("code")], Get(body.fields, "code"), CodeChecks, NoUrl)
      + (if name.None? then [] else ParseString([Key("displayName")], name, NameChecks, NoUrl))
  }

  /** The phone rule on a possibly missing field. */
  predicate PhoneField(fields: map<string, Json>, key: string) {
    key in fields && fields[key].JString? && 10 <= |fields[key].s| <= 20 && PhonePattern(fields[key].s)
  }

  /** requestOtpSchema accepts exactly the objects whose phoneNumber passes
      the phone rule. */
  lemma RequestOtpAcceptedIff(body: Json)
    ensures RequestOtpIssues(body) == [] <==> body.JObject? && PhoneField(body.fields, "phoneNumber")
  {
    if body.JObject? {
      var v := Get(body.fields, "phoneNumber");
      if v.Some? && v.value.JString? {
        PhoneAcceptedIff([Key("phoneNumber")], v.value.s);
      }
    }
  }

  lemma CodeFieldIff(v: Option<Json>)
    ensures ParseString([Key("code")], v, CodeChecks, NoUrl) == [] <==>
              v.Some? && v.value.JString? && OtpPattern(v.value.s)
  {
    if v.Some? && v.value.JString? {
      assert Passes(v.value.s, CodeChecks[0], NoUrl) <==> OtpPattern(v.value.s);
    }
  }

  lemma NameFieldIff(v: Option<Json>)
    requires v.Some?
    ensures ParseString([Key("displayName")], v, NameChecks, NoUrl) == [] <==>
              v.value.JString? && 2 <= |v.value.s| <= 64
  {
    if v.value.JString? {
      assert Passes(v.value.s, NameChecks[0], NoUrl) <==> |v.value.s| >= 2;
      assert Passes(v.value.s, NameChecks[1], NoUrl) <==> |v.value.s| <= 64;
    }
  }

  /** loginSchema accepts exactly the objects with a valid phone number, a
      six-digit code, and either no displayName or one of 2 to 64 characters. */
  lemma LoginAcceptedIff(body: Json)
    ensures LoginIssues(body) == [] <==>
              && body.JObject?
              && PhoneField(body.fields, "phoneNumber")
              && "code" in body.fields && body.fields["code"].JString? && OtpPattern(body.fields["code"].s)
              && ("displayName" in body.fields ==>
                    body.fields["displayName"].JString? && 2 <= |body.fields["displayName"].s| <= 64)
  {
    if body.JObject? {
      var v := Get(body.fields, "phoneNumber");
      if v.Some? && v.value.JString? {
        PhoneAcceptedIff([Key("phoneNumber")], v.value.s);
      }
      CodeFieldIff(Get(body.fields, "code"));
      var name := Get(body.fields, "displayName");
      if name.Some? {
        NameFieldIff(name);
      }
    }
  }
}
