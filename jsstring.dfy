/**
 * The string primitives of the JavaScript runtime that the services rely on:
 * trim, ASCII case folding, prefix and substring tests, first-occurrence
 * replacement and the digit class of regular expressions.
 */
module JsString {
  import opened Common

  /** The characters that String.prototype.trim removes and that `\s`
      matches: the WhiteSpace and LineTerminator productions of ECMAScript. */
  predicate IsWhitespace(c: char) {
    c == '\t' || c == '\n' || c == '\U{000B}' || c == '\U{000C}' || c == '\r' || c == ' '
    || c == '\U{00A0}' || c == '\U{1680}' || ('\U{2000}' <= c <= '\U{200A}')
    || c == '\U{2028}' || c == '\U{2029}' || c == '\U{202F}' || c == '\U{205F}'
    || c == '\U{3000}' || c == '\U{FEFF}'
  }

  /** `\d` without the unicode flag: the ASCII digits only. */
  predicate IsDigit(c: char) {
    '0' <= c <= '9'
  }

  predicate AllWhitespace(s: string) {
    forall i :: 0 <= i < |s| ==> IsWhitespace(s[i])
  }

  /** a + b is whitespace only exactly when both parts are. */
  lemma AllWhitespaceConcat(a: string, b: string)
    ensures AllWhitespace(a + b) <==> AllWhitespace(a) && AllWhitespace(b)
  {
    var ab := a + b;
    if AllWhitespace(a) && AllWhitespace(b) {
      forall i | 0 <= i < |ab| ensures IsWhitespace(ab[i]) {
        if i < |a| { assert ab[i] == a[i]; } else { assert ab[i] == b[i - |a|]; }
      }
    }
    if AllWhitespace(ab) {
      forall i | 0 <= i < |a| ensures IsWhitespace(a[i]) {
        assert ab[i] == a[i];
      }
      forall i | 0 <= i < |b| ensures IsWhitespace(b[i]) {
        assert ab[i + |a|] == b[i];
      }
    }
  }

  function TrimStart(s: string): (r: string)
    ensures |r| <= |s| && r == s[|s| - |r|..]
    ensures AllWhitespace(s[..|s| - |r|])
    ensures r != [] ==> !IsWhitespace(r[0])
    decreases |s|
  {
    if s != [] && IsWhitespace(s[0]) then
      var t := s[1..];
      var r := TrimStart(t);
      assert s[..|s| - |r|] == [s[0]] + t[..|t| - |r|];
      AllWhitespaceConcat([s[0]], t[..|t| - |r|]);
      assert s[|s| - |r|..] == t[|t| - |r|..];
      r
    else
      assert s[..0] == [];
      s
  }

  function TrimEnd(s: string): (r: string)
    ensures |r| <= |s| && r == s[..|r|]
    ensures AllWhitespace(s[|r|..])
    ensures r != [] ==> !IsWhitespace(r[|r| - 1])
    decreases |s|
  {
    if s != [] && IsWhitespace(s[|s| - 1]) then
      var p := s[..|s| - 1];
      var r := TrimEnd(p);
      assert s[|r|..] == p[|r|..] + [s[|s| - 1]];
      AllWhitespaceConcat(p[|r|..], [s[|s| - 1]]);
      assert p[..|r|] == s[..|r|];
      r
    else
      assert s[|s|..] == [];
      s
  }

  /** r is a contiguous part of s and everything around it is whitespace. */
  ghost predicate IsTrimOf(s: string, r: string) {
    exists i :: 0 <= i <= |s| - |r| && r == s[i..i + |r|] && AllWhitespace(s[..i]) && AllWhitespace(s[i + |r|..])
  }

  /** String.prototype.trim: s without its leading and trailing whitespace.
      The result is a contiguous part of s, everything cut off is whitespace,
      and the result neither starts nor ends with whitespace. */
  function Trim(s: string): (r: string)
    ensures IsTrimOf(s, r)
    ensures r != [] ==> !IsWhitespace(r[0]) && !IsWhitespace(r[|r| - 1])
  {
    var a := TrimStart(s);
    var r := TrimEnd(a);
    TrimParts(s, a, r);
    r
  }

  /** Cutting leading whitespace and then trailing whitespace leaves a trim of s. */
  lemma TrimParts(s: string, a: string, r: string)
    requires |a| <= |s| && a == s[|s| - |a|..] && AllWhitespace(s[..|s| - |a|])
    requires a != [] ==> !IsWhitespace(a[0])
    requires |r| <= |a| && r == a[..|r|] && AllWhitespace(a[|r|..])
    requires r != [] ==> !IsWhitespace(r[|r| - 1])
    ensures IsTrimOf(s, r)
    ensures r != [] ==> !IsWhitespace(r[0]) && !IsWhitespace(r[|r| - 1])
  {
    var i := |s| - |a|;
    assert s[i..i + |r|] == r;
    assert s[i + |r|..] == a[|r|..];
    if r != [] {
      assert r[0] == a[0];
    }
  }

  /** Trimming yields the empty string exactly when the input is whitespace only. */
  lemma TrimEmptyIff(s: string)
    ensures Trim(s) == [] <==> AllWhitespace(s)
  {
    TrimOfEmptyIff(s, Trim(s));
  }

  /** Any trim of s that does not start with whitespace is empty exactly
      when s is whitespace only. */
  lemma TrimOfEmptyIff(s: string, r: string)
    requires IsTrimOf(s, r)
    requires r != [] ==> !IsWhitespace(r[0])
    ensures r == [] <==> AllWhitespace(s)
  {
    var i :| 0 <= i <= |s| - |r| && r == s[i..i + |r|] && AllWhitespace(s[..i]) && AllWhitespace(s[i + |r|..]);
    if r == [] {
      assert s == s[..i] + s[i..];
      AllWhitespaceConcat(s[..i], s[i..]);
    } else {
      assert r[0] == s[i];
    }
  }

  /** A string that neither starts nor ends with whitespace is its own trim. */
  lemma TrimOfTrimmed(s: string)
    requires s != [] ==> !IsWhitespace(s[0]) && !IsWhitespace(s[|s| - 1])
    ensures Trim(s) == s
  {
    if s != [] {
      assert TrimStart(s) == s;
      assert TrimEnd(s) == s;
    }
  }

  /** Trimming twice is the same as trimming once. */
  lemma TrimIdempotent(s: string)
    ensures Trim(Trim(s)) == Trim(s)
  {
    TrimOfTrimmed(Trim(s));
  }

  function LowerChar(c: char): char {
    if 'A' <= c <= 'Z' then (c as int + 32) as char else c
  }

  /** Case folding restricted to the ASCII letters. */
  function ToLower(s: string): (r: string)
    ensures |r| == |s| && forall i :: 0 <= i < |s| ==> r[i] == LowerChar(s[i])
  {
    seq(|s|, i requires 0 <= i < |s| => LowerChar(s[i]))
  }

  /** A string without upper-case ASCII letters is unchanged by case folding. */
  lemma ToLowerOfLower(s: string)
    requires forall i :: 0 <= i < |s| ==> !('A' <= s[i] <= 'Z')
    ensures ToLower(s) == s
  {
    var l := ToLower(s);
    forall i | 0 <= i < |s| ensures l[i] == s[i] {
      assert l[i] == LowerChar(s[i]);
    }
  }

  /** Case folding leaves whitespace whitespace and nothing else. */
  lemma LowerCharWhitespace(c: char)
    ensures IsWhitespace(LowerChar(c)) <==> IsWhitespace(c)
  {
  }

  /** Folding twice is folding once. */
  lemma ToLowerIdempotent(s: string)
    ensures ToLower(ToLower(s)) == ToLower(s)
  {
    var l := ToLower(s);
    var ll := ToLower(l);
    forall i | 0 <= i < |s| ensures ll[i] == l[i] {
      assert l[i] == LowerChar(s[i]);
    }
  }

  predicate StartsWith(s: string, prefix: string) {
    |prefix| <= |s| && s[..|prefix|] == prefix
  }

  predicate EndsWith(s: string, suffix: string) {
    |suffix| <= |s| && s[|s| - |suffix|..] == suffix
  }

  predicate OccursAt(s: string, pattern: string, i: nat) {
    i + |pattern| <= |s| && s[i..i + |pattern|] == pattern
  }

  /** String.prototype.indexOf: the first position at which pattern occurs
      (IndexOfFirst states that it is the first). */
  function IndexOf(s: string, pattern: string): (r: Option<nat>)
    ensures r.Some? ==> OccursAt(s, pattern, r.value)
    decreases |s|
  {
    if StartsWith(s, pattern) then
      assert s[0..|pattern|] == s[..|pattern|];
      Some(0)
    else if s == [] then None
    else match IndexOf(s[1..], pattern)
      case None => None
      case Some(k) =>
        assert s[k + 1..k + 1 + |pattern|] == s[1..][k..k + |pattern|];
        Some(k + 1)
  }

  /** Dropping the first character moves every occurrence one place left. */
  lemma OccursShift(s: string, pattern: string, j: nat)
    requires s != [] && j >= 1
    ensures OccursAt(s, pattern, j) <==> OccursAt(s[1..], pattern, j - 1)
  {
    if j + |pattern| <= |s| {
      assert s[j..j + |pattern|] == s[1..][j - 1..j - 1 + |pattern|];
    }
  }

  /** The position found is the first occurrence, and when none is found
      the pattern occurs nowhere. */
  lemma {:induction false} IndexOfFirst(s: string, pattern: string)
    ensures IndexOf(s, pattern).Some? ==>
              forall j :: 0 <= j < IndexOf(s, pattern).value ==> !OccursAt(s, pattern, j)
    ensures IndexOf(s, pattern).None? ==> forall j :: 0 <= j <= |s| ==> !OccursAt(s, pattern, j)
    decreases |s|
  {
    if |pattern| <= |s| {
      assert s[0..|pattern|] == s[..|pattern|];
    }
    if !StartsWith(s, pattern) && s != [] {
      IndexOfFirst(s[1..], pattern);
      forall j | 1 <= j <= |s| ensures OccursAt(s, pattern, j) <==> OccursAt(s[1..], pattern, j - 1) {
        OccursShift(s, pattern, j);
      }
    }
  }

  /** The first occurrence is found wherever it is. */
  lemma IndexOfIs(s: string, pattern: string, k: nat)
    requires OccursAt(s, pattern, k)
    requires forall j :: 0 <= j < k ==> !OccursAt(s, pattern, j)
    ensures IndexOf(s, pattern) == Some(k)
  {
    IndexOfFirst(s, pattern);
  }

  /** A one-character pattern occurs exactly where that character stands. */
  lemma OccursAtChar(s: string, c: char, j: nat)
    ensures OccursAt(s, [c], j) <==> j < |s| && s[j] == c
  {
    if j < |s| && s[j] == c {
      assert s[j..j + 1] == [c];
    }
  }

  /** String.prototype.includes. */
  predicate Contains(s: string, pattern: string) {
    IndexOf(s, pattern).Some?
  }

  /** String.prototype.replace with a string pattern: only the first
      occurrence is replaced. */
  function ReplaceFirst(s: string, pattern: string, replacement: string): (r: string)
    ensures IndexOf(s, pattern).None? ==> r == s
    ensures IndexOf(s, pattern).Some? ==>
              var i := IndexOf(s, pattern).value;
              r == s[..i] + replacement + s[i + |pattern|..]
  {
    match IndexOf(s, pattern)
    case None => s
    case Some(i) => s[..i] + replacement + s[i + |pattern|..]
  }

  /** Removing a prefix that the string starts with leaves the rest of it. */
  lemma ReplacePrefix(s: string, prefix: string)
    ensures StartsWith(s, prefix) ==> ReplaceFirst(s, prefix, "") == s[|prefix|..]
  {
  }

  /** The characters of s matched by `\d`, in order (`s.replace(/\D/g, "")`). */
  function Digits(s: string): (r: string)
    ensures |r| <= |s|
    ensures forall i :: 0 <= i < |r| ==> IsDigit(r[i])
    ensures forall c :: c in r <==> c in s && IsDigit(c)
  {
    if s == [] then []
    else if IsDigit(s[0]) then [s[0]] + Digits(s[1..])
    else Digits(s[1..])
  }

  /** Digits keeps the digits of s in their order, each as often as s has it:
      it is s filtered by the digit class. */
  lemma {:induction false} DigitsInOrder(s: string)
    ensures Digits(s) == Filter(s, IsDigit)
  {
    if s != [] {
      DigitsInOrder(s[1..]);
    }
  }

  /** The digits of a concatenation are the digits of its parts, in order. */
  lemma {:induction false} DigitsConcat(a: string, b: string)
    ensures Digits(a + b) == Digits(a) + Digits(b)
  {
    if a == [] {
      assert a + b == b;
    } else {
      var c, rest := a[0], a[1..];
      assert a == [c] + rest;
      AppendAssoc([c], rest, b);
      DigitsConcat(rest, b);
      DigitsCons(c, rest + b);
      DigitsCons(c, rest);
      var head := if IsDigit(c) then [c] else [];
      AppendAssoc(head, Digits(rest), Digits(b));
    }
  }

  /** One step of Digits: the first character is kept exactly when it is a digit. */
  lemma DigitsCons(c: char, s: string)
    ensures Digits([c] + s) == (if IsDigit(c) then [c] else []) + Digits(s)
  {
    assert ([c] + s)[0] == c && ([c] + s)[1..] == s;
  }

  /** A single character keeps itself exactly when it is a digit. */
  lemma DigitsOfChar(c: char)
    ensures Digits([c]) == if IsDigit(c) then [c] else []
  {
    assert [c][1..] == [];
  }

  /** The decimal representation of a natural number. */
  function NatToString(n: nat): (r: string)
    ensures |r| >= 1 && forall i :: 0 <= i < |r| ==> IsDigit(r[i])
  {
    var d := [(('0' as int) + n % 10) as char];
    if n < 10 then d else NatToString(n / 10) + d
  }
}
