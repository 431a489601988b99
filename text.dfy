/** String helpers with JavaScript's meaning: `trim`, `toLowerCase`, `includes`, `join`,
    the `\s`, `\S` and `\d` character classes and the form validators' email pattern. */
module Text {

  /** JavaScript's white space and line terminators: what `trim` removes and `\s` matches. */
  predicate IsSpace(c: char) {
    || c == '\t' || c == '\n' || c == '\U{000B}' || c == '\U{000C}' || c == '\r' || c == ' '
    || c == '\U{00A0}' || c == '\U{1680}' || ('\U{2000}' <= c <= '\U{200A}')
    || c == '\U{2028}' || c == '\U{2029}' || c == '\U{202F}' || c == '\U{205F}'
    || c == '\U{3000}' || c == '\U{FEFF}'
  }

  /** `\d` in a regular expression without the `u` flag. */
  predicate IsDigit(c: char) {
    '0' <= c <= '9'
  }

  /** Every character is white space (the empty string included). */
  predicate Blank(s: string) {
    forall i :: 0 <= i < |s| ==> IsSpace(s[i])
  }

  /** `s` without its leading white space. */
  function TrimStart(s: string): string {
    if s != [] && IsSpace(s[0]) then TrimStart(s[1..]) else s
  }

  /** `s` without its trailing white space. */
  function TrimEnd(s: string): string {
    if s != [] && IsSpace(s[|s| - 1]) then TrimEnd(s[..|s| - 1]) else s
  }

  /** `TrimStart` cuts off a blank prefix and stops at a character that is not white space. */
  lemma {:induction false} TrimStartCuts(s: string)
    ensures var r := TrimStart(s);
      |r| <= |s| && r == s[|s| - |r|..] && (r == [] || !IsSpace(r[0])) && Blank(s[..|s| - |r|])
  {
    if s != [] && IsSpace(s[0]) {
      TrimStartCuts(s[1..]);
      var r := TrimStart(s);
      assert s[..|s| - |r|] == [s[0]] + s[1..][..|s[1..]| - |r|];
    }
  }

  /** `TrimEnd` cuts off a blank suffix and stops at a character that is not white space. */
  lemma {:induction false} TrimEndCuts(s: string)
    ensures var r := TrimEnd(s);
      r <= s && (r == [] || !IsSpace(r[|r| - 1])) && Blank(s[|r|..])
  {
    if s != [] && IsSpace(s[|s| - 1]) {
      TrimEndCuts(s[..|s| - 1]);
      var r := TrimEnd(s);
      assert s[|r|..] == s[..|s| - 1][|r|..] + [s[|s| - 1]];
    }
  }

  /** `s.trim()`: `s` without its leading and trailing white space. */
  function Trim(s: string): (r: string)
  {
    TrimEnd(TrimStart(s))
  }

  /** `r` is `s` with a blank prefix of length `a` and a blank suffix cut off. */
  predicate CutAt(s: string, r: string, a: int) {
    0 <= a <= |s| - |r| && r == s[a..a + |r|] && Blank(s[..a]) && Blank(s[a + |r|..])
  }

  /** What `trim` returns is a slice of its input that neither starts nor ends with
      white space, and everything it cut off is white space. */
  lemma TrimIsInnerSlice(s: string)
    ensures exists a :: CutAt(s, Trim(s), a)
  {
    var t := TrimStart(s);
    var r := TrimEnd(t);
    var a := |s| - |t|;
    TrimStartCuts(s);
    TrimEndCuts(t);
    assert r == Trim(s);
    assert t == s[a..];
    assert r == t[..|r|];
    assert r == s[a..a + |r|];
    assert s[a + |r|..] == t[|r|..];
    assert CutAt(s, r, a);
  }

  /** What `trim` returns neither starts nor ends with white space. */
  lemma TrimEndsNonBlank(s: string)
    ensures Trim(s) == [] || (!IsSpace(Trim(s)[0]) && !IsSpace(Trim(s)[|Trim(s)| - 1]))
  {
    var t := TrimStart(s);
    var r := TrimEnd(t);
    TrimStartCuts(s);
    TrimEndCuts(t);
    if r != [] {
      assert r[0] == t[0];
    }
  }

  /** `s.trim()` is empty exactly when `s` is blank. */
  lemma {:induction false} TrimEmptyIffBlank(s: string)
    ensures Trim(s) == [] <==> Blank(s)
  {
    TrimIsInnerSlice(s);
    var a :| CutAt(s, Trim(s), a);
    if Trim(s) == [] {
      forall i | 0 <= i < |s| ensures IsSpace(s[i]) {
        if i < a { assert s[i] == s[..a][i]; } else { assert s[i] == s[a..][i - a]; }
      }
    } else {
      TrimEndsNonBlank(s);
      assert s[a] == Trim(s)[0];
    }
  }

  /** Trimming twice changes nothing. */
  lemma TrimIdempotent(s: string)
    ensures Trim(Trim(s)) == Trim(s)
  {
    TrimEndsNonBlank(s);
    var r := Trim(s);
    if r != [] {
      assert !IsSpace(r[0]);
      assert TrimStart(r) == r;
      assert TrimEnd(r) == r;
    }
  }

  function LowerChar(c: char): char {
    if 'A' <= c <= 'Z' then (c as int + 32) as char else c
  }

  /** `s.toLowerCase()` on the ASCII letters; every other character is kept. */
  function Lower(s: string): (r: string)
    ensures |r| == |s|
  {
    seq(|s|, i requires 0 <= i < |s| => LowerChar(s[i]))
  }

  /** `sub` occurs in `s` starting at index `i`. */
  predicate OccursAt(s: string, sub: string, i: int) {
    0 <= i <= |s| - |sub| && s[i..i + |sub|] == sub
  }

  /** `s.includes(sub)`: `sub` occurs in `s` as a contiguous slice. */
  predicate Includes(s: string, sub: string)
    decreases |s|
  {
    sub <= s || (s != [] && Includes(s[1..], sub))
  }

  /** `Includes` agrees with the slice definition of "occurs in". */
  lemma IncludesIffSlice(s: string, sub: string)
    ensures Includes(s, sub) <==> exists i :: OccursAt(s, sub, i)
  {
    if Includes(s, sub) {
      IncludesOccurs(s, sub);
    }
    if exists i :: OccursAt(s, sub, i) {
      var i :| OccursAt(s, sub, i);
      OccursIncludes(s, sub, i);
    }
  }

  lemma {:induction false} IncludesOccurs(s: string, sub: string)
    requires Includes(s, sub)
    ensures exists i :: OccursAt(s, sub, i)
    decreases |s|
  {
    if sub <= s {
      assert OccursAt(s, sub, 0);
    } else {
      IncludesOccurs(s[1..], sub);
      var i :| OccursAt(s[1..], sub, i);
      assert s[i + 1..i + 1 + |sub|] == s[1..][i..i + |sub|];
      assert OccursAt(s, sub, i + 1);
    }
  }

  lemma {:induction false} OccursIncludes(s: string, sub: string, i: int)
    requires OccursAt(s, sub, i)
    ensures Includes(s, sub)
    decreases i
  {
    if i > 0 {
      assert s[1..][i - 1..i - 1 + |sub|] == s[i..i + |sub|];
      OccursIncludes(s[1..], sub, i - 1);
    } else {
      assert s[..|sub|] == sub;
    }
  }

  lemma IncludesEmpty(s: string)
    ensures Includes(s, "")
  {
  }

  /** `hay.toLowerCase().includes(needle.toLowerCase())`. */
  predicate IncludesIgnoringCase(hay: string, needle: string) {
    Includes(Lower(hay), Lower(needle))
  }

  /** `arr.join('')`. */
  function Join(parts: seq<string>): (r: string)
  {
    if parts == [] then "" else parts[0] + Join(parts[1..])
  }

  /** The number of non-empty strings in `parts`. */
  function CountNonEmpty(parts: seq<string>): (n: nat)
    ensures n <= |parts|
  {
    if parts == [] then 0 else (if parts[0] != "" then 1 else 0) + CountNonEmpty(parts[1..])
  }

  /** When every part is at most one character, the joined length counts the non-empty
      parts, so it reaches `|parts|` exactly when no part is empty. */
  lemma {:induction false} JoinOfShortParts(parts: seq<string>)
    requires forall i :: 0 <= i < |parts| ==> |parts[i]| <= 1
    ensures |Join(parts)| == CountNonEmpty(parts)
    ensures |Join(parts)| == |parts| <==> forall i :: 0 <= i < |parts| ==> parts[i] != ""
  {
    if parts != [] {
      JoinOfShortParts(parts[1..]);
      if forall i :: 0 <= i < |parts| ==> parts[i] != "" {
        assert forall i :: 0 <= i < |parts[1..]| ==> parts[1..][i] != "" by {
          forall i | 0 <= i < |parts[1..]| ensures parts[1..][i] != "" {
            assert parts[1..][i] == parts[i + 1];
          }
        }
      } else {
        var k :| 0 <= k < |parts| && parts[k] == "";
        if k > 0 {
          assert parts[1..][k - 1] == "";
        }
      }
    }
  }

  /** Joining single characters spells them out. */
  lemma {:induction false} JoinOfChars(parts: seq<string>, cs: string)
    requires |parts| == |cs|
    requires forall i :: 0 <= i < |cs| ==> parts[i] == [cs[i]]
    ensures Join(parts) == cs
  {
    if cs != [] {
      JoinOfChars(parts[1..], cs[1..]);
      assert cs == [cs[0]] + cs[1..];
    }
  }

  lemma {:induction false} JoinAppend(a: seq<string>, b: seq<string>)
    ensures Join(a + b) == Join(a) + Join(b)
  {
    if a == [] {
      assert a + b == b;
    } else {
      assert (a + b)[1..] == a[1..] + b;
      JoinAppend(a[1..], b);
    }
  }

  /** Joining empty strings gives the empty string. */
  lemma {:induction false} JoinOfEmpties(parts: seq<string>)
    requires forall i :: 0 <= i < |parts| ==> parts[i] == ""
    ensures Join(parts) == ""
  {
    if parts != [] {
      JoinOfEmpties(parts[1..]);
    }
  }

  /** `/\S+@\S+\.\S+/.test(s)`: somewhere in `s` a non-blank run, an `@`, a non-blank run,
      a `.` and a non-blank character follow each other. The `\S+` runs may themselves hold
      `@` and `.`, so a match needs only one non-blank character before the `@`, a non-blank
      stretch of at least one character between the `@` and the chosen `.`, and one non-blank
      character after the `.`. */
  predicate LooksLikeEmail(s: string) {
    exists at, dot | 0 < at < dot < |s| :: EmailMatchAt(s, at, dot)
  }

  /** The email pattern matches with its `@` at index `at` and its `.` at index `dot`. */
  predicate EmailMatchAt(s: string, at: int, dot: int) {
    && 0 < at && at + 1 < dot && dot + 1 < |s|
    && s[at] == '@' && s[dot] == '.'
    && !IsSpace(s[at - 1]) && !IsSpace(s[dot + 1])
    && !HasSpace(s[at + 1..dot])
  }

  predicate HasSpace(s: string) {
    exists i :: 0 <= i < |s| && IsSpace(s[i])
  }

  /** A string the email pattern accepts is not blank, so the "required" check before the
      pattern never hides a match. */
  lemma LooksLikeEmailNotBlank(s: string)
    ensures LooksLikeEmail(s) ==> Trim(s) != []
  {
    if LooksLikeEmail(s) {
      var at, dot :| 0 < at < dot < |s| && EmailMatchAt(s, at, dot);
      assert s[at] == '@';
      assert !IsSpace(s[at]);
      TrimEmptyIffBlank(s);
    }
  }
}
