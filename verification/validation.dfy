/** The input checks the handlers run before any write: the password pattern
    /^(?=.*[A-Z])(?=.*[!@#$%^&*])(?=.{8,16})/ and the name and address checks. */
module Validation {
  import opened Models

  /** The characters JavaScript's `.` does not match (without the `s` flag). */
  predicate IsLineTerminator(c: char)
  {
    c == '\n' || c == '\r' || c == '\U{2028}' || c == '\U{2029}'
  }

  predicate IsUpper(c: char)
  {
    'A' <= c <= 'Z'
  }

  predicate IsSpecial(c: char)
  {
    c == '!' || c == '@' || c == '#' || c == '$' || c == '%' || c == '^' || c == '&' || c == '*'
  }

  /** `.` matches every character of s before position j. */
  ghost predicate DotsUpTo(s: string, j: nat)
    requires j <= |s|
  {
    forall k :: 0 <= k < j ==> !IsLineTerminator(s[k])
  }

  /** The pattern read literally, anchored at position 0: each `.*X` lookahead
      needs some j where s[j] is an X and every earlier character matches `.`;
      `(?=.{8,16})` needs eight characters matching `.` and no more, as
      nothing follows it in the pattern. */
  ghost predicate PatternMatches(s: string)
  {
    && (exists j :: 0 <= j < |s| && IsUpper(s[j]) && DotsUpTo(s, j))
    && (exists j :: 0 <= j < |s| && IsSpecial(s[j]) && DotsUpTo(s, j))
    && 8 <= |s| && DotsUpTo(s, 8)
  }

  /** The text before the first line terminator. */
  function FirstLine(s: string): (r: string)
    ensures |r| <= |s| && r == s[..|r|]
    ensures forall k :: 0 <= k < |r| ==> !IsLineTerminator(r[k])
    ensures |r| < |s| ==> IsLineTerminator(s[|r|])
    ensures (forall k :: 0 <= k < |s| ==> !IsLineTerminator(s[k])) ==> r == s
  {
    if s == [] || IsLineTerminator(s[0]) then [] else [s[0]] + FirstLine(s[1..])
  }

  function HasUpper(s: string): bool
  {
    s != [] && (IsUpper(s[0]) || HasUpper(s[1..]))
  }

  function HasSpecial(s: string): bool
  {
    s != [] && (IsSpecial(s[0]) || HasSpecial(s[1..]))
  }

  /** What `passRegex.test(password)` decides: the first line has an ASCII
      capital, one of !@#$%^&*, and at least eight characters. */
  predicate PasswordAccepted(p: string)
    ensures PasswordAccepted(p) ==> 8 <= |p|
    ensures (forall k :: 0 <= k < |p| ==> !IsLineTerminator(p[k])) ==>
              (PasswordAccepted(p) <==> 8 <= |p| && HasUpper(p) && HasSpecial(p))
  {
    var line := FirstLine(p);
    HasUpper(line) && HasSpecial(line) && |line| >= 8
  }

  lemma {:induction false} HasUpperAt(s: string)
    ensures HasUpper(s) <==> exists j :: 0 <= j < |s| && IsUpper(s[j])
  {
    if s != [] {
      HasUpperAt(s[1..]);
      if HasUpper(s[1..]) {
        var j :| 0 <= j < |s[1..]| && IsUpper(s[1..][j]);
        assert IsUpper(s[j + 1]);
      }
      if j :| 0 <= j < |s| && IsUpper(s[j]) {
        if j > 0 { assert IsUpper(s[1..][j - 1]); }
      }
    }
  }

  lemma {:induction false} HasSpecialAt(s: string)
    ensures HasSpecial(s) <==> exists j :: 0 <= j < |s| && IsSpecial(s[j])
  {
    if s != [] {
      HasSpecialAt(s[1..]);
      if HasSpecial(s[1..]) {
        var j :| 0 <= j < |s[1..]| && IsSpecial(s[1..][j]);
        assert IsSpecial(s[j + 1]);
      }
      if j :| 0 <= j < |s| && IsSpecial(s[j]) {
        if j > 0 { assert IsSpecial(s[1..][j - 1]); }
      }
    }
  }

  /** A position j can be reached by `.*` exactly when it lies within the first line. */
  lemma DotsUpToFirstLine(s: string, j: nat)
    requires j <= |s|
    ensures DotsUpTo(s, j) <==> j <= |FirstLine(s)|
  {
    var n := |FirstLine(s)|;
    if j > n {
      assert IsLineTerminator(s[n]);
    }
  }

  /** The first-line reading decides exactly what the pattern decides. */
  lemma PasswordAcceptedIsPattern(s: string)
    ensures PasswordAccepted(s) <==> PatternMatches(s)
  {
    if PasswordAccepted(s) {
      AcceptedMatches(s);
    }
    if PatternMatches(s) {
      MatchesAccepted(s);
    }
  }

  lemma AcceptedMatches(s: string)
    requires PasswordAccepted(s)
    ensures PatternMatches(s)
  {
    var line := FirstLine(s);
    HasUpperAt(line);
    HasSpecialAt(line);
    var a :| 0 <= a < |line| && IsUpper(line[a]);
    DotsUpToFirstLine(s, a);
    var b :| 0 <= b < |line| && IsSpecial(line[b]);
    DotsUpToFirstLine(s, b);
    DotsUpToFirstLine(s, 8);
  }

  lemma MatchesAccepted(s: string)
    requires PatternMatches(s)
    ensures PasswordAccepted(s)
  {
    var a :| 0 <= a < |s| && IsUpper(s[a]) && DotsUpTo(s, a);
    UpperInFirstLine(s, a);
    var b :| 0 <= b < |s| && IsSpecial(s[b]) && DotsUpTo(s, b);
    SpecialInFirstLine(s, b);
    DotsUpToFirstLine(s, 8);
  }

  lemma UpperInFirstLine(s: string, a: nat)
    requires a < |s| && IsUpper(s[a]) && DotsUpTo(s, a)
    ensures HasUpper(FirstLine(s))
  {
    var line := FirstLine(s);
    DotsUpToFirstLine(s, a);
    assert !IsLineTerminator(s[a]);
    assert a < |line| && IsUpper(line[a]);
    HasUpperAt(line);
  }

  lemma SpecialInFirstLine(s: string, b: nat)
    requires b < |s| && IsSpecial(s[b]) && DotsUpTo(s, b)
    ensures HasSpecial(FirstLine(s))
  {
    var line := FirstLine(s);
    DotsUpToFirstLine(s, b);
    assert !IsLineTerminator(s[b]);
    assert b < |line| && IsSpecial(line[b]);
    HasSpecialAt(line);
  }

  /** The first line ends at the first line terminator. */
  lemma FirstLineEndsAt(s: string, n: nat)
    requires n < |s| && IsLineTerminator(s[n])
    requires forall k :: 0 <= k < n ==> !IsLineTerminator(s[k])
    ensures FirstLine(s) == s[..n]
  {
  }

  /** The 16-character maximum named in the error messages is not enforced:
      the lookahead `.{8,16}` is not followed by `$`. */
  lemma LongPasswordAccepted(p: string)
    requires p == "ABCDEFGHIJKLMNOP!"
    ensures |p| > 16 && PasswordAccepted(p)
  {
    assert forall k :: 0 <= k < |p| ==> !IsLineTerminator(p[k]);
    assert IsUpper(p[0]) && IsSpecial(p[16]);
    HasUpperAt(p);
    HasSpecialAt(p);
  }

  /** Only the text before the first line break is examined: the first line
      has a capital and eight characters, and the special character after the
      line break is not seen, so the password is refused. */
  lemma SecondLineIgnored(p: string)
    requires p == "Abcdefgh\n!"
    ensures |FirstLine(p)| >= 8 && HasUpper(FirstLine(p)) && IsSpecial(p[9]) && !PasswordAccepted(p)
  {
    FirstLineEndsAt(p, 8);
    var line := FirstLine(p);
    assert line == "Abcdefgh";
    assert IsUpper(line[0]);
    HasUpperAt(line);
    HasSpecialAt(line);
  }

  /** `!name || name.length < 20 || name.length > 60` rejects. */
  predicate NameAccepted(name: Option<string>)
  {
    name.Some? && NameLengthOk(name.value)
  }

  /** `!address || address.length > 400` rejects. */
  predicate AddressAccepted(address: Option<string>)
  {
    address.Some? && AddressLengthOk(address.value)
  }

  /** `["Admin", "User", "StoreOwner"].includes(role)`. */
  predicate RoleAccepted(role: Option<string>)
    ensures RoleAccepted(role) <==> role.Some? && RoleField(role).Some?
    ensures RoleAccepted(role) ==> RoleName(RoleField(role).value) == role.value
  {
    role.Some? && ParseRole(role.value).Some?
  }

  /** The register name check is the user schema's name rule, and the
      add-store address check is also the user schema's address rule: a body
      passing both, with an email, a digest and an enum role, is saved. */
  lemma ChecksMatchUserSchema(id: Id, name: Option<string>, email: string, password: string,
                              address: Option<string>, role: Option<string>)
    ensures NewUser(id, name, email, password, address, role).Some?
            <==> NameAccepted(name) && AddressAccepted(address) && email != "" && password != ""
                 && RoleField(role).Some?
  {
  }

  /** ... and the store schema's: `add-store` refuses with 400 exactly the
      names and addresses the save would refuse. */
  lemma ChecksMatchStoreSchema(id: Id, name: string, email: string, address: string)
    ensures NewStore(id, name, email, address).Some?
            <==> NameAccepted(Some(name)) && AddressAccepted(Some(address)) && email != ""
  {
  }
}
