/** The access guard `protect(roles)`: take the token from the Authorization
    header, verify it, and let the request through or answer 401 or 403.
    Signature checking is the `verify` parameter; it yields the decoded claims
    or None where jsonwebtoken would throw. */
module Guard {
  import opened Models

  /** The decoded token payload `{id, role}`. */
  datatype Claims = Claims(id: Id, role: string)

  /** The three rejection messages; server.js and authMiddleware.js word them differently. */
  datatype Messages = Messages(noToken: string, badToken: string, forbidden: string)

  const AppMessages := Messages("No token provided", "Invalid token", "Permission denied")
  const MiddlewareMessages :=
    Messages("No token, authorization denied", "Token is not valid", "Access denied: Unauthorized role")

  /** Either `next()` runs with `req.user` set to the claims, or a response ends the request. */
  datatype Decision = Proceed(user: Claims) | Halt(status: nat, message: string)

  /** JavaScript's `s.split(" ")`: the pieces between single spaces, empty pieces kept. */
  function Split(s: string): (r: seq<string>)
    ensures |r| >= 1
    ensures |r| == 1 <==> ' ' !in s
    ensures forall i :: 0 <= i < |r| ==> ' ' !in r[i]
  {
    if s == [] then [""]
    else if s[0] == ' ' then [""] + Split(s[1..])
    else var rest := Split(s[1..]); [[s[0]] + rest[0]] + rest[1..]
  }

  /** `req.headers.authorization?.split(" ")[1]`, with undefined and "" both as None. */
  function TokenOf(header: Option<string>): (t: Option<string>)
    ensures header.None? ==> t.None?
    ensures header.Some? && ' ' !in header.value ==> t.None?
    ensures t.Some? ==> t.value != "" && ' ' !in t.value
  {
    match header
    case None => None
    case Some(h) =>
      var parts := Split(h);
      if |parts| >= 2 && parts[1] != "" then Some(parts[1]) else None
  }

  /** `roles.length && !roles.includes(role)` is false. */
  predicate RoleAllowed(roles: seq<string>, role: string)
  {
    |roles| == 0 || role in roles
  }

  /** The guard's decision for one request. */
  function Decide(header: Option<string>, verify: string -> Option<Claims>,
                  roles: seq<string>, msgs: Messages): (d: Decision)
    ensures TokenOf(header).None? ==> d == Halt(401, msgs.noToken)
    ensures TokenOf(header).Some? && verify(TokenOf(header).value).None? ==> d == Halt(401, msgs.badToken)
    ensures d.Proceed? <==>
              TokenOf(header).Some? && verify(TokenOf(header).value).Some?
              && RoleAllowed(roles, verify(TokenOf(header).value).value.role)
    ensures d.Proceed? ==> d.user == verify(TokenOf(header).value).value
    ensures (TokenOf(header).Some? && verify(TokenOf(header).value).Some?
             && !RoleAllowed(roles, verify(TokenOf(header).value).value.role))
            ==> d == Halt(403, msgs.forbidden)
    ensures d.Halt? ==> d.status in {401, 403}
    ensures d.Halt? && d.status == 403 ==> d.message == msgs.forbidden
  {
    match TokenOf(header)
    case None => Halt(401, msgs.noToken)
    case Some(token) =>
      match verify(token)
      case None => Halt(401, msgs.badToken)
      case Some(claims) =>
        if RoleAllowed(roles, claims.role) then Proceed(claims) else Halt(403, msgs.forbidden)
  }

  /** A word without spaces splits to itself. */
  lemma {:induction false} SplitWord(w: string)
    requires ' ' !in w
    ensures Split(w) == [w]
  {
    if w != [] {
      SplitWord(w[1..]);
      assert [w[0]] + w[1..] == w;
    }
  }

  /** Splitting `a + " " + b` where `a` has no space gives `a` and the pieces of `b`. */
  lemma {:induction false} SplitAfterWord(a: string, b: string)
    requires ' ' !in a
    ensures Split(a + " " + b) == [a] + Split(b)
  {
    if a == [] {
      assert a + " " + b == " " + b;
      assert (" " + b)[1..] == b;
    } else {
      assert (a + " " + b)[0] == a[0];
      assert (a + " " + b)[1..] == a[1..] + " " + b;
      SplitAfterWord(a[1..], b);
      assert [a[0]] + a[1..] == a;
    }
  }

  /** `Authorization: <scheme> <rest>` yields the first space-separated field
      of `rest`, when it is not empty, whatever the scheme word is: "Bearer" is
      not checked, and anything after a second space is ignored. */
  lemma SchemeNotChecked(scheme: string, rest: string)
    requires scheme != "" && ' ' !in scheme
    ensures TokenOf(Some(scheme + " " + rest))
            == if Split(rest)[0] != "" then Some(Split(rest)[0]) else None
  {
    SplitAfterWord(scheme, rest);
  }

  /** In particular `<scheme> <token>` yields the token. */
  lemma SchemeThenToken(scheme: string, token: string)
    requires scheme != "" && ' ' !in scheme && ' ' !in token && token != ""
    ensures TokenOf(Some(scheme + " " + token)) == Some(token)
  {
    SchemeNotChecked(scheme, token);
    SplitWord(token);
  }

  /** With a non-empty list, a verified token is refused with 403 exactly when its role is not listed. */
  lemma ForbiddenIff(header: Option<string>, verify: string -> Option<Claims>,
                     roles: seq<string>, msgs: Messages)
    requires |roles| > 0
    requires TokenOf(header).Some? && verify(TokenOf(header).value).Some?
    ensures Decide(header, verify, roles, msgs) == Halt(403, msgs.forbidden)
            <==> verify(TokenOf(header).value).value.role !in roles
  {
  }

  /** The default empty list `roles = []` admits every verified token. */
  lemma EmptyListAdmitsVerified(header: Option<string>, verify: string -> Option<Claims>, msgs: Messages)
    requires TokenOf(header).Some? && verify(TokenOf(header).value).Some?
    ensures Decide(header, verify, [], msgs) == Proceed(verify(TokenOf(header).value).value)
  {
  }

  /** Widening a non-empty allow-list never turns a pass into a refusal. */
  lemma WiderListStillAdmits(header: Option<string>, verify: string -> Option<Claims>,
                             roles: seq<string>, wider: seq<string>, msgs: Messages)
    requires |roles| > 0
    requires forall r :: r in roles ==> r in wider
    requires Decide(header, verify, roles, msgs).Proceed?
    ensures Decide(header, verify, wider, msgs) == Decide(header, verify, roles, msgs)
  {
  }

  /** ... but the empty list is not the bottom of that order: `[]` admits a role that `[r]` refuses. */
  lemma EmptyListIsNotNarrowest(header: Option<string>, verify: string -> Option<Claims>, msgs: Messages, r: string)
    requires TokenOf(header).Some? && verify(TokenOf(header).value).Some?
    requires verify(TokenOf(header).value).value.role != r
    ensures Decide(header, verify, [], msgs).Proceed?
    ensures Decide(header, verify, [r], msgs) == Halt(403, msgs.forbidden)
  {
  }

  /** server.js and authMiddleware.js decide alike; only the message text differs. */
  lemma VariantsAgree(header: Option<string>, verify: string -> Option<Claims>, roles: seq<string>)
    ensures Decide(header, verify, roles, AppMessages).Proceed?
            == Decide(header, verify, roles, MiddlewareMessages).Proceed?
    ensures Decide(header, verify, roles, AppMessages).Proceed? ==>
              Decide(header, verify, roles, AppMessages) == Decide(header, verify, roles, MiddlewareMessages)
    ensures Decide(header, verify, roles, AppMessages).Halt? ==>
              Decide(header, verify, roles, AppMessages).status
              == Decide(header, verify, roles, MiddlewareMessages).status
  {
  }
}
