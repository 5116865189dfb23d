/** The two Express middlewares that guard the user routes:
    `authenticateToken`, which takes the token from the `Authorization`
    header and verifies it, and `requireAdmin`, which admits only the Admin
    role. The header loosely follows the bearer scheme of section 2.1 of
    RFC 6750, but the scheme word itself is never looked at. */
module Middleware {
  import opened Common
  import opened Crypto

  const Space: char := ' '
  const TokenRequired: string := "Access token required"
  const TokenRefused: string := "Invalid or expired token"
  const AdminRequired: string := "Admin access required"

  /** What a middleware does with a request: call `next()` with the identity
      attached to `req.user`, or answer it with an error. */
  datatype Gate = Proceed(identity: Claims) | Reject(why: Refusal)

  /** JavaScript's `s.split(sep)` for a one-character separator: the pieces
      between separators, empty ones included. */
  function Split(s: string, sep: char): (parts: seq<string>)
    ensures |parts| >= 1
    ensures forall k :: 0 <= k < |parts| ==> sep !in parts[k]
    decreases |s|
  {
    if |s| == 0 then [""]
    else if s[0] == sep then [""] + Split(s[1..], sep)
    else
      var rest := Split(s[1..], sep);
      [[s[0]] + rest[0]] + rest[1..]
  }

  /** `parts.join(sep)`, the inverse of Split. */
  function Join(parts: seq<string>, sep: char): string
    decreases |parts|
  {
    if |parts| == 0 then ""
    else if |parts| == 1 then parts[0]
    else parts[0] + [sep] + Join(parts[1..], sep)
  }

  /** Splitting loses nothing: joining the pieces gives the header back. */
  lemma {:induction false} JoinSplit(s: string, sep: char)
    ensures Join(Split(s, sep), sep) == s
    decreases |s|
  {
    if |s| > 0 {
      JoinSplit(s[1..], sep);
      var rest := Split(s[1..], sep);
      if s[0] == sep {
        assert Split(s, sep)[1..] == rest;
      } else {
        var parts := Split(s, sep);
        assert parts[0] == [s[0]] + rest[0] && parts[1..] == rest[1..];
        if |rest| == 1 {
          assert Join(rest, sep) == rest[0];
        } else {
          assert Join(rest, sep) == rest[0] + [sep] + Join(rest[1..], sep);
        }
        assert s == [s[0]] + s[1..];
      }
    }
  }

  /** A text without the separator is a single piece. */
  lemma {:induction false} SplitWithoutSeparator(s: string, sep: char)
    requires sep !in s
    ensures Split(s, sep) == [s]
    decreases |s|
  {
    if |s| > 0 {
      assert sep !in s[1..];
      SplitWithoutSeparator(s[1..], sep);
      assert [s[0]] + s[1..] == s;
    }
  }

  /** A leading word without the separator is the first piece, and the rest
      splits on its own. */
  lemma {:induction false} SplitAfterWord(word: string, sep: char, rest: string)
    requires sep !in word
    ensures Split(word + [sep] + rest, sep) == [word] + Split(rest, sep)
    decreases |word|
  {
    var s := word + [sep] + rest;
    if |word| == 0 {
      assert s == [sep] + rest;
      assert s[1..] == rest;
    } else {
      assert s[0] == word[0] && s[1..] == word[1..] + [sep] + rest;
      assert sep !in word[1..];
      SplitAfterWord(word[1..], sep, rest);
      assert [word[0]] + word[1..] == word;
    }
  }

  /** `authHeader && authHeader.split(' ')[1]`, with None wherever the
      JavaScript value is falsy: no header, no second piece, or an empty one. */
  function BearerToken(header: Option<string>): (token: Option<string>)
    ensures header.None? ==> token.None?
    // The token is the second piece of the split, when there is a non-empty one.
    ensures header.Some? ==>
      (var parts := Split(header.value, Space);
       token == if |parts| >= 2 && parts[1] != "" then Some(parts[1]) else None)
    ensures token.Some? ==> token.value != "" && Space !in token.value
    ensures token.Some? ==> header.Some? && exists k :: 0 <= k < |header.value| && header.value[k] == Space
  {
    match header
    case None => None
    case Some(text) =>
      var parts := Split(text, Space);
      if |parts| < 2 || parts[1] == "" then None
      else
        assert Space in text by {
          if Space !in text { SplitWithoutSeparator(text, Space); }
        }
        Some(parts[1])
  }

  /** Whatever the first word is, a single space and a token give that token. */
  lemma AnySchemeAccepted(scheme: string, token: string)
    requires Space !in scheme && token != "" && Space !in token
    ensures BearerToken(Some(scheme + " " + token)) == Some(token)
  {
    SplitAfterWord(scheme, Space, token);
    SplitWithoutSeparator(token, Space);
  }

  /** Two spaces after the first word leave the token empty: the header counts
      as carrying no token. */
  lemma DoubleSpaceHasNoToken(scheme: string, token: string)
    requires Space !in scheme
    ensures BearerToken(Some(scheme + "  " + token)) == None
  {
    assert scheme + "  " + token == scheme + [Space] + ([Space] + token);
    SplitAfterWord(scheme, Space, [Space] + token);
    SplitAfterWord("", Space, token);
    assert "" + [Space] + token == [Space] + token;
  }

  /** Words after the token are ignored: only the second piece is taken. */
  lemma ExtraWordsIgnored(scheme: string, token: string, more: string)
    requires Space !in scheme && token != "" && Space !in token
    ensures BearerToken(Some(scheme + " " + token + " " + more)) == Some(token)
  {
    assert scheme + " " + token + " " + more == scheme + [Space] + (token + [Space] + more);
    SplitAfterWord(scheme, Space, token + [Space] + more);
    SplitAfterWord(token, Space, more);
  }

  /** A header without a space, or with nothing after its first space, has
      no token. */
  lemma NoSecondWordHasNoToken(scheme: string)
    requires Space !in scheme
    ensures BearerToken(Some(scheme)) == None
    ensures BearerToken(Some(scheme + " ")) == None
  {
    SplitWithoutSeparator(scheme, Space);
    assert scheme + " " == scheme + [Space] + "";
    SplitAfterWord(scheme, Space, "");
  }

  /** `authenticateToken`: 401 without a token, 403 when the verifier refuses
      it, and otherwise the decoded claims become the request's identity. */
  function Authenticate(header: Option<string>, now: int, signer: Signer): (r: Gate)
    ensures BearerToken(header).None? <==> r == Reject(Refusal(401, TokenRequired))
    ensures r == Reject(Refusal(403, TokenRefused)) <==>
      BearerToken(header).Some? && signer.verify(BearerToken(header).value, now).None?
    ensures r.Proceed? ==> signer.verify(BearerToken(header).value, now) == Some(r.identity)
    // A verified token always lets the request through, with the decoded claims.
    ensures BearerToken(header).Some? && signer.verify(BearerToken(header).value, now).Some? ==>
      r == Proceed(signer.verify(BearerToken(header).value, now).value)
    ensures r.Reject? ==> r.why.status == 401 || r.why.status == 403
  {
    match BearerToken(header)
    case None => Reject(Refusal(401, TokenRequired))
    case Some(token) =>
      match signer.verify(token, now)
      case None => Reject(Refusal(403, TokenRefused))
      case Some(claims) => Proceed(claims)
  }

  /** `requireAdmin`: passes the identity on unchanged exactly when its role
      is the exact text "Admin", else 403. */
  function RequireAdmin(identity: Claims): (r: Gate)
    ensures r.Proceed? <==> identity.role == "Admin"
    ensures r.Proceed? ==> r.identity == identity
    ensures r.Reject? ==> r.why == Refusal(403, AdminRequired)
  {
    if identity.role != "Admin" then Reject(Refusal(403, AdminRequired)) else Proceed(identity)
  }

  /** The chain `authenticateToken, requireAdmin` of the admin-only routes. */
  function AdminGate(header: Option<string>, now: int, signer: Signer): (r: Gate)
    ensures r.Proceed? ==>
      && r.identity.role == "Admin"
      && BearerToken(header).Some?
      && signer.verify(BearerToken(header).value, now) == Some(r.identity)
    ensures r.Proceed? <==>
      && BearerToken(header).Some?
      && signer.verify(BearerToken(header).value, now).Some?
      && signer.verify(BearerToken(header).value, now).value.role == "Admin"
    // Each failing stage answers with its own refusal.
    ensures BearerToken(header).None? ==> r == Reject(Refusal(401, TokenRequired))
    ensures BearerToken(header).Some? && signer.verify(BearerToken(header).value, now).None? ==>
      r == Reject(Refusal(403, TokenRefused))
    ensures
      (&& BearerToken(header).Some?
       && signer.verify(BearerToken(header).value, now).Some?
       && signer.verify(BearerToken(header).value, now).value.role != "Admin")
      ==> r == Reject(Refusal(403, AdminRequired))
  {
    match Authenticate(header, now, signer)
    case Reject(why) => Reject(why)
    case Proceed(identity) => RequireAdmin(identity)
  }

  /** A token issued less than 24 hours ago, sent as `Bearer <token>`, lets
      the request through with exactly the claims it was signed with. */
  lemma IssuedTokenAccepted(signer: Signer, claims: Claims, issued: int, now: int)
    requires SignerContract(signer)
    requires now < issued + TokenLifetime
    ensures Authenticate(Some("Bearer " + signer.sign(claims, issued)), now, signer) == Proceed(claims)
  {
    var token := signer.sign(claims, issued);
    assert token != "" && Space !in token;
    assert "Bearer " + token == "Bearer" + " " + token;
    AnySchemeAccepted("Bearer", token);
    assert signer.verify(token, now) == Some(claims);
  }

  /** From 24 hours after issue on, the same header is refused with 403. */
  lemma ExpiredTokenRefused(signer: Signer, claims: Claims, issued: int, now: int)
    requires SignerContract(signer)
    requires issued + TokenLifetime <= now
    ensures Authenticate(Some("Bearer " + signer.sign(claims, issued)), now, signer) == Reject(Refusal(403, TokenRefused))
  {
    var token := signer.sign(claims, issued);
    assert token != "" && Space !in token;
    assert "Bearer " + token == "Bearer" + " " + token;
    AnySchemeAccepted("Bearer", token);
    assert signer.verify(token, now) == None;
  }

  /** A valid token whose role is "Admin" passes the admin chain with its claims. */
  lemma AdminTokenAccepted(signer: Signer, claims: Claims, issued: int, now: int)
    requires SignerContract(signer)
    requires now < issued + TokenLifetime && claims.role == "Admin"
    ensures AdminGate(Some("Bearer " + signer.sign(claims, issued)), now, signer) == Proceed(claims)
  {
    IssuedTokenAccepted(signer, claims, issued, now);
  }

  /** A valid token whose role is not "Admin" never gets past the admin chain. */
  lemma NonAdminTokenForbidden(signer: Signer, claims: Claims, issued: int, now: int)
    requires SignerContract(signer)
    requires now < issued + TokenLifetime && claims.role != "Admin"
    ensures AdminGate(Some("Bearer " + signer.sign(claims, issued)), now, signer) == Reject(Refusal(403, AdminRequired))
  {
    IssuedTokenAccepted(signer, claims, issued, now);
  }
}
