/** The bearer-token middleware of middleware/check-auth.js: it lets pre-flight
    requests through, reads the token from the `Authorization` header, asks the
    token verifier for the claims and turns every failure into one 403. */
module CheckAuth {
  import opened Common

  /** The parts of a request the middleware reads. */
  datatype Request = Request(httpMethod: string, authorization: Option<string>)

  /** The payload the verifier decodes from a token. */
  datatype Claims = Claims(userId: Option<string>)

  /** `req.userData`, the identity later handlers trust. */
  datatype UserData = UserData(userId: Option<string>)

  /** `next()` with the identity it attached (none for a pre-flight request), or `next(error)`. */
  datatype Outcome = Next(userData: Option<UserData>) | Reject(error: HttpError)

  const AuthenticationFailed := HttpError("Authentication failed!", 403)

  /** `s.split(sep)` for a one-character separator: the fields between separators,
      with empty fields kept, and `[""]` for the empty string. */
  function Split(s: string, sep: char): (r: seq<string>)
    ensures |r| >= 1
    ensures forall i | 0 <= i < |r| :: sep !in r[i]
    ensures |r| == 1 <==> sep !in s
  {
    if |s| == 0 then [""]
    else
      var rest := Split(s[1..], sep);
      assert s == [s[0]] + s[1..];
      if s[0] == sep then [""] + rest
      else [[s[0]] + rest[0]] + rest[1..]
  }

  /** `fields.join(sep)`. */
  function Join(fields: seq<string>, sep: char): string
    requires |fields| >= 1
  {
    if |fields| == 1 then fields[0] else fields[0] + [sep] + Join(fields[1..], sep)
  }

  /** Putting a character in front of the first field puts it in front of the joined text. */
  lemma JoinConsChar(c: char, fields: seq<string>, sep: char)
    requires |fields| >= 1
    ensures Join([[c] + fields[0]] + fields[1..], sep) == [c] + Join(fields, sep)
  {
    var g := [[c] + fields[0]] + fields[1..];
    assert g[1..] == fields[1..];
  }

  /** Joining the fields again gives back the header: `split` loses nothing. */
  lemma {:induction false} JoinSplit(s: string, sep: char)
    ensures Join(Split(s, sep), sep) == s
  {
    if |s| > 0 {
      JoinSplit(s[1..], sep);
      var rest := Split(s[1..], sep);
      if s[0] == sep {
        assert Split(s, sep) == [""] + rest;
        assert ([""] + rest)[1..] == rest;
        assert s == [sep] + s[1..];
      } else {
        JoinConsChar(s[0], rest, sep);
        assert s == [s[0]] + s[1..];
      }
    }
  }

  /** The text before the first `sep` (all of `s` when there is none). */
  function BeforeSep(s: string, sep: char): (r: string)
    ensures |r| <= |s| && r == s[..|r|]
    ensures sep !in r
    ensures |r| == |s| || s[|r|] == sep
  {
    if |s| == 0 || s[0] == sep then "" else [s[0]] + BeforeSep(s[1..], sep)
  }

  /** The text after the first `sep`. */
  function AfterSep(s: string, sep: char): (r: string)
    requires sep in s
    ensures s == BeforeSep(s, sep) + [sep] + r
  {
    if s[0] == sep then s[1..] else AfterSep(s[1..], sep)
  }

  /** The first field of the split is the text before the first separator. */
  lemma {:induction false} SplitHead(s: string, sep: char)
    ensures Split(s, sep)[0] == BeforeSep(s, sep)
  {
    if |s| > 0 && s[0] != sep {
      SplitHead(s[1..], sep);
    }
  }

  /** The fields after the first are the split of the text after the first separator. */
  lemma {:induction false} SplitTail(s: string, sep: char)
    requires sep in s
    ensures Split(s, sep)[1..] == Split(AfterSep(s, sep), sep)
  {
    var rest := Split(s[1..], sep);
    if s[0] == sep {
      assert ([""] + rest)[1..] == rest;
    } else {
      assert s == [s[0]] + s[1..];
      SplitTail(s[1..], sep);
    }
  }

  /** `authorization.split(' ')[1]`: the second field, `None` (undefined) when
      the header has no space. */
  function BearerToken(header: string): (r: Option<string>)
    ensures r.None? <==> ' ' !in header
    ensures r.Some? ==> ' ' !in r.value
  {
    var fields := Split(header, ' ');
    if |fields| >= 2 then Some(fields[1]) else None
  }

  /** An independent reading of the token: the text between the first space and
      the next one (or the end of the header). */
  lemma BearerTokenIsSecondField(header: string)
    ensures BearerToken(header) ==
      if ' ' in header then Some(BeforeSep(AfterSep(header, ' '), ' ')) else None
  {
    if ' ' in header {
      var fields := Split(header, ' ');
      SplitTail(header, ' ');
      SplitHead(AfterSep(header, ' '), ' ');
      assert fields[1] == fields[1..][0];
    }
  }

  /** The token `!token` lets through: a second field that is not empty. */
  function Credential(req: Request): (t: Option<string>)
    ensures t.Some? ==> t.value != "" && ' ' !in t.value
    ensures t.Some? ==> req.authorization.Some? && t == BearerToken(req.authorization.value)
    ensures t.Some? <==> req.authorization.Some? && BearerToken(req.authorization.value).Some?
                         && BearerToken(req.authorization.value).value != ""
  {
    match req.authorization
    case None => None
    case Some(header) =>
      match BearerToken(header)
      case None => None
      case Some(token) => if token == "" then None else Some(token)
  }

  /** The middleware. `verify` stands for `jwt.verify` with the server's secret:
      the claims of a token it accepts, `None` where it throws. */
  function Authenticate(req: Request, verify: string -> Option<Claims>): (r: Outcome)
    ensures req.httpMethod == "OPTIONS" ==> r == Next(None)
    ensures r.Reject? ==> r.error == AuthenticationFailed
    ensures req.httpMethod != "OPTIONS" ==>
      (r.Next? <==> Credential(req).Some? && verify(Credential(req).value).Some?)
    ensures req.httpMethod != "OPTIONS" && r.Next? ==>
      r.userData == Some(UserData(verify(Credential(req).value).value.userId))
  {
    if req.httpMethod == "OPTIONS" then Next(None)
    else
      match Credential(req)
      case None => Reject(AuthenticationFailed)
      case Some(token) =>
        match verify(token)
        case None => Reject(AuthenticationFailed)
        case Some(claims) => Next(Some(UserData(claims.userId)))
  }

  /** Two rejected requests get the same answer, whatever made them fail. */
  lemma FailuresLookAlike(a: Request, b: Request, verify: string -> Option<Claims>)
    requires Authenticate(a, verify).Reject? && Authenticate(b, verify).Reject?
    ensures Authenticate(a, verify) == Authenticate(b, verify)
  {
  }

  /** With the first separator at index `k`, the header splits there. */
  lemma FirstSepAt(s: string, sep: char, k: nat)
    requires k < |s| && s[k] == sep && sep !in s[..k]
    ensures BeforeSep(s, sep) == s[..k]
    ensures AfterSep(s, sep) == s[k + 1..]
  {
  }

  /** The header shapes the middleware meets: a token after `Bearer `, no second
      field at all, and an empty second field after a double space. */
  lemma HeaderWithToken()
    ensures BearerToken("Bearer abc") == Some("abc")
  {
    var h := "Bearer abc";
    assert h[6] == ' ';
    assert h[..6] == "Bearer";
    assert ' ' !in h[..6];
    assert h[7..] == "abc";
    FirstSepAt(h, ' ', 6);
    assert AfterSep(h, ' ') == "abc";
    assert ' ' !in "abc";
    assert BeforeSep("abc", ' ') == "abc";
    BearerTokenIsSecondField(h);
  }

  lemma HeaderWithoutToken()
    ensures BearerToken("Bearer") == None
  {
  }

  lemma HeaderWithEmptyToken()
    ensures BearerToken("Bearer  abc") == Some("")
  {
    var h := "Bearer  abc";
    assert h[..6] == "Bearer" && h[6] == ' ' && h[7..] == " abc";
    BearerTokenIsSecondField(h);
    FirstSepAt(h, ' ', 6);
    FirstSepAt(" abc", ' ', 0);
  }
}
