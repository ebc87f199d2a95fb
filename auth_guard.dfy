/** The authentication middleware (auth/auth.guard.ts; its compiled twin
    dist/auth/auth.guard.js is the same): the token is the second
    space-separated word of the Authorization header; no token gives 401;
    otherwise the verifier's result, possibly null, is attached to the
    request and the next handler runs. */
module AuthGuard {
  import opened Entities
  import Auth

  /** No space inside. */
  predicate Word(s: string) {
    forall i :: 0 <= i < |s| ==> s[i] != ' '
  }

  /** JavaScript `s.split(' ')`: the pieces between the spaces, empty ones
      included, so there is always one piece more than there are spaces. */
  function Split(s: string): (parts: seq<string>)
    ensures |parts| >= 1
    ensures forall i :: 0 <= i < |parts| ==> Word(parts[i])
    ensures Word(s) ==> parts == [s]
  {
    if s == [] then [""]
    else if s[0] == ' ' then [""] + Split(s[1..])
    else
      var rest := Split(s[1..]);
      assert Word([s[0]] + rest[0]) by {
        forall i | 0 <= i < |[s[0]] + rest[0]| ensures ([s[0]] + rest[0])[i] != ' ' {
          if i > 0 { assert ([s[0]] + rest[0])[i] == rest[0][i - 1]; }
        }
      }
      assert Word(s) ==> Word(s[1..]) by {
        if Word(s) {
          forall i | 0 <= i < |s[1..]| ensures s[1..][i] != ' ' { assert s[1..][i] == s[i + 1]; }
        }
      }
      assert Word(s) ==> [s[0]] + s[1..] == s;
      [[s[0]] + rest[0]] + rest[1..]
  }

  /** `parts.join(' ')`. */
  function Join(parts: seq<string>): string
    requires |parts| >= 1
  {
    if |parts| == 1 then parts[0] else parts[0] + " " + Join(parts[1..])
  }

  /** Joining after an empty first piece starts with the separator. */
  lemma JoinEmptyFirst(rest: seq<string>)
    requires |rest| >= 1
    ensures Join([""] + rest) == " " + Join(rest)
  {
    assert ([""] + rest)[1..] == rest;
  }

  /** Joining after a character is put in front of the first piece puts it in
      front of the whole. */
  lemma JoinConsFirst(c: char, parts: seq<string>)
    requires |parts| >= 1
    ensures Join([[c] + parts[0]] + parts[1..]) == [c] + Join(parts)
  {
    var q := [[c] + parts[0]] + parts[1..];
    if |parts| > 1 {
      assert q[1..] == parts[1..] by { assert |q| == |parts|; }
    }
  }

  /** Splitting loses nothing: joining the pieces gives the header back. */
  lemma {:induction false} JoinSplit(s: string)
    ensures Join(Split(s)) == s
  {
    if s != [] {
      JoinSplit(s[1..]);
      if s[0] == ' ' {
        JoinEmptyFirst(Split(s[1..]));
        assert s == " " + s[1..];
      } else {
        JoinConsFirst(s[0], Split(s[1..]));
        assert s == [s[0]] + s[1..];
      }
    }
  }

  /** Splitting `w + " " + rest`, for a word `w`, gives `w` and then the
      pieces of `rest`. */
  lemma {:induction false} SplitAfterWord(w: string, rest: string)
    requires Word(w)
    ensures Split(w + " " + rest) == [w] + Split(rest)
  {
    if w == [] {
      assert w + " " + rest == [' '] + rest;
      assert (w + " " + rest)[1..] == rest;
    } else {
      assert (w + " " + rest)[1..] == w[1..] + " " + rest;
      assert Word(w[1..]) by {
        forall i | 0 <= i < |w[1..]| ensures w[1..][i] != ' ' { assert w[1..][i] == w[i + 1]; }
      }
      SplitAfterWord(w[1..], rest);
      assert [w[0]] + w[1..] == w;
    }
  }

  /** `authHeader && authHeader.split(' ')[1]`, then the truthiness test: the
      second piece when there is a header with a non-empty second piece,
      otherwise None (no token). */
  function HeaderToken(header: Option<string>): (t: Option<string>)
    ensures t.Some? <==> header.Some? && |Split(header.value)| >= 2 && Split(header.value)[1] != ""
    ensures t.Some? ==> t.value == Split(header.value)[1] && Word(t.value)
  {
    match header
    case None => None
    case Some(h) =>
      if h == "" then None
      else
        var parts := Split(h);
        if |parts| < 2 || parts[1] == "" then None else Some(parts[1])
  }

  /** The scheme word is not checked: any word before the space will do. */
  lemma SchemeWordIgnored(scheme: string, token: string)
    requires Word(scheme) && Word(token) && token != ""
    ensures HeaderToken(Some(scheme + " " + token)) == Some(token)
  {
    SplitAfterWord(scheme, token);
  }

  /** Pieces after the second are ignored: `"Bearer a b"` yields `"a"`. */
  lemma LaterWordsIgnored(scheme: string, token: string, rest: string)
    requires Word(scheme) && Word(token) && token != ""
    ensures HeaderToken(Some(scheme + " " + token + " " + rest)) == Some(token)
  {
    SplitAfterWord(scheme, token + " " + rest);
    SplitAfterWord(token, rest);
    assert scheme + " " + token + " " + rest == scheme + " " + (token + " " + rest);
  }

  /** A header without a space has no second piece, and a header ending in
      its only space (`"Bearer "`) has an empty one: both mean no token. */
  lemma NoTokenRejected(scheme: string)
    requires Word(scheme)
    ensures HeaderToken(Some(scheme)) == None
    ensures HeaderToken(Some(scheme + " ")) == None
  {
    SplitAfterWord(scheme, "");
    assert scheme + " " + "" == scheme + " ";
  }

  /** What the middleware does with a request. */
  datatype Outcome = Unauthorized401 | Next(user: Option<Principal>) | InvalidToken403

  /** The middleware as written: `verifyAccessToken` never throws (it gives
      null instead), so the `catch` that answers 403 is never reached. */
  function Decide(header: Option<string>, verify: string -> Option<Principal>): (r: Outcome)
    ensures r == Unauthorized401 <==> HeaderToken(header).None?
    ensures r != InvalidToken403
    ensures r.Next? ==> r.user == verify(HeaderToken(header).value)
  {
    match HeaderToken(header)
    case None => Unauthorized401
    case Some(token) => Next(verify(token))
  }

  /** A header whose token fails verification lets the request through with
      no user, rather than answering 403. */
  lemma InvalidTokenProceeds(header: Option<string>, verify: string -> Option<Principal>)
    requires HeaderToken(header).Some? && verify(HeaderToken(header).value).None?
    ensures Decide(header, verify) == Next(None)
  {
  }

  /** The middleware as its `catch` branch shows it was meant: a token that
      fails verification is answered 403, so the next handler only ever runs
      with a user. */
  function DecideIntended(header: Option<string>, verify: string -> Option<Principal>): (r: Outcome)
    ensures r == Unauthorized401 <==> HeaderToken(header).None?
    ensures r == InvalidToken403 <==> HeaderToken(header).Some? && verify(HeaderToken(header).value).None?
    ensures r.Next? ==> r.user.Some? && r.user == verify(HeaderToken(header).value)
  {
    match HeaderToken(header)
    case None => Unauthorized401
    case Some(token) =>
      match verify(token)
      case None => InvalidToken403
      case Some(p) => Next(Some(p))
  }

  /** Both versions agree whenever the token verifies or is missing. */
  lemma IntendedAgreesOnValidTokens(header: Option<string>, verify: string -> Option<Principal>)
    requires HeaderToken(header).None? || verify(HeaderToken(header).value).Some?
    ensures DecideIntended(header, verify) == Decide(header, verify)
  {
  }

  /** The request and response as the middleware sees them. */
  class Exchange {
    const authorization: Option<string>
    var user: Option<Principal>
    var status: Option<Status>
    var nextCalled: bool

    constructor(authorization: Option<string>)
      ensures this.authorization == authorization
      ensures user.None? && status.None? && !nextCalled
    {
      this.authorization := authorization;
      user := None;
      status := None;
      nextCalled := false;
    }
  }

  /** `authGuard(req, res, next)` at second `now`, as written: either a 401
      is sent and `next` is not called (the flag is left as it was), or
      `req.user` is set to the verifier's result and `next` is called. */
  method Guard(ex: Exchange, service: Auth.AuthService, now: int)
    modifies ex
    ensures var outcome := Decide(ex.authorization, t => service.jwt.verify(t, service.accessSecret, now));
      && (outcome == Unauthorized401 ==> ex.status == Some(Unauthorized) && ex.nextCalled == old(ex.nextCalled) && ex.user == old(ex.user))
      && (outcome.Next? ==> ex.user == outcome.user && ex.nextCalled && ex.status == old(ex.status))
  {
    var token := HeaderToken(ex.authorization);
    if token.None? {
      ex.status := Some(Unauthorized);
      return;
    }
    var decoded := service.VerifyAccessToken(token.value, now);
    ex.user := decoded;
    ex.nextCalled := true;
  }
}
