/**
 * The WebHook client: one POST per event, and in OAuth2 mode (the client credentials grant, section 4.4
 * of RFC 6749) a cached bearer token that is dropped and requested again on 401 and 403. The retry is a
 * recursive call. Everything libcurl and the servers answer is a script with one entry per call.
 */
module WebHook {
  import opened Text

  /**
   * `SetUpFailed`: no request was made. `Unusable`: no JSON, or no access_token string in it; the program stops
   * on an assertion.
   */
  datatype TokenReply = SetUpFailed | TokenTransferFailed | Unusable | Granted(token: string)

  datatype PostReply = TransferFailed | Status(code: int)

  /** What one invocation meets: options set up to the headers, the headers, the token, the rest, the reply. */
  datatype Attempt = Attempt(prepared: bool, headersSet: bool, token: TokenReply, bearerSet: bool, optionsSet: bool,
                             reply: PostReply)

  /** Requests in the order in which they are made. */
  datatype Request = TokenRequest(answer: TokenReply) | Post(bearer: Option<string>, reply: PostReply)

  /** `Running`: the script ended while the client was about to try again. */
  datatype Outcome = Success | Failure | Aborted | Running

  const MAX_BEARER_TOKEN_LEN := 4096

  /** The token in the Authorization header (section 2.1 of RFC 6750), cut to the buffer. */
  function Bearer(token: string): string {
    if |token| <= MAX_BEARER_TOKEN_LEN then token else token[..MAX_BEARER_TOKEN_LEN]
  }

  predicate IsRetry(reply: PostReply) {
    reply.Status? && (reply.code == 401 || reply.code == 403)
  }

  predicate IsAccepted(reply: PostReply) {
    reply.Status? && (reply.code == 200 || reply.code == 201)
  }

  datatype Result = Result(outcome: Outcome, cached: Option<string>, made: seq<Request>)

  /** The token request, if it gets as far as the transfer. */
  function Asked(token: TokenReply): seq<Request> {
    if token.SetUpFailed? then [] else [TokenRequest(token)]
  }

  /** `json_http_post_bad_actor` as a function of the mode, the cached token and the script. */
  function Posted(oauth2: bool, cached: Option<string>, script: seq<Attempt>): Result
    decreases |script|, 1
  {
    if script == [] then Result(Running, cached, [])
    else
      var a := script[0];
      if !a.prepared || (oauth2 && !a.headersSet) then Result(Failure, cached, [])
      else if oauth2 && cached.None? then
        var asked := Asked(a.token);
        if a.token.SetUpFailed? || a.token.TokenTransferFailed? then Result(Failure, None, asked)
        else if a.token.Unusable? then Result(Aborted, None, asked)
        else if !a.bearerSet || !a.optionsSet then Result(Failure, Some(a.token.token), asked)
        else Sent(oauth2, Some(a.token.token), asked, script)
      else if !a.optionsSet then Result(Failure, cached, [])
      else Sent(oauth2, cached, [], script)
  }

  /** The POST itself and what follows from its reply. */
  function Sent(oauth2: bool, cached: Option<string>, made: seq<Request>, script: seq<Attempt>): Result
    requires script != [] && (oauth2 ==> cached.Some?)
    decreases |script|, 0
  {
    var reply := script[0].reply;
    var made' := made + [Post(if oauth2 then Some(Bearer(cached.value)) else None, reply)];
    if IsAccepted(reply) then Result(Success, cached, made')
    else if oauth2 && IsRetry(reply) then
      var again := Posted(oauth2, None, script[1..]);
      again.(made := made' + again.made)
    else Result(Failure, cached, made')
  }

  class Client {
    const oauth2: bool
    var accessToken: Option<string>
    var made: seq<Request>

    constructor (oauth2: bool)
      ensures this.oauth2 == oauth2 && accessToken == None && made == []
    {
      this.oauth2 := oauth2;
      accessToken := None;
      made := [];
    }

    method RequestBearerToken(a: Attempt) returns (outcome: Outcome)
      modifies this
      ensures made == old(made) + Asked(a.token)
      ensures outcome == (if a.token.SetUpFailed? || a.token.TokenTransferFailed? then Failure else if a.token.Unusable? then Aborted else Success)
      ensures accessToken == if a.token.Granted? then Some(a.token.token) else old(accessToken)
    {
      if a.token.SetUpFailed? { return Failure; }
      made := made + [TokenRequest(a.token)];
      if a.token.TokenTransferFailed? { return Failure; }
      if a.token.Unusable? { return Aborted; }
      accessToken := Some(a.token.token);
      return Success;
    }

    method PostBadActor(script: seq<Attempt>) returns (outcome: Outcome)
      modifies this
      decreases |script|
      ensures var r := Posted(oauth2, old(accessToken), script);
              outcome == r.outcome && accessToken == r.cached && made == old(made) + r.made
    {
      if script == [] { return Running; }
      var a := script[0];
      if !a.prepared { return Failure; }
      if oauth2 && !a.headersSet { return Failure; }
      if oauth2 && accessToken == None {
        var got := RequestBearerToken(a);
        if got != Success { return got; }
        if !a.bearerSet { return Failure; }
      }
      if !a.optionsSet { return Failure; }
      var bearer := if oauth2 then Some(Bearer(accessToken.value)) else None;
      made := made + [Post(bearer, a.reply)];
      if !IsAccepted(a.reply) {
        if oauth2 && IsRetry(a.reply) {
          accessToken := None;
          outcome := PostBadActor(script[1..]);
          return;
        }
        return Failure;
      }
      return Success;
    }
  }

  // ----- what the requests look like -----

  function Posts(made: seq<Request>): seq<PostReply> {
    if made == [] then []
    else (if made[0].Post? then [made[0].reply] else []) + Posts(made[1..])
  }

  function TokenRequests(made: seq<Request>): nat {
    if made == [] then 0 else (if made[0].TokenRequest? then 1 else 0) + TokenRequests(made[1..])
  }

  lemma Associative<T>(a: seq<T>, b: seq<T>, c: seq<T>)
    ensures (a + b) + c == a + (b + c)
  {
  }

  lemma {:induction false} PostsConcatenated(a: seq<Request>, b: seq<Request>)
    ensures Posts(a + b) == Posts(a) + Posts(b)
  {
    if a == [] {
      assert a + b == b;
    } else {
      PostsConcatenated(a[1..], b);
      assert (a + b)[1..] == a[1..] + b;
      var first := if a[0].Post? then [a[0].reply] else [];
      assert Posts(a) == first + Posts(a[1..]) && Posts(a + b) == first + Posts(a[1..] + b);
      Associative(first, Posts(a[1..]), Posts(b));
    }
  }

  lemma {:induction false} TokensConcatenated(a: seq<Request>, b: seq<Request>)
    ensures TokenRequests(a + b) == TokenRequests(a) + TokenRequests(b)
  {
    if a == [] {
      assert a + b == b;
    } else {
      TokensConcatenated(a[1..], b);
      assert (a + b)[1..] == a[1..] + b;
    }
  }

  lemma Concatenated(a: seq<Request>, b: seq<Request>)
    ensures Posts(a + b) == Posts(a) + Posts(b)
    ensures TokenRequests(a + b) == TokenRequests(a) + TokenRequests(b)
  {
    PostsConcatenated(a, b);
    TokensConcatenated(a, b);
  }

  /** The requests of one invocation, before any retry. */
  lemma FirstRequests(oauth2: bool, cached: Option<string>, script: seq<Attempt>) returns (own: seq<Request>, later: Result)
    requires script != []
    ensures Posted(oauth2, cached, script).made == own + later.made
    ensures |Posts(own)| <= 1 && TokenRequests(own) <= 1
    ensures Posts(own) == [] ==> later.made == [] && !Posted(oauth2, cached, script).outcome.Success? &&
                                 !Posted(oauth2, cached, script).outcome.Running?
    ensures Posts(own) != [] ==> Posts(own) == [script[0].reply]
    ensures Posts(own) != [] && oauth2 && IsRetry(script[0].reply) ==>
              later == Posted(oauth2, None, script[1..]) && Posted(oauth2, cached, script).outcome == later.outcome
    ensures Posts(own) != [] && !(oauth2 && IsRetry(script[0].reply)) ==>
              later.made == [] && Posted(oauth2, cached, script).outcome ==
                (if IsAccepted(script[0].reply) then Success else Failure)
    ensures oauth2 ==> TokenRequests(own) + (if cached.Some? then 1 else 0) >= |Posts(own)|
    ensures cached.Some? || !oauth2 ==> TokenRequests(own) == 0
    ensures oauth2 && cached.None? && Posts(own) != [] ==> TokenRequests(own) == 1
  {
    var a := script[0];
    var asked := if oauth2 && cached.None? && a.prepared && a.headersSet then Asked(a.token) else [];
    var r := Posted(oauth2, cached, script);
    if r.made == asked || r.made == [] {
      own, later := r.made, Result(Failure, None, []);
      if a.prepared && (oauth2 ==> a.headersSet) && a.optionsSet && !(oauth2 && cached.None?) {
        assert r == Sent(oauth2, cached, [], script);
      }
    } else {
      var token := if asked == [] then cached else Some(a.token.token);
      var p := Post(if oauth2 then Some(Bearer(token.value)) else None, a.reply);
      own := asked + [p];
      Concatenated(asked, [p]);
      later := if oauth2 && IsRetry(a.reply) then Posted(oauth2, None, script[1..]) else Result(Failure, None, []);
    }
  }

  /**
   * In OAuth2 mode the call succeeds exactly if its last POST got 200 or 201; every earlier POST got 401
   * or 403; and it is still running exactly if every attempt of the script was such a POST.
   */
  lemma SuccessExactly(cached: Option<string>, script: seq<Attempt>)
    ensures var r := Posted(true, cached, script);
            var posts := Posts(r.made);
            && |posts| <= |script|
            && (r.outcome.Success? <==> posts != [] && IsAccepted(posts[|posts| - 1]))
            && (forall i :: 0 <= i < |posts| - 1 ==> IsRetry(posts[i]))
            && (r.outcome.Running? <==> |posts| == |script| && forall i :: 0 <= i < |posts| ==> IsRetry(posts[i]))
  {
    EndsExactly(true, cached, script);
  }

  /** Outside OAuth2 mode there is one POST without a bearer, unless setting it up fails, and 401 is a failure. */
  lemma PlainPost(cached: Option<string>, script: seq<Attempt>)
    requires script != []
    ensures var r, a := Posted(false, cached, script), script[0];
            && r.cached == cached
            && r.made == (if a.prepared && a.optionsSet then [Post(None, a.reply)] else [])
            && r.outcome == if r.made != [] && (a.reply == Status(200) || a.reply == Status(201)) then Success else Failure
  {
  }

  /** Nothing but the server's reply to the POST can end the attempt. */
  predicate Unhindered(a: Attempt) {
    a.prepared && a.headersSet && a.token.Granted? && a.bearerSet && a.optionsSet
  }

  /**
   * A token is requested for every POST but a first one that has a cached token. Failures can only add a
   * last request that is not followed by its POST.
   */
  lemma {:induction false} TokenAccounting(cached: Option<string>, script: seq<Attempt>)
    ensures var made := Posted(true, cached, script).made;
            var saved := if cached.Some? then 1 else 0;
            && |Posts(made)| <= TokenRequests(made) + saved <= |Posts(made)| + 1
            && ((forall i :: 0 <= i < |script| ==> Unhindered(script[i])) && script != [] ==>
                  TokenRequests(made) == |Posts(made)| - saved)
            && (Posted(true, cached, script).outcome.Success? ==> TokenRequests(made) == |Posts(made)| - saved)
    decreases |script|
  {
    if script != [] {
      var own, later := FirstRequests(true, cached, script);
      Concatenated(own, later.made);
      if Posts(own) != [] && IsRetry(script[0].reply) {
        TokenAccounting(None, script[1..]);
      }
      if (forall i :: 0 <= i < |script| ==> Unhindered(script[i])) {
        assert Unhindered(script[0]);
        UnhinderedPosts(cached, script);
      }
    }
  }

  lemma UnhinderedPosts(cached: Option<string>, script: seq<Attempt>)
    requires script != [] && Unhindered(script[0])
    ensures Posted(true, cached, script).made != []
    ensures Posts(Posted(true, cached, script).made) != []
  {
    var a := script[0];
    var asked := if cached.None? then [TokenRequest(a.token)] else [];
    var token := if cached.None? then a.token.token else cached.value;
    var r := Posted(true, cached, script);
    assert r == Sent(true, Some(token), asked, script);
    var p := Post(Some(Bearer(token)), a.reply);
    assert asked + [p] <= r.made;
    Concatenated(asked + [p], r.made[|asked + [p]|..]);
    Concatenated(asked, [p]);
    assert r.made == asked + [p] + r.made[|asked + [p]|..];
  }

  // ----- each POST carries the newest token -----

  /** The token a client holds after some requests: the last one granted, else the one it started with. */
  function Newest(cached: Option<string>, made: seq<Request>): Option<string> {
    if made == [] then cached
    else if made[|made| - 1].TokenRequest? && made[|made| - 1].answer.Granted? then Some(made[|made| - 1].answer.token)
    else Newest(cached, made[..|made| - 1])
  }

  predicate CarriesNewest(cached: Option<string>, made: seq<Request>) {
    forall k :: 0 <= k < |made| && made[k].Post? ==>
      Newest(cached, made[..k]).Some? && made[k].bearer == Some(Bearer(Newest(cached, made[..k]).value))
  }

  lemma {:induction false} NewestAppend(cached: Option<string>, a: seq<Request>, b: seq<Request>)
    ensures Newest(cached, a + b) == Newest(Newest(cached, a), b)
  {
    if b == [] {
      assert a + b == a;
    } else {
      NewestAppend(cached, a, b[..|b| - 1]);
      assert (a + b)[..|a + b| - 1] == a + b[..|b| - 1];
    }
  }

  lemma CarriesNewestAppend(cached: Option<string>, a: seq<Request>, b: seq<Request>)
    requires CarriesNewest(cached, a) && CarriesNewest(Newest(cached, a), b)
    ensures CarriesNewest(cached, a + b)
  {
    forall k | 0 <= k < |a + b| && (a + b)[k].Post?
      ensures Newest(cached, (a + b)[..k]).Some?
      ensures (a + b)[k].bearer == Some(Bearer(Newest(cached, (a + b)[..k]).value))
    {
      if k < |a| {
        assert (a + b)[..k] == a[..k];
      } else {
        assert (a + b)[..k] == a + b[..k - |a|];
        NewestAppend(cached, a, b[..k - |a|]);
      }
    }
  }

  /** Having dropped its token, the client asks for a new one before it posts: the old one plays no role. */
  lemma DroppedToken(stale: Option<string>, made: seq<Request>)
    requires CarriesNewest(None, made)
    ensures CarriesNewest(stale, made)
  {
    forall k | 0 <= k < |made| && made[k].Post?
      ensures Newest(stale, made[..k]) == Newest(None, made[..k])
    {
      NewestSome(stale, made[..k]);
    }
  }

  lemma {:induction false} NewestSome(stale: Option<string>, made: seq<Request>)
    requires Newest(None, made).Some?
    ensures Newest(stale, made) == Newest(None, made)
  {
    if made != [] && !(made[|made| - 1].TokenRequest? && made[|made| - 1].answer.Granted?) {
      NewestSome(stale, made[..|made| - 1]);
    }
  }

  /** The shape of a call that gets as far as its POST. */
  lemma ReachedPost(cached: Option<string>, script: seq<Attempt>) returns (token: string, asked: seq<Request>)
    requires Posts(Posted(true, cached, script).made) != []
    ensures script != [] && Posted(true, cached, script) == Sent(true, Some(token), asked, script)
    ensures (cached == Some(token) && asked == []) || (cached == None && asked == [TokenRequest(Granted(token))])
  {
    assert script != [];
    var a := script[0];
    assert Posts([TokenRequest(a.token)]) == [] by {
      assert [TokenRequest(a.token)][1..] == [];
    }
    if cached.Some? {
      token, asked := cached.value, [];
    } else {
      assert a.token.Granted?;
      token, asked := a.token.token, [TokenRequest(a.token)];
    }
  }

  lemma {:induction false} NoPost(made: seq<Request>)
    requires Posts(made) == []
    ensures forall k :: 0 <= k < |made| ==> !made[k].Post?
  {
    if made != [] {
      NoPost(made[1..]);
      assert forall k :: 1 <= k < |made| ==> made[k] == made[1..][k - 1];
    }
  }

  /**
   * Every POST carries the token granted last (the cached one if none was granted yet), and after a
   * success that token is the cached one.
   */
  lemma {:induction false} BearerIsNewest(cached: Option<string>, script: seq<Attempt>)
    ensures CarriesNewest(cached, Posted(true, cached, script).made)
    ensures Posted(true, cached, script).outcome.Success? ==>
              Posted(true, cached, script).cached == Newest(cached, Posted(true, cached, script).made)
    decreases |script|
  {
    var r := Posted(true, cached, script);
    SuccessExactly(cached, script);
    if Posts(r.made) == [] {
      NoPost(r.made);
    } else {
      var token, asked := ReachedPost(cached, script);
      var p := Post(Some(Bearer(token)), script[0].reply);
      var own := asked + [p];
      assert own[..|asked|] == asked;
      assert Newest(cached, asked) == Some(token) && Newest(cached, own) == Some(token);
      assert CarriesNewest(cached, own);
      if IsRetry(script[0].reply) {
        var again := Posted(true, None, script[1..]);
        BearerIsNewest(None, script[1..]);
        DroppedToken(Some(token), again.made);
        CarriesNewestAppend(cached, own, again.made);
        NewestAppend(cached, own, again.made);
        if again.outcome.Success? {
          SuccessHasToken(None, script[1..]);
          NewestSome(Some(token), again.made);
        }
      }
    }
  }

  lemma {:induction false} SuccessHasToken(cached: Option<string>, script: seq<Attempt>)
    requires Posted(true, cached, script).outcome.Success?
    ensures Posted(true, cached, script).cached.Some?
    decreases |script|
  {
    if IsRetry(script[0].reply) {
      SuccessHasToken(None, script[1..]);
    }
  }

  /** The token request at j was granted. */
  predicate GrantedAt(made: seq<Request>, j: nat, token: string) {
    j < |made| && made[j] == TokenRequest(Granted(token))
  }

  /** The token a POST at k has to carry: the last one granted before it, else the cached one. */
  ghost predicate IsTokenAt(cached: Option<string>, made: seq<Request>, k: nat, token: string) {
    (exists j: nat :: j < k && GrantedAt(made, j, token) && forall i: nat, t :: j < i < k ==> !GrantedAt(made, i, t)) ||
    (cached == Some(token) && forall i: nat, t :: i < k ==> !GrantedAt(made, i, t))
  }

  lemma {:induction false} NewestIsTokenAt(cached: Option<string>, made: seq<Request>, k: nat)
    requires k <= |made| && Newest(cached, made[..k]).Some?
    ensures IsTokenAt(cached, made, k, Newest(cached, made[..k]).value)
  {
    if k > 0 {
      assert made[..k][..k - 1] == made[..k - 1];
      var last := k - 1;
      if made[last].TokenRequest? && made[last].answer.Granted? {
        assert GrantedAt(made, last, made[last].answer.token);
      } else {
        assert forall t :: !GrantedAt(made, last, t);
        NewestIsTokenAt(cached, made, last);
      }
    }
  }

  /** Every POST carries its token itself, or its first 4096 bytes if it is longer. */
  lemma PostsCarryTheToken(cached: Option<string>, script: seq<Attempt>, k: nat)
    requires k < |Posted(true, cached, script).made| && Posted(true, cached, script).made[k].Post?
    ensures var made := Posted(true, cached, script).made;
            exists token :: IsTokenAt(cached, made, k, token) &&
                            made[k].bearer == Some(if |token| <= 4096 then token else token[..4096])
  {
    BearerIsNewest(cached, script);
    NewestIsTokenAt(cached, Posted(true, cached, script).made, k);
  }

  /** The token a client is left with: a refused POST drops it, a granted request brings one. */
  function Held(cached: Option<string>, made: seq<Request>): Option<string> {
    if made == [] then cached
    else
      var last, before := made[|made| - 1], Held(cached, made[..|made| - 1]);
      if last.TokenRequest? then (if last.answer.Granted? then Some(last.answer.token) else before)
      else if last.reply == Status(401) || last.reply == Status(403) then None
      else before
  }

  lemma {:induction false} HeldAppend(cached: Option<string>, a: seq<Request>, b: seq<Request>)
    ensures Held(cached, a + b) == Held(Held(cached, a), b)
  {
    if b == [] {
      assert a + b == a;
    } else {
      HeldAppend(cached, a, b[..|b| - 1]);
      assert (a + b)[..|a + b| - 1] == a + b[..|b| - 1];
    }
  }

  lemma HeldOne(cached: Option<string>, r: Request)
    ensures Held(cached, [r]) ==
            if r.TokenRequest? then (if r.answer.Granted? then Some(r.answer.token) else cached)
            else if r.reply == Status(401) || r.reply == Status(403) then None
            else cached
  {
    assert [r][..0] == [];
  }

  /** What is cached after the call follows from the requests alone. */
  lemma {:induction false} CachedExactly(cached: Option<string>, script: seq<Attempt>)
    ensures Posted(true, cached, script).cached == Held(cached, Posted(true, cached, script).made)
    decreases |script|
  {
    if script == [] {
    } else if Posts(Posted(true, cached, script).made) == [] {
      CachedWithoutPost(cached, script);
    } else {
      if IsRetry(script[0].reply) {
        CachedExactly(None, script[1..]);
      }
      CachedWithPost(cached, script);
    }
  }

  lemma CachedWithPost(cached: Option<string>, script: seq<Attempt>)
    requires script != [] && Posts(Posted(true, cached, script).made) != []
    requires IsRetry(script[0].reply) ==>
               Posted(true, None, script[1..]).cached == Held(None, Posted(true, None, script[1..]).made)
    ensures Posted(true, cached, script).cached == Held(cached, Posted(true, cached, script).made)
  {
    var token, asked := ReachedPost(cached, script);
    HeldAfterPost(cached, token, asked, script[0].reply);
    if IsRetry(script[0].reply) {
      CachedByRetry(cached, token, asked, script);
    }
  }

  /** After a retry, the cached token is that of the call started again without one. */
  lemma CachedByRetry(cached: Option<string>, token: string, asked: seq<Request>, script: seq<Attempt>)
    requires script != [] && IsRetry(script[0].reply)
    requires Held(cached, asked + [Post(Some(Bearer(token)), script[0].reply)]) == None
    ensures var r, again := Sent(true, Some(token), asked, script), Posted(true, None, script[1..]);
            r.cached == again.cached && Held(cached, r.made) == Held(None, again.made)
  {
    HeldAppend(cached, asked + [Post(Some(Bearer(token)), script[0].reply)], Posted(true, None, script[1..]).made);
  }

  lemma HeldAfterPost(cached: Option<string>, token: string, asked: seq<Request>, reply: PostReply)
    requires (cached == Some(token) && asked == []) || (cached == None && asked == [TokenRequest(Granted(token))])
    ensures Held(cached, asked + [Post(Some(Bearer(token)), reply)]) == if IsRetry(reply) then None else Some(token)
  {
    var p := Post(Some(Bearer(token)), reply);
    HeldOne(cached, TokenRequest(Granted(token)));
    HeldOne(Some(token), p);
    HeldAppend(cached, asked, [p]);
  }

  lemma CachedWithoutPost(cached: Option<string>, script: seq<Attempt>)
    requires script != [] && Posts(Posted(true, cached, script).made) == []
    ensures Posted(true, cached, script).cached == Held(cached, Posted(true, cached, script).made)
  {
    HeldOne(cached, TokenRequest(script[0].token));
    NoPost(Posted(true, cached, script).made);
  }

  // ----- exactly what a script makes of a call -----

  /** An attempt gets as far as its POST. */
  predicate GetsToPost(oauth2: bool, holdsToken: bool, a: Attempt) {
    && a.prepared && a.optionsSet
    && (oauth2 ==> a.headersSet && (holdsToken || (a.token.Granted? && a.bearerSet)))
  }

  lemma FirstPostExactly(oauth2: bool, cached: Option<string>, script: seq<Attempt>)
    requires script != []
    ensures Posts(Posted(oauth2, cached, script).made) != [] <==> GetsToPost(oauth2, cached.Some?, script[0])
  {
    if GetsToPost(oauth2, cached.Some?, script[0]) {
      FirstPostMade(oauth2, cached, script);
    } else {
      NoFirstPost(oauth2, cached, script);
    }
  }

  lemma NoFirstPost(oauth2: bool, cached: Option<string>, script: seq<Attempt>)
    requires script != [] && !GetsToPost(oauth2, cached.Some?, script[0])
    ensures Posts(Posted(oauth2, cached, script).made) == []
  {
    var token := script[0].token;
    assert Posted(oauth2, cached, script).made == [] || Posted(oauth2, cached, script).made == [TokenRequest(token)];
    assert [TokenRequest(token)][1..] == [];
  }

  lemma FirstPostMade(oauth2: bool, cached: Option<string>, script: seq<Attempt>)
    requires script != [] && GetsToPost(oauth2, cached.Some?, script[0])
    ensures Posts(Posted(oauth2, cached, script).made) != []
  {
    var a := script[0];
    var r := Posted(oauth2, cached, script);
    var asked := if oauth2 && cached.None? then Asked(a.token) else [];
    var token := if oauth2 && cached.None? then Some(a.token.token) else cached;
    assert r == Sent(oauth2, token, asked, script);
    var p := Post(if oauth2 then Some(Bearer(token.value)) else None, a.reply);
    var rest := r.made[|asked| + 1..];
    assert r.made == asked + ([p] + rest);
    PostsConcatenated(asked, [p] + rest);
    assert ([p] + rest)[0] == p;
  }

  /** There are k POSTs exactly if k attempts get that far, each but the last after a 401 or 403. */
  lemma {:induction false} PostCountExactly(oauth2: bool, cached: Option<string>, script: seq<Attempt>, k: nat)
    requires 1 <= k <= |script|
    ensures |Posts(Posted(oauth2, cached, script).made)| >= k <==>
            && (forall i :: 0 <= i < k ==> GetsToPost(oauth2, i == 0 && cached.Some?, script[i]))
            && (forall i :: 0 <= i < k - 1 ==> oauth2 && (script[i].reply == Status(401) || script[i].reply == Status(403)))
    decreases k
  {
    FirstPostExactly(oauth2, cached, script);
    var own, later := FirstRequests(oauth2, cached, script);
    Concatenated(own, later.made);
    if k > 1 {
      PostCountExactly(oauth2, None, script[1..], k - 1);
      var rest := script[1..];
      assert forall i :: 0 <= i < k - 1 ==> rest[i] == script[i + 1];
      assert forall i :: 1 <= i < k ==> script[i] == rest[i - 1];
    }
  }

  predicate AreRefused(posts: seq<PostReply>) {
    forall i :: 0 <= i < |posts| ==> posts[i] == Status(401) || posts[i] == Status(403)
  }

  /** The POSTs of a call with a first attempt that is answered. */
  lemma PostsUnfold(oauth2: bool, cached: Option<string>, script: seq<Attempt>)
    requires script != []
    ensures var r, first := Posted(oauth2, cached, script), script[0].reply;
            var again := Posted(oauth2, None, script[1..]);
            if !GetsToPost(oauth2, cached.Some?, script[0]) then
              Posts(r.made) == [] && !r.outcome.Success? && !r.outcome.Running?
            else if oauth2 && (first == Status(401) || first == Status(403)) then
              Posts(r.made) == [first] + Posts(again.made) && r.outcome == again.outcome
            else
              Posts(r.made) == [first] && r.outcome == if first == Status(200) || first == Status(201) then Success else Failure
  {
    FirstPostExactly(oauth2, cached, script);
    var own, later := FirstRequests(oauth2, cached, script);
    Concatenated(own, later.made);
  }

  lemma RefusedFirst(posts: seq<PostReply>, first: PostReply)
    requires first == Status(401) || first == Status(403)
    ensures AreRefused([first] + posts) <==> AreRefused(posts)
  {
    var all := [first] + posts;
    assert forall i :: 0 <= i < |posts| ==> posts[i] == all[i + 1];
    assert forall i :: 1 <= i < |all| ==> all[i] == posts[i - 1];
  }

  /**
   * Every POST but the last was refused. Success: the last got 200 or 201. Running: every attempt of the script
   * posted and was refused.
   */
  predicate IsEnd(oauth2: bool, outcome: Outcome, posts: seq<PostReply>, attempts: nat) {
    && |posts| <= attempts
    && (forall i :: 0 <= i < |posts| - 1 ==> posts[i] == Status(401) || posts[i] == Status(403))
    && (outcome.Success? <==> posts != [] && (posts[|posts| - 1] == Status(200) || posts[|posts| - 1] == Status(201)))
    && (outcome.Running? <==> |posts| == attempts && AreRefused(posts) && (oauth2 || posts == []))
  }

  lemma EndBehind(outcome: Outcome, posts: seq<PostReply>, attempts: nat, first: PostReply)
    requires IsEnd(true, outcome, posts, attempts) && (first == Status(401) || first == Status(403))
    ensures IsEnd(true, outcome, [first] + posts, attempts + 1)
  {
    var all := [first] + posts;
    RefusedFirst(posts, first);
    assert forall i :: 1 <= i < |all| ==> all[i] == posts[i - 1];
    assert |all| == |posts| + 1 && all[|all| - 1] == if posts == [] then first else posts[|posts| - 1];
  }

  lemma FirstIsLast(oauth2: bool, first: PostReply, attempts: nat)
    requires attempts > 0 && !(oauth2 && (first == Status(401) || first == Status(403)))
    ensures IsEnd(oauth2, if first == Status(200) || first == Status(201) then Success else Failure, [first], attempts)
  {
    assert !AreRefused([first]) || !oauth2 by {
      assert [first][0] == first;
    }
  }

  /** How a call ends, for every mode, token and script. */
  lemma {:induction false} EndsExactly(oauth2: bool, cached: Option<string>, script: seq<Attempt>)
    ensures var r := Posted(oauth2, cached, script); IsEnd(oauth2, r.outcome, Posts(r.made), |script|)
    decreases |script|
  {
    if script != [] {
      PostsUnfold(oauth2, cached, script);
      if GetsToPost(oauth2, cached.Some?, script[0]) {
        if oauth2 && IsRetry(script[0].reply) {
          var again := Posted(oauth2, None, script[1..]);
          EndsExactly(oauth2, None, script[1..]);
          EndBehind(again.outcome, Posts(again.made), |script| - 1, script[0].reply);
        } else {
          FirstIsLast(oauth2, script[0].reply, |script|);
        }
      }
    }
  }

  /** The attempt stops the program: it has no token and its token answer is no use. */
  predicate StopsProgram(holdsToken: bool, a: Attempt) {
    !holdsToken && a.prepared && a.headersSet && a.token.Unusable?
  }

  lemma AbortedFirst(oauth2: bool, cached: Option<string>, script: seq<Attempt>)
    requires script != [] && !GetsToPost(oauth2, cached.Some?, script[0])
    ensures Posted(oauth2, cached, script).outcome.Aborted? <==> oauth2 && StopsProgram(cached.Some?, script[0])
  {
  }

  /** Aborted: after refused POSTs only, an attempt without a token got an answer that is no use. */
  lemma {:induction false} AbortsExactly(oauth2: bool, cached: Option<string>, script: seq<Attempt>)
    ensures var r := Posted(oauth2, cached, script);
            var n := |Posts(r.made)|;
            r.outcome.Aborted? <==>
            oauth2 && n < |script| && AreRefused(Posts(r.made)) && StopsProgram(n == 0 && cached.Some?, script[n])
    decreases |script|
  {
    if script != [] {
      PostsUnfold(oauth2, cached, script);
      if !GetsToPost(oauth2, cached.Some?, script[0]) {
        AbortedFirst(oauth2, cached, script);
      } else if oauth2 && IsRetry(script[0].reply) {
        AbortsExactly(oauth2, None, script[1..]);
        RefusedFirst(Posts(Posted(oauth2, None, script[1..]).made), script[0].reply);
      } else {
        assert Posts(Posted(oauth2, cached, script).made)[0] == script[0].reply;
      }
    }
  }

  // ----- termination -----

  predicate AreReplies(posts: seq<PostReply>, script: seq<Attempt>) {
    |posts| <= |script| && forall i :: 0 <= i < |posts| ==> posts[i] == script[i].reply
  }

  lemma RepliesBehind(posts: seq<PostReply>, script: seq<Attempt>)
    requires script != [] && AreReplies(posts, script[1..])
    ensures AreReplies([script[0].reply] + posts, script)
  {
    var all, rest := [script[0].reply] + posts, script[1..];
    forall i | 0 <= i < |all|
      ensures all[i] == script[i].reply
    {
      assert i > 0 ==> all[i] == posts[i - 1] && rest[i - 1] == script[i];
    }
  }

  /** The replies to the POSTs are the replies of the script, in order. */
  lemma {:induction false} PostsFollowScript(cached: Option<string>, script: seq<Attempt>)
    ensures AreReplies(Posts(Posted(true, cached, script).made), script)
    decreases |script|
  {
    if script != [] {
      PostsUnfold(true, cached, script);
      if GetsToPost(true, cached.Some?, script[0]) && IsRetry(script[0].reply) {
        PostsFollowScript(None, script[1..]);
        RepliesBehind(Posts(Posted(true, None, script[1..]).made), script);
      }
    }
  }

  function Prefix(script: nat -> Attempt, n: nat): (p: seq<Attempt>)
    ensures |p| == n
  {
    seq(n, i requires 0 <= i < n => script(i))
  }

  /** Once the call has returned, replies that come later play no role. */
  lemma {:induction false} LaterRepliesAreIrrelevant(oauth2: bool, cached: Option<string>, script: seq<Attempt>, more: seq<Attempt>)
    requires !Posted(oauth2, cached, script).outcome.Running?
    ensures Posted(oauth2, cached, script + more) == Posted(oauth2, cached, script)
    decreases |script|
  {
    assert (script + more)[1..] == script[1..] + more;
    assert (script + more)[0] == script[0];
    if oauth2 && IsRetry(script[0].reply) && !Posted(oauth2, None, script[1..]).outcome.Running? {
      LaterRepliesAreIrrelevant(oauth2, None, script[1..], more);
    }
  }

  /** The call returns on every endless script in which some reply is neither 401 nor 403. */
  lemma Terminates(cached: Option<string>, script: nat -> Attempt, n: nat, m: nat)
    requires !IsRetry(script(n).reply) && n < m
    ensures !Posted(true, cached, Prefix(script, m)).outcome.Running?
    ensures Posted(true, cached, Prefix(script, m)) == Posted(true, cached, Prefix(script, n + 1))
  {
    SuccessExactly(cached, Prefix(script, n + 1));
    PostsFollowScript(cached, Prefix(script, n + 1));
    assert !IsRetry(Prefix(script, n + 1)[n].reply);
    var rest := Prefix(script, m)[n + 1..];
    assert Prefix(script, m) == Prefix(script, n + 1) + rest;
    LaterRepliesAreIrrelevant(true, cached, Prefix(script, n + 1), rest);
  }

  /** And it never returns while unhindered attempts keep getting 401 or 403. */
  lemma {:induction false} RunsForever(cached: Option<string>, script: seq<Attempt>)
    requires forall i :: 0 <= i < |script| ==> Unhindered(script[i]) && IsRetry(script[i].reply)
    ensures Posted(true, cached, script).outcome.Running?
    decreases |script|
  {
    if script != [] {
      assert Unhindered(script[0]);
      RunsForever(None, script[1..]);
    }
  }

  // ----- the body of the token answer -----

  /** `memory_struct`: a buffer that grows with every chunk libcurl delivers. */
  class MemoryStruct {
    var memory: array<char>
    var size: nat

    ghost predicate Valid()
      reads this, memory
    {
      size < memory.Length && (size > 0 ==> memory[size] == '\0')
    }

    function Body(): string
      reads this, memory
      requires size <= memory.Length
    {
      memory[..size]
    }

    constructor ()
      ensures Valid() && Body() == "" && fresh(memory)
    {
      memory := new char[1];
      size := 0;
    }

    /** `save_json_results`: reallocate, copy the chunk behind what is there, terminate. */
    method SaveJsonResults(chunk: string) returns (realsize: nat)
      requires Valid()
      modifies this, memory
      ensures Valid() && fresh(memory) && realsize == |chunk|
      ensures Body() == old(Body()) + chunk && memory[size] == '\0'
    {
      realsize := |chunk|;
      var bigger := new char[size + realsize + 1];
      forall i | 0 <= i < size {
        bigger[i] := memory[i];
      }
      forall i | 0 <= i < realsize {
        bigger[size + i] := chunk[i];
      }
      bigger[size + realsize] := '\0';
      memory := bigger;
      size := size + realsize;
      assert memory[..size] == old(Body()) + chunk;
    }
  }

  function Concat(chunks: seq<string>): string {
    if chunks == [] then "" else Concat(chunks[..|chunks| - 1]) + chunks[|chunks| - 1]
  }

  /** However the body is cut into chunks, the buffer ends up holding exactly the body. */
  method ReceiveBody(chunks: seq<string>) returns (body: string)
    ensures body == Concat(chunks)
  {
    var chunk := new MemoryStruct();
    var k := 0;
    while k < |chunks|
      invariant k <= |chunks| && chunk.Valid() && fresh(chunk) && fresh(chunk.memory)
      invariant chunk.Body() == Concat(chunks[..k])
    {
      var _ := chunk.SaveJsonResults(chunks[k]);
      assert chunks[..k + 1][..k] == chunks[..k];
      k := k + 1;
    }
    assert chunks[..k] == chunks;
    body := chunk.Body();
  }
}
