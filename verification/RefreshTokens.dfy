/** The server's side of staying signed in: refresh tokens that rotate on every use. */
module RefreshTokens {
  import opened Domain

  /**
   * A stored token. Secrets are random, so a token's secret is its place in the list; the
   * chain (the sign-in a token descends from) is kept for the statements below only.
   */
  datatype Token = Token(user: nat, chain: nat, expiresAt: int, revokedAt: Option<int>)

  datatype Request =
    | SignIn(user: nat, at: int)
    | Refresh(token: nat, at: int, active: bool)
    | SignOut(user: nat, token: nat, at: int)
    | SignOutEverywhere(user: nat, at: int)

  datatype Reply = Issued(token: nat) | Invalid | Revoked(count: nat)

  /** A token the server would still rotate. */
  predicate Usable(tokens: seq<Token>, token: nat) {
    token < |tokens| && tokens[token].revokedAt == None
  }

  function Revoke(token: Token, at: int): Token { token.(revokedAt := Some(at)) }

  predicate Accepts(tokens: seq<Token>, token: nat, at: int, active: bool) {
    Usable(tokens, token) && tokens[token].expiresAt >= at && active
  }

  function RevokeAll(tokens: seq<Token>, user: nat, at: int): (r: seq<Token>)
    ensures |r| == |tokens|
    ensures forall i | 0 <= i < |r| ::
              r[i] == if tokens[i].user == user && tokens[i].revokedAt == None then Revoke(tokens[i], at) else tokens[i]
  {
    seq(|tokens|, i requires 0 <= i < |tokens| =>
      if tokens[i].user == user && tokens[i].revokedAt == None then Revoke(tokens[i], at) else tokens[i])
  }

  function LiveCount(tokens: seq<Token>, user: nat): nat {
    if tokens == [] then 0
    else LiveCount(tokens[..|tokens|-1], user)
         + if tokens[|tokens|-1].user == user && tokens[|tokens|-1].revokedAt == None then 1 else 0
  }

  function Apply(tokens: seq<Token>, ttl: nat, r: Request): (seq<Token>, Reply) {
    match r
    case SignIn(user, at) => (tokens + [Token(user, |tokens|, at + ttl, None)], Issued(|tokens|))
    case Refresh(token, at, active) =>
      if !Accepts(tokens, token, at, active) then (tokens, Invalid)
      else
        var stored := tokens[token];
        (tokens[token := Revoke(stored, at)] + [Token(stored.user, stored.chain, at + ttl, None)], Issued(|tokens|))
    case SignOut(user, token, at) =>
      if Usable(tokens, token) && tokens[token].user == user then
        (tokens[token := Revoke(tokens[token], at)], Revoked(1))
      else (tokens, Revoked(0))
    case SignOutEverywhere(user, at) => (RevokeAll(tokens, user, at), Revoked(LiveCount(tokens, user)))
  }

  // ----- The service, on its rows in place -----

  class TokenService {
    const ttl: nat
    var tokens: seq<Token>

    constructor (ttl: nat)
      ensures this.ttl == ttl && tokens == []
    {
      this.ttl, tokens := ttl, [];
    }

    method Issue(user: nat, chain: nat, at: int) returns (token: nat)
      modifies this
      ensures tokens == old(tokens) + [Token(user, chain, at + ttl, None)] && token == |old(tokens)|
    {
      token := |tokens|;
      tokens := tokens + [Token(user, chain, at + ttl, None)];
    }

    method NewSignIn(user: nat, at: int) returns (reply: Reply)
      modifies this
      ensures (tokens, reply) == Apply(old(tokens), ttl, SignIn(user, at))
    {
      var token := Issue(user, |tokens|, at);
      reply := Issued(token);
    }

    method Rotate(token: nat, at: int, active: bool) returns (reply: Reply)
      modifies this
      ensures (tokens, reply) == Apply(old(tokens), ttl, Refresh(token, at, active))
    {
      if token >= |tokens| || tokens[token].revokedAt.Some? {
        return Invalid;
      }
      if tokens[token].expiresAt < at {
        return Invalid;
      }
      if !active {
        return Invalid;
      }
      var stored := tokens[token];
      tokens := tokens[token := Revoke(stored, at)];
      var next := Issue(stored.user, stored.chain, at);
      reply := Issued(next);
    }

    method RevokeOne(user: nat, token: nat, at: int) returns (reply: Reply)
      modifies this
      ensures (tokens, reply) == Apply(old(tokens), ttl, SignOut(user, token, at))
    {
      if token < |tokens| && tokens[token].user == user && tokens[token].revokedAt.None? {
        tokens := tokens[token := Revoke(tokens[token], at)];
        return Revoked(1);
      }
      reply := Revoked(0);
    }

    method RevokeEverything(user: nat, at: int) returns (reply: Reply)
      modifies this
      ensures (tokens, reply) == Apply(old(tokens), ttl, SignOutEverywhere(user, at))
    {
      var count := 0;
      for i := 0 to |tokens|
        invariant |tokens| == |old(tokens)| && count == LiveCount(old(tokens)[..i], user)
        invariant forall j | 0 <= j < i :: tokens[j] == RevokeAll(old(tokens), user, at)[j]
        invariant forall j | i <= j < |tokens| :: tokens[j] == old(tokens)[j]
      {
        assert old(tokens)[..i+1][..i] == old(tokens)[..i];
        if tokens[i].user == user && tokens[i].revokedAt.None? {
          tokens := tokens[i := Revoke(tokens[i], at)];
          count := count + 1;
        }
      }
      assert old(tokens)[..|tokens|] == old(tokens);
      assert tokens == RevokeAll(old(tokens), user, at);
      reply := Revoked(count);
    }
  }

  // ----- Rotation -----

  function Run(ttl: nat, requests: seq<Request>): seq<Token> {
    if requests == [] then [] else Apply(Run(ttl, requests[..|requests|-1]), ttl, requests[|requests|-1]).0
  }

  /** In each chain only the newest token can be unrevoked; chains belong to one user. */
  predicate OneLivePerChain(tokens: seq<Token>) {
    && (forall i, j | 0 <= i < j < |tokens| && tokens[i].chain == tokens[j].chain ::
          tokens[i].revokedAt.Some? && tokens[i].user == tokens[j].user)
    && (forall i | 0 <= i < |tokens| :: tokens[i].chain <= i)
  }

  lemma RequestKeepsOneLive(tokens: seq<Token>, ttl: nat, r: Request)
    requires OneLivePerChain(tokens)
    ensures OneLivePerChain(Apply(tokens, ttl, r).0)
  {
    match r
    case SignIn(user, at) =>
    case Refresh(token, at, active) =>
      if Accepts(tokens, token, at, active) {
        RotationKeepsOneLive(tokens, token, Apply(tokens, ttl, r).0);
      }
    case SignOut(user, token, at) =>
    case SignOutEverywhere(user, at) =>
  }

  lemma RotationKeepsOneLive(tokens: seq<Token>, token: nat, after: seq<Token>)
    requires OneLivePerChain(tokens) && Usable(tokens, token)
    requires |after| == |tokens| + 1 && after[token].revokedAt.Some?
    requires after[token].chain == tokens[token].chain && after[token].user == tokens[token].user
    requires forall i | 0 <= i < |tokens| && i != token :: after[i] == tokens[i]
    requires var last := after[|tokens|]; last.chain == tokens[token].chain && last.user == tokens[token].user
    ensures OneLivePerChain(after)
  {
    forall i, j | 0 <= i < j < |after| && after[i].chain == after[j].chain
      ensures after[i].revokedAt.Some? && after[i].user == after[j].user
    {
      if j < |tokens| {
        assert tokens[i].chain == tokens[j].chain;
      } else if i < token {
        // The rotated token was the chain's newest, so this one was revoked already.
        assert tokens[i].chain == tokens[token].chain;
      }
    }
  }

  /** Whatever the requests, a sign-in never has two tokens that still work. */
  lemma {:induction false} ChainsNeverFork(ttl: nat, requests: seq<Request>)
    ensures OneLivePerChain(Run(ttl, requests))
  {
    if requests != [] {
      ChainsNeverFork(ttl, requests[..|requests|-1]);
      hide OneLivePerChain, Apply;
      RequestKeepsOneLive(Run(ttl, requests[..|requests|-1]), ttl, requests[|requests|-1]);
    }
  }

  function From(tokens: seq<Token>, ttl: nat, requests: seq<Request>): seq<Token> {
    if requests == [] then tokens else Apply(From(tokens, ttl, requests[..|requests|-1]), ttl, requests[|requests|-1]).0
  }

  lemma {:induction false} RevokedStaysRevoked(tokens: seq<Token>, ttl: nat, requests: seq<Request>, token: nat)
    requires token < |tokens| && tokens[token].revokedAt.Some?
    ensures var after := From(tokens, ttl, requests);
            token < |after| && after[token].revokedAt.Some?
  {
    if requests != [] {
      RevokedStaysRevoked(tokens, ttl, requests[..|requests|-1], token);
    }
  }

  /** A token buys one rotation: after it, whatever happens in between, presenting it again is refused. */
  lemma {:induction false} RotatesOnce(tokens: seq<Token>, ttl: nat, token: nat, at: int, between: seq<Request>,
                                       later: int, active: bool)
    requires Apply(tokens, ttl, Refresh(token, at, true)).1.Issued?
    ensures var after := From(Apply(tokens, ttl, Refresh(token, at, true)).0, ttl, between);
            Apply(after, ttl, Refresh(token, later, active)) == (after, Invalid)
  {
    RevokedStaysRevoked(Apply(tokens, ttl, Refresh(token, at, true)).0, ttl, between, token);
  }

  // ----- What the caller is answered -----

  /** Nothing but this token changed, and it is now revoked. */
  predicate RevokedOnly(before: seq<Token>, after: seq<Token>, token: nat, at: int) {
    && token < |before| <= |after| && after[token] == before[token].(revokedAt := Some(at))
    && forall i | 0 <= i < |before| && i != token :: after[i] == before[i]
  }

  /**
   * A refresh is granted exactly to a known, unrevoked token that has not expired, of an
   * active user. It revokes that token and issues the next of its chain; otherwise nothing
   * changes.
   */
  lemma RefreshAnswers(tokens: seq<Token>, ttl: nat, token: nat, at: int, active: bool)
    ensures var (after, reply) := Apply(tokens, ttl, Refresh(token, at, active));
            var known := token < |tokens| && tokens[token].revokedAt == None;
            var granted := known && at <= tokens[token].expiresAt && active;
            && (reply.Issued? <==> granted)
            && (!granted ==> reply == Invalid && after == tokens)
            && (granted ==>
                  && reply == Issued(|tokens|) && |after| == |tokens| + 1 && RevokedOnly(tokens, after, token, at)
                  && after[|tokens|] == Token(tokens[token].user, tokens[token].chain, at + ttl, None))
  {
  }

  /** A sign-in issues the first token of a chain of its own. */
  lemma SignInAnswers(tokens: seq<Token>, ttl: nat, user: nat, at: int)
    requires OneLivePerChain(tokens)
    ensures var (after, reply) := Apply(tokens, ttl, SignIn(user, at));
            && reply == Issued(|tokens|) && |after| == |tokens| + 1 && after[..|tokens|] == tokens
            && after[|tokens|].user == user && after[|tokens|].expiresAt == at + ttl
            && after[|tokens|].revokedAt == None
            && forall i | 0 <= i < |tokens| :: tokens[i].chain != after[|tokens|].chain
  {
  }

  /** Signing out revokes the presented token exactly when it is the user's own and unrevoked. */
  lemma SignOutAnswers(tokens: seq<Token>, ttl: nat, user: nat, token: nat, at: int)
    ensures var (after, reply) := Apply(tokens, ttl, SignOut(user, token, at));
            var own := token < |tokens| && tokens[token].user == user && tokens[token].revokedAt == None;
            && reply == Revoked(if own then 1 else 0)
            && if own then |after| == |tokens| && RevokedOnly(tokens, after, token, at) else after == tokens
  {
  }

  /** The places of a user's unrevoked tokens. */
  function LiveOnes(tokens: seq<Token>, user: nat): set<nat> {
    set i: nat | i < |tokens| && tokens[i].user == user && tokens[i].revokedAt == None
  }

  lemma {:induction false} LiveOnesAreCounted(tokens: seq<Token>, user: nat)
    ensures LiveCount(tokens, user) == |LiveOnes(tokens, user)|
  {
    if tokens != [] {
      var rest, last := tokens[..|tokens|-1], |tokens| - 1;
      LiveOnesAreCounted(rest, user);
      assert LiveOnes(tokens, user) ==
             LiveOnes(rest, user)
             + if tokens[last].user == user && tokens[last].revokedAt == None then {last} else {};
    }
  }

  /** Signing out everywhere leaves the user no token that works, counts those there were, and touches nothing else. */
  lemma SignOutEverywhereAnswers(tokens: seq<Token>, ttl: nat, user: nat, at: int)
    ensures var (after, reply) := Apply(tokens, ttl, SignOutEverywhere(user, at));
            && reply == Revoked(|LiveOnes(tokens, user)|) && |after| == |tokens| && LiveOnes(after, user) == {}
            && forall i: nat | i < |tokens| ::
                 after[i] == if i in LiveOnes(tokens, user) then tokens[i].(revokedAt := Some(at)) else tokens[i]
  {
    LiveOnesAreCounted(tokens, user);
  }
}
