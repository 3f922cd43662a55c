/** What the caller of the sign-in service is answered and what it leaves, in terms of the rows alone. */
module OtpAnswers {
  import opened Domain
  import opened Otp

  predicate Live(c: Challenge, phone: nat) {
    c.phone == phone && c.consumedAt == None
  }

  /** The newest challenge of the phone that is not used up. */
  predicate NewestLive(cs: seq<Challenge>, phone: nat, k: nat) {
    k < |cs| && Live(cs[k], phone) && forall j | k < j < |cs| :: !Live(cs[j], phone)
  }

  predicate NoneLive(cs: seq<Challenge>, phone: nat) {
    forall j | 0 <= j < |cs| :: !Live(cs[j], phone)
  }

  lemma {:induction false} NewestIsNewest(cs: seq<Challenge>, phone: nat)
    ensures Newest(cs, phone) == None <==> NoneLive(cs, phone)
    ensures forall k: nat :: Newest(cs, phone) == Some(k) <==> NewestLive(cs, phone, k)
  {
    if cs != [] {
      var rest, last := cs[..|cs|-1], |cs| - 1;
      NewestIsNewest(rest, phone);
      if !Live(cs[last], phone) {
        assert forall k: nat :: NewestLive(cs, phone, k) <==> NewestLive(rest, phone, k);
      }
    }
  }

  lemma NewestIsOne(cs: seq<Challenge>, phone: nat, k: nat, j: nat)
    requires NewestLive(cs, phone, k) && NewestLive(cs, phone, j)
    ensures j == k
  {
  }

  /** Compared with this challenge: it is in time and has an attempt left. */
  predicate Comparable(t: Limits, c: Challenge, at: int) {
    at <= c.expiresAt && c.attempts < t.maxAttempts
  }

  /** What a verification answers, outcome by outcome. */
  lemma VerifyAnswers(t: Limits, s: State, phone: nat, at: int, code: nat, completes: bool)
    ensures var (cs, reply) := (s.challenges, Step(t, s, VerifyOtp(phone, at, code, completes)).1);
            && (reply == NoChallenge <==> NoneLive(cs, phone))
            && (reply == Expired <==> exists k: nat :: NewestLive(cs, phone, k) && cs[k].expiresAt < at)
            && (reply == TooManyAttempts <==>
                  exists k: nat :: NewestLive(cs, phone, k) && at <= cs[k].expiresAt && cs[k].attempts >= t.maxAttempts)
            && (reply == WrongCode <==>
                  exists k: nat :: NewestLive(cs, phone, k) && Comparable(t, cs[k], at) && code != cs[k].code)
            && (reply == SignInFailed <==>
                  !completes && exists k: nat ::
                    NewestLive(cs, phone, k) && Comparable(t, cs[k], at) && code == cs[k].code)
            && (reply == SignedIn <==>
                  completes && exists k: nat ::
                    NewestLive(cs, phone, k) && Comparable(t, cs[k], at) && code == cs[k].code)
  {
    var cs := s.challenges;
    var reply := Step(t, s, VerifyOtp(phone, at, code, completes)).1;
    NewestIsNewest(cs, phone);
    if k: nat :| NewestLive(cs, phone, k) {
      forall j: nat | NewestLive(cs, phone, j) ensures j == k {
        NewestIsOne(cs, phone, k, j);
      }
      assert Newest(cs, phone) == Some(k);
      hide NewestLive, NoneLive, Newest;
    } else {
      hide NewestLive, NoneLive;
    }
  }

  /**
   * What a verification leaves. It touches only the newest live challenge: one more attempt
   * whenever the code was compared, right or wrong, and used up by a completed sign-in or by
   * asking once too often.
   */
  lemma VerifyLeaves(t: Limits, s: State, phone: nat, at: int, code: nat, completes: bool, k: nat)
    requires NewestLive(s.challenges, phone, k)
    ensures var (after, reply) := Step(t, s, VerifyOtp(phone, at, code, completes));
            var was, row := s.challenges[k], after.challenges[k];
            && |after.challenges| == |s.challenges|
            && (forall j | 0 <= j < |s.challenges| && j != k :: after.challenges[j] == s.challenges[j])
            && row.phone == was.phone && row.code == was.code
            && row.createdAt == was.createdAt && row.expiresAt == was.expiresAt
            && row.attempts == was.attempts + (if reply in {WrongCode, SignInFailed, SignedIn} then 1 else 0)
            && row.consumedAt == if reply in {SignedIn, TooManyAttempts} then Some(at) else None
  {
    NewestIsNewest(s.challenges, phone);
  }

  /** Without a live challenge a verification leaves everything as it was. */
  lemma NothingToVerify(t: Limits, s: State, phone: nat, at: int, code: nat, completes: bool)
    requires NoneLive(s.challenges, phone)
    ensures Step(t, s, VerifyOtp(phone, at, code, completes)) == (s, NoChallenge)
  {
    NewestIsNewest(s.challenges, phone);
  }

  /** The challenges of a phone made within the window that ends now. */
  function MadeSince(cs: seq<Challenge>, phone: nat, since: int): set<nat> {
    set i: nat | i < |cs| && cs[i].phone == phone && since <= cs[i].createdAt
  }

  lemma {:induction false} CountedOnce(cs: seq<Challenge>, phone: nat, since: int)
    ensures RecentCount(cs, phone, since) == |MadeSince(cs, phone, since)|
  {
    if cs != [] {
      var rest, last := cs[..|cs|-1], |cs| - 1;
      CountedOnce(rest, phone, since);
      assert MadeSince(cs, phone, since) ==
             MadeSince(rest, phone, since) + if Recent(cs[last], phone, since) == 1 then {last} else {};
    }
  }

  /** What a request for a code answers, and what it leaves. */
  lemma RequestAnswers(t: Limits, s: State, phone: nat, at: int, code: nat, sent: bool)
    ensures var (after, reply) := Step(t, s, RequestOtp(phone, at, code, sent));
            var limited := |MadeSince(s.challenges, phone, at - t.window)| >= t.maxRequests;
            && (reply == RateLimited <==> limited)
            && (reply == SendFailed <==> !limited && !sent)
            && (reply == CodeSent <==> !limited && sent)
            && after.checks == s.checks
            && after.challenges ==
                 if reply == CodeSent then s.challenges + [Challenge(phone, code, at, at + t.ttl, 0, None)]
                 else s.challenges
  {
    CountedOnce(s.challenges, phone, at - t.window);
  }
}
