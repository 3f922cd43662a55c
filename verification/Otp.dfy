/** One-time codes: how many can be requested, and how often one can be guessed. */
module Otp {
  import opened Domain

  /** Times are in one clock's ticks. */
  datatype Limits = Limits(maxRequests: int, window: nat, ttl: nat, maxAttempts: int)

  datatype Challenge = Challenge(
    phone: nat, code: nat, createdAt: int, expiresAt: int, attempts: nat, consumedAt: Option<int>)

  /** One comparison of a submitted code with a challenge's. */
  datatype Check = Check(phone: nat, challenge: nat, at: int, matched: bool, completed: bool)

  /** The challenge rows in the order they were made, and every code check so far. */
  datatype State = State(challenges: seq<Challenge>, checks: seq<Check>)

  datatype Event =
    | RequestOtp(phone: nat, at: int, code: nat, sent: bool)
    | VerifyOtp(phone: nat, at: int, code: nat, completes: bool)

  datatype Reply =
    | CodeSent | RateLimited | SendFailed
    | SignedIn | NoChallenge | Expired | TooManyAttempts | WrongCode | SignInFailed

  // ----- What is computed -----

  /** Challenges of a phone created at or after a time. */
  function RecentCount(cs: seq<Challenge>, phone: nat, since: int): nat {
    if cs == [] then 0
    else RecentCount(cs[..|cs|-1], phone, since) + Recent(cs[|cs|-1], phone, since)
  }

  function Recent(c: Challenge, phone: nat, since: int): nat {
    if c.phone == phone && c.createdAt >= since then 1 else 0
  }

  /** The newest live challenge of a phone. */
  function Newest(cs: seq<Challenge>, phone: nat): (r: Option<nat>)
    ensures r.Some? ==> r.value < |cs| && cs[r.value].phone == phone && cs[r.value].consumedAt == None
  {
    if cs == [] then None
    else
      var last := |cs| - 1;
      if cs[last].phone == phone && cs[last].consumedAt == None then Some(last) else Newest(cs[..last], phone)
  }

  function Request(t: Limits, s: State, phone: nat, at: int, code: nat, sent: bool): (State, Reply) {
    if RecentCount(s.challenges, phone, at - t.window) >= t.maxRequests then (s, RateLimited)
    else if !sent then (s, SendFailed) // the request rolls back, taking its row along
    else (s.(challenges := s.challenges + [Challenge(phone, code, at, at + t.ttl, 0, None)]), CodeSent)
  }

  function Verify(t: Limits, s: State, phone: nat, at: int, code: nat, completes: bool): (State, Reply) {
    match Newest(s.challenges, phone)
    case None => (s, NoChallenge)
    case Some(k) =>
      var c := s.challenges[k];
      if c.expiresAt < at then (s, Expired)
      else if c.attempts >= t.maxAttempts then
        (s.(challenges := s.challenges[k := c.(consumedAt := Some(at))]), TooManyAttempts)
      else
        // The attempt is committed before the code is looked at.
        var counted := c.(attempts := c.attempts + 1);
        var ok := code == c.code;
        var checks := s.checks + [Check(phone, k, at, ok, ok && completes)];
        if !ok then (State(s.challenges[k := counted], checks), WrongCode)
        else if !completes then (State(s.challenges[k := counted], checks), SignInFailed)
        else (State(s.challenges[k := counted.(consumedAt := Some(at))], checks), SignedIn)
  }

  function Step(t: Limits, s: State, e: Event): (State, Reply) {
    match e
    case RequestOtp(phone, at, code, sent) => Request(t, s, phone, at, code, sent)
    case VerifyOtp(phone, at, code, completes) => Verify(t, s, phone, at, code, completes)
  }

  const EMPTY := State([], [])

  function Run(t: Limits, events: seq<Event>): State {
    if events == [] then EMPTY else Step(t, Run(t, events[..|events|-1]), events[|events|-1]).0
  }

  // ----- The service, on its rows in place -----

  class AuthService {
    const limits: Limits
    var challenges: seq<Challenge>
    ghost var checks: seq<Check>

    constructor (limits: Limits)
      ensures this.limits == limits && View() == EMPTY
    {
      this.limits, challenges, checks := limits, [], [];
    }

    ghost function View(): State
      reads this
    {
      State(challenges, checks)
    }

    method CountRecent(phone: nat, since: int) returns (count: nat)
      ensures count == RecentCount(challenges, phone, since)
    {
      count := 0;
      for i := 0 to |challenges|
        invariant count == RecentCount(challenges[..i], phone, since)
      {
        assert challenges[..i+1][..i] == challenges[..i];
        if challenges[i].phone == phone && challenges[i].createdAt >= since {
          count := count + 1;
        }
      }
      assert challenges[..|challenges|] == challenges;
    }

    method RequestCode(phone: nat, at: int, code: nat, sent: bool) returns (reply: Reply)
      modifies this
      ensures (View(), reply) == Request(limits, old(View()), phone, at, code, sent)
    {
      var recent := CountRecent(phone, at - limits.window);
      if recent >= limits.maxRequests {
        return RateLimited;
      }
      if !sent {
        return SendFailed;
      }
      challenges := challenges + [Challenge(phone, code, at, at + limits.ttl, 0, None)];
      reply := CodeSent;
    }

    method VerifyCode(phone: nat, at: int, code: nat, completes: bool) returns (reply: Reply)
      modifies this
      ensures (View(), reply) == Verify(limits, old(View()), phone, at, code, completes)
    {
      var found := Newest(challenges, phone);
      if found.None? {
        return NoChallenge;
      }
      var k := found.value;
      if challenges[k].expiresAt < at {
        return Expired;
      }
      if challenges[k].attempts >= limits.maxAttempts {
        challenges := challenges[k := challenges[k].(consumedAt := Some(at))];
        return TooManyAttempts;
      }
      var challenge := challenges[k];
      challenges := challenges[k := challenge.(attempts := challenge.attempts + 1)];
      checks := checks + [Check(phone, k, at, code == challenge.code, code == challenge.code && completes)];
      if code != challenge.code {
        return WrongCode;
      }
      if !completes {
        return SignInFailed;
      }
      challenges := challenges[k := challenges[k].(consumedAt := Some(at))];
      assert challenges == old(challenges)[k := challenge.(attempts := challenge.attempts + 1, consumedAt := Some(at))];
      reply := SignedIn;
    }
  }

  // ----- Requests in a window -----

  /** Challenges of a phone created within a closed interval. */
  function CountWithin(cs: seq<Challenge>, phone: nat, from: int, to: int): nat {
    if cs == [] then 0
    else CountWithin(cs[..|cs|-1], phone, from, to) + Within(cs[|cs|-1], phone, from, to)
  }

  function Within(c: Challenge, phone: nat, from: int, to: int): nat {
    if c.phone == phone && from <= c.createdAt <= to then 1 else 0
  }

  /** What the bounds rest on: creation data never changes. */
  predicate SameCreation(a: Challenge, b: Challenge) {
    a.phone == b.phone && a.createdAt == b.createdAt && a.expiresAt == b.expiresAt && a.code == b.code
  }

  lemma {:induction false} CountAfterUpdate(cs: seq<Challenge>, k: nat, c: Challenge, phone: nat, from: int, to: int)
    requires k < |cs| && SameCreation(c, cs[k])
    ensures CountWithin(cs[k := c], phone, from, to) == CountWithin(cs, phone, from, to)
  {
    var last := |cs| - 1;
    if k == last {
      assert cs[k := c][..last] == cs[..last];
    } else {
      CountAfterUpdate(cs[..last], k, c, phone, from, to);
      assert cs[k := c][..last] == cs[..last][k := c];
    }
  }

  lemma {:induction false} WithinIsRecent(cs: seq<Challenge>, phone: nat, from: int, to: int, since: int)
    requires since <= from
    ensures CountWithin(cs, phone, from, to) <= RecentCount(cs, phone, since)
  {
    if cs != [] {
      WithinIsRecent(cs[..|cs|-1], phone, from, to, since);
    }
  }

  function Cap(n: int): nat { if n < 0 then 0 else n }

  lemma RequestKeepsWindow(t: Limits, s: State, e: Event, phone: nat, from: int)
    requires CountWithin(s.challenges, phone, from, from + t.window) <= Cap(t.maxRequests)
    ensures CountWithin(Step(t, s, e).0.challenges, phone, from, from + t.window) <= Cap(t.maxRequests)
  {
    match e
    case RequestOtp(p, at, code, sent) =>
      var c := Challenge(p, code, at, at + t.ttl, 0, None);
      assert (s.challenges + [c])[..|s.challenges|] == s.challenges;
      if p == phone && from <= at <= from + t.window {
        WithinIsRecent(s.challenges, phone, from, from + t.window, at - t.window);
      }
    case VerifyOtp(p, at, code, completes) =>
      var found := Newest(s.challenges, p);
      if found.Some? {
        var after := Step(t, s, e).0.challenges[found.value];
        CountAfterUpdate(s.challenges, found.value, after, phone, from, from + t.window);
        assert s.challenges[found.value := s.challenges[found.value]] == s.challenges;
        assert Step(t, s, e).0.challenges == s.challenges[found.value := after];
      }
  }

  /** Any closed window of the configured length holds at most the configured number of challenges per phone. */
  lemma {:induction false} RequestsPerWindow(t: Limits, events: seq<Event>, phone: nat, from: int)
    ensures CountWithin(Run(t, events).challenges, phone, from, from + t.window) <= Cap(t.maxRequests)
  {
    if events != [] {
      RequestsPerWindow(t, events[..|events|-1], phone, from);
      hide Step;
      RequestKeepsWindow(t, Run(t, events[..|events|-1]), events[|events|-1], phone, from);
    }
  }

  // ----- Guesses per challenge -----

  function ChecksOf(checks: seq<Check>, k: nat): nat {
    if checks == [] then 0 else ChecksOf(checks[..|checks|-1], k) + if checks[|checks|-1].challenge == k then 1 else 0
  }

  function SuccessesOf(checks: seq<Check>, k: nat): nat {
    if checks == [] then 0
    else SuccessesOf(checks[..|checks|-1], k)
         + if checks[|checks|-1].challenge == k && checks[|checks|-1].completed then 1 else 0
  }

  /** The rows account for every check: as many attempts as checks, and a success consumes. */
  predicate Accounted(t: Limits, s: State, k: nat)
    requires k < |s.challenges|
  {
    var c := s.challenges[k];
    && c.attempts == ChecksOf(s.checks, k) && c.attempts <= Cap(t.maxAttempts)
    && SuccessesOf(s.checks, k) <= 1
    && (SuccessesOf(s.checks, k) == 1 ==> c.consumedAt.Some?)
  }

  predicate AllAccounted(t: Limits, s: State) {
    && (forall k: nat | k < |s.challenges| :: Accounted(t, s, k))
    && (forall i | 0 <= i < |s.checks| :: s.checks[i].challenge < |s.challenges|)
  }

  lemma {:induction false} NoneYet(checks: seq<Check>, k: nat)
    requires forall i | 0 <= i < |checks| :: checks[i].challenge != k
    ensures ChecksOf(checks, k) == 0 && SuccessesOf(checks, k) == 0
  {
    if checks != [] {
      NoneYet(checks[..|checks|-1], k);
    }
  }

  lemma OneMoreCheck(checks: seq<Check>, c: Check, k: nat)
    ensures ChecksOf(checks + [c], k) == ChecksOf(checks, k) + if c.challenge == k then 1 else 0
    ensures SuccessesOf(checks + [c], k) == SuccessesOf(checks, k) + if c.challenge == k && c.completed then 1 else 0
  {
    assert (checks + [c])[..|checks|] == checks;
  }

  lemma StepAccounts(t: Limits, s: State, e: Event)
    requires AllAccounted(t, s)
    ensures AllAccounted(t, Step(t, s, e).0)
  {
    var after := Step(t, s, e).0;
    hide ChecksOf, SuccessesOf;
    forall k: nat | k < |after.challenges| ensures Accounted(t, after, k) {
      if k == |s.challenges| {
        NoneYet(s.checks, k);
      } else {
        assert Accounted(t, s, k);
        if after.checks != s.checks {
          OneMoreCheck(s.checks, after.checks[|s.checks|], k);
        }
      }
    }
  }

  /** Each challenge gets at most the configured number of checks and signs in at most once. */
  lemma {:induction false} GuessesPerChallenge(t: Limits, events: seq<Event>)
    ensures AllAccounted(t, Run(t, events))
  {
    if events != [] {
      GuessesPerChallenge(t, events[..|events|-1]);
      hide Step, AllAccounted;
      StepAccounts(t, Run(t, events[..|events|-1]), events[|events|-1]);
    }
  }

  // ----- Guesses per phone in an interval -----

  function ChecksWithin(checks: seq<Check>, phone: nat, from: int, to: int): nat {
    if checks == [] then 0
    else ChecksWithin(checks[..|checks|-1], phone, from, to) + Falls(checks[|checks|-1], phone, from, to)
  }

  function Falls(c: Check, phone: nat, from: int, to: int): nat {
    if c.phone == phone && from <= c.at <= to then 1 else 0
  }

  /** Attempts on a phone's challenges created within an interval. */
  function AttemptsWithin(cs: seq<Challenge>, phone: nat, from: int, to: int): nat {
    if cs == [] then 0
    else AttemptsWithin(cs[..|cs|-1], phone, from, to) + cs[|cs|-1].attempts * Within(cs[|cs|-1], phone, from, to)
  }

  lemma {:induction false} AttemptsAfterUpdate(cs: seq<Challenge>, k: nat, c: Challenge, phone: nat, from: int, to: int)
    requires k < |cs| && SameCreation(c, cs[k]) && c.attempts >= cs[k].attempts
    ensures AttemptsWithin(cs[k := c], phone, from, to)
         == AttemptsWithin(cs, phone, from, to) + (c.attempts - cs[k].attempts) * Within(c, phone, from, to)
  {
    var last := |cs| - 1;
    if k == last {
      assert cs[k := c][..last] == cs[..last];
    } else {
      AttemptsAfterUpdate(cs[..last], k, c, phone, from, to);
      assert cs[k := c][..last] == cs[..last][k := c];
    }
  }

  lemma {:induction false} AttemptsAreBounded(t: Limits, cs: seq<Challenge>, phone: nat, from: int, to: int)
    requires forall k | 0 <= k < |cs| :: cs[k].attempts <= Cap(t.maxAttempts)
    ensures AttemptsWithin(cs, phone, from, to) <= CountWithin(cs, phone, from, to) * Cap(t.maxAttempts)
  {
    if cs != [] {
      AttemptsAreBounded(t, cs[..|cs|-1], phone, from, to);
    }
  }

  /** Events in clock order. */
  predicate Ordered(events: seq<Event>) {
    forall i, j | 0 <= i <= j < |events| :: events[i].at <= events[j].at
  }

  predicate MadeBy(t: Limits, s: State, now: int) {
    forall k | 0 <= k < |s.challenges| ::
      s.challenges[k].createdAt <= now && s.challenges[k].expiresAt == s.challenges[k].createdAt + t.ttl
  }

  lemma {:induction false} RowsAreFromThePast(t: Limits, events: seq<Event>, now: int)
    requires forall i | 0 <= i < |events| :: events[i].at <= now
    ensures MadeBy(t, Run(t, events), now)
  {
    if events != [] {
      RowsAreFromThePast(t, events[..|events|-1], now);
    }
  }

  lemma StepCoversChecks(t: Limits, s: State, e: Event, phone: nat, from: int, to: int)
    requires MadeBy(t, s, e.at)
    requires ChecksWithin(s.checks, phone, from, to) <= AttemptsWithin(s.challenges, phone, from - t.ttl, to)
    ensures var after := Step(t, s, e).0;
            ChecksWithin(after.checks, phone, from, to) <= AttemptsWithin(after.challenges, phone, from - t.ttl, to)
  {
    var after := Step(t, s, e).0;
    hide ChecksWithin, AttemptsWithin;
    match e
    case RequestOtp(p, at, code, sent) =>
      if after.challenges != s.challenges {
        UnusedRowAddsNothing(s.challenges, after.challenges[|s.challenges|], phone, from - t.ttl, to);
      }
    case VerifyOtp(p, at, code, completes) =>
      var found := Newest(s.challenges, p);
      if found.Some? {
        var k := found.value;
        if after != s {
          AttemptsAfterUpdate(s.challenges, k, after.challenges[k], phone, from - t.ttl, to);
          assert after.challenges == s.challenges[k := after.challenges[k]];
          if after.checks != s.checks {
            LastCheck(s.checks, after.checks[|s.checks|], phone, from, to);
          }
        }
      }
  }

  lemma UnusedRowAddsNothing(cs: seq<Challenge>, c: Challenge, phone: nat, from: int, to: int)
    requires c.attempts == 0
    ensures AttemptsWithin(cs + [c], phone, from, to) == AttemptsWithin(cs, phone, from, to)
  {
    assert (cs + [c])[..|cs|] == cs;
  }

  lemma LastCheck(checks: seq<Check>, c: Check, phone: nat, from: int, to: int)
    ensures ChecksWithin(checks + [c], phone, from, to) ==
              ChecksWithin(checks, phone, from, to) + Falls(c, phone, from, to)
  {
    assert (checks + [c])[..|checks|] == checks;
  }

  lemma {:induction false} ChecksAreCovered(t: Limits, events: seq<Event>, phone: nat, from: int, to: int)
    requires Ordered(events)
    ensures var s := Run(t, events);
            ChecksWithin(s.checks, phone, from, to) <= AttemptsWithin(s.challenges, phone, from - t.ttl, to)
  {
    if events != [] {
      var rest, last := events[..|events|-1], events[|events|-1];
      ChecksAreCovered(t, rest, phone, from, to);
      RowsAreFromThePast(t, rest, last.at);
      hide Step;
      StepCoversChecks(t, Run(t, rest), last, phone, from, to);
    }
  }

  lemma {:induction false} WiderCountsMore(cs: seq<Challenge>, phone: nat, from: int, to: int, later: int)
    requires to <= later
    ensures CountWithin(cs, phone, from, to) <= CountWithin(cs, phone, from, later)
  {
    if cs != [] {
      WiderCountsMore(cs[..|cs|-1], phone, from, to, later);
    }
  }

  lemma AttemptsPerChallenge(t: Limits, events: seq<Event>)
    ensures forall k | 0 <= k < |Run(t, events).challenges| ::
              Run(t, events).challenges[k].attempts <= Cap(t.maxAttempts)
  {
    var s := Run(t, events);
    GuessesPerChallenge(t, events);
    hide Run;
    forall k: nat | k < |s.challenges| ensures s.challenges[k].attempts <= Cap(t.maxAttempts) {
      assert Accounted(t, s, k);
    }
  }

  /**
   * Over any interval no longer than the window less a code's lifetime, a phone's codes are
   * checked at most (requests per window) * (attempts per challenge) times.
   */
  lemma {:induction false} GuessesPerInterval(t: Limits, events: seq<Event>, phone: nat, from: int, to: int)
    requires Ordered(events) && to - from <= t.window - t.ttl
    ensures ChecksWithin(Run(t, events).checks, phone, from, to) <= Cap(t.maxRequests) * Cap(t.maxAttempts)
  {
    var s := Run(t, events);
    ChecksAreCovered(t, events, phone, from, to);
    AttemptsPerChallenge(t, events);
    hide Run, CountWithin, AttemptsWithin, ChecksWithin;
    AttemptsAreBounded(t, s.challenges, phone, from - t.ttl, to);
    WiderCountsMore(s.challenges, phone, from - t.ttl, to, from - t.ttl + t.window);
    RequestsPerWindow(t, events, phone, from - t.ttl);
    Product(CountWithin(s.challenges, phone, from - t.ttl, to), Cap(t.maxRequests), Cap(t.maxAttempts));
  }

  lemma Product(a: nat, b: nat, c: nat)
    requires a <= b
    ensures a * c <= b * c
  {
  }

  // ----- Consuming a matched code -----

  /**
   * A code that matched is used up exactly when the sign-in completes: otherwise the
   * rollback keeps the counted attempt but not the consumption.
   */
  lemma MatchedCodeIsConsumedIffSignInCompletes(t: Limits, s: State, phone: nat, at: int, completes: bool, k: nat)
    requires Newest(s.challenges, phone) == Some(k)
    requires at <= s.challenges[k].expiresAt && s.challenges[k].attempts < t.maxAttempts
    ensures var code := s.challenges[k].code;
            var after := Verify(t, s, phone, at, code, completes).0;
            && |after.challenges| == |s.challenges|
            && after.challenges[k].attempts == s.challenges[k].attempts + 1
            && (after.challenges[k].consumedAt.Some? <==> completes)
            && (!completes ==> Newest(after.challenges, phone) == Some(k))
  {
    var after := s.challenges[k := s.challenges[k].(attempts := s.challenges[k].attempts + 1)];
    NewestAfterCount(s.challenges, phone, k, after[k]);
  }

  lemma {:induction false} NewestAfterCount(cs: seq<Challenge>, phone: nat, k: nat, c: Challenge)
    requires k < |cs| && Newest(cs, phone) == Some(k) && c.phone == phone && c.consumedAt == None
    ensures Newest(cs[k := c], phone) == Some(k)
  {
    var last := |cs| - 1;
    if k < last {
      assert cs[k := c][..last] == cs[..last][k := c];
      NewestAfterCount(cs[..last], phone, k, c);
    }
  }

  /** Whether a verification compares its code with challenge k and finds it right. */
  predicate Matches(t: Limits, s: State, phone: nat, at: int, code: nat, completes: bool, k: nat) {
    var after := Verify(t, s, phone, at, code, completes).0;
    |after.checks| == |s.checks| + 1
    && after.checks[|s.checks|] == Check(phone, k, at, true, completes)
  }

  /** A verification matches the newest live challenge, in time, with attempts left, by its code. */
  lemma {:induction false} MatchesExactly(t: Limits, s: State, phone: nat, at: int, code: nat, completes: bool, k: nat)
    ensures Matches(t, s, phone, at, code, completes, k) <==>
              && Newest(s.challenges, phone) == Some(k) && at <= s.challenges[k].expiresAt
              && s.challenges[k].attempts < t.maxAttempts && code == s.challenges[k].code
  {
  }

  /**
   * When a matched code matches again, with nothing in between: exactly when the first
   * sign-in failed after the match, an attempt is left, and the code has not expired.
   */
  lemma MatchedCodeMatchesAgainExactly(
      t: Limits, s: State, phone: nat, at: int, code: nat, completes: bool, k: nat, later: int, again: bool)
    requires Matches(t, s, phone, at, code, completes, k)
    ensures Matches(t, Verify(t, s, phone, at, code, completes).0, phone, later, code, again, k) <==>
              !completes && s.challenges[k].attempts + 1 < t.maxAttempts && later <= s.challenges[k].expiresAt
  {
    var after := Verify(t, s, phone, at, code, completes).0;
    MatchesExactly(t, s, phone, at, code, completes, k);
    MatchesExactly(t, after, phone, later, code, again, k);
    MatchedCodeIsConsumedIffSignInCompletes(t, s, phone, at, completes, k);
    hide Matches, Verify;
  }

  /** A sign-in that completed is the last check of its challenge, and it was a match. */
  predicate SignInsAreFinal(s: State) {
    && (forall i | 0 <= i < |s.checks| ::
          s.checks[i].challenge < |s.challenges|
          && (s.checks[i].completed ==> s.checks[i].matched && s.challenges[s.checks[i].challenge].consumedAt.Some?))
    && (forall i, j | 0 <= i < j < |s.checks| && s.checks[i].challenge == s.checks[j].challenge ::
         !s.checks[i].completed)
  }

  lemma StepKeepsSignInsFinal(t: Limits, s: State, e: Event)
    requires SignInsAreFinal(s)
    ensures SignInsAreFinal(Step(t, s, e).0)
  {
    var after := Step(t, s, e).0;
    assert after.checks[..|s.checks|] == s.checks;
    assert forall k | 0 <= k < |s.challenges| ::
             s.challenges[k].consumedAt.Some? ==> after.challenges[k].consumedAt.Some?;
    forall i | 0 <= i < |after.checks|
      ensures after.checks[i].challenge < |after.challenges|
      ensures after.checks[i].completed ==>
                after.checks[i].matched && after.challenges[after.checks[i].challenge].consumedAt.Some?
    {
      assert i < |s.checks| ==> after.checks[i] == s.checks[i];
    }
    forall i, j | 0 <= i < j < |after.checks| && after.checks[i].challenge == after.checks[j].challenge
      ensures !after.checks[i].completed
    {
      assert after.checks[i] == s.checks[i];
    }
  }

  lemma {:induction false} RunKeepsSignInsFinal(t: Limits, events: seq<Event>)
    ensures SignInsAreFinal(Run(t, events))
  {
    if events != [] {
      RunKeepsSignInsFinal(t, events[..|events|-1]);
      hide Step, SignInsAreFinal;
      StepKeepsSignInsFinal(t, Run(t, events[..|events|-1]), events[|events|-1]);
    }
  }

  function MatchesOf(checks: seq<Check>, k: nat): nat {
    if checks == [] then 0
    else MatchesOf(checks[..|checks|-1], k)
         + if checks[|checks|-1].challenge == k && checks[|checks|-1].matched then 1 else 0
  }

  /** Matches whose sign-in failed afterwards. */
  function FailedSignInsOf(checks: seq<Check>, k: nat): nat {
    if checks == [] then 0
    else FailedSignInsOf(checks[..|checks|-1], k)
         + if checks[|checks|-1].challenge == k && checks[|checks|-1].matched && !checks[|checks|-1].completed
           then 1 else 0
  }

  lemma {:induction false} MatchesAreSignInsAndFailures(checks: seq<Check>, k: nat)
    requires forall i | 0 <= i < |checks| :: checks[i].completed ==> checks[i].matched
    ensures MatchesOf(checks, k) == SuccessesOf(checks, k) + FailedSignInsOf(checks, k)
  {
    if checks != [] {
      MatchesAreSignInsAndFailures(checks[..|checks|-1], k);
    }
  }

  /**
   * Over any events, nothing is compared with a challenge after a sign-in by it completed;
   * so it is matched at most once more than its sign-ins failed after a match.
   */
  lemma {:induction false} MatchesPerChallenge(t: Limits, events: seq<Event>, k: nat)
    requires k < |Run(t, events).challenges|
    ensures SignInsAreFinal(Run(t, events))
    ensures var checks := Run(t, events).checks;
            MatchesOf(checks, k) <= FailedSignInsOf(checks, k) + 1
  {
    RunKeepsSignInsFinal(t, events);
    GuessesPerChallenge(t, events);
    var s := Run(t, events);
    assert Accounted(t, s, k);
    hide Run;
    MatchesAreSignInsAndFailures(s.checks, k);
  }

  /** For instance: a first match whose sign-in fails signs nobody in, and the next use of the code does. */
  lemma FailedSignInLeavesTheCodeUsable()
    ensures var t := Limits(3, 600, 300, 5);
            var first := Step(t, Run(t, [RequestOtp(1, 0, 123456, true)]), VerifyOtp(1, 10, 123456, false));
            first.1 == SignInFailed && Step(t, first.0, VerifyOtp(1, 20, 123456, true)).1 == SignedIn
  {
    var t := Limits(3, 600, 300, 5);
    var events := [RequestOtp(1, 0, 123456, true)];
    assert events[..0] == [];
    assert Run(t, events[..0]) == EMPTY;
    assert Run(t, events).challenges == [Challenge(1, 123456, 0, 300, 0, None)];
  }
}
