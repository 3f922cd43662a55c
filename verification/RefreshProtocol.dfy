/**
 * The browser's side of staying signed in: calls that meet a 401 share one refresh and
 * replay once, against the rotating tokens of the server.
 */
module RefreshProtocol {
  import opened Domain
  import opened RefreshTokens

  /** Where a call to `request` stands. `retried` is the internal flag of its options. */
  datatype Phase = Awaiting(retried: bool) | Parked | Woken(refreshed: bool) | Finished

  datatype Call = Call(phase: Phase, sends: nat)

  /** The stored refresh token, the single-flight variable, and the calls under way. */
  datatype Client = Client(stored: Option<nat>, refreshing: bool, calls: map<nat, Call>)

  // ----- What each callback does -----

  /** The request goes out. */
  function Started(c: Client, id: nat): Client {
    if id in c.calls then c else c.(calls := c.calls[id := Call(Awaiting(false), 1)])
  }

  /** The refresh token to present, when this call is the one that has to start the refresh. */
  function ToPresent(c: Client, id: nat, unauthorized: bool): Option<nat> {
    if id in c.calls && c.calls[id].phase == Awaiting(false) && unauthorized && !c.refreshing then c.stored else None
  }

  /** The response arrives. */
  function Answered(c: Client, id: nat, unauthorized: bool): Client {
    if id !in c.calls || !c.calls[id].phase.Awaiting? then c
    else
      var call := c.calls[id];
      if !unauthorized || call.phase.retried then c.(calls := c.calls[id := call.(phase := Finished)])
      else if c.refreshing then c.(calls := c.calls[id := call.(phase := Parked)])
      else if c.stored.None? then c.(calls := c.calls[id := call.(phase := Woken(false))])
      else c.(refreshing := true, calls := c.calls[id := call.(phase := Parked)])
  }

  function Wake(call: Call, refreshed: bool): Call {
    if call.phase == Parked then call.(phase := Woken(refreshed)) else call
  }

  /** The refresh settles: tokens are stored, the flight is over, and everyone waiting on it wakes. */
  function Settled(c: Client, reply: Option<nat>): Client {
    Client(if reply.Some? then reply else c.stored, false, map id | id in c.calls :: Wake(c.calls[id], reply.Some?))
  }

  /** A waiting call goes on: it replays, or forgets the tokens and gives up. */
  function Resumed(c: Client, id: nat): Client {
    if id !in c.calls || !c.calls[id].phase.Woken? then c
    else
      var call := c.calls[id];
      if call.phase.refreshed then c.(calls := c.calls[id := Call(Awaiting(true), call.sends + 1)])
      else c.(stored := None, calls := c.calls[id := call.(phase := Finished)])
  }

  // ----- The module's state, in place -----

  class ApiClient {
    var stored: Option<nat>
    var refreshInFlight: bool
    var calls: map<nat, Call>

    constructor (stored: Option<nat>)
      ensures View() == Client(stored, false, map[])
    {
      this.stored, refreshInFlight, calls := stored, false, map[];
    }

    function View(): Client
      reads this
    {
      Client(stored, refreshInFlight, calls)
    }

    method StartRequest(id: nat)
      modifies this
      ensures View() == Started(old(View()), id)
    {
      if id !in calls {
        calls := calls[id := Call(Awaiting(false), 1)];
      }
    }

    /** Joins the refresh in flight or starts one, unless there is nothing to present. */
    method TryRefresh() returns (willKnow: bool, present: Option<nat>)
      modifies this`refreshInFlight
      ensures willKnow <==> old(refreshInFlight) || stored.Some?
      ensures refreshInFlight == willKnow
      ensures present == if old(refreshInFlight) then None else stored
    {
      if refreshInFlight {
        return true, None;
      }
      if stored.None? {
        return false, None;
      }
      refreshInFlight := true;
      return true, stored;
    }

    method OnResponse(id: nat, unauthorized: bool) returns (present: Option<nat>)
      modifies this
      ensures View() == Answered(old(View()), id, unauthorized)
      ensures present == ToPresent(old(View()), id, unauthorized)
    {
      present := None;
      if id !in calls || !calls[id].phase.Awaiting? {
        return;
      }
      var call := calls[id];
      if unauthorized && !call.phase.retried {
        var willKnow;
        willKnow, present := TryRefresh();
        calls := calls[id := call.(phase := if willKnow then Parked else Woken(false))];
      } else {
        calls := calls[id := call.(phase := Finished)];
      }
    }

    method OnRefreshSettled(reply: Option<nat>)
      modifies this
      ensures View() == Settled(old(View()), reply)
    {
      if reply.Some? {
        stored := reply;
      }
      refreshInFlight := false;
      calls := map id | id in calls :: Wake(calls[id], reply.Some?);
    }

    method Resume(id: nat)
      modifies this
      ensures View() == Resumed(old(View()), id)
    {
      if id !in calls || !calls[id].phase.Woken? {
        return;
      }
      var call := calls[id];
      if call.phase.refreshed {
        calls := calls[id := Call(Awaiting(true), call.sends + 1)];
      } else {
        stored := None;
        calls := calls[id := call.(phase := Finished)];
      }
    }
  }

  // ----- Client, network and server together -----

  /** One presentation of a refresh token, and whether the server had already rotated it. */
  datatype Presented = Presented(token: nat, rotated: bool)

  datatype World = World(
    client: Client,
    requests: seq<nat>,
    replies: seq<Option<nat>>,
    tokens: seq<Token>,
    presented: seq<Presented>)

  datatype Action =
    | Start(id: nat)
    | Respond(id: nat, unauthorized: bool)
    | Resume(id: nat)
    | ServerHandles(at: int, active: bool)
    | LoseRequest
    | LoseReply
    | Settle

  function ServerStep(w: World, ttl: nat, at: int, active: bool): World {
    if w.requests == [] then w
    else
      var handled := Apply(w.tokens, ttl, Refresh(w.requests[0], at, active));
      w.(requests := w.requests[1..],
         replies := w.replies + [if handled.1.Issued? then Some(handled.1.token) else None],
         tokens := handled.0)
  }

  function RespondStep(w: World, id: nat, unauthorized: bool): World {
    var present := ToPresent(w.client, id, unauthorized);
    var after := w.(client := Answered(w.client, id, unauthorized));
    match present
    case None => after
    case Some(t) =>
      after.(requests := w.requests + [t], presented := w.presented + [Presented(t, !Usable(w.tokens, t))])
  }

  function Step(w: World, ttl: nat, a: Action): World {
    match a
    case Start(id) => w.(client := Started(w.client, id))
    case Respond(id, unauthorized) => RespondStep(w, id, unauthorized)
    case Resume(id) => w.(client := Resumed(w.client, id))
    case ServerHandles(at, active) => ServerStep(w, ttl, at, active)
    case LoseRequest =>
      if w.requests == [] then w else w.(requests := w.requests[1..], replies := w.replies + [None])
    case LoseReply => if w.replies == [] then w else w.(replies := [None] + w.replies[1..])
    case Settle =>
      if w.replies == [] then w
      else w.(client := Settled(w.client, w.replies[0]), replies := w.replies[1..])
  }

  function Run(w: World, ttl: nat, actions: seq<Action>): World {
    if actions == [] then w else Step(Run(w, ttl, actions[..|actions|-1]), ttl, actions[|actions|-1])
  }

  /** Signed in, with nothing under way. */
  predicate Initial(w: World) {
    && w.client.stored.Some? && Usable(w.tokens, w.client.stored.value)
    && !w.client.refreshing && w.client.calls == map[]
    && w.requests == [] && w.replies == [] && w.presented == [] && OneLivePerChain(w.tokens)
  }

  // ----- What every step keeps -----

  predicate CountsSends(call: Call) {
    match call.phase
    case Awaiting(retried) => call.sends == if retried then 2 else 1
    case Parked => call.sends == 1
    case Woken(_) => call.sends == 1
    case Finished => 1 <= call.sends <= 2
  }

  predicate Waiting(c: Client) { exists id :: id in c.calls && c.calls[id].phase == Parked }

  predicate GivingUp(c: Client) { exists id :: id in c.calls && c.calls[id].phase == Woken(false) }

  /**
   * A stored token the server no longer takes is tolerable only when replies can be lost,
   * and then only while some call is about to forget it.
   */
  predicate Tolerable(w: World, lossy: bool) {
    || w.client.stored.None? || Usable(w.tokens, w.client.stored.value)
    || (lossy && (GivingUp(w.client) || (w.replies == [None] && Waiting(w.client))))
  }

  predicate SingleFlight(w: World) {
    && |w.requests| + |w.replies| == (if w.client.refreshing then 1 else 0)
    && (forall id | id in w.client.calls && w.client.calls[id].phase == Parked :: w.client.refreshing)
    && (w.client.refreshing ==> Waiting(w.client))
  }

  predicate TokensInOrder(w: World, lossy: bool) {
    && (w.requests != [] ==> Usable(w.tokens, w.requests[0])
                             && (w.client.stored.None? || w.client.stored == Some(w.requests[0])))
    && (w.replies != [] && w.replies[0].Some? ==> Usable(w.tokens, w.replies[0].value))
    && (w.replies == [] || w.replies[0].None? ==> Tolerable(w, lossy))
  }

  predicate Invariant(w: World, lossy: bool) {
    && SingleFlight(w) && TokensInOrder(w, lossy) && OneLivePerChain(w.tokens)
    && (forall i | 0 <= i < |w.presented| :: !w.presented[i].rotated)
    && (forall id | id in w.client.calls :: CountsSends(w.client.calls[id]))
  }

  /** Run to completion: a response is handled only when every woken call has gone on. */
  predicate Prompt(w: World, a: Action) {
    a.Respond? ==> forall id | id in w.client.calls :: !w.client.calls[id].phase.Woken?
  }

  predicate Allowed(w: World, a: Action, lossy: bool) {
    if lossy then Prompt(w, a) else !a.LoseReply?
  }

  lemma StepKeepsInvariant(w: World, ttl: nat, a: Action, lossy: bool)
    requires Invariant(w, lossy) && Allowed(w, a, lossy)
    ensures Invariant(Step(w, ttl, a), lossy)
  {
    match a
    case Start(id) => StartKeeps(w, id, lossy);
    case Respond(id, unauthorized) => RespondKeeps(w, id, unauthorized, lossy);
    case Resume(id) => ResumeKeeps(w, id, lossy);
    case ServerHandles(at, active) => ServerKeeps(w, ttl, at, active, lossy);
    case LoseRequest =>
    case LoseReply =>
    case Settle =>
      if w.replies != [] {
        SettleKeeps(w, lossy);
      }
  }

  lemma StartKeeps(w: World, id: nat, lossy: bool)
    requires Invariant(w, lossy)
    ensures Invariant(w.(client := Started(w.client, id)), lossy)
  {
    var after := w.(client := Started(w.client, id));
    if id !in w.client.calls {
      assert forall k | k in w.client.calls :: k in after.client.calls && after.client.calls[k] == w.client.calls[k];
      hide OneLivePerChain, Usable;
    }
  }

  lemma RespondKeeps(w: World, id: nat, unauthorized: bool, lossy: bool)
    requires Invariant(w, lossy) && (lossy ==> Prompt(w, Respond(id, unauthorized)))
    ensures Invariant(RespondStep(w, id, unauthorized), lossy)
  {
    hide OneLivePerChain, Usable;
    var after := RespondStep(w, id, unauthorized);
    if id in w.client.calls && w.client.calls[id].phase.Awaiting? {
      assert id in after.client.calls;
      assert forall k | k in w.client.calls && k != id ::
               k in after.client.calls && after.client.calls[k] == w.client.calls[k];
    }
  }

  lemma ResumeKeeps(w: World, id: nat, lossy: bool)
    requires Invariant(w, lossy)
    ensures Invariant(w.(client := Resumed(w.client, id)), lossy)
  {
    hide OneLivePerChain, Usable;
    var after := w.(client := Resumed(w.client, id));
    if id in w.client.calls && w.client.calls[id].phase.Woken? {
      assert forall k | k in w.client.calls && k != id ::
               k in after.client.calls && after.client.calls[k] == w.client.calls[k];
    }
  }

  lemma ServerKeeps(w: World, ttl: nat, at: int, active: bool, lossy: bool)
    requires Invariant(w, lossy)
    ensures Invariant(ServerStep(w, ttl, at, active), lossy)
  {
    if w.requests != [] {
      RequestKeepsOneLive(w.tokens, ttl, Refresh(w.requests[0], at, active));
      hide OneLivePerChain;
    }
  }

  lemma SettleKeeps(w: World, lossy: bool)
    requires Invariant(w, lossy) && w.replies != []
    ensures Invariant(w.(client := Settled(w.client, w.replies[0]), replies := w.replies[1..]), lossy)
  {
    hide OneLivePerChain, Usable;
    var after := Settled(w.client, w.replies[0]);
    assert forall k | k in w.client.calls ::
             k in after.calls && after.calls[k] == Wake(w.client.calls[k], w.replies[0].Some?);
  }

  // ----- Over whole runs -----

  predicate AllAllowed(w: World, ttl: nat, actions: seq<Action>, lossy: bool) {
    actions == []
    || (var rest := actions[..|actions|-1];
        AllAllowed(w, ttl, rest, lossy) && Allowed(Run(w, ttl, rest), actions[|actions|-1], lossy))
  }

  lemma {:induction false} RunKeepsInvariant(w: World, ttl: nat, actions: seq<Action>, lossy: bool)
    requires Initial(w) && AllAllowed(w, ttl, actions, lossy)
    ensures Invariant(Run(w, ttl, actions), lossy)
  {
    if actions != [] {
      RunKeepsInvariant(w, ttl, actions[..|actions|-1], lossy);
      hide Invariant, Allowed, Step;
      StepKeepsInvariant(Run(w, ttl, actions[..|actions|-1]), ttl, actions[|actions|-1], lossy);
    }
  }

  /** What the protocol promises of a state. */
  predicate WellBehaved(w: World) {
    && |w.requests| + |w.replies| <= 1
    && (forall i | 0 <= i < |w.presented| :: !w.presented[i].rotated)
    && (forall id | id in w.client.calls :: w.client.calls[id].sends <= 2)
    && (forall id | id in w.client.calls && w.client.calls[id].phase == Parked :: |w.requests| + |w.replies| == 1)
    && OneLivePerChain(w.tokens)
  }

  lemma {:induction false} NothingLostIsAllowed(w: World, ttl: nat, actions: seq<Action>)
    requires forall i | 0 <= i < |actions| :: !actions[i].LoseReply?
    ensures AllAllowed(w, ttl, actions, false)
  {
    if actions != [] {
      NothingLostIsAllowed(w, ttl, actions[..|actions|-1]);
    }
  }

  lemma InvariantIsWellBehaved(w: World, lossy: bool)
    requires Invariant(w, lossy)
    ensures WellBehaved(w)
  {
  }

  /**
   * While no reply is lost, in every interleaving: at most one refresh is under way, no
   * rotated token is ever presented, no call goes out more than twice, a waiting call has
   * a refresh to wait for, and no chain has two working tokens.
   */
  lemma {:induction false} ProtocolIsSafe(w: World, ttl: nat, actions: seq<Action>)
    requires Initial(w) && forall i | 0 <= i < |actions| :: !actions[i].LoseReply?
    ensures WellBehaved(Run(w, ttl, actions))
  {
    NothingLostIsAllowed(w, ttl, actions);
    RunKeepsInvariant(w, ttl, actions, false);
    hide Invariant, Run;
    InvariantIsWellBehaved(Run(w, ttl, actions), false);
  }

  predicate AllPrompt(w: World, ttl: nat, actions: seq<Action>) {
    forall i | 0 <= i < |actions| :: Prompt(Run(w, ttl, actions[..i]), actions[i])
  }

  lemma {:induction false} PromptIsAllowed(w: World, ttl: nat, actions: seq<Action>)
    requires AllPrompt(w, ttl, actions)
    ensures AllAllowed(w, ttl, actions, true)
  {
    if actions != [] {
      var rest := actions[..|actions|-1];
      forall i | 0 <= i < |rest| ensures Prompt(Run(w, ttl, rest[..i]), rest[i]) {
        assert rest[..i] == actions[..i];
      }
      PromptIsAllowed(w, ttl, rest);
      hide Prompt, Run;
    }
  }

  /**
   * Replies may even be lost, as long as woken calls go on before the next response is
   * handled: the one that started the lost refresh forgets the dead token first.
   */
  lemma {:induction false} PromptnessSurvivesLostReplies(w: World, ttl: nat, actions: seq<Action>)
    requires Initial(w) && AllPrompt(w, ttl, actions)
    ensures WellBehaved(Run(w, ttl, actions))
  {
    PromptIsAllowed(w, ttl, actions);
    RunKeepsInvariant(w, ttl, actions, true);
    hide Invariant, Run;
    InvariantIsWellBehaved(Run(w, ttl, actions), true);
  }

  // The machine's own schedules are wider than a browser's, where a refresh settling and the
  // calls it wakes are microtasks of one turn, so that every action is prompt. The schedules
  // below are such abstract ones: they show that promptness is what the last theorem needs.

  /** A 401 starts a refresh whose reply is lost, and another 401 is handled before the woken call has gone on. */
  function LateWake(first: nat, second: nat, at: int, active: bool): seq<Action> {
    [Start(first), Respond(first, true), ServerHandles(at, active), LoseReply, Settle,
     Start(second), Respond(second, true)]
  }

  function Refreshing(w: World, id: nat): World
    requires w.client.stored.Some?
  {
    var t := w.client.stored.value;
    w.(client := Client(Some(t), true, map[id := Call(Parked, 1)]), requests := [t], presented := [Presented(t, false)])
  }

  /** The reply is lost and the refresh has settled; the call that waited for it is yet to go on. */
  function Lost(w: World, ttl: nat, id: nat, at: int, active: bool): World
    requires w.client.stored.Some?
  {
    var t := w.client.stored.value;
    w.(client := Client(Some(t), false, map[id := Call(Woken(false), 1)]), presented := [Presented(t, false)],
       tokens := Apply(w.tokens, ttl, Refresh(t, at, active)).0)
  }

  lemma RunOneMore(w: World, ttl: nat, actions: seq<Action>, a: Action)
    ensures Run(w, ttl, actions + [a]) == Step(Run(w, ttl, actions), ttl, a)
  {
    assert (actions + [a])[..|actions|] == actions;
  }

  lemma RunTwoMore(w: World, ttl: nat, actions: seq<Action>, a: Action, b: Action)
    ensures Run(w, ttl, actions + [a, b]) == Step(Step(Run(w, ttl, actions), ttl, a), ttl, b)
  {
    hide Run, Step;
    assert actions + [a, b] == actions + [a] + [b];
    RunOneMore(w, ttl, actions, a);
    RunOneMore(w, ttl, actions + [a], b);
  }

  lemma StartsRefreshing(w: World, ttl: nat, id: nat)
    requires Initial(w)
    ensures Step(Step(w, ttl, Start(id)), ttl, Respond(id, true)) == Refreshing(w, id)
  {
    var t := w.client.stored.value;
    assert w.client.calls[id := Call(Awaiting(false), 1)] == map[id := Call(Awaiting(false), 1)];
    assert map[id := Call(Awaiting(false), 1)][id := Call(Parked, 1)] == map[id := Call(Parked, 1)];
    assert w.requests + [t] == [t] && w.presented + [Presented(t, false)] == [Presented(t, false)];
  }

  lemma LosesTheReply(w: World, ttl: nat, id: nat, at: int, active: bool)
    requires Initial(w)
    ensures Step(Step(Step(Refreshing(w, id), ttl, ServerHandles(at, active)), ttl, LoseReply), ttl, Settle)
            == Lost(w, ttl, id, at, active)
  {
    var served := Step(Refreshing(w, id), ttl, ServerHandles(at, active));
    assert |served.replies| == 1 && [None] + served.replies[1..] == [None];
    var lost := Step(served, ttl, LoseReply);
    assert lost.requests == [] && lost.replies[1..] == [];
    assert Settled(lost.client, None).calls == map[id := Call(Woken(false), 1)];
  }

  lemma PresentsAgain(w: World, ttl: nat, first: nat, second: nat, at: int, active: bool)
    requires Initial(w) && first != second
    ensures var t := w.client.stored.value;
            var before := Step(Lost(w, ttl, first, at, active), ttl, Start(second));
            && !Prompt(before, Respond(second, true))
            && Step(before, ttl, Respond(second, true)).presented ==
                 [Presented(t, false), Presented(t, Accepts(w.tokens, t, at, active))]
  {
    var lost := Lost(w, ttl, first, at, active);
    var before := Step(lost, ttl, Start(second));
    assert first in before.client.calls && before.client.calls[first].phase.Woken?;
    RotatedExactly(w.tokens, ttl, w.client.stored.value, at, active);
    hide Apply, Accepts;
  }

  /** The server no longer takes a token it was presented exactly when it accepted it. */
  lemma RotatedExactly(tokens: seq<Token>, ttl: nat, t: nat, at: int, active: bool)
    requires Usable(tokens, t)
    ensures Usable(Apply(tokens, ttl, Refresh(t, at, active)).0, t) <==> !Accepts(tokens, t, at, active)
  {
  }

  /**
   * Without promptness the promise fails from every signed-in state: after a late wake the
   * same token is presented again, and it is a rotated one exactly when the server had
   * accepted the refresh whose reply was lost.
   */
  lemma {:induction false} LateWakePresentsARotatedToken(w: World, ttl: nat, first: nat, second: nat, at: int,
                                                         active: bool)
    requires Initial(w) && first != second
    ensures var t, actions := w.client.stored.value, LateWake(first, second, at, active);
            && !AllPrompt(w, ttl, actions)
            && Run(w, ttl, actions).presented ==
                 [Presented(t, false), Presented(t, Accepts(w.tokens, t, at, active))]
  {
    var a2 := [Start(first), Respond(first, true)];
    var a5 := a2 + [ServerHandles(at, active), LoseReply] + [Settle];
    var all := LateWake(first, second, at, active);
    assert all == a5 + [Start(second), Respond(second, true)] && all[..6] == a5 + [Start(second)];
    assert [] + a2 == a2;
    assert Run(w, ttl, []) == w;
    hide Run, Step, Prompt, Accepts, LateWake;
    RunTwoMore(w, ttl, [], Start(first), Respond(first, true));
    StartsRefreshing(w, ttl, first);
    RunTwoMore(w, ttl, a2, ServerHandles(at, active), LoseReply);
    RunOneMore(w, ttl, a2 + [ServerHandles(at, active), LoseReply], Settle);
    LosesTheReply(w, ttl, first, at, active);
    RunOneMore(w, ttl, a5, Start(second));
    RunTwoMore(w, ttl, a5, Start(second), Respond(second, true));
    hide Refreshing, Lost, Initial;
    PresentsAgain(w, ttl, first, second, at, active);
    assert !Prompt(Run(w, ttl, all[..6]), all[6]);
  }
}
