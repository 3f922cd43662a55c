/** That the refresh does its work: calls that met a 401 go out again with a new token, or give up. */
module Replay {
  import opened Domain
  import opened RefreshTokens
  import opened RefreshProtocol

  /** A world some run without a lost reply, or a prompt one, has reached. */
  ghost predicate Reachable(w: World, ttl: nat) {
    exists start: World, actions: seq<Action> ::
      && Initial(start) && w == RefreshProtocol.Run(start, ttl, actions)
      && ((forall i | 0 <= i < |actions| :: !actions[i].LoseReply?) || AllPrompt(start, ttl, actions))
  }

  lemma ReachableKeeps(w: World, ttl: nat)
    requires Reachable(w, ttl)
    ensures Invariant(w, true)
  {
    var start: World, actions: seq<Action> :|
      && Initial(start) && w == RefreshProtocol.Run(start, ttl, actions)
      && ((forall i | 0 <= i < |actions| :: !actions[i].LoseReply?) || AllPrompt(start, ttl, actions));
    hide Invariant, AllAllowed, RefreshProtocol.Run, AllPrompt;
    if AllPrompt(start, ttl, actions) {
      PromptIsAllowed(start, ttl, actions);
      RunKeepsInvariant(start, ttl, actions, true);
    } else {
      NothingLostIsAllowed(start, ttl, actions);
      RunKeepsInvariant(start, ttl, actions, false);
      LossyIsWeaker(w);
    }
  }

  lemma LossyIsWeaker(w: World)
    requires Invariant(w, false)
    ensures Invariant(w, true)
  {
  }

  lemma RunTwo(w: World, ttl: nat, a: Action, b: Action)
    ensures RefreshProtocol.Run(w, ttl, [a, b]) == Step(Step(w, ttl, a), ttl, b)
  {
    assert [] + [a, b] == [a, b] && RefreshProtocol.Run(w, ttl, []) == w;
    RunTwoMore(w, ttl, [], a, b);
  }

  /**
   * When the refresh succeeds, every call that waited for it goes out a second time, and the
   * new token is the stored one.
   */
  lemma {:induction false} WaitingCallsAreReplayed(w: World, ttl: nat, id: nat, token: nat)
    requires Reachable(w, ttl) && w.replies != [] && w.replies[0] == Some(token)
    requires id in w.client.calls && w.client.calls[id].phase == Parked
    ensures var after := RefreshProtocol.Run(w, ttl, [Settle, Resume(id)]);
            && id in after.client.calls && after.client.calls[id] == Call(Awaiting(true), 2)
            && after.client.stored == Some(token) && !after.client.refreshing
            && Usable(after.tokens, token)
  {
    ReachableKeeps(w, ttl);
    assert CountsSends(w.client.calls[id]) && Usable(w.tokens, token);
    RunTwo(w, ttl, Settle, Resume(id));
    hide RefreshProtocol.Run, Invariant, Reachable, Usable;
  }

  /** When it fails, every call that waited ends after its one send, and the tokens are forgotten. */
  lemma {:induction false} WaitingCallsGiveUp(w: World, ttl: nat, id: nat)
    requires Reachable(w, ttl) && w.replies != [] && w.replies[0] == None
    requires id in w.client.calls && w.client.calls[id].phase == Parked
    ensures var after := RefreshProtocol.Run(w, ttl, [Settle, Resume(id)]);
            && id in after.client.calls && after.client.calls[id] == Call(Finished, 1)
            && after.client.stored == None && !after.client.refreshing
  {
    ReachableKeeps(w, ttl);
    assert CountsSends(w.client.calls[id]);
    RunTwo(w, ttl, Settle, Resume(id));
    hide RefreshProtocol.Run, Invariant, Reachable;
  }

  /** A call goes out once when it starts; nothing else is sent or stored. */
  lemma StartSendsOnce(w: World, ttl: nat, id: nat)
    requires id !in w.client.calls
    ensures Step(w, ttl, Start(id)) == w.(client := w.client.(calls := w.client.calls[id := Call(Awaiting(false), 1)]))
  {
  }

  /**
   * What a response does. Anything but a first 401 ends the call. A first 401 makes it wait
   * for the refresh; with none in flight it starts one, and exactly the stored token goes to
   * the server; with no token stored either the call is about to give up.
   */
  lemma ResponseDoes(w: World, ttl: nat, id: nat, unauthorized: bool, retried: bool)
    requires id in w.client.calls && w.client.calls[id].phase == Awaiting(retried)
    ensures var after := Step(w, ttl, Respond(id, unauthorized));
            var phase := if !unauthorized || retried then Finished
                         else if w.client.refreshing || w.client.stored.Some? then Parked
                         else Woken(false);
            var starts := unauthorized && !retried && !w.client.refreshing && w.client.stored.Some?;
            && after.client.calls == w.client.calls[id := Call(phase, w.client.calls[id].sends)]
            && after.client.stored == w.client.stored
            && after.client.refreshing == (w.client.refreshing || starts)
            && after.requests == (if starts then w.requests + [w.client.stored.value] else w.requests)
            && |after.presented| == |w.presented| + (if starts then 1 else 0)
            && after.tokens == w.tokens && after.replies == w.replies
  {
  }

  /** Calls that wait for the refresh all wake when it settles, and no other call is touched. */
  lemma SettlingWakesExactlyTheWaiting(w: World, ttl: nat, id: nat)
    requires w.replies != [] && id in w.client.calls
    ensures var after := Step(w, ttl, Settle);
            && after.client.calls.Keys == w.client.calls.Keys
            && after.client.calls[id] ==
                 (if w.client.calls[id].phase == Parked then Call(Woken(w.replies[0].Some?), w.client.calls[id].sends)
                  else w.client.calls[id])
  {
  }

  /**
   * The whole exchange: from any signed-in state a call that meets a 401 while the server
   * still takes the stored token is sent again, with the server's new token stored.
   */
  lemma {:induction false} ARefusedCallGoesOutAgain(w: World, ttl: nat, id: nat, at: int)
    requires Initial(w) && Accepts(w.tokens, w.client.stored.value, at, true)
    ensures var actions := [Start(id), Respond(id, true), ServerHandles(at, true), Settle, Resume(id)];
            var after := RefreshProtocol.Run(w, ttl, actions);
            && after.client.calls == map[id := Call(Awaiting(true), 2)]
            && after.client.stored == Some(|w.tokens|) && Usable(after.tokens, |w.tokens|)
            && after.requests == [] && after.replies == []
  {
    var waiting := Refreshing(w, id);
    var served := Step(waiting, ttl, ServerHandles(at, true));
    var actions := [Start(id), Respond(id, true), ServerHandles(at, true), Settle, Resume(id)];
    assert actions == [] + [Start(id), Respond(id, true)] + [ServerHandles(at, true)] + [Settle, Resume(id)];
    assert RefreshProtocol.Run(w, ttl, []) == w;
    assert served.replies == [Some(|w.tokens|)] && served.requests == [];
    assert Settled(served.client, Some(|w.tokens|)).calls == map[id := Call(Woken(true), 1)];
    var settled := Step(served, ttl, Settle);
    var after := Step(settled, ttl, Resume(id));
    assert settled.client.calls == map[id := Call(Woken(true), 1)];
    assert after.client.calls == map[id := Call(Awaiting(true), 2)];
    hide RefreshProtocol.Run, Step, Refreshing;
    StartsRefreshing(w, ttl, id);
    RunTwoMore(w, ttl, [], Start(id), Respond(id, true));
    RunOneMore(w, ttl, [] + [Start(id), Respond(id, true)], ServerHandles(at, true));
    RunTwoMore(w, ttl, [] + [Start(id), Respond(id, true)] + [ServerHandles(at, true)], Settle, Resume(id));
  }
}
