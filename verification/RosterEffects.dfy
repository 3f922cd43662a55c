/** What a check-in request answers on the current roster, and what it leaves in the rows. */
module RosterEffects {
  import opened Domain
  import opened Roster

  // ----- What is stored -----

  /** The rows gained one player and nothing else changed. */
  predicate Gained(before: Rows, after: Rows, p: Player) {
    && p.id !in before.players && after.players.Keys == before.players.Keys + {p.id} && after.players[p.id] == p
    && forall i | i in before.players :: after.players[i] == before.players[i]
  }

  /** One row may have changed and nothing else has. */
  predicate ChangedOnly(before: Rows, after: Rows, id: nat) {
    && after.players.Keys == before.players.Keys
    && forall i | i in before.players && i != id :: after.players[i] == before.players[i]
  }

  /** The rows lost one player and nothing else changed. */
  predicate Lost(before: Rows, after: Rows, id: nat) {
    && id in before.players && after.players.Keys == before.players.Keys - {id}
    && forall i | i in after.players :: after.players[i] == before.players[i]
  }

  /** A join answered with success is stored: one new row, as asked. */
  lemma JoinIsStored(rows: Rows, s: Snapshot, user: nat, team: Team, number: Jersey, consent: bool) returns (id: nat)
    requires Safe(rows) && Apply(rows, s, Join(user, team, number, consent)).1 == Done
    ensures Gained(rows, Apply(rows, s, Join(user, team, number, consent)).0, Player(id, user, team, number, false))
  {
    id := rows.next;
  }

  /** So is a player added by the operator, with the override that was allowed. */
  lemma AddIsStored(rows: Rows, s: Snapshot, user: nat, team: Team, number: Jersey, allowDuplicate: bool)
    returns (id: nat)
    requires Safe(rows) && Apply(rows, s, Add(user, team, number, allowDuplicate)).1 == Done
    ensures Gained(rows, Apply(rows, s, Add(user, team, number, allowDuplicate)).0,
                   Player(id, user, team, number, allowDuplicate))
  {
    id := rows.next;
  }

  function Asked<T>(wanted: Option<T>, current: T): T {
    match wanted case None => current case Some(x) => x
  }

  /** On a fresh snapshot an edit answered with success leaves exactly the row asked for. */
  lemma UpdateIsStored(rows: Rows, s: Snapshot, id: nat, newTeam: Option<Team>, newNumber: Option<Jersey>, allow: bool)
    requires Safe(rows) && Fresh(rows, s) && Apply(rows, s, Update(id, newTeam, newNumber, allow)).1 == Done
    ensures var after := Apply(rows, s, Update(id, newTeam, newNumber, allow)).0;
            && id in rows.players && ChangedOnly(rows, after, id)
            && after.players[id] == Player(id, rows.players[id].user, Asked(newTeam, rows.players[id].team),
                                           Asked(newNumber, rows.players[id].number), allow)
  {
  }

  /**
   * On a stale one it leaves, column by column, what was asked where that differs from what
   * had been loaded, and elsewhere what someone else may have written since.
   */
  lemma StaleUpdateIsStored(rows: Rows, s: Snapshot, p: Player, newTeam: Option<Team>, newNumber: Option<Jersey>,
                            allow: bool)
    requires p in s.players && forall q | q in s.players && q.id == p.id :: q == p
    requires Apply(rows, s, Update(p.id, newTeam, newNumber, allow)).1 == Done
    ensures var after := Apply(rows, s, Update(p.id, newTeam, newNumber, allow)).0;
            && p.id in rows.players && ChangedOnly(rows, after, p.id)
            && (var was, row := rows.players[p.id], after.players[p.id];
                && row.id == was.id && row.user == was.user
                && row.team == (if Asked(newTeam, p.team) != p.team then Asked(newTeam, p.team) else was.team)
                && row.number == (if Asked(newNumber, p.number) != p.number then Asked(newNumber, p.number)
                                  else was.number)
                && row.overridden == if allow != p.overridden then allow else was.overridden)
  {
    assert FindById(s, p.id) == Some(p);
  }

  /** A player who leaves, or is removed, is gone, and nobody else is. */
  lemma LeavingIsStored(rows: Rows, s: Snapshot, user: nat) returns (id: nat)
    requires Apply(rows, s, Leave(user)).1 == Done
    ensures Lost(rows, Apply(rows, s, Leave(user)).0, id)
    ensures exists p :: p in s.players && p.id == id && p.user == user
    ensures Fresh(rows, s) ==> rows.players[id].user == user
  {
    id := FindByUser(s, user).value.id;
  }

  lemma RemovalIsStored(rows: Rows, s: Snapshot, id: nat)
    requires Apply(rows, s, Remove(id)).1 == Done
    ensures Lost(rows, Apply(rows, s, Remove(id)).0, id)
  {
  }

  // ----- What is answered on the current roster -----

  predicate Open(status: MatchStatus) {
    status == MatchStatus.Scheduled || status == MatchStatus.CheckIn
  }

  predicate Joined(rows: Rows, user: nat) {
    exists id :: id in rows.players && rows.players[id].user == user
  }

  predicate Wearing(rows: Rows, except: Option<nat>, team: Team, number: Jersey) {
    exists id :: id in rows.players && Some(id) != except
                 && rows.players[id].team == team && rows.players[id].number == number
  }

  lemma FreshFacts(rows: Rows, s: Snapshot, user: nat, team: Team, number: Jersey, id: nat)
    requires Safe(rows) && Fresh(rows, s)
    ensures HasUser(s, user) <==> Joined(rows, user)
    ensures Worn(s, team, number) <==> Wearing(rows, None, team, number)
    ensures WornByOther(s, id, team, number) <==> Wearing(rows, Some(id), team, number)
    ensures FindById(s, id).Some? <==> id in rows.players
    ensures FindById(s, id).Some? ==> FindById(s, id).value == rows.players[id]
    ensures FindByUser(s, user).Some? <==> Joined(rows, user)
    ensures FindByUser(s, user).Some? ==> FindByUser(s, user).value.id in rows.players
  {
    if p :| p in s.players && p.team == team && p.number == number {
      assert Some(p.id) != None && rows.players[p.id] == p;
    }
    if p :| p in s.players && p.id != id && p.team == team && p.number == number {
      assert Some(p.id) != Some(id) && rows.players[p.id] == p;
    }
  }

  /** Every answer a join can get on the current roster, and when. */
  lemma JoinAnswers(rows: Rows, s: Snapshot, user: nat, team: Team, number: Jersey, consent: bool)
    requires Safe(rows) && Fresh(rows, s)
    ensures Apply(rows, s, Join(user, team, number, consent)).1 ==
              if !Open(s.status) then Refused(NotJoinable)
              else if !consent then Refused(ConsentRequired)
              else if Joined(rows, user) then Refused(AlreadyJoined)
              else if Wearing(rows, None, team, number) then Refused(JerseyTaken)
              else Done
  {
    FreshFacts(rows, s, user, team, number, 0);
    FreshChecksSuffice(rows, s, Join(user, team, number, consent));
    hide Safe, Fresh, Joined, Wearing, HasUser, Worn, UserClash, NumberClash;
  }

  lemma AddAnswers(rows: Rows, s: Snapshot, user: nat, team: Team, number: Jersey, allowDuplicate: bool)
    requires Safe(rows) && Fresh(rows, s)
    ensures Apply(rows, s, Add(user, team, number, allowDuplicate)).1 ==
              if !Open(s.status) then Refused(NotJoinable)
              else if Joined(rows, user) then Refused(AlreadyJoined)
              else if !allowDuplicate && Wearing(rows, None, team, number) then Refused(JerseyTaken)
              else Done
  {
    FreshFacts(rows, s, user, team, number, 0);
    FreshChecksSuffice(rows, s, Add(user, team, number, allowDuplicate));
    hide Safe, Fresh, Joined, Wearing, HasUser, Worn, UserClash, NumberClash;
  }

  lemma UpdateAnswers(rows: Rows, s: Snapshot, id: nat, newTeam: Option<Team>, newNumber: Option<Jersey>, allow: bool)
    requires Safe(rows) && Fresh(rows, s)
    ensures Apply(rows, s, Update(id, newTeam, newNumber, allow)).1 ==
              if id !in rows.players then Refused(NotFound)
              else if !allow && Wearing(rows, Some(id), Asked(newTeam, rows.players[id].team),
                                        Asked(newNumber, rows.players[id].number)) then Refused(JerseyTaken)
              else Done
  {
    FreshChecksSuffice(rows, s, Update(id, newTeam, newNumber, allow));
    FreshFacts(rows, s, 0, A, 0, id);
    if id in rows.players {
      var p := rows.players[id];
      FreshFacts(rows, s, 0, Asked(newTeam, p.team), Asked(newNumber, p.number), id);
    }
    hide Safe, Fresh, Wearing, HasUser, Worn, WornByOther, NumberClash, FindById, FindByUser, Joined;
  }

  lemma GoingAnswers(rows: Rows, s: Snapshot, user: nat, id: nat)
    requires Safe(rows) && Fresh(rows, s)
    ensures Apply(rows, s, Leave(user)).1 ==
              if !Joined(rows, user) then Refused(NotFound)
              else if !Open(s.status) then Refused(AlreadyStarted)
              else Done
    ensures Apply(rows, s, Remove(id)).1 == if id !in rows.players then Refused(NotFound) else Done
  {
    FreshFacts(rows, s, user, A, 0, id);
    hide Safe, Fresh, Joined, FindById, FindByUser;
  }
}
