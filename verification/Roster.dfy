/**
 * Check-in: friendly pre-checks against a roster that may be out of date, backed by
 * unique indexes that the database checks atomically on every write.
 */
module Roster {
  import opened Domain
  import opened Sorting

  datatype Team = A | B

  /** The range the check constraint and the request schemas allow. */
  type Jersey = n: nat | n <= 99

  datatype Player = Player(id: nat, user: nat, team: Team, number: Jersey, overridden: bool)

  /** What a request loaded when it began: the match's status and its players, possibly stale by now. */
  datatype Snapshot = Snapshot(status: MatchStatus, players: seq<Player>)

  /** The rows of one match, by primary key, and the next key. */
  datatype Rows = Rows(players: map<nat, Player>, next: nat)

  datatype Request =
    | Join(user: nat, team: Team, number: Jersey, consent: bool)
    | Add(user: nat, team: Team, number: Jersey, allowDuplicate: bool)
    | Update(id: nat, newTeam: Option<Team>, newNumber: Option<Jersey>, allowDuplicate: bool)
    | Leave(user: nat)
    | Remove(id: nat)

  datatype Error = NotJoinable | ConsentRequired | AlreadyJoined | JerseyTaken | NotFound | AlreadyStarted

  /**
   * `Refused` by a check of the service, `Rejected` by a unique index, or the row is
   * `Gone` under the request's feet.
   */
  datatype Reply = Done | Refused(why: Error) | Rejected(index: Error) | Gone

  // ----- Checks on the snapshot -----

  predicate AcceptsPlayers(status: MatchStatus) {
    status == MatchStatus.Scheduled || status == MatchStatus.CheckIn
  }

  predicate HasUser(s: Snapshot, user: nat) {
    exists p :: p in s.players && p.user == user
  }

  predicate Worn(s: Snapshot, team: Team, number: Jersey) {
    exists p :: p in s.players && p.team == team && p.number == number
  }

  predicate WornByOther(s: Snapshot, id: nat, team: Team, number: Jersey) {
    exists p :: p in s.players && p.id != id && p.team == team && p.number == number
  }

  function FindById(s: Snapshot, id: nat): (r: Option<Player>)
    ensures r.Some? ==> r.value in s.players && r.value.id == id
    ensures r.None? ==> forall p | p in s.players :: p.id != id
    decreases |s.players|
  {
    if s.players == [] then None
    else if s.players[0].id == id then Some(s.players[0])
    else FindById(s.(players := s.players[1..]), id)
  }

  function FindByUser(s: Snapshot, user: nat): (r: Option<Player>)
    ensures r.Some? ==> r.value in s.players && r.value.user == user
    ensures r.None? ==> !HasUser(s, user)
    decreases |s.players|
  {
    if s.players == [] then None
    else if s.players[0].user == user then Some(s.players[0])
    else FindByUser(s.(players := s.players[1..]), user)
  }

  // ----- The unique indexes -----

  predicate UserClash(rows: Rows, p: Player) {
    exists id :: id in rows.players && id != p.id && rows.players[id].user == p.user
  }

  /** The partial index covers rows without the override. */
  predicate NumberClash(rows: Rows, p: Player) {
    && !p.overridden
    && exists id :: id in rows.players && id != p.id && !rows.players[id].overridden
                    && rows.players[id].team == p.team && rows.players[id].number == p.number
  }

  /** Inserts in one atomic, constrained write. */
  function InsertRow(rows: Rows, user: nat, team: Team, number: Jersey, overridden: bool): (Rows, Reply) {
    var p := Player(rows.next, user, team, number, overridden);
    if UserClash(rows, p) then (rows, Rejected(AlreadyJoined))
    else if NumberClash(rows, p) then (rows, Rejected(JerseyTaken))
    else (Rows(rows.players[p.id := p], rows.next + 1), Done)
  }

  function Delete(rows: Rows, id: nat): (Rows, Reply) {
    if id !in rows.players then (rows, Gone) else (rows.(players := rows.players - {id}), Done)
  }

  /** Only the columns that differ from what was loaded are written. */
  function Merged(current: Player, loaded: Player, team: Team, number: Jersey, overridden: bool): Player {
    Player(current.id, current.user,
           if team != loaded.team then team else current.team,
           if number != loaded.number then number else current.number,
           if overridden != loaded.overridden then overridden else current.overridden)
  }

  function Write(rows: Rows, loaded: Player, team: Team, number: Jersey, overridden: bool): (Rows, Reply) {
    if loaded.id !in rows.players then (rows, Gone)
    else
      var p := Merged(rows.players[loaded.id], loaded, team, number, overridden);
      if NumberClash(rows, p) then (rows, Rejected(JerseyTaken))
      else (rows.(players := rows.players[loaded.id := p]), Done)
  }

  // ----- The requests -----

  function Apply(rows: Rows, s: Snapshot, r: Request): (Rows, Reply) {
    match r
    case Join(user, team, number, consent) =>
      if !AcceptsPlayers(s.status) then (rows, Refused(NotJoinable))
      else if !consent then (rows, Refused(ConsentRequired))
      else if HasUser(s, user) then (rows, Refused(AlreadyJoined))
      else if Worn(s, team, number) then (rows, Refused(JerseyTaken))
      else InsertRow(rows, user, team, number, false)
    case Add(user, team, number, allowDuplicate) =>
      if !AcceptsPlayers(s.status) then (rows, Refused(NotJoinable))
      else if HasUser(s, user) then (rows, Refused(AlreadyJoined))
      else if !allowDuplicate && Worn(s, team, number) then (rows, Refused(JerseyTaken))
      else InsertRow(rows, user, team, number, allowDuplicate)
    case Update(id, newTeam, newNumber, allowDuplicate) => (
      match FindById(s, id)
      case None => (rows, Refused(NotFound))
      case Some(p) =>
        var team := if newTeam.Some? then newTeam.value else p.team;
        var number := if newNumber.Some? then newNumber.value else p.number;
        if !allowDuplicate && WornByOther(s, id, team, number) then (rows, Refused(JerseyTaken))
        else Write(rows, p, team, number, allowDuplicate))
    case Leave(user) => (
      match FindByUser(s, user)
      case None => (rows, Refused(NotFound))
      case Some(p) => if !AcceptsPlayers(s.status) then (rows, Refused(AlreadyStarted)) else Delete(rows, p.id))
    case Remove(id) => (
      match FindById(s, id)
      case None => (rows, Refused(NotFound))
      case Some(p) => Delete(rows, id))
  }

  // ----- The requests, on the rows in place -----

  class CheckIn {
    var players: map<nat, Player>
    var next: nat

    constructor ()
      ensures View() == Rows(map[], 0)
    {
      players, next := map[], 0;
    }

    function View(): Rows
      reads this
    {
      Rows(players, next)
    }

    method InsertPlayer(user: nat, team: Team, number: Jersey, overridden: bool) returns (reply: Reply)
      modifies this
      ensures (View(), reply) == InsertRow(old(View()), user, team, number, overridden)
    {
      var player := Player(next, user, team, number, overridden);
      if UserClash(View(), player) {
        return Rejected(AlreadyJoined);
      }
      if NumberClash(View(), player) {
        return Rejected(JerseyTaken);
      }
      players, next := players[next := player], next + 1;
      reply := Done;
    }

    method JoinMatch(s: Snapshot, user: nat, team: Team, number: Jersey, consent: bool) returns (reply: Reply)
      modifies this
      ensures (View(), reply) == Apply(old(View()), s, Join(user, team, number, consent))
    {
      if !AcceptsPlayers(s.status) {
        return Refused(NotJoinable);
      }
      if !consent {
        return Refused(ConsentRequired);
      }
      if HasUser(s, user) {
        return Refused(AlreadyJoined);
      }
      var taken := TakenJerseys(s);
      if number in taken[team] {
        return Refused(JerseyTaken);
      }
      reply := InsertPlayer(user, team, number, false);
    }

    method AddPlayerAsOperator(s: Snapshot, user: nat, team: Team, number: Jersey, allowDuplicate: bool)
      returns (reply: Reply)
      modifies this
      ensures (View(), reply) == Apply(old(View()), s, Add(user, team, number, allowDuplicate))
    {
      if !AcceptsPlayers(s.status) {
        return Refused(NotJoinable);
      }
      if HasUser(s, user) {
        return Refused(AlreadyJoined);
      }
      var taken := TakenJerseys(s);
      if !allowDuplicate && number in taken[team] {
        return Refused(JerseyTaken);
      }
      reply := InsertPlayer(user, team, number, allowDuplicate);
    }

    method UpdatePlayer(s: Snapshot, id: nat, newTeam: Option<Team>, newNumber: Option<Jersey>, allowDuplicate: bool)
      returns (reply: Reply)
      modifies this
      ensures (View(), reply) == Apply(old(View()), s, Update(id, newTeam, newNumber, allowDuplicate))
    {
      var found := FindById(s, id);
      if found.None? {
        return Refused(NotFound);
      }
      var player := found.value;
      var team := if newTeam.Some? then newTeam.value else player.team;
      var number := if newNumber.Some? then newNumber.value else player.number;
      if !allowDuplicate && WornByOther(s, id, team, number) {
        return Refused(JerseyTaken);
      }
      if id !in players {
        return Gone;
      }
      var merged := Merged(players[id], player, team, number, allowDuplicate);
      if NumberClash(View(), merged) {
        return Rejected(JerseyTaken);
      }
      players := players[id := merged];
      reply := Done;
    }

    method LeaveMatch(s: Snapshot, user: nat) returns (reply: Reply)
      modifies this
      ensures (View(), reply) == Apply(old(View()), s, Leave(user))
    {
      var found := FindByUser(s, user);
      if found.None? {
        return Refused(NotFound);
      }
      if !AcceptsPlayers(s.status) {
        return Refused(AlreadyStarted);
      }
      if found.value.id !in players {
        return Gone;
      }
      players := players - {found.value.id};
      reply := Done;
    }

    method RemovePlayer(s: Snapshot, id: nat) returns (reply: Reply)
      modifies this
      ensures (View(), reply) == Apply(old(View()), s, Remove(id))
    {
      var found := FindById(s, id);
      if found.None? {
        return Refused(NotFound);
      }
      if id !in players {
        return Gone;
      }
      players := players - {id};
      reply := Done;
    }
  }

  // ----- Safety -----

  /** One row per user, and one row without the override per team and number. */
  predicate Safe(rows: Rows) {
    && (forall id | id in rows.players :: rows.players[id].id == id && id < rows.next)
    && (forall i, j | i in rows.players && j in rows.players && i != j :: rows.players[i].user != rows.players[j].user)
    && (forall i, j | i in rows.players && j in rows.players && i != j
                      && !rows.players[i].overridden && !rows.players[j].overridden ::
          rows.players[i].team != rows.players[j].team || rows.players[i].number != rows.players[j].number)
  }

  lemma WriteRowKeepsSafe(rows: Rows, p: Player, next: nat)
    requires Safe(rows) && p.id < next && next >= rows.next
    requires !UserClash(rows, p) && !NumberClash(rows, p)
    ensures Safe(Rows(rows.players[p.id := p], next))
  {
  }

  lemma SameUserNoClash(rows: Rows, p: Player)
    requires Safe(rows) && p.id in rows.players && p.user == rows.players[p.id].user
    ensures !UserClash(rows, p)
  {
  }

  /** Whatever the request saw when it began, the write keeps the roster safe; anything but success changes nothing. */
  lemma RequestKeepsSafe(rows: Rows, s: Snapshot, r: Request)
    requires Safe(rows)
    ensures Safe(Apply(rows, s, r).0)
    ensures Apply(rows, s, r).1 != Done ==> Apply(rows, s, r).0 == rows
  {
    match r
    case Join(user, team, number, consent) => InsertRowKeepsSafe(rows, user, team, number, false);
    case Add(user, team, number, allowDuplicate) => InsertRowKeepsSafe(rows, user, team, number, allowDuplicate);
    case Update(id, newTeam, newNumber, allowDuplicate) =>
      var found := FindById(s, id);
      if found.Some? {
        var p := found.value;
        WriteKeepsSafe(rows, p, if newTeam.Some? then newTeam.value else p.team,
                       if newNumber.Some? then newNumber.value else p.number, allowDuplicate);
      }
    case Leave(user) =>
    case Remove(id) =>
  }

  lemma InsertRowKeepsSafe(rows: Rows, user: nat, team: Team, number: Jersey, overridden: bool)
    requires Safe(rows)
    ensures Safe(InsertRow(rows, user, team, number, overridden).0)
  {
    var p := Player(rows.next, user, team, number, overridden);
    if !UserClash(rows, p) && !NumberClash(rows, p) {
      WriteRowKeepsSafe(rows, p, rows.next + 1);
    }
  }

  lemma WriteKeepsSafe(rows: Rows, loaded: Player, team: Team, number: Jersey, overridden: bool)
    requires Safe(rows)
    ensures Safe(Write(rows, loaded, team, number, overridden).0)
  {
    if loaded.id in rows.players {
      var p := Merged(rows.players[loaded.id], loaded, team, number, overridden);
      SameUserNoClash(rows, p);
      if !NumberClash(rows, p) {
        WriteRowKeepsSafe(rows, p, rows.next);
      }
    }
  }

  function Run(rows: Rows, steps: seq<(Snapshot, Request)>): Rows {
    if steps == [] then rows
    else Apply(Run(rows, steps[..|steps|-1]), steps[|steps|-1].0, steps[|steps|-1].1).0
  }

  /** Every interleaving of requests, each with any snapshot however stale, leaves a safe roster. */
  lemma {:induction false} RostersStaySafe(steps: seq<(Snapshot, Request)>)
    ensures Safe(Run(Rows(map[], 0), steps))
  {
    if steps != [] {
      RostersStaySafe(steps[..|steps|-1]);
      hide Safe, Apply;
      var last := steps[|steps|-1];
      RequestKeepsSafe(Run(Rows(map[], 0), steps[..|steps|-1]), last.0, last.1);
    }
  }

  // ----- What the pre-checks are worth -----

  /** The snapshot shows the rows as they are. */
  predicate Fresh(rows: Rows, s: Snapshot) {
    && (forall p | p in s.players :: p.id in rows.players && rows.players[p.id] == p)
    && (forall id | id in rows.players :: rows.players[id] in s.players)
  }

  lemma FreshUser(rows: Rows, s: Snapshot, p: Player)
    requires Safe(rows) && Fresh(rows, s)
    ensures HasUser(s, p.user) <==> exists id :: id in rows.players && rows.players[id].user == p.user
  {
  }

  lemma FreshNumber(rows: Rows, s: Snapshot, p: Player)
    requires Safe(rows) && Fresh(rows, s) && NumberClash(rows, p)
    ensures WornByOther(s, p.id, p.team, p.number) && Worn(s, p.team, p.number)
  {
    var id :| id in rows.players && id != p.id && !rows.players[id].overridden
              && rows.players[id].team == p.team && rows.players[id].number == p.number;
    assert rows.players[id] in s.players;
  }

  /** On the current roster, what the pre-checks let through no index ever rejects. */
  lemma FreshChecksSuffice(rows: Rows, s: Snapshot, r: Request)
    requires Safe(rows) && Fresh(rows, s)
    ensures Apply(rows, s, r).1.Done? || Apply(rows, s, r).1.Refused?
  {
    match r
    case Join(user, team, number, consent) =>
      if !HasUser(s, user) && !Worn(s, team, number) {
        FreshInsert(rows, s, user, team, number, false);
      }
    case Add(user, team, number, allowDuplicate) =>
      if !HasUser(s, user) && (allowDuplicate || !Worn(s, team, number)) {
        FreshInsert(rows, s, user, team, number, allowDuplicate);
      }
    case Update(id, newTeam, newNumber, allowDuplicate) =>
      var found := FindById(s, id);
      if found.Some? {
        var p := found.value;
        var team := if newTeam.Some? then newTeam.value else p.team;
        var number := if newNumber.Some? then newNumber.value else p.number;
        var q := Merged(rows.players[id], p, team, number, allowDuplicate);
        assert q == Player(id, p.user, team, number, allowDuplicate);
        if NumberClash(rows, q) {
          FreshNumber(rows, s, q);
        }
      }
    case Leave(user) =>
    case Remove(id) =>
  }

  lemma FreshInsert(rows: Rows, s: Snapshot, user: nat, team: Team, number: Jersey, overridden: bool)
    requires Safe(rows) && Fresh(rows, s) && !HasUser(s, user) && (overridden || !Worn(s, team, number))
    ensures InsertRow(rows, user, team, number, overridden).1 == Done
  {
    var p := Player(rows.next, user, team, number, overridden);
    FreshUser(rows, s, p);
    if NumberClash(rows, p) {
      FreshNumber(rows, s, p);
    }
  }

  /** On the current roster a join succeeds exactly when it should. */
  lemma FreshJoinSucceedsExactly(rows: Rows, s: Snapshot, user: nat, team: Team, number: Jersey, consent: bool)
    requires Safe(rows) && Fresh(rows, s)
    ensures Apply(rows, s, Join(user, team, number, consent)).1 == Done <==>
              && AcceptsPlayers(s.status) && consent
              && (forall id | id in rows.players :: rows.players[id].user != user)
              && (forall id | id in rows.players :: rows.players[id].team != team || rows.players[id].number != number)
  {
    FreshChecksSuffice(rows, s, Join(user, team, number, consent));
  }

  /** A stale pre-check decides nothing: once it has passed, the join stands or falls with the rows themselves. */
  lemma StaleJoinIsDecidedByTheIndexes(rows: Rows, s: Snapshot, user: nat, team: Team, number: Jersey)
    requires Safe(rows) && AcceptsPlayers(s.status) && !HasUser(s, user) && !Worn(s, team, number)
    ensures Apply(rows, s, Join(user, team, number, true)).1 == Done <==>
              && (forall id | id in rows.players :: rows.players[id].user != user)
              && (forall id | id in rows.players && !rows.players[id].overridden ::
                    rows.players[id].team != team || rows.players[id].number != number)
  {
    var p := Player(rows.next, user, team, number, false);
    assert UserClash(rows, p) <==> exists id :: id in rows.players && rows.players[id].user == user;
  }

  // ----- Reading the roster -----

  predicate NotAbove(a: Jersey, b: Jersey) { a <= b }

  function NumbersOf(players: seq<Player>, team: Team): (r: seq<Jersey>)
    ensures forall n :: n in r <==> exists p :: p in players && p.team == team && p.number == n
  {
    if players == [] then []
    else
      var last := players[|players|-1];
      assert forall p :: p in players <==> p in players[..|players|-1] || p == last;
      NumbersOf(players[..|players|-1], team) + (if last.team == team then [last.number] else [])
  }

  lemma NumbersStep(players: seq<Player>, i: nat)
    requires i < |players|
    ensures forall team :: NumbersOf(players[..i+1], team)
                        == NumbersOf(players[..i], team) + (if players[i].team == team then [players[i].number] else [])
  {
    assert players[..i+1][..i] == players[..i];
  }

  predicate Ascending(numbers: seq<Jersey>) {
    forall i, j | 0 <= i < j < |numbers| :: numbers[i] <= numbers[j]
  }

  /** Per team, the numbers worn, sorted: what the check-in form greys out is what the pre-check refuses. */
  method TakenJerseys(s: Snapshot) returns (taken: map<Team, seq<Jersey>>)
    ensures taken.Keys == {A, B}
    ensures forall team | team in taken ::
              && Ascending(taken[team])
              && multiset(taken[team]) == multiset(NumbersOf(s.players, team))
              && forall n :: n in taken[team] <==> Worn(s, team, n)
  {
    var a, b: seq<Jersey> := [], [];
    for i := 0 to |s.players|
      invariant a == NumbersOf(s.players[..i], A) && b == NumbersOf(s.players[..i], B)
    {
      NumbersStep(s.players, i);
      hide NumbersOf;
      if s.players[i].team == A {
        a := a + [s.players[i].number];
      } else {
        b := b + [s.players[i].number];
      }
    }
    assert s.players[..|s.players|] == s.players;
    SortedNumbers(a);
    SortedNumbers(b);
    taken := map[A := Sort(a, NotAbove), B := Sort(b, NotAbove)];
  }

  lemma SortedNumbers(s: seq<Jersey>)
    ensures Ascending(Sort(s, NotAbove)) && forall n :: n in Sort(s, NotAbove) <==> n in s
  {
    assert TotalPreorder(NotAbove);
    SortInOrder(s, NotAbove);
    SameElements(s, NotAbove);
    var r := Sort(s, NotAbove);
    assert forall i, j | 0 <= i < j < |r| :: NotAbove(r[i], r[j]);
  }

  function Wearers(players: seq<Player>, number: Jersey): nat {
    if players == [] then 0
    else Wearers(players[..|players|-1], number) + if players[|players|-1].number == number then 1 else 0
  }

  /**
   * Numbers a jersey read may be matched to: exactly those one row in the match wears,
   * whichever team it is on, each leading to that row.
   */
  method RegisteredNumbers(players: seq<Player>) returns (registered: map<Jersey, nat>)
    ensures forall n :: n in registered <==> Wearers(players, n) == 1
    ensures forall i | 0 <= i < |players| && players[i].number in registered ::
              registered[players[i].number] == players[i].id
  {
    var counts: map<Jersey, nat> := map[];
    for i := 0 to |players|
      invariant forall n: Jersey :: Wearers(players[..i], n) == if n in counts then counts[n] else 0
      invariant forall j | 0 <= j < i :: players[j].number in counts
    {
      assert players[..i+1][..i] == players[..i];
      var n := players[i].number;
      counts := counts[n := (if n in counts then counts[n] else 0) + 1];
    }
    assert players[..|players|] == players;
    registered := map[];
    for i := 0 to |players|
      invariant forall n :: n in registered <==>
                  Wearers(players, n) == 1 && exists j :: 0 <= j < i && players[j].number == n
      invariant forall j | 0 <= j < i && players[j].number in registered ::
                  registered[players[j].number] == players[j].id
    {
      if counts[players[i].number] == 1 {
        forall j | 0 <= j < i ensures players[j].number != players[i].number {
          if players[j].number == players[i].number {
            TwoWearers(players, j, i);
            assert false;
          }
        }
        registered := registered[players[i].number := players[i].id];
      }
    }
    forall n | Wearers(players, n) == 1 ensures exists j :: 0 <= j < |players| && players[j].number == n {
      var j := SomeWearer(players, n);
    }
  }

  lemma {:induction false} SomeWearer(players: seq<Player>, number: Jersey) returns (j: nat)
    requires Wearers(players, number) > 0
    ensures j < |players| && players[j].number == number
  {
    if players[|players|-1].number == number {
      j := |players| - 1;
    } else {
      j := SomeWearer(players[..|players|-1], number);
    }
  }

  lemma {:induction false} WearersAtLeastOne(players: seq<Player>, j: nat)
    requires j < |players|
    ensures Wearers(players, players[j].number) >= 1
  {
    if j < |players| - 1 {
      WearersAtLeastOne(players[..|players|-1], j);
    }
  }

  lemma {:induction false} TwoWearers(players: seq<Player>, i: nat, j: nat)
    requires i < j < |players| && players[i].number == players[j].number
    ensures Wearers(players, players[i].number) >= 2
  {
    var rest := players[..|players|-1];
    if j == |players| - 1 {
      WearersAtLeastOne(rest, i);
    } else {
      TwoWearers(rest, i, j);
    }
  }

  function TeamWearers(players: seq<Player>, team: Team, number: Jersey): nat {
    if players == [] then 0
    else TeamWearers(players[..|players|-1], team, number) + Wears(players[|players|-1], team, number)
  }

  function Wears(p: Player, team: Team, number: Jersey): nat { if p.team == team && p.number == number then 1 else 0 }

  lemma {:induction false} WearersByTeam(players: seq<Player>, number: Jersey)
    ensures Wearers(players, number) == TeamWearers(players, A, number) + TeamWearers(players, B, number)
  {
    if players != [] {
      WearersByTeam(players[..|players|-1], number);
    }
  }

  /** No two players of a team wear the number. */
  predicate OncePerTeam(players: seq<Player>, number: Jersey) {
    forall i, j | 0 <= i < j < |players| && players[i].number == players[j].number == number ::
      players[i].team != players[j].team
  }

  lemma {:induction false} TeamWearersCount(players: seq<Player>, team: Team, number: Jersey)
    requires OncePerTeam(players, number)
    ensures TeamWearers(players, team, number) <= 1
    ensures TeamWearers(players, team, number) == 1 <==>
              exists p :: p in players && p.team == team && p.number == number
  {
    if players != [] {
      var rest, last := players[..|players|-1], players[|players|-1];
      TeamWearersCount(rest, team, number);
      assert forall p :: p in players <==> p in rest || p == last;
      if last.team == team && last.number == number {
        forall p | p in rest && p.number == number ensures p.team != team {
          var i :| 0 <= i < |rest| && rest[i] == p;
          assert players[i] == p;
        }
      }
    }
  }

  /** Rows of the match, none of them twice. */
  predicate Listed(rows: Rows, players: seq<Player>) {
    && (forall p | p in players :: p.id in rows.players && rows.players[p.id] == p)
    && (forall i, j | 0 <= i < j < |players| :: players[i].id != players[j].id)
  }

  lemma SafeIsOncePerTeam(rows: Rows, players: seq<Player>, number: Jersey)
    requires Safe(rows) && Listed(rows, players)
    requires forall p | p in players && p.number == number :: !p.overridden
    ensures OncePerTeam(players, number)
  {
    forall i, j | 0 <= i < j < |players| && players[i].number == players[j].number == number
      ensures players[i].team != players[j].team
    {
      assert players[i] in players && players[j] in players;
    }
  }

  /**
   * The override is not the only way to lose a number: in a safe roster where no row
   * wearing it is overridden, a number is worn and yet unregistered exactly when both
   * teams wear it.
   */
  lemma {:induction false} OneNumberOnBothTeams(rows: Rows, players: seq<Player>, number: Jersey)
    requires Safe(rows) && Listed(rows, players)
    requires forall p | p in players && p.number == number :: !p.overridden
    ensures Wearers(players, number) > 0 && Wearers(players, number) != 1 <==>
              && (exists p :: p in players && p.team == A && p.number == number)
              && (exists p :: p in players && p.team == B && p.number == number)
  {
    SafeIsOncePerTeam(rows, players, number);
    WearersByTeam(players, number);
    TeamWearersCount(players, A, number);
    TeamWearersCount(players, B, number);
    hide Safe, Listed, OncePerTeam, Wearers, TeamWearers;
  }
}
