/** Shirt numbers put to names: from reads per track to the one player who wears the number. */
module Attribution {
  import opened Domain
  import opened Roster
  import V = Voting
  import D = Verdicts

  /** One recognizer output. */
  datatype Reading = Reading(track: nat, number: Jersey, confidence: real)

  datatype TrackRow = TrackRow(number: Option<nat>, confidence: Option<real>, player: Option<nat>)

  /** The reads of one track, in order. */
  function ReadsOf(readings: seq<Reading>, track: nat): seq<V.Read> {
    if readings == [] then []
    else
      var last := readings[|readings|-1];
      ReadsOf(readings[..|readings|-1], track)
        + (if last.track == track then [V.Read(last.number, last.confidence, 0.0)] else [])
  }

  function Keys(registered: map<Jersey, nat>): set<nat> { set n: Jersey | n in registered :: n as nat }

  function VerdictOf(readings: seq<Reading>, track: nat, registered: map<Jersey, nat>, rules: V.Rules): V.Verdict {
    V.Vote(ReadsOf(readings, track), Some(Keys(registered)), rules)
  }

  /** What the vote leaves in a track's row. */
  function Attributed(row: TrackRow, verdict: V.Verdict, registered: map<Jersey, nat>): TrackRow {
    if verdict.Verdict? && verdict.number.Some? && verdict.number.value <= 99 && verdict.number.value in registered then
      TrackRow(verdict.number, Some(verdict.confidence), Some(registered[verdict.number.value]))
    else row
  }

  /** An accepted number is always a registered one, so looking it up never fails. */
  lemma AcceptedIsRegistered(entries: seq<V.Read>, allowed: set<nat>, rules: V.Rules)
    requires rules.minReadConfidence > 0.0
    ensures var verdict := V.Vote(entries, Some(allowed), rules);
            verdict.Verdict? && (verdict.number.Some? ==> verdict.number.value in allowed)
  {
    var usable := V.UsableReads(entries, Some(allowed), rules);
    if usable != [] {
      D.WeightsAreShares(usable, 0);
      V.WinnerIsCounted(usable);
      V.SeenIsRead(usable, V.Ranked(usable)[0].number);
    }
  }

  /** The places of a track's readings, in order. */
  predicate PlacesOf(readings: seq<Reading>, track: nat, places: seq<nat>) {
    && (forall k | 0 <= k < |places| :: places[k] < |readings| && readings[places[k]].track == track)
    && (forall k, l | 0 <= k < l < |places| :: places[k] < places[l])
    && (forall i: nat | i < |readings| && readings[i].track == track :: i in places)
  }

  lemma OneMorePlace(readings: seq<Reading>, track: nat, before: seq<nat>)
    requires readings != [] && PlacesOf(readings[..|readings|-1], track, before)
    ensures PlacesOf(readings, track, before + if readings[|readings|-1].track == track then [|readings|-1] else [])
  {
    forall i: nat | i < |readings| - 1 && readings[i].track == track ensures i in before {
      assert readings[..|readings|-1][i] == readings[i];
    }
  }

  /** The reads of the readings at these places, with their number and confidence. */
  predicate ReadAt(votes: seq<V.Read>, readings: seq<Reading>, places: seq<nat>) {
    && |votes| == |places|
    && forall k | 0 <= k < |places| ::
         && places[k] < |readings|
         && votes[k] == V.Read(readings[places[k]].number, readings[places[k]].confidence, 0.0)
  }

  /** A track's reads are those of its readings, all of them and in order. */
  lemma {:induction false} ReadsOfATrack(readings: seq<Reading>, track: nat) returns (places: seq<nat>)
    ensures PlacesOf(readings, track, places) && ReadAt(ReadsOf(readings, track), readings, places)
  {
    if readings == [] {
      places := [];
    } else {
      var rest, last := readings[..|readings|-1], |readings| - 1;
      var before := ReadsOfATrack(rest, track);
      OneMorePlace(readings, track, before);
      places := before + if readings[last].track == track then [last] else [];
      hide PlacesOf;
    }
  }

  /** Groups the readings by track, in order of first appearance. */
  method GroupByTrack(readings: seq<Reading>) returns (order: seq<nat>, byTrack: map<nat, seq<V.Read>>)
    ensures forall k :: k in byTrack <==> k in order
    ensures forall k | k in byTrack :: byTrack[k] == ReadsOf(readings, k)
    ensures forall k: nat | k !in byTrack :: ReadsOf(readings, k) == []
  {
    order, byTrack := [], map[];
    for i := 0 to |readings|
      invariant forall k :: k in byTrack <==> k in order
      invariant forall k | k in byTrack :: byTrack[k] == ReadsOf(readings[..i], k)
      invariant forall k: nat | k !in byTrack :: ReadsOf(readings[..i], k) == []
    {
      var r := readings[i];
      assert readings[..i+1][..i] == readings[..i];
      if r.track !in byTrack {
        order, byTrack := order + [r.track], byTrack[r.track := []];
      }
      byTrack := byTrack[r.track := byTrack[r.track] + [V.Read(r.number, r.confidence, 0.0)]];
    }
    assert readings[..|readings|] == readings;
  }

  /** The step's effect on the stored tracks: each takes its own verdict, and no other row changes. */
  method ReadJerseys(rows: map<nat, TrackRow>, readings: seq<Reading>, players: seq<Player>, rules: V.Rules)
    returns (after: map<nat, TrackRow>, registered: map<Jersey, nat>)
    requires rules.minReadConfidence > 0.0
    ensures forall n :: n in registered <==> Wearers(players, n) == 1
    ensures forall i | 0 <= i < |players| && players[i].number in registered ::
              registered[players[i].number] == players[i].id
    ensures after.Keys == rows.Keys
    ensures forall k | k in rows ::
              after[k] == Attributed(rows[k], VerdictOf(readings, k, registered, rules), registered)
  {
    registered := RegisteredNumbers(players);
    var order, byTrack := GroupByTrack(readings);
    after := rows;
    for i := 0 to |order|
      invariant after.Keys == rows.Keys
      invariant forall k | k in rows ::
        after[k] == if k in order[..i] then Attributed(rows[k], VerdictOf(readings, k, registered, rules), registered)
                    else rows[k]
    {
      var track := order[i];
      assert track in order;
      var verdict := V.RunVote(byTrack[track], Some(Keys(registered)), rules);
      AcceptedIsRegistered(byTrack[track], Keys(registered), rules);
      assert order[..i+1] == order[..i] + [track];
      if track in rows && verdict.number.Some? {
        after := after[track :=
          TrackRow(verdict.number, Some(verdict.confidence), Some(registered[verdict.number.value]))];
      }
    }
    assert order[..|order|] == order;
    forall k | k in rows && k !in order
      ensures rows[k] == Attributed(rows[k], VerdictOf(readings, k, registered, rules), registered)
    {
      assert ReadsOf(readings, k) == [];
    }
  }

  /** Whoever a track is attributed to is the only player on the roster wearing the number read. */
  lemma {:induction false} AttributionIsUnambiguous(players: seq<Player>, registered: map<Jersey, nat>, row: TrackRow,
                                                    verdict: V.Verdict, i: nat)
    requires forall n :: n in registered <==> Wearers(players, n) == 1
    requires forall i | 0 <= i < |players| && players[i].number in registered ::
               registered[players[i].number] == players[i].id
    requires verdict.Verdict? && verdict.number.Some? && verdict.number.value in Keys(registered)
    requires i < |players|
    ensures var after := Attributed(row, verdict, registered);
            && after.number == verdict.number
            && (players[i].number == verdict.number.value ==>
                  (after.player == Some(players[i].id)
                   && forall j | 0 <= j < |players| && players[j].number == verdict.number.value :: j == i))
  {
    if players[i].number == verdict.number.value {
      forall j: nat | j < |players| && players[j].number == verdict.number.value ensures j == i {
        if j < i {
          TwoWearers(players, j, i);
        } else if i < j {
          TwoWearers(players, i, j);
        }
      }
    }
  }

  /** The player wearing a number that only one wears. */
  predicate OnlyWearer(players: seq<Player>, number: nat, i: nat) {
    i < |players| && players[i].number == number
    && forall j | 0 <= j < |players| && players[j].number == number :: j == i
  }

  /**
   * What a track's row says after its reads were put to the vote: with an accepted number,
   * that number, the verdict's confidence and the one player who wears it; without one, what
   * it said before.
   */
  lemma {:induction false} TracksAreAttributed(players: seq<Player>, registered: map<Jersey, nat>,
                                               readings: seq<Reading>, track: nat, row: TrackRow, rules: V.Rules)
    requires rules.minReadConfidence > 0.0
    requires forall n :: n in registered <==> Wearers(players, n) == 1
    requires forall i | 0 <= i < |players| && players[i].number in registered ::
               registered[players[i].number] == players[i].id
    ensures var verdict := V.Vote(ReadsOf(readings, track), Some(Keys(registered)), rules);
            var after := Attributed(row, VerdictOf(readings, track, registered, rules), registered);
            && verdict.Verdict?
            && (verdict.number == None ==> after == row)
            && (verdict.number.Some? ==>
                  && after.number == verdict.number && after.confidence == Some(verdict.confidence)
                  && exists i: nat ::
                       OnlyWearer(players, verdict.number.value, i) && after.player == Some(players[i].id))
  {
    var verdict := V.Vote(ReadsOf(readings, track), Some(Keys(registered)), rules);
    AcceptedIsRegistered(ReadsOf(readings, track), Keys(registered), rules);
    if verdict.number.Some? {
      var number: Jersey := verdict.number.value;
      var i := SomeWearer(players, number);
      AttributionIsUnambiguous(players, registered, row, verdict, i);
      assert OnlyWearer(players, number, i);
    }
  }
}
