/**
  The queries over one snapshot of the game client's `allgamedata` document:
  the player list, the local player, the local player's team and the enemy team.
  The HTTP requests that fetch the snapshot are not modelled; `None` stands for
  a failed or non-200 fetch, and a missing JSON key is a `None` field.
*/
module LiveClient {
  import opened Wrappers

  datatype SpellInfo = SpellInfo(displayName: Option<string>)
  datatype SummonerSpells = SummonerSpells(summonerSpellOne: Option<SpellInfo>, summonerSpellTwo: Option<SpellInfo>)
  datatype Player = Player(
    summonerName: Option<string>,
    team: Option<string>,
    championName: Option<string>,
    summonerSpells: Option<SummonerSpells>)
  datatype ActivePlayer = ActivePlayer(summonerName: Option<string>)
  datatype GameData = GameData(allPlayers: Option<seq<Player>>, activePlayer: Option<ActivePlayer>)

  /** `data["allPlayers"]` when the snapshot was fetched and has that key. */
  function GetAllPlayers(data: Option<GameData>): (players: Option<seq<Player>>)
    ensures players.Some? <==> data.Some? && data.value.allPlayers.Some?
    ensures players.Some? ==> players == data.value.allPlayers
  {
    if data.Some? then data.value.allPlayers else None
  }

  /** `data["activePlayer"]` when the snapshot was fetched and has that key. */
  function GetActivePlayer(data: Option<GameData>): (active: Option<ActivePlayer>)
    ensures active.Some? <==> data.Some? && data.value.activePlayer.Some?
    ensures active.Some? ==> active == data.value.activePlayer
  {
    if data.Some? then data.value.activePlayer else None
  }

  /** The `team` of the first player called `name`, or None when nobody is. */
  function FirstTeam(players: seq<Player>, name: string): Option<string> {
    if players == [] then None
    else if players[0].summonerName == Some(name) then players[0].team
    else FirstTeam(players[1..], name)
  }

  /** The local summoner's name, when the snapshot has a non-empty one. */
  function ActiveSummoner(data: Option<GameData>): Option<string> {
    var active := GetActivePlayer(data);
    if active.None? then None
    else
      var name := active.value.summonerName;
      if name.None? || name.value == "" then None else name
  }

  /** The local player's team: looked up by summoner name among all players. */
  function PlayerTeam(data: Option<GameData>): Option<string> {
    var players := GetAllPlayers(data);
    var name := ActiveSummoner(data);
    if players.None? || |players.value| == 0 || name.None? then None
    else FirstTeam(players.value, name.value)
  }

  /** `get_player_team`: a linear search with early return. */
  method GetPlayerTeam(data: Option<GameData>) returns (team: Option<string>)
    ensures team == PlayerTeam(data)
  {
    var players := GetAllPlayers(data);
    if players.None? || |players.value| == 0 {
      return None;
    }
    var active := GetActivePlayer(data);
    if active.None? {
      return None;
    }
    var summoner := active.value.summonerName;
    if summoner.None? || summoner.value == "" {
      return None;
    }
    var all := players.value;
    for i := 0 to |all|
      invariant FirstTeam(all[i..], summoner.value) == PlayerTeam(data)
    {
      assert all[i..][1..] == all[i + 1..];
      if all[i].summonerName == summoner {
        return all[i].team;
      }
    }
    return None;
  }

  /** The team found is that of the first player whose name matches the local summoner's, and None when nobody matches or a guard fails. */
  lemma {:induction false} FirstTeamIsFirstMatch(players: seq<Player>, name: string)
    ensures (forall i :: 0 <= i < |players| ==> players[i].summonerName != Some(name)) ==> FirstTeam(players, name) == None
    ensures forall i ::
              0 <= i < |players| && players[i].summonerName == Some(name) &&
              (forall j :: 0 <= j < i ==> players[j].summonerName != Some(name))
              ==> FirstTeam(players, name) == players[i].team
  {
    if players != [] {
      FirstTeamIsFirstMatch(players[1..], name);
      forall i | 0 <= i < |players| && players[i].summonerName == Some(name)
        && (forall j :: 0 <= j < i ==> players[j].summonerName != Some(name))
        ensures FirstTeam(players, name) == players[i].team
      {
        if i > 0 {
          assert players[1..][i - 1] == players[i];
          forall j | 0 <= j < i - 1 ensures players[1..][j].summonerName != Some(name) {
            assert players[1..][j] == players[j + 1];
          }
        }
      }
      if forall i :: 0 <= i < |players| ==> players[i].summonerName != Some(name) {
        forall j | 0 <= j < |players[1..]| ensures players[1..][j].summonerName != Some(name) {
          assert players[1..][j] == players[j + 1];
        }
      }
    }
  }

  /** An order-preserving subsequence: `a` is `b` with some entries left out. */
  predicate Subsequence<T(==)>(a: seq<T>, b: seq<T>)
    decreases |b|
  {
    if a == [] then true
    else if b == [] then false
    else if a[0] == b[0] then Subsequence(a[1..], b[1..])
    else Subsequence(a, b[1..])
  }

  /** The players whose `team` is not `team`, in their original order; a player without a team is kept. */
  function OtherTeams(players: seq<Player>, team: string): (enemies: seq<Player>)
    ensures Subsequence(enemies, players)
    ensures forall p :: p in enemies ==> p.team != Some(team)
    ensures forall p :: multiset(enemies)[p] == if p.team == Some(team) then 0 else multiset(players)[p]
  {
    if players == [] then []
    else
      var rest := OtherTeams(players[1..], team);
      assert players == [players[0]] + players[1..];
      if players[0].team != Some(team) then
        assert ([players[0]] + rest)[1..] == rest;
        [players[0]] + rest
      else
        assert rest != [] ==> rest[0] != players[0];
        rest
  }

  /** `get_enemy_team` over a single snapshot. */
  function EnemyTeam(data: Option<GameData>): (enemies: seq<Player>)
    ensures GetAllPlayers(data).None? || |GetAllPlayers(data).value| == 0 ==> enemies == []
    ensures PlayerTeam(data).None? || PlayerTeam(data) == Some("") ==> enemies == []
    ensures enemies != [] ==>
      && Subsequence(enemies, GetAllPlayers(data).value)
      && forall p :: p in enemies ==> p.team != PlayerTeam(data)
    ensures GetAllPlayers(data).Some? && |GetAllPlayers(data).value| > 0 &&
            PlayerTeam(data).Some? && PlayerTeam(data) != Some("") ==>
      enemies == OtherTeams(GetAllPlayers(data).value, PlayerTeam(data).value)
    ensures GetAllPlayers(data).Some? && PlayerTeam(data).Some? && PlayerTeam(data) != Some("") ==>
      forall p :: p in GetAllPlayers(data).value && p.team != PlayerTeam(data) ==> p in enemies
  {
    var players := GetAllPlayers(data);
    if players.None? || |players.value| == 0 then []
    else
      var team := PlayerTeam(data);
      if team.None? || team.value == "" then []
      else OtherTeams(players.value, team.value)
  }
}
