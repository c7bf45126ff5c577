/**
 * The match catalog (app/services/matchService.ts): seven fixture matches,
 * a level filter, and the `joinMatch` / `createMatch` stubs. The simulated
 * network delay is not modelled; each call is a pure function of the catalog,
 * and the stubs hand the catalog back so that "nothing changes" can be stated.
 */
module MatchService {
  import opened Wrappers
  import opened Seqs
  import opened Levels

  datatype Players = Players(current: int, required: int)

  /** A scheduled game. `date` and `time` are the 'YYYY-MM-DD' and 'HH:MM' strings of the source. */
  datatype Match = Match(
    id: string,
    name: string,
    complexId: string,
    complexName: string,
    date: string,
    time: string,
    players: Players,
    level: Level,
    description: Option<string>)

  /** `Omit<Match, 'id'>`: what `createMatch` is given. */
  datatype NewMatch = NewMatch(
    name: string,
    complexId: string,
    complexName: string,
    date: string,
    time: string,
    players: Players,
    level: Level,
    description: Option<string>)

  /** `{ id, ...match }`: the record with an id put in front. */
  function WithId(m: NewMatch, id: string): (r: Match)
    ensures r.id == id
  {
    Match(id, m.name, m.complexId, m.complexName, m.date, m.time, m.players, m.level, m.description)
  }

  /** The record without its id. */
  function WithoutId(m: Match): NewMatch
  {
    NewMatch(m.name, m.complexId, m.complexName, m.date, m.time, m.players, m.level, m.description)
  }

  /** Adding an id and taking it away again gives back the new match, field for field. */
  lemma WithIdRoundTrip(m: NewMatch, id: string)
    ensures WithoutId(WithId(m, id)) == m
  {
  }

  /** A match is its id plus the rest of its fields. */
  lemma WithoutIdRoundTrip(m: Match)
    ensures WithId(WithoutId(m), m.id) == m
  {
  }

  const M1 := Match("1", "Partido Amistoso", "1", "Complejo Deportivo Central", "2023-10-25", "18:00",
    Players(6, 10), Intermedio, Some("Partido amistoso de f\U{FA}tbol 5. Todos son bienvenidos!"))
  const M2 := Match("2", "Partido R\U{E1}pido", "2", "Club Deportivo Norte", "2023-10-26", "19:30",
    Players(4, 8), Novato, Some("Para principiantes, buen ambiente y sin presiones."))
  const M3 := Match("3", "Torneo Semiprofesional", "3", "Polideportivo Municipal", "2023-10-27", "20:00",
    Players(8, 10), Avanzado, Some("Nivel competitivo, se recomienda experiencia previa."))
  const M4 := Match("4", "Entrenamiento Grupal", "4", "Club Atl\U{E9}tico River", "2023-10-28", "17:00",
    Players(5, 12), Intermedio, Some("Entrenamiento y partido amistoso para mejorar habilidades."))
  const M5 := Match("5", "Partido Recreativo", "5", "Club Deportivo Sur", "2023-10-29", "16:30",
    Players(3, 6), Novato, Some("Para pasar un buen rato entre amigos."))
  const M6 := Match("6", "Liga Amateur", "1", "Complejo Deportivo Central", "2023-10-30", "19:00",
    Players(7, 10), Intermedio, Some("Partido de liga amateur, ambiente competitivo pero amistoso."))
  const M7 := Match("7", "Campeonato Local", "2", "Club Deportivo Norte", "2023-10-31", "18:30",
    Players(9, 12), Avanzado, Some("Alta competencia, se requiere buen nivel t\U{E9}cnico."))

  /** `MOCK_MATCHES`, in source order. */
  const MockMatches: seq<Match> := [M1, M2, M3, M4, M5, M6, M7]

  /** Room for more players, and a game needs at least two. */
  predicate WellFormedPlayers(m: Match)
  {
    0 <= m.players.current < m.players.required && m.players.required > 1
  }

  /** `getMatches`: the whole catalog, in order. */
  function GetMatches(catalog: seq<Match>): (r: seq<Match>)
    ensures r == catalog
  {
    catalog
  }

  function HasLevel(level: Level): Match -> bool
  {
    (m: Match) => m.level == level
  }

  /** `getMatchesByLevel`: the matches of exactly that level, in catalog order. */
  function GetMatchesByLevel(catalog: seq<Match>, level: Level): (r: seq<Match>)
    ensures forall m :: m in r <==> m in catalog && m.level == level
    ensures IsSubsequence(r, catalog)
  {
    FilterIsSubsequence(catalog, HasLevel(level));
    Filter(catalog, HasLevel(level))
  }

  /** The level filter keeps every copy of a match of that level and nothing else. */
  lemma ByLevelCount(catalog: seq<Match>, level: Level, m: Match)
    ensures multiset(GetMatchesByLevel(catalog, level))[m] ==
      if m.level == level then multiset(catalog)[m] else 0
  {
    FilterCount(catalog, HasLevel(level), m);
  }

  /** The three levels split any catalog: the three filtered lists together are as long as the catalog. */
  lemma {:induction false} LevelsPartition(catalog: seq<Match>)
    ensures |GetMatchesByLevel(catalog, Novato)| + |GetMatchesByLevel(catalog, Intermedio)|
      + |GetMatchesByLevel(catalog, Avanzado)| == |catalog|
    decreases |catalog|
  {
    if |catalog| > 0 {
      LevelsPartition(catalog[1..]);
      assert catalog == [catalog[0]] + catalog[1..];
      FilterCons(catalog[0], catalog[1..], HasLevel(Novato));
      FilterCons(catalog[0], catalog[1..], HasLevel(Intermedio));
      FilterCons(catalog[0], catalog[1..], HasLevel(Avanzado));
    }
  }

  /** `joinMatch`: reports success for any id and changes nothing, not even the player count. */
  function JoinMatch(catalog: seq<Match>, matchId: string): (r: (bool, seq<Match>))
    ensures r.0
    ensures r.1 == catalog
  {
    (true, catalog)
  }

  /** `createMatch`: the given fields under a fresh id; the catalog is not extended. */
  function CreateMatch(catalog: seq<Match>, m: NewMatch, freshId: string): (r: (Match, seq<Match>))
    ensures r.0.id == freshId
    ensures WithoutId(r.0) == m
    ensures r.1 == catalog
  {
    (WithId(m, freshId), catalog)
  }
}
