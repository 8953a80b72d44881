/** The event stream of one game, and what one seat did across it. `src/replay.rs`. */
module ReplayEvents {
  import opened Prelude

  /** The scoring detail of a win. An absent list of yaku is not an empty one. */
  datatype Win = Win(
    yakuIds: Option<seq<Option<nat>>>,
    uraMarkers: seq<string>,
    tehais: seq<string>,
    pai: Option<string>,
    fan: Option<nat>,
    yakuman: bool)

  datatype SeatResult = SeatResult(seat: nat, totalPoint: int, gradingScore: int)

  /** An event, with the fields the scorer reads; a field that is missing or of the wrong type is `None`, or the
      default the scorer puts in its place. */
  datatype Event =
    | StartGame(names: Option<seq<string>>, levels: seq<nat>)
    | StartKyoku(oya: nat, kyotaku: int, startScores: Option<seq<int>>)
    | Tsumo(actor: Option<nat>)
    | Dahai(actor: Option<nat>)
    | ReachAccepted(actor: Option<nat>)
    | Call(actor: Option<nat>)
    | Hora(actor: Option<nat>, target: Option<nat>, deltas: Option<seq<int>>, scores: Option<seq<int>>, win: Win)
    | Ryukyoku(deltas: Option<seq<int>>, scores: Option<seq<int>>, tenpais: Option<seq<bool>>)
    | EndKyoku
    | EndGame(finalScores: Option<seq<int>>, result: Option<seq<SeatResult>>)
    | Other

  /** The counters of one seat that add up over hands. */
  datatype Tally = Tally(
    hands: int, handsAsDealer: int, netPoints: int,
    wins: int, winsTsumo: int, winPoints: int, winTurns: int, dealIns: int, dealInPoints: int,
    riichi: int, riichiWins: int, riichiDealIns: int, riichiTurns: int,
    riichiFirst: int, riichiChasing: int, riichiChased: int, riichiNet: int,
    called: int, calledWins: int, draws: int, drawsTenpai: int,
    riichiIppatsu: int, riichiUraHits: int, yakuman: int)

  const ZERO: Tally := Tally(0, 0, 0, 0, 0, 0, 0, 0, 0, 0, 0, 0, 0, 0, 0, 0, 0, 0, 0, 0, 0, 0, 0, 0)

  function Add(a: Tally, b: Tally): Tally
  {
    Tally(a.hands + b.hands, a.handsAsDealer + b.handsAsDealer, a.netPoints + b.netPoints,
          a.wins + b.wins, a.winsTsumo + b.winsTsumo, a.winPoints + b.winPoints, a.winTurns + b.winTurns,
          a.dealIns + b.dealIns, a.dealInPoints + b.dealInPoints,
          a.riichi + b.riichi, a.riichiWins + b.riichiWins, a.riichiDealIns + b.riichiDealIns,
          a.riichiTurns + b.riichiTurns, a.riichiFirst + b.riichiFirst, a.riichiChasing + b.riichiChasing,
          a.riichiChased + b.riichiChased, a.riichiNet + b.riichiNet,
          a.called + b.called, a.calledWins + b.calledWins, a.draws + b.draws, a.drawsTenpai + b.drawsTenpai,
          a.riichiIppatsu + b.riichiIppatsu, a.riichiUraHits + b.riichiUraHits, a.yakuman + b.yakuman)
  }

  /** Mahjong Soul's own id for the one-shot yaku. */
  const YAKU_IPPATSU: nat := 30

  // ------------------------------------------------------------------------------------------------------- tiles

  /** A red five counts as its own tile. */
  function Normalise(tile: string): string
  {
    if tile != [] && tile[|tile| - 1] == 'r' then Normalise(tile[..|tile| - 1]) else tile
  }

  function DigitOf(c: char): Option<nat>
  {
    if '0' <= c <= '9' then Some((c - '0') as nat) else None
  }

  /** The tile an indicator makes a dora: the one after it, in its own cycle. */
  function DoraFrom(marker: string): Option<string>
  {
    if marker == "E" then Some("S") else if marker == "S" then Some("W")
    else if marker == "W" then Some("N") else if marker == "N" then Some("E")
    else if marker == "P" then Some("F") else if marker == "F" then Some("C")
    else if marker == "C" then Some("P")
    else
      var tile := Normalise(marker);
      if tile == [] then None
      else
        match DigitOf(tile[0])
        case None => None
        case Some(number) => Some(['0' + (number % 9 + 1) as char] + tile[1..])
  }

  /** An indicator that names neither wind nor dragon is split after its first byte, red marks aside: which there must
      be, and it must be a whole character. */
  predicate Splits(marker: string)
  {
    var tile := Normalise(marker);
    marker in ["E", "S", "W", "N", "P", "F", "C"] || (tile != [] && tile[0] as int < 0x80)
  }

  /** Whether an indicator matched a tile of the hand, the winning tile included. */
  predicate Hits(win: Win, marker: string)
  {
    exists t :: 0 <= t < |Tiles(win)| && DoraFrom(marker) == Some(Normalise(Tiles(win)[t]))
  }

  predicate UraHit(win: Win)
  {
    exists m :: 0 <= m < |win.uraMarkers| && Hits(win, win.uraMarkers[m])
  }

  /** Looking for a hit, which ends with the first, comes to an indicator that does not split: the program panics. */
  predicate UraPanics(win: Win)
  {
    exists m :: 0 <= m < |win.uraMarkers| && !Splits(win.uraMarkers[m])
             && forall k :: 0 <= k < m ==> !Hits(win, win.uraMarkers[k])
  }

  function Tiles(win: Win): seq<string>
  {
    win.tehais + if win.pai.Some? then [win.pai.value] else []
  }

  /** Whether a win was one-shot: the game's own yaku list decides where there is one. */
  predicate IsIppatsu(win: Win, reconstructed: bool)
  {
    match win.yakuIds
    case Some(ids) => Some(YAKU_IPPATSU) in ids
    case None => reconstructed
  }
}
