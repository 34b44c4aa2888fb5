/**
 * The countries chain-game page: its state as a class whose fields are the page's state
 * variables, and its handlers as methods. Each handler is specified by the matching transition
 * of `GameRules`; lookups go to the countries query layer.
 */
module CountryGame {
  import opened Wrappers
  import opened Text
  import opened Canon
  import AD = AtlasData
  import CB = CountryBuild
  import LI = LetterIndex
  import GR = GameRules

  /** A country as a move: its id and the canonical form of its display name. */
  function MoveOf(c: CB.Country): GR.Move
  {
    GR.Move(c.id, Canonicalize(c.displayName))
  }

  /** `resolveAlias(trimmed)`, then `getCountryById` of the id found. */
  function LookUp(table: map<string, string>, byId: map<string, CB.Country>, trimmed: string): Option<GR.Move>
  {
    match AD.ResolveAlias(table, trimmed)
    case None => None
    case Some(id) =>
      match AD.GetCountryById(byId, id)
      case None => None
      case Some(c) => Some(MoveOf(c))
  }

  /** A typed name becomes the move of the country its alias resolves to, if the artifact has it. */
  lemma LookUpSpec(table: map<string, string>, cs: seq<CB.Country>, trimmed: string)
    ensures var r := LookUp(table, AD.CountriesById(cs), trimmed);
            r.Some? <==> AD.ResolveAlias(table, trimmed).Some?
                         && exists i :: 0 <= i < |cs| && cs[i].id == AD.ResolveAlias(table, trimmed).value
    ensures var r := LookUp(table, AD.CountriesById(cs), trimmed);
            r.Some? ==> r.value.id == AD.ResolveAlias(table, trimmed).value
                        && exists c :: c in cs && r.value == MoveOf(c)
  {
    match AD.ResolveAlias(table, trimmed)
    case None =>
    case Some(id) => AD.GetCountryByIdSpec(cs, id);
  }

  /** The computer's candidates for `letter`: `getCountriesByFirstLetter(letter)` as moves. */
  function Candidates(ix: LI.Index, byId: map<string, CB.Country>, letter: char): seq<GR.Move>
  {
    var cs := AD.GetCountriesByFirstLetter(ix, byId, [letter]);
    seq(|cs|, i requires 0 <= i < |cs| => MoveOf(cs[i]))
  }

  /** Every candidate is a known country listed under the letter. */
  lemma CandidatesSpec(ix: LI.Index, byId: map<string, CB.Country>, letter: char)
    requires IsAsciiLetter(letter)
    ensures forall m :: m in Candidates(ix, byId, letter) ==>
              exists id :: letter in ix.buckets && id in ix.buckets[letter] && id in byId && m == MoveOf(byId[id])
  {
    var cs := AD.GetCountriesByFirstLetter(ix, byId, [letter]);
    AD.GetCountriesByFirstLetterSpec(ix, byId, [letter]);
    assert AD.QueryLetter([letter]) == Some(letter);
    forall m | m in Candidates(ix, byId, letter)
      ensures exists id :: letter in ix.buckets && id in ix.buckets[letter] && id in byId && m == MoveOf(byId[id])
    {
      var i :| 0 <= i < |cs| && m == MoveOf(cs[i]);
      assert cs[i] in cs;
    }
  }

  /** `getRandomAvailableLetter()` as the string the page stores (`undefined` when there is none). */
  function RandomStart(ix: LI.Index, roll: real): Option<string>
    requires 0.0 <= roll < 1.0
  {
    match AD.GetRandomAvailableLetter(ix, roll)
    case None => None
    case Some(l) => Some([l])
  }

  /** The countries page. */
  class Page {
    const table: map<string, string>
    const byId: map<string, CB.Country>
    const index: LI.Index

    var mode: Option<GR.Mode>
    var requiredLetter: Option<string>
    var input: string
    var usedIds: set<string>
    var gameOver: bool
    var gameStarted: bool
    var timeLeft: GR.Clock
    var streak: nat
    var skipsLeft: int
    var cpuThinking: bool
    var pending: seq<GR.Reply>

    /** The page state; the countries data is always loaded. */
    function State(): GR.Turn
      reads this
    {
      GR.Turn(mode, requiredLetter, input, usedIds, gameOver, gameStarted, timeLeft, streak,
              skipsLeft, cpuThinking, true, pending)
    }

    constructor (ds: CB.CountryDataset)
      ensures State() == GR.Initial(true)
      ensures table == ds.aliasToCanonical && byId == AD.CountriesById(ds.countries) && index == ds.letterIndex
    {
      table := ds.aliasToCanonical;
      byId := AD.CountriesById(ds.countries);
      index := ds.letterIndex;
      mode := None;
      requiredLetter := Some("");
      input := "";
      usedIds := {};
      gameOver := false;
      gameStarted := false;
      timeLeft := GR.Finite(90);
      streak := 0;
      skipsLeft := 3;
      cpuThinking := false;
      pending := [];
    }

    /** `startGame(m)`; the first letter is drawn with `roll`. */
    method StartGame(m: GR.Mode, roll: real)
      requires 0.0 <= roll < 1.0
      modifies this
      ensures State() == GR.Start(old(State()), m, RandomStart(index, roll))
    {
      var start := RandomStart(index, roll);
      Reset(m, start);
    }

    /** The state setters of `startGame`; the scheduled replies are not cancelled. */
    method Reset(m: GR.Mode, start: Option<string>)
      modifies this
      ensures State() == GR.Start(old(State()), m, start)
    {
      var duration := GR.GetGameDuration(m);
      mode, requiredLetter, usedIds, gameOver, gameStarted := Some(m), start, {}, false, false;
      timeLeft, streak, skipsLeft, input, cpuThinking := duration, 0, 3, "", false;
      assert State() == GR.Turn(Some(m), start, "", {}, false, false, duration, 0, 3, false, true, pending);
    }

    /** `handlePlayerInput(value)` */
    method HandlePlayerInput(value: string)
      modifies this
      ensures State() == GR.Input(old(State()), value)
    {
      if !gameStarted && Trim(value) != [] {
        gameStarted := true;
      }
      input := value;
    }

    /** One firing of the one-second interval. */
    method Tick()
      modifies this
      ensures State() == GR.Tick(old(State()))
    {
      if gameStarted && !gameOver && mode != Some(GR.Endless) {
        match timeLeft
        case Infinite =>
        case Finite(prev) =>
          if prev <= 1 {
            gameOver := true;
            timeLeft := GR.Finite(0);
          } else {
            timeLeft := GR.Finite(prev - 1);
          }
      }
    }

    /** `submitPlayer()` */
    method SubmitPlayer()
      modifies this
      ensures State() == GR.Submit(old(State()), LookUp(table, byId, Trim(old(input))))
    {
      if gameOver || cpuThinking {
        return;
      }
      var trimmed := Trim(input);
      if trimmed == [] {
        return;
      }
      var country := LookUp(table, byId, trimmed);
      Play(country);
    }

    /** The part of `submitPlayer()` after the lookup: the checks in order, then the accepted move. */
    method Play(country: Option<GR.Move>)
      requires !GR.SubmitIgnored(State())
      modifies this
      ensures State() == GR.Submit(old(State()), country)
    {
      if country.None? {
        streak := 0;
        return;
      }
      if country.value.id in usedIds {
        streak := 0;
        return;
      }
      var first := FirstChar(country.value.canonical);
      if requiredLetter != Some(first) {
        streak := 0;
        return;
      }
      streak := streak + 1;
      var nextLetter := LastLetter(country.value.canonical);
      var nextUsed := usedIds + {country.value.id};
      input := "";
      cpuThinking := true;
      if nextLetter.None? {
        pending := pending + [GR.GlitchWin];
        return;
      }
      pending := pending + [GR.CpuTurn(nextLetter.value, nextUsed)];
    }

    /** The scheduled reply `i` runs; the computer draws with `roll`. */
    method RunReply(i: nat, roll: real)
      requires i < |pending| && 0.0 <= roll < 1.0
      modifies this
      ensures State() == GR.Respond(old(State()), i,
                                    Success(match old(pending)[i]
                                            case GlitchWin => []
                                            case CpuTurn(next, _) => Candidates(index, byId, next)),
                                    roll)
    {
      var reply := pending[i];
      pending := pending[..i] + pending[i + 1..];
      var candidates := match reply
        case GlitchWin => []
        case CpuTurn(next, _) => Candidates(index, byId, next);
      Answer(reply, candidates, roll);
    }

    /** The body of the `setTimeout` callback scheduled by `submitPlayer`. */
    method Answer(reply: GR.Reply, candidates: seq<GR.Move>, roll: real)
      requires 0.0 <= roll < 1.0
      modifies this
      ensures State() == GR.Answer(old(State()), reply, Success(candidates), roll)
    {
      match reply
      case GlitchWin =>
        gameOver := true;
        cpuThinking := false;
      case CpuTurn(next, nextUsed) =>
        var cpu := GR.PickComputerMove(candidates, nextUsed, roll);
        if cpu.None? {
          requiredLetter := Some([next]);
          gameOver := true;
          cpuThinking := false;
          return;
        }
        var cpuNext := LastLetter(cpu.value.canonical);
        var used := nextUsed + {cpu.value.id};
        if cpuNext.None? {
          gameOver := true;
          cpuThinking := false;
          return;
        }
        usedIds := used;
        requiredLetter := Some([cpuNext.value]);
        cpuThinking := false;
    }

    /** `handleSkip()`; the new letter is drawn with `roll`. */
    method HandleSkip(roll: real)
      requires 0.0 <= roll < 1.0
      modifies this
      ensures State() == GR.Skip(old(State()), Success(RandomStart(index, roll)))
    {
      if gameOver || skipsLeft <= 0 || cpuThinking {
        if skipsLeft <= 0 {
          gameOver := true;
        }
        return;
      }
      skipsLeft := skipsLeft - 1;
      var newLetter := RandomStart(index, roll);
      requiredLetter := newLetter;
    }

    /** The "Play Again" button, shown once the game is over. */
    method PlayAgain()
      modifies this
      ensures State() == GR.PlayAgain(old(State()))
    {
      mode := None;
    }

    /** `handleGiveUp()` */
    method HandleGiveUp()
      modifies this
      ensures State() == GR.GiveUp(old(State()))
    {
      if gameOver || cpuThinking {
        return;
      }
      gameOver := true;
    }
  }
}
