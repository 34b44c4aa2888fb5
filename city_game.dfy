/**
 * The cities chain-game page. Its rules are those of the countries page (`GameRules`), with
 * three differences: names go through the client-side cities service and its digit-keeping
 * canonicalizer, every lookup is a request whose outcome (or thrown error) is a parameter, and
 * nothing can be played until the cities data has been loaded.
 */
module CityGame {
  import opened Wrappers
  import opened Text
  import opened Canon
  import CS = CitiesService
  import GR = GameRules

  /** A city as a move: its id and the runtime canonical form of its display name. */
  function MoveOf(c: CS.CityInfo): GR.Move
  {
    GR.Move(c.id, CS.RuntimeCanonicalize(c.displayName))
  }

  /**
   * `await resolveAlias(trimmed)`, then, for a non-empty id, `await getCityById(id)`:
   * `searched` is the outcome of the search request and `fetched` that of the request by id.
   */
  function LookUp(trimmed: string, searched: Result<seq<CS.Candidate>, string>, fetched: Result<CS.CityInfo, string>): Option<GR.Move>
  {
    match CS.ResolveAlias(trimmed, searched)
    case None => None
    case Some(id) =>
      if id == [] then None
      else
        match CS.GetCityById(fetched)
        case None => None
        case Some(c) => Some(MoveOf(c))
  }

  /**
   * A typed name becomes a move only when the search succeeded, some search hit with a
   * non-empty id matched, and the city could be fetched.
   */
  lemma LookUpSpec(trimmed: string, searched: Result<seq<CS.Candidate>, string>, fetched: Result<CS.CityInfo, string>)
    ensures LookUp(trimmed, searched, fetched).Some? <==>
              CS.ResolveAlias(trimmed, searched).Some? && CS.ResolveAlias(trimmed, searched).value != [] && fetched.Success?
    ensures LookUp(trimmed, searched, fetched).Some? ==>
              searched.Success? && LookUp(trimmed, searched, fetched).value == MoveOf(fetched.value)
              && exists i :: 0 <= i < |searched.value| && searched.value[i].id == CS.ResolveAlias(trimmed, searched).value
  {
    CS.ResolveAliasSpec(trimmed, searched);
  }

  /**
   * A city whose display name starts with a digit has that digit as its first character: the
   * runtime canonicalizer keeps digits, so the first-letter check may compare a digit.
   */
  lemma FirstMayBeDigit(d: char, rest: string)
    requires IsAsciiDigit(d)
    ensures FirstChar(CS.RuntimeCanonicalize([d] + rest)) == [d]
  {
    LowerConcat([d], rest);
    assert Lower([d]) == [d];
    Canon.NfdIdentity([d]);
    FilterKeepsAll(Canon.NotMark, [d]);
    FilterKeepsAll(IsAsciiAlnum, [d]);
    CS.AlnumsConcat([d], Lower(rest));
    CS.RuntimeCanonicalizeSpec([d] + rest);
  }

  /** The computer's candidates: the fetched list of `getCitiesByFirstLetter` as moves. */
  function CityCandidates(bucket: Result<seq<CS.CityInfo>, string>): Result<seq<GR.Move>, string>
  {
    match bucket
    case Failure(e) => Failure(e)
    case Success(cs) => Success(seq(|cs|, i requires 0 <= i < |cs| => MoveOf(cs[i])))
  }

  /** `await getRandomAvailableLetter()` as the page stores it. */
  function Drawn(letter: Result<string, string>): Result<Option<string>, string>
  {
    match letter
    case Failure(e) => Failure(e)
    case Success(l) => Success(Some(l))
  }

  /**
   * `startGame(mode)`: the mode is set at once; the data is loaded unless it already is
   * (`probe` is the outcome of the connection test); then the first letter is fetched (`start`).
   * A failed load or a failed first-letter request leaves the rest of the state as it was.
   */
  function StartCities(s: GR.Turn, mode: GR.Mode, probe: Result<string, string>, start: Result<string, string>): GR.Turn
  {
    var withMode := s.(mode := Some(mode));
    var loaded := if withMode.dataLoaded || probe.Failure? then withMode else withMode.(dataLoaded := true);
    if !loaded.dataLoaded then loaded
    else
      match start
      case Failure(_) => loaded
      case Success(l) => GR.Start(loaded, mode, Some(l))
  }

  /**
   * A start succeeds exactly when the data is (or becomes) loaded and the first letter arrives;
   * it then resets the game as the countries page does. Otherwise only the mode (and the loaded
   * flag) change.
   */
  lemma StartCitiesSpec(s: GR.Turn, mode: GR.Mode, probe: Result<string, string>, start: Result<string, string>)
    ensures var r := StartCities(s, mode, probe, start);
            r.dataLoaded <==> s.dataLoaded || probe.Success?
    ensures var r := StartCities(s, mode, probe, start);
            (s.dataLoaded || probe.Success?) && start.Success? ==>
              r == GR.Start(s.(dataLoaded := true), mode, Some(start.value))
              && r.skipsLeft == 3 && r.streak == 0 && r.usedIds == {} && !r.gameOver
    ensures var r := StartCities(s, mode, probe, start);
            !((s.dataLoaded || probe.Success?) && start.Success?) ==>
              r == s.(mode := Some(mode), dataLoaded := s.dataLoaded || probe.Success?)
  {
  }

  /** The cities page. */
  class Page {
    var mode: Option<GR.Mode>
    var requiredLetter: Option<string>
    var input: string
    var usedIds: set<string>
    var gameOver: bool
    var gameStarted: bool
    var timeLeft: GR.Clock
    var streak: nat
    var skipsLeft: int
    var cpuThinking: bool
    var dataLoaded: bool
    var pending: seq<GR.Reply>

    function State(): GR.Turn
      reads this
    {
      GR.Turn(mode, requiredLetter, input, usedIds, gameOver, gameStarted, timeLeft, streak,
              skipsLeft, cpuThinking, dataLoaded, pending)
    }

    constructor ()
      ensures State() == GR.Initial(false)
    {
      mode := None;
      requiredLetter := Some("");
      input := "";
      usedIds := {};
      gameOver := false;
      gameStarted := false;
      timeLeft := GR.Finite(90);
      streak := 0;
      skipsLeft := 3;
      cpuThinking := false;
      dataLoaded := false;
      pending := [];
    }

    /** `startGame(m)` with `loadCitiesData()` inlined. */
    method StartGame(m: GR.Mode, probe: Result<string, string>, start: Result<string, string>)
      modifies this
      ensures State() == StartCities(old(State()), m, probe, start)
    {
      mode := Some(m);
      if !dataLoaded {
        if probe.Failure? {
          return;
        }
        dataLoaded := true;
      }
      if start.Failure? {
        return;
      }
      Reset(m, Some(start.value));
    }

    /** The state setters of `startGame`; the scheduled replies are not cancelled. */
    method Reset(m: GR.Mode, start: Option<string>)
      modifies this
      ensures State() == GR.Start(old(State()), m, start)
    {
      var duration := GR.GetGameDuration(m);
      mode, requiredLetter, usedIds, gameOver, gameStarted := Some(m), start, {}, false, false;
      timeLeft, streak, skipsLeft, input, cpuThinking := duration, 0, 3, "", false;
      assert State() == GR.Turn(Some(m), start, "", {}, false, false, duration, 0, 3, false, dataLoaded, pending);
    }

    /** `handlePlayerInput(value)` */
    method HandlePlayerInput(value: string)
      modifies this
      ensures State() == GR.Input(old(State()), value)
    {
      if !gameStarted && Trim(value) != [] {
        gameStarted := true;
      }
      input := value;
    }

    /** One firing of the one-second interval. */
    method Tick()
      modifies this
      ensures State() == GR.Tick(old(State()))
    {
      if gameStarted && !gameOver && mode != Some(GR.Endless) {
        match timeLeft
        case Infinite =>
        case Finite(prev) =>
          if prev <= 1 {
            gameOver := true;
            timeLeft := GR.Finite(0);
          } else {
            timeLeft := GR.Finite(prev - 1);
          }
      }
    }

    /** `submitPlayer()`, given the outcomes of its two requests. */
    method SubmitPlayer(searched: Result<seq<CS.Candidate>, string>, fetched: Result<CS.CityInfo, string>)
      modifies this
      ensures State() == GR.Submit(old(State()), LookUp(Trim(old(input)), searched, fetched))
    {
      if gameOver || cpuThinking || !dataLoaded {
        return;
      }
      var trimmed := Trim(input);
      if trimmed == [] {
        return;
      }
      var city := LookUp(trimmed, searched, fetched);
      Play(city);
    }

    /** The part of `submitPlayer()` after the lookups: the checks in order, then the accepted move. */
    method Play(city: Option<GR.Move>)
      requires !GR.SubmitIgnored(State())
      modifies this
      ensures State() == GR.Submit(old(State()), city)
    {
      if city.None? {
        streak := 0;
        return;
      }
      if city.value.id in usedIds {
        streak := 0;
        return;
      }
      var first := FirstChar(city.value.canonical);
      if requiredLetter != Some(first) {
        streak := 0;
        return;
      }
      streak := streak + 1;
      var nextLetter := LastLetter(city.value.canonical);
      var nextUsed := usedIds + {city.value.id};
      input := "";
      cpuThinking := true;
      if nextLetter.None? {
        pending := pending + [GR.GlitchWin];
        return;
      }
      pending := pending + [GR.CpuTurn(nextLetter.value, nextUsed)];
    }

    /** The scheduled reply `i` runs; `bucket` is the outcome of the computer's request, `roll` its draw. */
    method RunReply(i: nat, bucket: Result<seq<CS.CityInfo>, string>, roll: real)
      requires i < |pending| && 0.0 <= roll < 1.0
      modifies this
      ensures State() == GR.Respond(old(State()), i, CityCandidates(bucket), roll)
    {
      var reply := pending[i];
      pending := pending[..i] + pending[i + 1..];
      Answer(reply, CityCandidates(bucket), roll);
    }

    /** The body of the `setTimeout` callback; a thrown request error ends it early. */
    method Answer(reply: GR.Reply, candidates: Result<seq<GR.Move>, string>, roll: real)
      requires 0.0 <= roll < 1.0
      modifies this
      ensures State() == GR.Answer(old(State()), reply, candidates, roll)
    {
      match reply
      case GlitchWin =>
        gameOver := true;
        cpuThinking := false;
      case CpuTurn(next, nextUsed) =>
        if candidates.Failure? {
          return;
        }
        var cpu := GR.PickComputerMove(candidates.value, nextUsed, roll);
        if cpu.None? {
          requiredLetter := Some([next]);
          gameOver := true;
          cpuThinking := false;
          return;
        }
        var cpuNext := LastLetter(cpu.value.canonical);
        var used := nextUsed + {cpu.value.id};
        if cpuNext.None? {
          gameOver := true;
          cpuThinking := false;
          return;
        }
        usedIds := used;
        requiredLetter := Some([cpuNext.value]);
        cpuThinking := false;
    }

    /** `handleSkip()`; `letter` is the outcome of the new-letter request. */
    method HandleSkip(letter: Result<string, string>)
      modifies this
      ensures State() == GR.Skip(old(State()), Drawn(letter))
    {
      if gameOver || skipsLeft <= 0 || cpuThinking || !dataLoaded {
        if skipsLeft <= 0 {
          gameOver := true;
        }
        return;
      }
      skipsLeft := skipsLeft - 1;
      if letter.Failure? {
        return;
      }
      requiredLetter := Some(letter.value);
    }

    /** The "Play Again" button, shown once the game is over. */
    method PlayAgain()
      modifies this
      ensures State() == GR.PlayAgain(old(State()))
    {
      mode := None;
    }

    /** `handleGiveUp()`: unlike the other handlers it does not wait for the data. */
    method HandleGiveUp()
      modifies this
      ensures State() == GR.GiveUp(old(State()))
    {
      if gameOver || cpuThinking {
        return;
      }
      gameOver := true;
    }
  }
}
