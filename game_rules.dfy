/**
 * The turn rules shared by the two chain-game pages (countries and cities): the game modes and
 * their durations, the timer step, the computer's move, and every state transition of a page
 * as a function from the page state before to the page state after. The pages differ only in
 * how a typed name becomes a move and how the computer's candidates are obtained; each page
 * supplies those as arguments.
 */
module GameRules {
  import opened Wrappers
  import opened Text
  import Canon
  import Random

  // ---------------------------------------------------------------------------------------
  // Modes and the clock
  // ---------------------------------------------------------------------------------------

  datatype Mode = Timed60 | Timed90 | Timed180 | Endless

  /** Seconds left; `Infinite` is JavaScript's `Infinity`. */
  datatype Clock = Finite(seconds: int) | Infinite

  /** `getGameDuration` */
  function GetGameDuration(mode: Mode): Clock
  {
    match mode
    case Timed60 => Finite(60)
    case Timed90 => Finite(90)
    case Timed180 => Finite(180)
    case Endless => Infinite
  }

  /** Every timed mode lasts a positive number of seconds, and only the endless mode is unbounded. */
  lemma GameDurationSpec(mode: Mode)
    ensures GetGameDuration(mode).Infinite? <==> mode == Endless
    ensures GetGameDuration(mode).Finite? ==> GetGameDuration(mode).seconds in {60, 90, 180}
  {
  }

  /** One second of the interval: the new time and whether the game ends now. */
  function TimerStep(prev: Clock): (Clock, bool)
  {
    match prev
    case Infinite => (Infinite, false)
    case Finite(n) => if n <= 1 then (Finite(0), true) else (Finite(n - 1), false)
  }

  /** The clock stops at zero exactly when one second or less was left, and otherwise loses a second. */
  lemma TimerStepSpec(prev: Clock)
    ensures TimerStep(prev).1 <==> prev.Finite? && prev.seconds <= 1
    ensures prev.Finite? ==> TimerStep(prev).0.Finite? && TimerStep(prev).0.seconds >= 0
    ensures prev.Finite? && prev.seconds > 1 ==> TimerStep(prev).0 == Finite(prev.seconds - 1)
  {
  }

  // ---------------------------------------------------------------------------------------
  // Moves and the computer's choice
  // ---------------------------------------------------------------------------------------

  /** A country or city as the rules see it: its id and its canonical display name. */
  datatype Move = Move(id: string, canonical: string)

  /** `.filter((c) => !usedIds.has(c.id))` */
  function Unused(candidates: seq<Move>, used: set<string>): seq<Move>
    decreases |candidates|
  {
    if candidates == [] then []
    else
      var rest := Unused(candidates[..|candidates| - 1], used);
      var c := candidates[|candidates| - 1];
      if c.id in used then rest else rest + [c]
  }

  /** The unused candidates are exactly the candidates whose id is not used, in candidate order. */
  lemma {:induction false} UnusedSpec(candidates: seq<Move>, used: set<string>)
    ensures forall m :: m in Unused(candidates, used) <==> m in candidates && m.id !in used
    ensures |Unused(candidates, used)| <= |candidates|
    decreases |candidates|
  {
    if candidates != [] {
      var p := candidates[..|candidates| - 1];
      UnusedSpec(p, used);
      assert candidates == p + [candidates[|candidates| - 1]];
    }
  }

  /**
   * `pickComputerMove`: `candidates[Math.floor(Math.random() * candidates.length)]` over the
   * unused candidates, with the random number `roll` in [0, 1) given; `null` when none is left.
   */
  function PickComputerMove(candidates: seq<Move>, used: set<string>, roll: real): Option<Move>
    requires 0.0 <= roll < 1.0
  {
    var free := Unused(candidates, used);
    var k := Random.Draw(roll, |free|);
    if 0 <= k < |free| then Some(free[k]) else None
  }

  /** The computer finds nothing exactly when every candidate is used, and never picks a used one. */
  lemma PickComputerMoveSpec(candidates: seq<Move>, used: set<string>, roll: real)
    requires 0.0 <= roll < 1.0
    ensures PickComputerMove(candidates, used, roll).None? <==> forall m :: m in candidates ==> m.id in used
    ensures PickComputerMove(candidates, used, roll).Some? ==>
              PickComputerMove(candidates, used, roll).value in candidates
              && PickComputerMove(candidates, used, roll).value.id !in used
  {
    UnusedSpec(candidates, used);
    var free := Unused(candidates, used);
    if |free| > 0 {
      assert free[Random.Draw(roll, |free|)] in free;
    } else {
      assert forall m :: m in candidates ==> m.id in used by {
        forall m | m in candidates ensures m.id in used {
          assert m !in free;
        }
      }
    }
  }

  // ---------------------------------------------------------------------------------------
  // The page state
  // ---------------------------------------------------------------------------------------

  /**
   * A scheduled computer reply (`setTimeout`): the player's last letter was missing (a win by
   * glitch), or the computer is to answer `nextLetter` avoiding the ids in `nextUsed`.
   */
  datatype Reply = GlitchWin | CpuTurn(nextLetter: char, nextUsed: set<string>)

  /**
   * The state a page keeps. `requiredLetter` is a JavaScript string or `undefined` (None);
   * `dataLoaded` is the cities page's `citiesData` (the countries page has its data at once);
   * `pending` holds the replies scheduled and not yet run.
   */
  datatype Turn = Turn(
    mode: Option<Mode>, requiredLetter: Option<string>, input: string, usedIds: set<string>,
    gameOver: bool, gameStarted: bool, timeLeft: Clock, streak: nat, skipsLeft: int,
    cpuThinking: bool, dataLoaded: bool, pending: seq<Reply>)

  /** The `useState` initial values. */
  function Initial(dataLoaded: bool): Turn
  {
    Turn(None, Some(""), "", {}, false, false, Finite(90), 0, 3, false, dataLoaded, [])
  }

  /** What stays true in every reachable state: skips within 0..3 and a clock that is not negative. */
  predicate Valid(s: Turn)
  {
    0 <= s.skipsLeft <= 3 && (s.timeLeft.Finite? ==> s.timeLeft.seconds >= 0)
  }

  /** `startGame(mode)` once the first letter `start` is known. */
  function Start(s: Turn, mode: Mode, start: Option<string>): Turn
  {
    Turn(Some(mode), start, "", {}, false, false, GetGameDuration(mode), 0, 3, false, s.dataLoaded, s.pending)
  }

  /** `handlePlayerInput(value)`: the first non-blank input starts the clock. */
  function Input(s: Turn, value: string): Turn
  {
    s.(gameStarted := s.gameStarted || Trim(value) != [], input := value)
  }

  /** The interval runs while the game is started, not over, and not endless. */
  predicate TimerRunning(s: Turn)
  {
    s.gameStarted && !s.gameOver && s.mode != Some(Endless)
  }

  /** One tick of the interval. */
  function Tick(s: Turn): Turn
  {
    if !TimerRunning(s) then s
    else
      var (t, over) := TimerStep(s.timeLeft);
      s.(timeLeft := t, gameOver := over)
  }

  /** The outcome of checking the player's move, in the order the page checks. */
  datatype Verdict = Unknown | AlreadyUsed | WrongLetter | Accepted

  function Judge(s: Turn, move: Option<Move>): Verdict
  {
    if move.None? then Unknown
    else if move.value.id in s.usedIds then AlreadyUsed
    else if s.requiredLetter != Some(FirstChar(move.value.canonical)) then WrongLetter
    else Accepted
  }

  /** The guards before any lookup: the game is over, the computer is thinking, or there is nothing typed. */
  predicate SubmitIgnored(s: Turn)
  {
    s.gameOver || s.cpuThinking || !s.dataLoaded || Trim(s.input) == []
  }

  /** The reply scheduled after accepting `m` from state `s`. */
  function ReplyTo(s: Turn, m: Move): Reply
  {
    match Canon.LastLetter(m.canonical)
    case None => GlitchWin
    case Some(l) => CpuTurn(l, s.usedIds + {m.id})
  }

  /** `submitPlayer()`, with `move` the country or city the trimmed input looks up to. */
  function Submit(s: Turn, move: Option<Move>): Turn
  {
    if SubmitIgnored(s) then s
    else if Judge(s, move) != Accepted then s.(streak := 0)
    else
      s.(streak := s.streak + 1, input := "", cpuThinking := true,
         pending := s.pending + [ReplyTo(s, move.value)])
  }

  /**
   * A scheduled reply runs. `candidates` is the list the computer draws from for the reply's
   * letter, or the error its fetch threw; `roll` is the random number.
   */
  function Respond(s: Turn, i: nat, candidates: Result<seq<Move>, string>, roll: real): Turn
    requires i < |s.pending| && 0.0 <= roll < 1.0
  {
    Answer(s.(pending := s.pending[..i] + s.pending[i + 1..]), s.pending[i], candidates, roll)
  }

  /** The body of a reply, once it has left the schedule. */
  function Answer(t: Turn, reply: Reply, candidates: Result<seq<Move>, string>, roll: real): Turn
    requires 0.0 <= roll < 1.0
  {
    match reply
    case GlitchWin => t.(gameOver := true, cpuThinking := false)
    case CpuTurn(next, nextUsed) =>
      match candidates
      case Failure(_) => t
      case Success(cs) =>
        match PickComputerMove(cs, nextUsed, roll)
        case None => t.(requiredLetter := Some([next]), gameOver := true, cpuThinking := false)
        case Some(cpu) =>
          match Canon.LastLetter(cpu.canonical)
          case None => t.(gameOver := true, cpuThinking := false)
          case Some(cpuNext) =>
            t.(usedIds := nextUsed + {cpu.id}, requiredLetter := Some([cpuNext]), cpuThinking := false)
  }

  /** `handleSkip()`; `drawn` is the new letter, or the error its fetch threw. */
  function Skip(s: Turn, drawn: Result<Option<string>, string>): Turn
  {
    if s.gameOver || s.skipsLeft <= 0 || s.cpuThinking || !s.dataLoaded then
      if s.skipsLeft <= 0 then s.(gameOver := true) else s
    else
      var t := s.(skipsLeft := s.skipsLeft - 1);
      match drawn
      case Success(l) => t.(requiredLetter := l)
      case Failure(_) => t
  }

  /** `handleGiveUp()` */
  function GiveUp(s: Turn): Turn
  {
    if s.gameOver || s.cpuThinking then s else s.(gameOver := true)
  }

  /** The "Play Again" button: `setGameMode(null)`, which brings back the mode dialog. */
  function PlayAgain(s: Turn): Turn
  {
    s.(mode := None)
  }

  /** `n` firings of the interval in a row. */
  function Ticks(s: Turn, n: nat): Turn
  {
    if n == 0 then s else Tick(Ticks(s, n - 1))
  }

  // ---------------------------------------------------------------------------------------
  // Properties of the transitions
  // ---------------------------------------------------------------------------------------

  /** Nothing happens while the game is over, the computer is thinking, or the input is blank. */
  lemma SubmitIgnoredSpec(s: Turn, move: Option<Move>)
    requires SubmitIgnored(s)
    ensures Submit(s, move) == s
  {
  }

  /**
   * The checks run in order (unknown, already used, wrong first letter); a rejected move resets
   * the streak and changes nothing else.
   */
  lemma SubmitRejects(s: Turn, move: Option<Move>)
    requires !SubmitIgnored(s) && Judge(s, move) != Accepted
    ensures Submit(s, move) == s.(streak := 0)
    ensures Judge(s, move) == Unknown <==> move.None?
    ensures Judge(s, move) == AlreadyUsed <==> move.Some? && move.value.id in s.usedIds
    ensures Judge(s, move) == WrongLetter <==>
              move.Some? && move.value.id !in s.usedIds && s.requiredLetter != Some(FirstChar(move.value.canonical))
  {
  }

  /**
   * An accepted move is unused and starts with the required letter; it raises the streak,
   * clears the input, and hands the turn to the computer, which will avoid the used ids and the
   * player's id and must answer with the player's last letter.
   */
  lemma SubmitAccepts(s: Turn, m: Move)
    requires !SubmitIgnored(s) && Judge(s, Some(m)) == Accepted
    ensures m.id !in s.usedIds && s.requiredLetter == Some(FirstChar(m.canonical))
    ensures var r := Submit(s, Some(m));
            r.streak == s.streak + 1 && r.input == "" && r.cpuThinking
            && r.usedIds == s.usedIds && r.requiredLetter == s.requiredLetter && !r.gameOver
            && r.pending == s.pending + [ReplyTo(s, m)]
    ensures Canon.LastLetter(m.canonical).None? <==> ReplyTo(s, m) == GlitchWin
    ensures Canon.LastLetter(m.canonical).Some? ==>
              ReplyTo(s, m) == CpuTurn(Canon.LastLetter(m.canonical).value, s.usedIds + {m.id})
  {
  }

  /**
   * The computer's reply to an accepted move `m`: its choice is never the player's id nor an id
   * used before; on success both ids join the used set and the computer's last letter is
   * required next; with no candidate left the player wins and must continue from their own
   * last letter.
   */
  lemma RoundSpec(s: Turn, m: Move, cs: seq<Move>, roll: real)
    requires !SubmitIgnored(s) && Judge(s, Some(m)) == Accepted && 0.0 <= roll < 1.0
    requires Canon.LastLetter(m.canonical).Some?
    ensures var a := Submit(s, Some(m));
            var i := |a.pending| - 1;
            var r := Respond(a, i, Success(cs), roll);
            var next := Canon.LastLetter(m.canonical).value;
            var pick := PickComputerMove(cs, s.usedIds + {m.id}, roll);
            && (pick.Some? ==> pick.value.id != m.id && pick.value.id !in s.usedIds && pick.value in cs)
            && (pick.None? <==> forall c :: c in cs ==> c.id in s.usedIds || c.id == m.id)
            && (pick.None? ==> r.gameOver && !r.cpuThinking && r.requiredLetter == Some([next]) && r.usedIds == s.usedIds)
            && (pick.Some? && Canon.LastLetter(pick.value.canonical).Some? ==>
                  r.usedIds == s.usedIds + {m.id, pick.value.id} && !r.gameOver && !r.cpuThinking
                  && r.requiredLetter == Some([Canon.LastLetter(pick.value.canonical).value]))
            && r.pending == s.pending
  {
    var a := Submit(s, Some(m));
    assert a.pending == s.pending + [ReplyTo(s, m)];
    var i := |a.pending| - 1;
    assert a.pending[..i] + a.pending[i + 1..] == s.pending;
    PickComputerMoveSpec(cs, s.usedIds + {m.id}, roll);
  }

  /**
   * When the computer's candidate fetch throws, the reply ends without clearing `cpuThinking`:
   * from then on submitting, skipping and giving up all do nothing until a new game starts.
   */
  lemma FailedReplyBlocks(s: Turn, i: nat, e: string, roll: real, move: Option<Move>, drawn: Result<Option<string>, string>)
    requires i < |s.pending| && s.pending[i].CpuTurn? && s.cpuThinking && 0.0 <= roll < 1.0
    ensures var r := Respond(s, i, Failure(e), roll);
            r.cpuThinking && Submit(r, move) == r && GiveUp(r) == r
            && (r.skipsLeft > 0 ==> Skip(r, drawn) == r)
  {
  }

  /** A skip is spent only when one is left and play is open; with none left the game ends. */
  lemma SkipSpec(s: Turn, drawn: Result<Option<string>, string>)
    ensures Skip(s, drawn).skipsLeft == s.skipsLeft - 1 <==>
              !s.gameOver && s.skipsLeft > 0 && !s.cpuThinking && s.dataLoaded
    ensures Skip(s, drawn).skipsLeft != s.skipsLeft - 1 ==> Skip(s, drawn).skipsLeft == s.skipsLeft
    ensures s.skipsLeft <= 0 ==> Skip(s, drawn).gameOver
    ensures s.skipsLeft > 0 && Skip(s, drawn).skipsLeft == s.skipsLeft ==> Skip(s, drawn) == s
    ensures Skip(s, drawn).usedIds == s.usedIds && Skip(s, drawn).streak == s.streak
  {
  }

  /**
   * Giving up ends an open game and changes nothing else; it is ignored while over or thinking,
   * so giving up twice is giving up once.
   */
  lemma GiveUpSpec(s: Turn)
    ensures s.gameOver || s.cpuThinking ==> GiveUp(s) == s
    ensures !s.gameOver && !s.cpuThinking ==> GiveUp(s).gameOver && GiveUp(s).(gameOver := false) == s.(gameOver := false)
    ensures GiveUp(GiveUp(s)) == GiveUp(s)
  {
  }

  /**
   * Once the game is over it stays over: submitting, skipping, giving up and the clock change
   * nothing, and typing, a late computer reply or "Play Again" leave it over. Only a new game
   * reopens play.
   */
  lemma GameOverTerminal(s: Turn, value: string, move: Option<Move>, drawn: Result<Option<string>, string>,
                         i: nat, candidates: Result<seq<Move>, string>, roll: real)
    requires s.gameOver
    ensures Submit(s, move) == s && Skip(s, drawn) == s && GiveUp(s) == s && Tick(s) == s
    ensures Input(s, value).gameOver && PlayAgain(s).gameOver
    ensures i < |s.pending| && 0.0 <= roll < 1.0 ==> Respond(s, i, candidates, roll).gameOver
  {
  }

  /**
   * "Play Again" only brings back the mode dialog: the clock of a finished game stays stopped,
   * and the next game starts exactly as it would have without it, since a new game keeps only
   * the loaded data and the scheduled replies.
   */
  lemma PlayAgainSpec(s: Turn, mode: Mode, start: Option<string>)
    ensures PlayAgain(s).mode.None? && PlayAgain(s).(mode := s.mode) == s
    ensures s.gameOver ==> !TimerRunning(PlayAgain(s))
    ensures Start(PlayAgain(s), mode, start) == Start(s, mode, start)
    ensures Valid(s) ==> Valid(PlayAgain(s))
  {
  }

  /** A new game has three skips, no streak, no used ids, the mode's full time and an open turn. */
  lemma StartSpec(s: Turn, mode: Mode, start: Option<string>)
    ensures var r := Start(s, mode, start);
            r.skipsLeft == 3 && r.streak == 0 && r.usedIds == {} && !r.gameOver && !r.cpuThinking
            && r.timeLeft == GetGameDuration(mode) && r.requiredLetter == start && Valid(r)
            && r.pending == s.pending
  {
  }

  /** The player's transitions keep the state valid: in particular `skipsLeft` never goes negative. */
  lemma PlayerTransitionsKeepValid(s: Turn, mode: Mode, start: Option<string>, value: string, move: Option<Move>,
                                   drawn: Result<Option<string>, string>)
    requires Valid(s)
    ensures Valid(Start(s, mode, start)) && Valid(Input(s, value))
    ensures Valid(Submit(s, move)) && Valid(Skip(s, drawn)) && Valid(GiveUp(s)) && Valid(PlayAgain(s))
  {
  }

  /** The clock and the computer's replies keep the state valid too. */
  lemma TimedTransitionsKeepValid(s: Turn, i: nat, candidates: Result<seq<Move>, string>, roll: real)
    requires Valid(s)
    ensures Valid(Tick(s))
    ensures i < |s.pending| && 0.0 <= roll < 1.0 ==> Valid(Respond(s, i, candidates, roll))
  {
  }

  /** The initial state is valid. */
  lemma InitialValid(dataLoaded: bool)
    ensures Valid(Initial(dataLoaded)) && Initial(dataLoaded).skipsLeft == 3
  {
  }

  /**
   * A running clock with `t >= 1` seconds left loses one second per tick and ends the game at
   * exactly the `t`-th tick; nothing but the clock and the end flag changes.
   */
  lemma {:induction false} TicksCountDown(s: Turn, n: nat)
    requires TimerRunning(s) && s.timeLeft.Finite? && 1 <= s.timeLeft.seconds && n <= s.timeLeft.seconds
    ensures Ticks(s, n) == s.(timeLeft := Finite(s.timeLeft.seconds - n), gameOver := n == s.timeLeft.seconds)
    decreases n
  {
    if n > 0 {
      TicksCountDown(s, n - 1);
    }
  }

  /** The clock of the endless mode never moves. */
  lemma {:induction false} TicksEndless(s: Turn, n: nat)
    requires s.mode == Some(Endless)
    ensures Ticks(s, n) == s
    decreases n
  {
    if n > 0 {
      TicksEndless(s, n - 1);
    }
  }

  /**
   * A timed game, once the first non-blank input starts its clock, ends after exactly as many
   * ticks as its mode has seconds (60, 90 or 180), and not one tick earlier.
   */
  lemma TimedGameLength(s: Turn, mode: Mode, start: Option<string>, value: string, n: nat)
    requires mode != Endless && Trim(value) != []
    ensures var g := Input(Start(s, mode, start), value);
            var d := GetGameDuration(mode).seconds;
            n <= d ==> Ticks(g, n).gameOver == (n == d) && Ticks(g, n).timeLeft == Finite(d - n)
  {
    var g := Input(Start(s, mode, start), value);
    if n <= GetGameDuration(mode).seconds {
      TicksCountDown(g, n);
    }
  }

  /** A tick of a running clock ends the game exactly when at most one second was left. */
  lemma TickSpec(s: Turn)
    ensures !TimerRunning(s) ==> Tick(s) == s
    ensures TimerRunning(s) && s.timeLeft.Finite? ==>
              (Tick(s).gameOver <==> s.timeLeft.seconds <= 1)
              && Tick(s).timeLeft == Finite(if s.timeLeft.seconds <= 1 then 0 else s.timeLeft.seconds - 1)
  {
  }
}
