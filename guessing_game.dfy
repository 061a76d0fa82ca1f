/** The guessing game (`guessing_game/src/main.rs`). One pass of the game
    loop reads a line, classifies a numeric guess against the secret, and
    watches for "trolling": a guess that moves further away from the secret
    than the previous one. The first trolling guess draws a warning, the
    second ends the program with a panic. Reading stdin and parsing become an
    input of type Option<u32> (None for a line that does not parse); the secret
    drawn by `gen_range(1, 101)` becomes a parameter. */
module GuessingGame {
  import opened Common

  /** `gen_range(1, 101)` draws from 1 to 100. */
  predicate ValidSecret(secret: u32) {
    1 <= secret <= 100
  }

  /** How far below the secret a guess is still "a little small". */
  const NEAR: u32 := 5

  datatype Feedback = TooSmall | LittleSmall | TooBig | Correct

  /** Whether a guess counted as trolling, and what happened then. */
  datatype Trolling = Fair | Warned | GaveUp

  datatype Reply = NotANumber | Answer(feedback: Feedback, trolling: Trolling)

  /** Playing until the secret is guessed (Won) or the second trolling guess
      makes the program panic (Aborted). */
  datatype Status = Playing | Won | Aborted

  datatype GameState = GameState(prev: u32, trollingCount: nat, status: Status)

  /** `prev` and `trolling_count` start at 0. */
  function Init(): GameState {
    GameState(0, 0, Playing)
  }

  // ---------------------------------------------------------------------------
  // Classifying a guess

  /** u32 subtraction as a build with overflow checks performs it: None
      stands for the panic on underflow. */
  function CheckedSub(a: u32, b: u32): Option<u32> {
    if a >= b then Some(a - b) else None
  }

  /** The classification as the source writes it: `secret_number - 5` is
      computed first, so for a secret below 5 it underflows (None: panic). */
  function ClassifyAsWritten(guess: u32, secret: u32): (r: Option<Feedback>)
    ensures r.None? <==> secret < NEAR
  {
    match CheckedSub(secret, NEAR)
    case None => None
    case Some(minus) =>
      Some(if guess < secret then (if guess < minus then TooSmall else LittleSmall)
           else if guess > secret then TooBig
           else Correct)
  }

  /** The intended classification: the lower edge `secret - 5` is clamped
      at 0, so every guess gets a reply for every secret. */
  function Classify(guess: u32, secret: u32): (r: Feedback)
    ensures r == TooSmall <==> guess as int < secret as int - NEAR as int
    ensures r == LittleSmall <==> secret as int - NEAR as int <= guess as int < secret as int
    ensures r == TooBig <==> guess > secret
    ensures r == Correct <==> guess == secret
  {
    var minus := if secret >= NEAR then secret - NEAR else 0;
    if guess < secret then (if guess < minus then TooSmall else LittleSmall)
    else if guess > secret then TooBig
    else Correct
  }

  /** For a secret of 5 or more the two classifications agree. */
  lemma ClassifyAgrees(guess: u32, secret: u32)
    requires secret >= NEAR
    ensures ClassifyAsWritten(guess, secret) == Some(Classify(guess, secret))
  {
  }

  /** A secret of 3, which `gen_range(1, 101)` can draw, makes the first
      numeric guess panic, where "a little small" was meant for a guess of 2. */
  lemma AsWrittenUnderflows()
    ensures ValidSecret(3)
    ensures ClassifyAsWritten(2, 3).None?
    ensures Classify(2, 3) == LittleSmall
  {
  }

  // ---------------------------------------------------------------------------
  // One pass of the loop

  /** A guess is trolling when it moves further from the secret on the side
      where the previous guess was. */
  predicate IsTrolling(prev: u32, guess: u32, secret: u32) {
    (prev < secret && guess < prev) || (prev > secret && guess > prev)
  }

  /** A trolling guess is strictly further from the secret than the previous guess. */
  lemma TrollingMovesAway(prev: u32, guess: u32, secret: u32)
    requires IsTrolling(prev, guess, secret)
    ensures Dist(guess, secret) > Dist(prev, secret)
  {
  }

  function Dist(a: u32, b: u32): nat {
    if a >= b then (a - b) as nat else (b - a) as nat
  }

  /** Since `prev` starts at 0 and the secret is at least 1, the first
      numeric guess is never trolling. */
  lemma FirstGuessIsFair(guess: u32, secret: u32)
    requires ValidSecret(secret)
    ensures !IsTrolling(Init().prev, guess, secret)
  {
  }

  /** One pass of the loop body for input `input` (None: the line does not parse). */
  function Step(secret: u32, st: GameState, input: Option<u32>): (r: (GameState, Reply))
    requires st.status == Playing
    ensures input.None? ==> r == (st, NotANumber)
    ensures input.Some? ==> r.1.Answer? && r.1.feedback == Classify(input.value, secret)
    ensures input.Some? && input.value == secret ==> r == (st.(status := Won), Answer(Correct, Fair))
    ensures input.Some? && input.value != secret ==>
              (r.1.trolling == Fair <==> !IsTrolling(st.prev, input.value, secret))
    ensures input.Some? && input.value != secret && r.1.trolling == Fair ==>
              r.0 == st.(prev := input.value)
    ensures r.1.Answer? && r.1.trolling == Warned ==>
              st.trollingCount == 0 && r.0 == GameState(input.value, 1, Playing)
    ensures r.1.Answer? && r.1.trolling == GaveUp ==>
              st.trollingCount != 0 && r.0 == st.(status := Aborted)
  {
    match input
    case None => (st, NotANumber)
    case Some(guess) =>
      var feedback := Classify(guess, secret);
      if feedback == Correct then (st.(status := Won), Answer(Correct, Fair))
      else if IsTrolling(st.prev, guess, secret) then
        if st.trollingCount == 0 then
          (GameState(guess, st.trollingCount + 1, Playing), Answer(feedback, Warned))
        else
          (st.(status := Aborted), Answer(feedback, GaveUp))
      else
        (st.(prev := guess), Answer(feedback, Fair))
  }

  /** The loop over a stream of input lines: it stops when the game is
      over or when the input runs out. */
  function Run(secret: u32, st: GameState, inputs: seq<Option<u32>>): GameState
    decreases |inputs|
  {
    if inputs == [] || st.status != Playing then st
    else Run(secret, Step(secret, st, inputs[0]).0, inputs[1..])
  }

  /** The trolling count never exceeds 1: the second trolling guess panics
      before it would be counted. */
  lemma {:induction false} CountAtMostOne(secret: u32, st: GameState, inputs: seq<Option<u32>>)
    requires st.trollingCount <= 1
    ensures Run(secret, st, inputs).trollingCount <= 1
    decreases |inputs|
  {
    if inputs != [] && st.status == Playing {
      CountAtMostOne(secret, Step(secret, st, inputs[0]).0, inputs[1..]);
    }
  }

  /** A game over stays over, whatever is typed next. */
  lemma OverIsFinal(secret: u32, st: GameState, inputs: seq<Option<u32>>)
    requires st.status != Playing
    ensures Run(secret, st, inputs) == st
  {
  }

  /** Lines that do not parse are skipped without any effect. */
  lemma {:induction false} NonNumericIsSkipped(secret: u32, st: GameState, junk: seq<Option<u32>>, rest: seq<Option<u32>>)
    requires forall j :: 0 <= j < |junk| ==> junk[j].None?
    ensures Run(secret, st, junk + rest) == Run(secret, st, rest)
    decreases |junk|
  {
    if junk != [] && st.status == Playing {
      assert (junk + rest)[0] == junk[0];
      assert (junk + rest)[1..] == junk[1..] + rest;
      NonNumericIsSkipped(secret, st, junk[1..], rest);
    } else if junk == [] {
      assert junk + rest == rest;
    }
  }

  /** Two trolling guesses in a row, starting fresh, abort the game. */
  lemma {:induction false} TwoTrollsAbort(secret: u32, st: GameState, g1: u32, g2: u32, rest: seq<Option<u32>>)
    requires st.status == Playing && st.trollingCount == 0
    requires g1 != secret && IsTrolling(st.prev, g1, secret)
    requires g2 != secret && IsTrolling(g1, g2, secret)
    ensures Run(secret, st, [Some(g1), Some(g2)] + rest).status == Aborted
  {
    var inputs := [Some(g1), Some(g2)] + rest;
    var s1 := Step(secret, st, Some(g1)).0;
    assert s1 == GameState(g1, 1, Playing);
    assert inputs[1..] == [Some(g2)] + rest;
    var s2 := Step(secret, s1, Some(g2)).0;
    assert s2.status == Aborted;
    assert ([Some(g2)] + rest)[1..] == rest;
    OverIsFinal(secret, s2, rest);
  }

  // ---------------------------------------------------------------------------
  // The imperative game

  /** The game's mutable state: the locals `prev` and `trolling_count` of
      `main`, and whether the loop is still running. */
  class Game {
    const secret: u32
    var prev: u32
    var trollingCount: nat
    var status: Status

    function State(): GameState
      reads this
    {
      GameState(prev, trollingCount, status)
    }

    constructor (secret: u32)
      requires ValidSecret(secret)
      ensures this.secret == secret && State() == Init()
    {
      this.secret := secret;
      prev := 0;
      trollingCount := 0;
      status := Playing;
    }

    /** One pass of the loop body. */
    method Guess(input: Option<u32>) returns (reply: Reply)
      requires status == Playing
      modifies this
      ensures (State(), reply) == Step(secret, old(State()), input)
    {
      if input.None? {
        reply := NotANumber;
        return;
      }
      var guess := input.value;
      var feedback := Classify(guess, secret);
      if feedback == Correct {
        status := Won;
        reply := Answer(Correct, Fair);
        return;
      }
      var trolling := Fair;
      if IsTrolling(prev, guess, secret) {
        if trollingCount == 0 {
          trolling := Warned;
        } else {
          status := Aborted;
          reply := Answer(feedback, GaveUp);
          return;
        }
        trollingCount := trollingCount + 1;
      }
      prev := guess;
      reply := Answer(feedback, trolling);
    }
  }

  /** `main`'s loop over the lines typed, until the game is over or the lines run out. */
  method Play(secret: u32, inputs: seq<Option<u32>>) returns (final: GameState)
    requires ValidSecret(secret)
    ensures final == Run(secret, Init(), inputs)
    ensures final.trollingCount <= 1
  {
    var game := new Game(secret);
    var i := 0;
    while i < |inputs| && game.status == Playing
      invariant 0 <= i <= |inputs|
      invariant game.secret == secret
      invariant Run(secret, game.State(), inputs[i..]) == Run(secret, Init(), inputs)
    {
      var _ := game.Guess(inputs[i]);
      assert inputs[i..][1..] == inputs[i + 1..];
      i := i + 1;
    }
    final := game.State();
    CountAtMostOne(secret, Init(), inputs);
  }
}
