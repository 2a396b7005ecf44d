/** The game session held by the Home component: its four state fields and
    the operations that replace them (a new game, a change of difficulty,
    a click on a swatch). */
module Session {
  import opened Colors
  import opened Generator
  import opened Game

  /** The secret index for a draw `r` of the random source: floor(r * n).
      For every draw in [0, 1) it is an index of an n-swatch palette. */
  function SecretIndexFrom(r: real, n: nat): (k: int)
    requires 0.0 <= r < 1.0
    ensures n > 0 ==> 0 <= k < n
    ensures n == 0 ==> k == 0
  {
    var x := r * n as real;
    assert 0.0 <= x by {
      assert 0.0 <= r && 0.0 <= n as real;
    }
    assert n > 0 ==> x < n as real by {
      if n > 0 {
        assert (1.0 - r) * n as real > 0.0;
      }
    }
    x.Floor
  }

  /** Array.prototype.fill: every element becomes `value`. */
  method Fill(a: array<Color>, value: Color)
    modifies a
    ensures forall k :: 0 <= k < a.Length ==> a[k] == value
  {
    for k := 0 to a.Length
      invariant forall j :: 0 <= j < k ==> a[j] == value
    {
      a[k] := value;
    }
  }

  /** The stream of digit draws holds at least `n` different candidate
      colours, so that generating an n-colour palette from it comes to an
      end (the component would otherwise keep drawing). */
  predicate EnoughColors(draws: seq<HexDraw>, n: nat) {
    n <= |Elems(Candidates(draws))|
  }

  class Home {
    var colors: seq<Color>
    var secretIndex: int
    var gameState: Phase
    var difficulty: nat

    /** The session always shows a consistent round of `difficulty` swatches. */
    ghost predicate Valid()
      reads this
    {
      difficulty > 0 && |colors| == difficulty && Consistent(colors, secretIndex, gameState)
    }

    /** Mounting the component: the initial state (no colours, secret index 0,
        phase Start, difficulty 9), then the effect starts a game. */
    constructor (draws: seq<HexDraw>, r: real)
      requires EnoughColors(draws, 9) && 0.0 <= r < 1.0
      ensures Valid()
      ensures difficulty == 9 && gameState == Start
      ensures colors == FirstDistinct(9, Candidates(draws))
      ensures secretIndex == SecretIndexFrom(r, 9)
    {
      colors := [];
      secretIndex := 0;
      gameState := Start;
      difficulty := 9;
      new;
      NewGame(draws, r);
    }

    /** newGame: a fresh palette of `difficulty` distinct colours, a fresh
        secret index, and phase Start; the difficulty stays. */
    method NewGame(draws: seq<HexDraw>, r: real)
      requires difficulty > 0 && EnoughColors(draws, difficulty) && 0.0 <= r < 1.0
      modifies this
      ensures Valid()
      ensures difficulty == old(difficulty) && gameState == Start
      ensures colors == FirstDistinct(difficulty, Candidates(draws)) && |colors| == difficulty
      ensures secretIndex == SecretIndexFrom(r, difficulty)
    {
      var newColors := GenerateColors(difficulty, draws);
      FirstDistinctComplete(difficulty, draws);
      var newSecretIndex := SecretIndexFrom(r, difficulty);
      colors := newColors;
      secretIndex := newSecretIndex;
      gameState := Start;
      FreshRoundConsistent(colors, secretIndex);
    }

    /** changeDifficulty followed by its effect. The effect runs only when the
        difficulty really changes: choosing the current difficulty again
        leaves the session as it is. */
    method ChangeDifficulty(newDifficulty: nat, draws: seq<HexDraw>, r: real)
      requires Valid()
      requires newDifficulty > 0 && EnoughColors(draws, newDifficulty) && 0.0 <= r < 1.0
      modifies this
      ensures Valid() && difficulty == newDifficulty
      ensures old(difficulty) == newDifficulty ==>
        colors == old(colors) && secretIndex == old(secretIndex) && gameState == old(gameState)
      ensures old(difficulty) != newDifficulty ==>
        && gameState == Start
        && colors == FirstDistinct(newDifficulty, Candidates(draws)) && |colors| == newDifficulty
        && secretIndex == SecretIndexFrom(r, newDifficulty)
    {
      if newDifficulty != difficulty {
        difficulty := newDifficulty;
        NewGame(draws, r);
      }
    }

    /** handleColorClick(i): the palette and phase become those of `Click`;
        the secret index and the difficulty stay. */
    method HandleColorClick(i: int)
      requires Valid()
      modifies this
      ensures Valid()
      ensures Outcome(colors, gameState) == Click(old(colors), old(secretIndex), old(gameState), i)
      ensures secretIndex == old(secretIndex) && difficulty == old(difficulty)
    {
      ClickKeepsConsistent(colors, secretIndex, gameState, i);
      if gameState == Won {
        return;
      }
      var shown := colors;
      var secret := shown[secretIndex];
      var newColors := new Color[|shown|](k requires 0 <= k < |shown| =>
        if k == i && shown[k] != secret then NoneMarker else shown[k]);
      var newGameState := if i == secretIndex then Won else Wrong;
      if newGameState == Won {
        Fill(newColors, secret);
      }
      colors := newColors[..];
      gameState := newGameState;
      assert colors == Click(shown, secretIndex, old(gameState), i).colors;
    }
  }
}
