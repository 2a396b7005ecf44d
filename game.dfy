/** The rules of one round: what a click on a swatch does to the palette
    and the phase, and the header and message values derived from them. */
module Game {
  import opened Colors
  import opened Generator

  /** gameState: 'start', 'won' or 'wrong'. */
  datatype Phase = Start | Won | Wrong

  /** The value a wrongly guessed swatch shows instead of a colour. */
  const NoneMarker: Color := "none"

  /** The header background while the secret is not revealed. */
  const NeutralBackground: string := "steelblue"

  /** The palette and phase after a click. */
  datatype Outcome = Outcome(colors: seq<Color>, gameState: Phase)

  /** handleColorClick(i). A click in phase Won changes nothing. Otherwise
      every swatch is mapped: swatch `i` shows the "none" marker unless it
      shows the secret colour; the phase becomes Won when `i` is the secret
      index, and then every swatch is filled with the secret colour, and
      Wrong otherwise. */
  function Click(colors: seq<Color>, secretIndex: int, gameState: Phase, i: int): (r: Outcome)
    requires 0 <= secretIndex < |colors|
    ensures |r.colors| == |colors|
    ensures r.colors[secretIndex] == colors[secretIndex]
    ensures gameState == Won ==> r == Outcome(colors, Won)
    ensures gameState != Won && i == secretIndex ==>
      r.gameState == Won && forall k :: 0 <= k < |colors| ==> r.colors[k] == colors[secretIndex]
    ensures gameState != Won && i != secretIndex ==>
      && r.gameState == Wrong
      && (forall k :: 0 <= k < |colors| && k != i ==> r.colors[k] == colors[k])
      && (0 <= i < |colors| ==> r.colors[i] == if colors[i] == colors[secretIndex] then colors[i] else NoneMarker)
  {
    if gameState == Won then Outcome(colors, gameState)
    else
      var secret := colors[secretIndex];
      var newColors := seq(|colors|, k requires 0 <= k < |colors| =>
        if k == i && colors[k] != secret then NoneMarker else colors[k]);
      var newGameState := if i == secretIndex then Won else Wrong;
      if newGameState == Won then Outcome(seq(|newColors|, _ => secret), Won)
      else Outcome(newColors, newGameState)
  }

  /** Every colour entry (one that is not the "none" marker) occurs once. */
  predicate DistinctShown(colors: seq<Color>) {
    forall j, k :: 0 <= j < k < |colors| && colors[j] != NoneMarker ==> colors[j] != colors[k]
  }

  /** What holds of the palette and phase throughout a round: the secret
      index points at a colour; every swatch shows a colour or the "none"
      marker; a fresh round shows only colours; a won round shows the secret
      colour everywhere; a round not yet won shows no colour twice. */
  predicate Consistent(colors: seq<Color>, secretIndex: int, gameState: Phase) {
    && 0 <= secretIndex < |colors|
    && IsColor(colors[secretIndex])
    && (forall k :: 0 <= k < |colors| ==> IsColor(colors[k]) || colors[k] == NoneMarker)
    && (gameState == Start ==> forall k :: 0 <= k < |colors| ==> IsColor(colors[k]))
    && (gameState == Won ==> forall k :: 0 <= k < |colors| ==> colors[k] == colors[secretIndex])
    && (gameState != Won ==> DistinctShown(colors))
  }

  /** A freshly generated palette starts a consistent round. */
  lemma FreshRoundConsistent(colors: seq<Color>, secretIndex: int)
    requires 0 <= secretIndex < |colors|
    requires Distinct(colors)
    requires forall k :: 0 <= k < |colors| ==> IsColor(colors[k])
    ensures Consistent(colors, secretIndex, Start)
  {
  }

  /** A click keeps the round consistent. */
  lemma ClickKeepsConsistent(colors: seq<Color>, secretIndex: int, gameState: Phase, i: int)
    requires Consistent(colors, secretIndex, gameState)
    ensures var r := Click(colors, secretIndex, gameState, i);
      Consistent(r.colors, secretIndex, r.gameState)
  {
  }

  /** In a consistent round the guard on the secret colour never fires for
      another swatch: a wrong click blanks exactly the clicked swatch. */
  lemma WrongClickBlanksClicked(colors: seq<Color>, secretIndex: int, gameState: Phase, i: int)
    requires Consistent(colors, secretIndex, gameState)
    requires gameState != Won && 0 <= i < |colors| && i != secretIndex
    ensures Click(colors, secretIndex, gameState, i) == Outcome(colors[i := NoneMarker], Wrong)
  {
  }

  /** The palette and phase after a sequence of clicks. */
  function Run(colors: seq<Color>, secretIndex: int, gameState: Phase, clicks: seq<int>): (r: Outcome)
    requires 0 <= secretIndex < |colors|
    decreases clicks
  {
    if clicks == [] then Outcome(colors, gameState)
    else
      var o := Click(colors, secretIndex, gameState, clicks[0]);
      Run(o.colors, secretIndex, o.gameState, clicks[1..])
  }

  /** Won is final: no sequence of clicks changes a won round. */
  lemma {:induction false} WonIsFinal(colors: seq<Color>, secretIndex: int, clicks: seq<int>)
    requires 0 <= secretIndex < |colors|
    ensures Run(colors, secretIndex, Won, clicks) == Outcome(colors, Won)
    decreases clicks
  {
    if clicks != [] {
      WonIsFinal(colors, secretIndex, clicks[1..]);
    }
  }

  /** Wrong is not final: a round is won after a sequence of clicks exactly
      when it was won already or one of the clicks hit the secret index;
      after at least one click it is never back at Start. */
  lemma {:induction false} RunPhase(colors: seq<Color>, secretIndex: int, gameState: Phase, clicks: seq<int>)
    requires 0 <= secretIndex < |colors|
    ensures Run(colors, secretIndex, gameState, clicks).gameState == Won <==>
      gameState == Won || secretIndex in clicks
    ensures clicks != [] ==> Run(colors, secretIndex, gameState, clicks).gameState != Start
    decreases clicks
  {
    if clicks != [] {
      var o := Click(colors, secretIndex, gameState, clicks[0]);
      RunPhase(o.colors, secretIndex, o.gameState, clicks[1..]);
      assert clicks == [clicks[0]] + clicks[1..];
      if o.gameState == Won {
        WonIsFinal(o.colors, secretIndex, clicks[1..]);
      }
    }
  }

  /** Any sequence of clicks keeps the round consistent, the number of
      swatches and the swatch of the secret colour. */
  lemma {:induction false} RunKeepsConsistent(colors: seq<Color>, secretIndex: int, gameState: Phase, clicks: seq<int>)
    requires Consistent(colors, secretIndex, gameState)
    ensures var r := Run(colors, secretIndex, gameState, clicks);
      && Consistent(r.colors, secretIndex, r.gameState)
      && |r.colors| == |colors|
      && r.colors[secretIndex] == colors[secretIndex]
    decreases clicks
  {
    if clicks != [] {
      var o := Click(colors, secretIndex, gameState, clicks[0]);
      ClickKeepsConsistent(colors, secretIndex, gameState, clicks[0]);
      RunKeepsConsistent(o.colors, secretIndex, o.gameState, clicks[1..]);
    }
  }

  /** Three swatches with the secret in the middle: a wrong click blanks the
      clicked swatch only, a later click on the secret reveals it everywhere
      (the blanked swatch included), and after that clicks change nothing. */
  lemma ClickScenario()
    ensures var palette := ["#AAAAAA", "#BBBBBB", "#CCCCCC"];
      && Click(palette, 1, Start, 1) == Outcome(["#BBBBBB", "#BBBBBB", "#BBBBBB"], Won)
      && Click(palette, 1, Start, 0) == Outcome(["none", "#BBBBBB", "#CCCCCC"], Wrong)
      && Click(["none", "#BBBBBB", "#CCCCCC"], 1, Wrong, 1) == Outcome(["#BBBBBB", "#BBBBBB", "#BBBBBB"], Won)
      && Run(palette, 1, Start, [0, 1, 2]) == Outcome(["#BBBBBB", "#BBBBBB", "#BBBBBB"], Won)
  {
  }

  /** headerBackground: the secret colour once the round is won, the neutral
      colour otherwise. Since a colour is never the neutral value, the header
      shows the secret colour exactly when the round is won. */
  function HeaderBackground(colors: seq<Color>, secretIndex: int, gameState: Phase): (r: string)
    requires gameState == Won ==> 0 <= secretIndex < |colors|
    ensures gameState == Won ==> r == colors[secretIndex]
    ensures gameState != Won ==> r == NeutralBackground
    ensures 0 <= secretIndex < |colors| && IsColor(colors[secretIndex]) ==>
      (r == colors[secretIndex] <==> gameState == Won)
  {
    if gameState == Won then colors[secretIndex] else NeutralBackground
  }

  /** newGameText: the label of the new-game button. */
  function NewGameText(gameState: Phase): (r: string)
    ensures r == "New game?" <==> gameState == Won
    ensures r == "New colors" <==> gameState != Won
  {
    if gameState == Won then "New game?" else "New colors"
  }

  /** message: the status line, which tells the three phases apart. */
  function Message(gameState: Phase): (r: string)
    ensures r == "Correct :)" <==> gameState.Won?
    ensures r == "Wrong :(" <==> gameState.Wrong?
    ensures r == "" <==> gameState.Start?
  {
    if gameState == Won then "Correct :)" else if gameState == Wrong then "Wrong :(" else ""
  }
}
