# Colour-guessing game: a Dafny model of the Home component's game logic

The game shows a palette of random colours. One swatch is secretly the
target, and the player wins by clicking it. This project models the logic
inside the `Home` component (`src/pages/Home.tsx`) and proves facts about it:

- **Colors** (`colors.dfy`) models `randomColor`. Six digit draws, each
  `floor(random() * 16)`, select letters of `"0123456789ABCDEF"` after a `'#'`.
  It also has the inverse, reading the draws back from a colour string. With
  that inverse, drawing is proved to be a bijection between six-digit draws and
  canonical colour strings.
- **Generator** (`generator.dfy`) models `generateColors`. It is the
  rejection-sampling `while` loop, with the `newColors` sequence and the
  `generatedColors` set as its two variables. The loop is proved against a
  reference definition: the result is exactly the first `n` distinct candidate
  colours of the draw stream, in drawing order. It follows that the result is
  duplicate-free, at most `n` long, and exactly `n` long when the stream holds
  `n` different candidates.
- **Game** (`game.dfy`) models the click state machine of `handleColorClick`
  as a function on (colours, secret index, phase, clicked index). It also holds
  the round invariant `Consistent`, sequences of clicks (`Run`), and the
  derived view values `headerBackground`, `newGameText` and `message`.
- **Session** (`session.dfy`) models the component state as the class `Home`,
  with the fields `colors`, `secretIndex`, `gameState` and `difficulty`. The
  constructor stands for mounting; the other methods are `newGame`,
  `changeDifficulty` (together with its effect) and `handleColorClick`.
  `handleColorClick` builds an array for the mapped colours and fills it in
  place. `Fill` models `Array.prototype.fill`. `SecretIndexFrom` models
  `floor(r * difficulty)`.

The random source is a parameter. Digit draws come as a finite sequence of
values in `[0, 16)`. The draw for the secret index comes as an exact real `r`
in `[0, 1)`.

Where the code differs from the game's intended design, the model follows the
code:

- Choosing the difficulty that is already active does nothing. `setDifficulty`
  with an unchanged value does not re-render, and the effect on `[difficulty]`
  does not run again, so no new palette is drawn
  (`Session.Home.ChangeDifficulty`).
- A click on an index outside the palette is not rejected. It sets the phase to
  Wrong, or to Won if it equals the secret index, and leaves the colours
  unchanged (`Game.Click` takes any integer).
- Only the Won phase blocks further clicks. From Wrong, a click on the secret
  still wins, and the "none" swatches then show the secret colour as well
  (`Game.RunPhase`, `Game.ClickScenario`).

## Model

| member | source | states |
|---|---|---|
| Colors.Letter | src/pages/Home.tsx:38-39 | the letter for a digit draw is a hexadecimal letter whose value is the draw |
| Colors.RandomColor | src/pages/Home.tsx:37-40 | a drawn colour is 7 characters, `'#'` and six hexadecimal letters, and its k-th letter has the value of the k-th draw |
| Colors.ParseColor | src/pages/Home.tsx:37-40 | reading a canonical colour gives six draws whose letters spell it |
| Colors.ParseRandomColor | src/pages/Home.tsx:37-40 | reading a drawn colour gives back its draws |
| Colors.RandomColorParse | src/pages/Home.tsx:37-40 | every canonical colour string is the colour of some six draws |
| Colors.RandomColorInjective | src/pages/Home.tsx:37-40 | two colours are equal exactly when they come from the same draws |
| Generator.Candidates | src/pages/Home.tsx:26-27 | a stream of draws yields one canonical candidate colour per six draws |
| Generator.Dedup | src/pages/Home.tsx:28-31 | the reference for the skip-if-seen step: no repetitions, the same set of colours as the input, no longer than the input |
| Generator.FirstDistinct | src/pages/Home.tsx:22-35 | the first n distinct candidates are at most n, distinct, drawn from the candidates, and a prefix of all distinct candidates |
| Generator.GenerateColors | src/pages/Home.tsx:22-35 | the loop returns exactly the first `difficultyNum` distinct candidates in draw order, with no duplicates, at most `difficultyNum` of them, all canonical; its invariants keep the set equal to the elements of the array |
| Generator.DedupSnoc | src/pages/Home.tsx:28-31 | a new candidate is appended, a candidate already generated is skipped |
| Generator.DedupPrefix | src/pages/Home.tsx:26-32 | later draws never change colours already kept |
| Generator.DistinctCard | src/pages/Home.tsx:24 | a duplicate-free array has as many elements as its set |
| Generator.FirstDistinctComplete | src/pages/Home.tsx:26-32 | the palette has all n colours exactly when the stream holds at least n different candidates |
| Generator.GenerateColorsStops | src/pages/Home.tsx:26 | when the loop condition fails, the colours kept are the first distinct candidates of the whole stream |
| Game.Click | src/pages/Home.tsx:42-54 | in phase Won nothing changes; a click on the secret index gives Won, with every swatch showing the secret colour; any other click gives Wrong and changes only the clicked swatch, to "none" unless it shows the secret colour; the length and the secret swatch never change |
| Game.FreshRoundConsistent | src/pages/Home.tsx:60-66 | a fresh palette of distinct colours with an index in range starts a consistent round |
| Game.ClickKeepsConsistent | src/pages/Home.tsx:42-54 | a click keeps the round invariant: the secret swatch keeps a colour, swatches show colours or "none", a won round shows only the secret colour, and a round not yet won shows no colour twice |
| Game.WrongClickBlanksClicked | src/pages/Home.tsx:45-46 | in a consistent round, a wrong click on a swatch is exactly "set that swatch to none", because uniqueness means the guard never fires |
| Game.WonIsFinal | src/pages/Home.tsx:43 | no sequence of clicks changes a won round |
| Game.RunPhase | src/pages/Home.tsx:43-53 | after any clicks the round is won exactly when it was won before or a click hit the secret index, and after one click or more it is never back at Start |
| Game.RunKeepsConsistent | src/pages/Home.tsx:45-49 | any sequence of clicks keeps the round invariant, the number of swatches and the secret swatch's colour |
| Game.ClickScenario | src/pages/Home.tsx:42-54 | on three swatches with the secret in the middle: a correct click floods, a wrong click blanks one swatch, a click on the secret after a wrong one still wins |
| Game.HeaderBackground | src/pages/Home.tsx:14 | the secret colour when won, "steelblue" otherwise, so for a canonical secret colour the header shows it exactly when the round is won |
| Game.NewGameText | src/pages/Home.tsx:15 | "New game?" exactly when won, "New colors" exactly when not |
| Game.Message | src/pages/Home.tsx:16 | "Correct :)" exactly for Won, "Wrong :(" exactly for Wrong, the empty string exactly for Start |
| Session.SecretIndexFrom | src/pages/Home.tsx:62 | for every draw in [0, 1), floor(r * n) is an index of an n-swatch palette (and 0 when n is 0) |
| Session.Fill | src/pages/Home.tsx:49 | every element of the array becomes the given value |
| Session.Home.constructor | src/pages/Home.tsx:9-20 | mounting sets difficulty 9 and then starts a game: phase Start, the first 9 distinct candidates, and the secret index from the draw |
| Session.Home.NewGame | src/pages/Home.tsx:60-66 | phase Start, a full palette of `difficulty` distinct colours (the first distinct candidates), the secret index floor(r * difficulty) in range, difficulty unchanged, and the session invariant |
| Session.Home.ChangeDifficulty | src/pages/Home.tsx:56-58 | the new difficulty is stored; if it differs from the old one, the effect starts a new game of that size; if not, nothing else changes |
| Session.Home.HandleColorClick | src/pages/Home.tsx:42-54 | the new palette and phase are those of `Game.Click` on the old state, built in an array and filled in place; the secret index and difficulty stay, and the session invariant holds |

## Left out

- Rendering (`Header`, `Grid`, `Square`, `DifficultyBtn`, `NewGameBtn`, src/pages/Home.tsx:68-100) is view plumbing, and those component sources are not part of this model. This includes the header title `colors[secretIndex]` (line 71), which shows the secret colour's string in every phase.
- React hook semantics are not modelled in detail. State updates happen at once, with no batching. The difficulty effect runs synchronously inside `ChangeDifficulty`, and only when the value changes. The mount effect runs inside the constructor.
- `Math.random` is not modelled. Digit draws are a parameter, and so is the index draw, as an exact real in [0, 1). Uniformity and independence are not stated. The floating-point rounding of `r * difficulty` is not modelled.
- Generator.GenerateColors: the draw stream is finite. When fewer than six draws remain, the loop stops with the colours it has, where the component would keep drawing. `NewGame`, `ChangeDifficulty` and the constructor therefore require a stream with enough distinct candidates. A stream without enough would make the component loop forever, and that case is not modelled.
- Session.Home.NewGame: requires a positive difficulty. The component only ever uses 9 (its initial value) and 3. With difficulty 0, `colors[secretIndex]` would be `undefined` in JavaScript, and that value is not modelled.
- Game.Click: requires the secret index to lie within the palette. This holds in every state after mounting. Before mounting the palette is empty, and there are no swatches to click.
