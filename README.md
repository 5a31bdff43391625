# Memory pairs game: turn, score and countdown model

A Dafny model of the single-page memory game in `script.js`. Sixteen cards, each
of the eight face values `A`..`H` twice, are shuffled and laid out face up for a
five-second preview, then hidden. The player turns two cards at a time. A pair of
equal values stays face up and scores 10 points. A mismatch costs 2 points, never
taking the score below 0, and the two cards go face down again after a one-second
lockout. A countdown of 120 seconds ticks once per second.

The page is replaced by plain data. The board is an `array<Card>` of face values
and `flipped` flags, and the deck is the `array<char>` that `shuffle` permutes in
place. The globals of the script are the fields of the class `MemoryGame.Game`.
The deferred callbacks are step methods that the caller invokes when they are due:
`PreviewEnd` (the five-second timeout of `createBoard`), `MismatchTimeout` (the
one-second timeout of `checkForMatch`) and `Tick` (one firing of the interval of
`startTimer`). `Math.random` is replaced by a sequence of draws `picks`, where
draw `i` lies in `0..i`.

Modules:

- `Wrappers`: `Option`.
- `Cards` (`cards.dfy`): the face values, the initial deck, what it means for a
  deck to hold every value twice, and `Shuffle`, the in-place Fisher-Yates loop.
  `Shuffle` is proved equal to the specification function `Shuffled`, and
  `Shuffled` is proved to be a permutation.
- `Readout` (`readout.dfy`): the `Time: m:ss` text the interval writes, and a
  parser that reads it back.
- `MemoryGame` (`game.dfy`): the class `Game`, its invariant `Valid()`, and one
  method per handler and callback.

The invariant `Valid()` states the following:

- The deck holds every value exactly twice, and the board shows the deck in order.
- A held selection of the current board names a face-up card with its value.
- The lockout `isChecking` is on exactly while a second card is held.
- During the preview every card is face up and nothing is found or selected.
- Afterwards the face-up cards are exactly two per found pair plus the selected
  cards. This balance gives `matchedPairs <= 8`.
- The score is never negative, and the countdown stays within `0..120`.

A selection is a `CardRef`: a board position together with the number of the
board it was taken from. `resetGame` builds a new board and leaves `firstCard`,
`secondCard` and `isChecking` as they were. A reference kept across "Try Again"
therefore names a card that is no longer on the page, exactly as the detached
DOM element does. `unflipCards` on such a card changes nothing on the current
board. A match of such a stale first card with a card of the new board counts a
pair while only one card of that pair is face up. The ghost field
`strayMatches`, at most 1 per board, accounts for it in the balance.

Where the code and the behaviour one would expect of the game differ, the model
follows the code:

- `resetGame` clears `gameStarted` after building the board, so the preview
  timeout of a "Try Again" board does not start the countdown
  (script.js:37, script.js:155-156).
- `resetGame` cancels no timer and keeps the selections and the lockout.
- Clicks are still accepted after the time is up, since `flipCard` has no
  game-over guard. A round is not terminal in the code.
- "Try Again" does not go back to a pre-game state. It deals a new board at once,
  and the start button stays hidden.
- The readout is written before the decrement, so the tick that finds 0 seconds
  writes nothing and `0:00` is never shown.

## Model

| member | source | states |
|---|---|---|
| Cards.InitialDeckIsPairDeck | script.js:1-2 | `[...cardValues, ...cardValues]` holds each of the eight values exactly twice and no other value |
| Cards.PermutedDeckIsPairDeck | script.js:1-2 | any rearrangement of the initial deck has sixteen cards and holds each value exactly twice |
| Cards.PairDeckPermuted | script.js:21 | shuffling a deck that holds every value twice gives such a deck again |
| Cards.ShuffleFromPermutes | script.js:13-16 | the remaining iterations of the swap loop keep the length and the multiset of the deck |
| Cards.ShuffledIsPermutation | script.js:12-17 | whatever the draws, the full shuffle is a permutation of its input |
| Cards.ShuffleFromFixedPicks | script.js:13-16 | when every draw is its own index, every swap is with itself and the deck is unchanged |
| Cards.Shuffle | script.js:12-17 | the in-place loop from the last index down to 1 leaves the array equal to `Shuffled` of its old contents, and a permutation of them |
| Readout.Decimal | script.js:133 | a natural number renders as at least one decimal digit, with a leading `0` exactly for 0, and as one digit exactly below 10 |
| Readout.DecimalRoundTrip | script.js:133 | reading the rendered digits back gives the number |
| Readout.TwoDigits | script.js:133 | the padded seconds field is exactly two digits whose value is the number of seconds |
| Readout.FormatTime | script.js:131-133 | the readout is `Time: `, the minutes `t / 60` in decimal, `:`, and the seconds `t % 60` in two digits |
| Readout.ReadoutRoundTrip | script.js:131-133 | parsing the readout of `t` gives back `t` |
| Readout.FormatTimeInjective | script.js:131-133 | two different remaining times never show the same readout |
| MemoryGame.SetFlagKeepsCards | script.js:58 | turning a card face up or down keeps every face value, so the board still shows the deck |
| MemoryGame.SelectKeepsBalance | script.js:58-67 | an accepted click happens only after the preview; it turns the card face up and selects it as the first or the second card, and the selections and the face-up count stay in balance |
| MemoryGame.MatchKeepsBalance | script.js:74-78 | a match drops both selections and counts one more pair, the balance still holds, and the number of pairs found stays at most 8 |
| MemoryGame.TurnDownKeepsBalance | script.js:102-110 | turning both selections face down and dropping them keeps the balance |
| MemoryGame.DealtBoardBalanced | script.js:24-32 | a freshly dealt board, all face up, with every selection from an earlier board, is the preview state with nothing found |
| MemoryGame.Game.LockedBoardIgnoresClicks | script.js:53-56 | during the preview, when every card is face up, and during the lockout, every click is ignored |
| MemoryGame.Game.DealtIsValid | script.js:19-32 | a board just dealt from a pair deck, with nothing found and only stale selections, satisfies the game invariant |
| MemoryGame.Game.constructor | script.js:1-10 | the globals as declared: the unshuffled deck, no selection, zero pairs and score, 120 seconds, not started, and the invariant holds |
| MemoryGame.Game.CreateBoard | script.js:19-40 | the deck becomes the shuffle of its old contents, and still holds every value twice; a fresh board shows the deck face up; the board counter grows by one and the preview timeout is pending |
| MemoryGame.Game.StartGame | script.js:165-169 | from the pristine state: the game is started, the button hidden, a board dealt as by `CreateBoard`, and the invariant holds |
| MemoryGame.Game.HideCards | script.js:112-118 | every card ends face down, and its value is unchanged |
| MemoryGame.Game.PreviewEnd | script.js:35-40 | every card ends face down; the countdown is armed if the game-started flag is set and is otherwise left as it was; an interval that is already armed is never armed again |
| MemoryGame.Game.ResetCards | script.js:97-100 | both selections are cleared |
| MemoryGame.Game.CheckForMatch | script.js:71-95 | on equal values: one more pair, 10 more points, selections cleared, lockout off, and a win exactly when 8 pairs are found, which stops the countdown; otherwise the score becomes `max(score - 2, 0)`, the selections stay and the lockout stays on |
| MemoryGame.Game.KeepPair | script.js:74-84 | the match branch: one more pair, 10 more points, selections cleared, lockout off, a win exactly at 8 pairs, and the countdown stopped on a win |
| MemoryGame.Game.FlipCard | script.js:50-69 | a click during the lockout, on a face-up card or on the held first card changes nothing; any other click turns up exactly that card and selects it as the first card, or as the second with the match outcome of `CheckForMatch` |
| MemoryGame.Game.TurnUp | script.js:58-68 | past the guard: exactly card k turns face up, and it becomes the first card, or the second card with the match or mismatch outcome |
| MemoryGame.Game.UnflipCards | script.js:102-110 | the cards of the current board that the selections name are turned face down, every other card is unchanged, and both selections are cleared |
| MemoryGame.Game.MismatchTimeout | script.js:89-92 | the selected cards of the current board go face down, nothing else on the board changes, the selections are cleared and the lockout is released, and the invariant holds again |
| MemoryGame.Game.Tick | script.js:122-136 | with no time left: no readout, the interval is cleared and the time is unchanged; otherwise the readout of the remaining time is shown and exactly one second is taken off; the time never goes below 0 |
| MemoryGame.Game.ResetGame | script.js:147-157 | pairs, score and time back to 0, 0 and 120; a new board dealt as by `CreateBoard`; the game-started flag cleared; no selection names a card of the new board; and the invariant holds |

## Left out

- Rendering: `getElementById`, `createElement`, `textContent`, `style.display`,
  `innerHTML`, `showGameOver`, `hideGameOver`, `updateScore` and the status
  strings. These only write to the page. The board model keeps only the
  `flipped` class and the face values, and `Tick` returns the readout text
  instead of writing it.
- Event-listener wiring: the click listener on each card, the start button's
  listener and the "Try Again" listener. The last is added once more on every
  `createBoard` (script.js:45-47), so one click runs `resetGame` once per board
  built so far. The caller invokes `FlipCard`, `StartGame` and `ResetGame` directly.
- Real scheduling through `setTimeout` and `setInterval`, and the delays. Each
  callback body is a step method guarded by a flag saying that its callback is
  pending or armed: `previewPending`, `isChecking` and `timerArmed`.
- PreviewEnd: several `resetGame` calls within five seconds leave several
  preview timeouts pending in the code. The model keeps one pending flag, so it
  does not capture a later timeout turning down a card the player turned up
  after the first one fired.
- Tick: a single `timerArmed` flag stands for the interval handle. No method
  arms a second interval while one runs (`PreviewEnd` proves this), so the
  overwriting of `timer` never occurs in the model.
- `Math.random` (script.js:14): the draws are the parameter `picks`.
- StartGame requires the start button to be still shown, and ResetGame requires
  it to be hidden. These stand in for the page showing each button only then.
- ResetGame: requires only the facts it relies on, not the whole invariant: the
  deck holds every value twice, the selections come from this board or earlier
  ones, and the lockout is on exactly while a second card is held.
