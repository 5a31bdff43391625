/** The turn, score and countdown state of the pairs game, with the page replaced
    by plain data: the board is an array of cards, each a face value and the
    `flipped` flag that the game uses as "face up", and the deferred callbacks are
    methods that the scheduler calls when they are due. */
module MemoryGame {
  import opened Wrappers
  import Cards
  import Readout

  /** Points for a match, points taken for a mismatch, and the seconds a round lasts. */
  const MatchReward := 10
  const MismatchPenalty := 2
  const TimeLimit := 120

  /** A `.card` element: its face value (`dataset.value`) and whether it has the
      `flipped` class. */
  datatype Card = Card(value: char, flipped: bool)

  /** What `firstCard` or `secondCard` holds: the card at `pos` on the board built
      in round `round`, with its face value. A reference kept from an earlier board
      names a detached element, distinct from every card now on the page. */
  datatype CardRef = CardRef(round: nat, pos: nat, value: char)

  /** The number of face-up cards. */
  function FlippedCount(s: seq<Card>): (n: nat)
    ensures n <= |s|
  {
    if s == [] then 0 else (if s[0].flipped then 1 else 0) + FlippedCount(s[1..])
  }

  /** Turning one card face up or face down changes the count by at most that card. */
  lemma {:induction false} FlippedCountSet(s: seq<Card>, k: nat, b: bool)
    requires k < |s|
    ensures FlippedCount(s[k := s[k].(flipped := b)])
            == FlippedCount(s) - (if s[k].flipped then 1 else 0) + (if b then 1 else 0)
  {
    var t := s[k := s[k].(flipped := b)];
    if k == 0 {
      assert t[1..] == s[1..];
    } else {
      assert t[1..] == s[1..][k - 1 := s[1..][k - 1].(flipped := b)];
      FlippedCountSet(s[1..], k - 1, b);
    }
  }

  /** A board with every card face down has no face-up card. */
  lemma {:induction false} FlippedCountNone(s: seq<Card>)
    requires forall j :: 0 <= j < |s| ==> !s[j].flipped
    ensures FlippedCount(s) == 0
  {
    if s != [] {
      FlippedCountNone(s[1..]);
    }
  }

  /** The reference names a card of the board of round `round`. */
  predicate IsCurrent(r: Option<CardRef>, round: nat)
  {
    r.Some? && r.value.round == round
  }

  /** How many of the two selections name cards of the board of round `round`. */
  function HeldCount(first: Option<CardRef>, second: Option<CardRef>, round: nat): nat
  {
    (if IsCurrent(first, round) then 1 else 0) + (if IsCurrent(second, round) then 1 else 0)
  }

  /** A held reference is from this round or an earlier one; one from this round
      names a face-up card of the board b with the same value. */
  ghost predicate RefOk(b: seq<Card>, round: nat, r: Option<CardRef>)
  {
    r.Some? ==>
      r.value.round <= round
      && (r.value.round == round ==>
            r.value.pos < |b| && b[r.value.pos].flipped && b[r.value.pos].value == r.value.value)
  }

  /** The deck holds every face value twice, and the board, once dealt, shows
      the deck in order. */
  ghost predicate CardsOk(deck: seq<char>, b: seq<Card>)
  {
    && |deck| == |Cards.InitialDeck()|
    && Cards.IsPairDeck(deck)
    && (|b| == 0 || |b| == |deck|)
    && (forall j :: 0 <= j < |b| ==> b[j].value == deck[j])
  }

  /** The selections name face-up cards, a second card only beside a first one,
      and never the same card twice. */
  ghost predicate SelectionOk(b: seq<Card>, round: nat, first: Option<CardRef>, second: Option<CardRef>)
  {
    && RefOk(b, round, first) && RefOk(b, round, second)
    && (second.Some? ==> first.Some?)
    && (IsCurrent(first, round) && IsCurrent(second, round) ==> first.value.pos != second.value.pos)
  }

  /** The face-up cards are the found pairs and the selected cards: all of them
      during the preview, when nothing is found or selected yet; afterwards two
      per found pair plus the selected ones, where a pair completed with a card
      of an earlier board accounts for one card only. */
  ghost predicate BalanceOk(b: seq<Card>, round: nat, first: Option<CardRef>, second: Option<CardRef>,
                            matched: int, stray: nat, preview: bool)
  {
    && |b| <= 2 * |Cards.CardValues|
    && (first.Some? && !IsCurrent(first, round) ==> stray == 0)
    && (preview ==>
          (forall j :: 0 <= j < |b| ==> b[j].flipped)
          && matched == 0 && HeldCount(first, second, round) == 0 && stray == 0)
    && (!preview ==>
          2 * matched + HeldCount(first, second, round) == FlippedCount(b) + stray)
  }

  /** The board with the card that r names turned face down, when r names a card
      of this round's board; a card of an earlier board is detached, and turning
      it changes nothing here. */
  function TurnDown(b: seq<Card>, r: Option<CardRef>, round: nat): (t: seq<Card>)
    ensures |t| == |b|
  {
    if IsCurrent(r, round) && r.value.pos < |b| then b[r.value.pos := b[r.value.pos].(flipped := false)]
    else b
  }

  /** Changing the flag of one card leaves the face values, so the deck and the
      board still agree. */
  lemma SetFlagKeepsCards(deck: seq<char>, b: seq<Card>, k: nat, f: bool)
    requires CardsOk(deck, b) && k < |b|
    ensures CardsOk(deck, b[k := b[k].(flipped := f)])
  {
  }

  /** An accepted click (no lockout, no second card held, card k face down)
      turns card k face up and selects it, as the first card when none is held and
      as the second otherwise; the selections and the count of face-up cards stay
      in balance. */
  lemma SelectKeepsBalance(b: seq<Card>, round: nat, first: Option<CardRef>, second: Option<CardRef>,
                           matched: int, stray: nat, preview: bool, k: nat)
    requires SelectionOk(b, round, first, second) && BalanceOk(b, round, first, second, matched, stray, preview)
    requires second.None? && k < |b| && !b[k].flipped
    ensures !preview
    ensures var t := b[k := b[k].(flipped := true)];
            var picked := Some(CardRef(round, k, b[k].value));
            if first.None? then
              SelectionOk(t, round, picked, None) && BalanceOk(t, round, picked, None, matched, stray, false)
            else
              SelectionOk(t, round, first, picked) && BalanceOk(t, round, first, picked, matched, stray, false)
  {
    FlippedCountSet(b, k, true);
  }

  /** A match drops both selections and counts one more pair: the two cards stay
      face up as a found pair, and a first card from an earlier board counts as
      the one stray match. The count of pairs stays within the number of face
      values. */
  lemma MatchKeepsBalance(b: seq<Card>, round: nat, first: Option<CardRef>, second: Option<CardRef>,
                          matched: int, stray: nat)
    requires SelectionOk(b, round, first, second) && BalanceOk(b, round, first, second, matched, stray, false)
    requires first.Some? && IsCurrent(second, round) && stray <= 1
    ensures var stray' := if IsCurrent(first, round) then stray else stray + 1;
            && SelectionOk(b, round, None, None) && BalanceOk(b, round, None, None, matched + 1, stray', false)
            && stray' <= 1 && matched + 1 <= |Cards.CardValues|
  {
  }

  /** Turning both selections face down and dropping them keeps the balance: the
      cards they name on this board were face up and distinct. */
  lemma TurnDownKeepsBalance(b: seq<Card>, round: nat, first: Option<CardRef>, second: Option<CardRef>,
                             matched: int, stray: nat, preview: bool)
    requires SelectionOk(b, round, first, second) && BalanceOk(b, round, first, second, matched, stray, preview)
    requires second.Some?
    ensures var t := TurnDown(TurnDown(b, first, round), second, round);
            SelectionOk(t, round, None, None) && BalanceOk(t, round, None, None, matched, stray, preview)
  {
    var m := TurnDown(b, first, round);
    if IsCurrent(first, round) {
      FlippedCountSet(b, first.value.pos, false);
    }
    if IsCurrent(second, round) {
      assert m[second.value.pos] == b[second.value.pos];
      FlippedCountSet(m, second.value.pos, false);
    }
  }

  /** A freshly dealt board, all face up, with every selection left from an
      earlier board: the preview state, nothing found and nothing selected. */
  lemma DealtBoardBalanced(deck: seq<char>, b: seq<Card>, round: nat, first: Option<CardRef>, second: Option<CardRef>)
    requires |deck| == |Cards.InitialDeck()| && Cards.IsPairDeck(deck) && |b| == |deck|
    requires forall j :: 0 <= j < |b| ==> b[j] == Card(deck[j], true)
    requires (first.Some? ==> first.value.round < round) && (second.Some? ==> second.value.round < round)
    requires second.Some? ==> first.Some?
    ensures CardsOk(deck, b)
    ensures SelectionOk(b, round, first, second) && BalanceOk(b, round, first, second, 0, 0, true)
  {
  }

  class Game {
    /** `cards`: the deck that every `createBoard` shuffles in place. */
    const deck: array<char>
    /** The `.card` elements of the current board, in page order. */
    var board: array<Card>
    /** How many boards `createBoard` has built; the cards of earlier ones are detached. */
    var round: nat
    var firstCard: Option<CardRef>
    var secondCard: Option<CardRef>
    var matchedPairs: int
    var score: int
    var isChecking: bool
    var timeRemaining: int
    var gameStarted: bool
    /** Whether the interval held in `timer` is armed and not yet cleared. */
    var timerArmed: bool
    /** Whether the timeout that ends the five-second preview of the board is pending. */
    var previewPending: bool
    /** Whether the start button is still displayed. */
    var startShown: bool
    /** Matches this round whose first card belonged to an earlier board (at most one). */
    ghost var strayMatches: nat

    /** Card j of the board is one of the selected cards. */
    predicate Selects(j: nat)
      reads this
    {
      (IsCurrent(firstCard, round) && firstCard.value.pos == j)
      || (IsCurrent(secondCard, round) && secondCard.value.pos == j)
    }

    /** The guard of `flipCard`: a click on card k is ignored. */
    predicate Ignores(k: nat)
      reads this, board
      requires k < board.Length
    {
      isChecking || board[k].flipped || (IsCurrent(firstCard, round) && firstCard.value.pos == k)
    }

    /** What holds between the game's steps, except the link between `isChecking`
        and `secondCard`, which `checkForMatch` and the unflip step pass through.
        The score is never negative, the countdown stays within the limit, and no
        more pairs are found than there are face values; before the start button
        is pressed nothing has happened, and the countdown is not armed while the
        first preview runs. */
    ghost predicate Inv()
      reads this, deck, board
    {
      && CardsOk(deck[..], board[..])
      && SelectionOk(board[..], round, firstCard, secondCard)
      && BalanceOk(board[..], round, firstCard, secondCard, matchedPairs, strayMatches, previewPending)
      && score >= 0
      && 0 <= timeRemaining <= TimeLimit
      && 0 <= matchedPairs <= |Cards.CardValues|
      && strayMatches <= 1
      && (startShown ==>
            round == 0 && board.Length == 0 && matchedPairs == 0 && strayMatches == 0
            && firstCard.None? && secondCard.None? && !gameStarted && !timerArmed && !previewPending)
      && (gameStarted && previewPending ==> !timerArmed)
    }

    /** The game invariant: the mismatch lockout is on exactly while a second
        card is held. */
    ghost predicate Valid()
      reads this, deck, board
    {
      Inv() && (isChecking <==> secondCard.Some?)
    }

    /** The board that `createBoard` deals from the deck `before` with the draws
        `picks`: the shuffled deck, every card face up. */
    ghost predicate Dealt(before: seq<char>, picks: seq<int>)
      reads this, deck, board
      requires Cards.ValidPicks(picks, |before|)
    {
      && deck[..] == Cards.Shuffled(before, picks)
      && board.Length == deck.Length
      && (forall j :: 0 <= j < board.Length ==> board[j] == Card(deck[j], true))
    }

    /** Every click is ignored while the preview shows the board, since every card
        is then face up, and while the mismatch lockout is on. */
    lemma LockedBoardIgnoresClicks(k: nat)
      requires Valid() && k < board.Length && (previewPending || isChecking)
      ensures Ignores(k)
    {
    }

    /** A board just dealt from a pair deck, with nothing found yet and every
        selection naming a card of an earlier board, is a valid state. */
    lemma DealtIsValid()
      requires deck.Length == |Cards.InitialDeck()| && Cards.IsPairDeck(deck[..])
      requires board.Length == deck.Length
      requires forall j :: 0 <= j < board.Length ==> board[j] == Card(deck[j], true)
      requires firstCard.Some? ==> firstCard.value.round < round
      requires secondCard.Some? ==> firstCard.Some? && secondCard.value.round < round
      requires isChecking <==> secondCard.Some?
      requires matchedPairs == 0 && strayMatches == 0 && score >= 0 && 0 <= timeRemaining <= TimeLimit
      requires previewPending && !startShown && (gameStarted ==> !timerArmed)
      ensures Valid()
    {
      DealtBoardBalanced(deck[..], board[..], round, firstCard, secondCard);
    }

    /** The state when the page has loaded: the globals as declared, no board yet. */
    constructor ()
      ensures Valid() && fresh(deck) && fresh(board)
      ensures deck[..] == Cards.InitialDeck() && board.Length == 0 && round == 0
      ensures firstCard.None? && secondCard.None? && !isChecking
      ensures matchedPairs == 0 && score == 0 && timeRemaining == TimeLimit
      ensures !gameStarted && !timerArmed && !previewPending && startShown
    {
      var initial := Cards.InitialDeck();
      deck := new char[|initial|](i requires 0 <= i < |initial| => initial[i]);
      board := new Card[0];
      round := 0;
      firstCard, secondCard := None, None;
      matchedPairs, score, isChecking := 0, 0, false;
      timeRemaining := TimeLimit;
      gameStarted, timerArmed, previewPending, startShown := false, false, false, true;
      strayMatches := 0;
      new;
      assert deck[..] == initial;
      Cards.InitialDeckIsPairDeck();
    }

    /** `createBoard`: shuffle the deck in place, replace the board by fresh cards
        in deck order, all face up, and arm the preview timeout. */
    method CreateBoard(picks: seq<int>)
      requires deck.Length == |Cards.InitialDeck()|
      requires Cards.IsPairDeck(deck[..])
      requires Cards.ValidPicks(picks, deck.Length)
      modifies this`board, this`round, this`previewPending, deck
      ensures fresh(board) && Dealt(old(deck[..]), picks) && Cards.IsPairDeck(deck[..])
      ensures round == old(round) + 1 && previewPending
    {
      ghost var before := deck[..];
      Cards.Shuffle(deck, picks);
      Cards.PairDeckPermuted(before, deck[..]);
      var cards := new Card[deck.Length];
      for k := 0 to deck.Length
        modifies cards
        invariant forall j :: 0 <= j < k ==> cards[j] == Card(deck[j], true)
      {
        cards[k] := Card(deck[k], true);
      }
      board := cards;
      round := round + 1;
      previewPending := true;
    }

    /** The start button's handler: mark the game started, hide the button and
        build the first board. */
    method StartGame(picks: seq<int>)
      requires Valid() && startShown
      requires Cards.ValidPicks(picks, deck.Length)
      modifies this`gameStarted, this`startShown, this`board, this`round, this`previewPending, deck
      ensures Valid() && fresh(board) && Dealt(old(deck[..]), picks)
      ensures gameStarted && !startShown && previewPending && round == old(round) + 1
    {
      gameStarted := true;
      startShown := false;
      CreateBoard(picks);
      DealtIsValid();
    }

    /** `hideCards`: every card of the board face down, its value kept. */
    method HideCards()
      modifies board
      ensures forall j :: 0 <= j < board.Length ==> board[j] == old(board[j]).(flipped := false)
    {
      for k := 0 to board.Length
        invariant forall j :: 0 <= j < k ==> board[j] == old(board[j]).(flipped := false)
        invariant forall j :: k <= j < board.Length ==> board[j] == old(board[j])
      {
        board[k] := board[k].(flipped := false);
      }
    }

    /** The preview timeout: hide every card, then start the countdown if the
        game-started flag is still set. The interval is never armed twice. */
    method PreviewEnd()
      requires Valid() && previewPending
      modifies this`previewPending, this`timerArmed, board
      ensures Valid() && !previewPending
      ensures forall j :: 0 <= j < board.Length ==> board[j] == old(board[j]).(flipped := false)
      ensures timerArmed == (old(timerArmed) || gameStarted)
      ensures gameStarted ==> !old(timerArmed)
    {
      previewPending := false;
      HideCards();
      FlippedCountNone(board[..]);
      if gameStarted {
        timerArmed := true;
      }
    }

    /** `resetCards`: drop both selections. */
    method ResetCards()
      modifies this`firstCard, this`secondCard
      ensures firstCard.None? && secondCard.None?
    {
      firstCard := None;
      secondCard := None;
    }

    /** `checkForMatch`, run as soon as the second card is turned up: the lockout
        goes on, and the two values are compared. On equal values the pair is
        kept, as by `KeepPair`. Otherwise: the penalty, floored at 0, and the
        lockout stays on until the unflip step. */
    method CheckForMatch() returns (won: bool)
      requires Inv() && !isChecking && firstCard.Some? && IsCurrent(secondCard, round) && !previewPending
      modifies this`isChecking, this`matchedPairs, this`score, this`firstCard, this`secondCard,
               this`timerArmed, this`strayMatches
      ensures Valid()
      ensures old(firstCard).value.value == old(secondCard).value.value ==>
                && matchedPairs == old(matchedPairs) + 1
                && score == old(score) + MatchReward
                && firstCard.None? && secondCard.None? && !isChecking
                && (won <==> matchedPairs == |Cards.CardValues|)
                && timerArmed == (old(timerArmed) && !won)
      ensures old(firstCard).value.value != old(secondCard).value.value ==>
                && matchedPairs == old(matchedPairs)
                && score == (if old(score) > MismatchPenalty then old(score) - MismatchPenalty else 0)
                && firstCard == old(firstCard) && secondCard == old(secondCard) && isChecking
                && !won && timerArmed == old(timerArmed)
    {
      isChecking := true;
      if firstCard.value.value == secondCard.value.value {
        won := KeepPair();
      } else {
        score := if score - MismatchPenalty > 0 then score - MismatchPenalty else 0;
        won := false;
      }
    }

    /** The match branch of `checkForMatch`: one more pair, the reward, both
        selections dropped, the lockout off, and the win branch (which stops the
        countdown) exactly when every pair is found. */
    method KeepPair() returns (won: bool)
      requires Inv() && firstCard.Some? && IsCurrent(secondCard, round) && !previewPending
      requires firstCard.value.value == secondCard.value.value
      modifies this`isChecking, this`matchedPairs, this`score, this`firstCard, this`secondCard,
               this`timerArmed, this`strayMatches
      ensures Valid()
      ensures matchedPairs == old(matchedPairs) + 1 && score == old(score) + MatchReward
      ensures firstCard.None? && secondCard.None? && !isChecking
      ensures won <==> matchedPairs == |Cards.CardValues|
      ensures timerArmed == (old(timerArmed) && !won)
    {
      MatchKeepsBalance(board[..], round, firstCard, secondCard, matchedPairs, strayMatches);
      matchedPairs := matchedPairs + 1;
      score := score + MatchReward;
      if !IsCurrent(firstCard, round) {
        strayMatches := strayMatches + 1;
      }
      ResetCards();
      won := matchedPairs == |Cards.CardValues|;
      if won {
        timerArmed := false;
      }
      isChecking := false;
    }

    /** `flipCard`: a click on card k. Ignored, with nothing changed, during the
        lockout, on a face-up card and on the held first card; otherwise the card
        is taken as by `TurnUp`. */
    method FlipCard(k: nat) returns (won: bool)
      requires Valid() && k < board.Length
      modifies this`firstCard, this`secondCard, this`isChecking, this`matchedPairs, this`score,
               this`timerArmed, this`strayMatches, board
      ensures Valid()
      ensures old(Ignores(k)) ==> unchanged(this, board) && !won
      ensures !old(Ignores(k)) ==>
                board[..] == old(board[..])[k := old(board[k]).(flipped := true)]
      ensures !old(Ignores(k)) && old(firstCard).None? ==>
                && firstCard == Some(CardRef(round, k, board[k].value)) && secondCard.None?
                && matchedPairs == old(matchedPairs) && score == old(score) && !isChecking
                && timerArmed == old(timerArmed) && !won
      ensures !old(Ignores(k)) && old(firstCard).Some? && old(firstCard).value.value == board[k].value ==>
                && matchedPairs == old(matchedPairs) + 1
                && score == old(score) + MatchReward
                && firstCard.None? && secondCard.None? && !isChecking
                && (won <==> matchedPairs == |Cards.CardValues|)
                && timerArmed == (old(timerArmed) && !won)
      ensures !old(Ignores(k)) && old(firstCard).Some? && old(firstCard).value.value != board[k].value ==>
                && matchedPairs == old(matchedPairs)
                && score == (if old(score) > MismatchPenalty then old(score) - MismatchPenalty else 0)
                && firstCard == old(firstCard) && secondCard == Some(CardRef(round, k, board[k].value))
                && isChecking && !won && timerArmed == old(timerArmed)
    {
      if isChecking || board[k].flipped || (IsCurrent(firstCard, round) && firstCard.value.pos == k) {
        return false;
      }
      won := TurnUp(k);
    }

    /** The body of `flipCard` past its guard: card k, and only it, turns face up;
        it becomes the first card if none is held, and else the second, and the
        match is checked at once. */
    method TurnUp(k: nat) returns (won: bool)
      requires Valid() && k < board.Length && !Ignores(k)
      modifies this`firstCard, this`secondCard, this`isChecking, this`matchedPairs, this`score,
               this`timerArmed, this`strayMatches, board
      ensures Valid()
      ensures board[..] == old(board[..])[k := old(board[k]).(flipped := true)]
      ensures old(firstCard).None? ==>
                && firstCard == Some(CardRef(round, k, board[k].value)) && secondCard.None?
                && matchedPairs == old(matchedPairs) && score == old(score) && !isChecking
                && timerArmed == old(timerArmed) && !won
      ensures old(firstCard).Some? && old(firstCard).value.value == board[k].value ==>
                && matchedPairs == old(matchedPairs) + 1
                && score == old(score) + MatchReward
                && firstCard.None? && secondCard.None? && !isChecking
                && (won <==> matchedPairs == |Cards.CardValues|)
                && timerArmed == (old(timerArmed) && !won)
      ensures old(firstCard).Some? && old(firstCard).value.value != board[k].value ==>
                && matchedPairs == old(matchedPairs)
                && score == (if old(score) > MismatchPenalty then old(score) - MismatchPenalty else 0)
                && firstCard == old(firstCard) && secondCard == Some(CardRef(round, k, board[k].value))
                && isChecking && !won && timerArmed == old(timerArmed)
    {
      ghost var before := board[..];
      SelectKeepsBalance(before, round, firstCard, secondCard, matchedPairs, strayMatches, previewPending, k);
      SetFlagKeepsCards(deck[..], before, k, true);
      board[k] := board[k].(flipped := true);
      assert board[..] == before[k := before[k].(flipped := true)];
      var picked := CardRef(round, k, board[k].value);
      if firstCard.None? {
        firstCard := Some(picked);
        won := false;
      } else {
        secondCard := Some(picked);
        won := CheckForMatch();
      }
    }

    /** `unflipCards`: when both selections are held, turn them face down (a
        selection from an earlier board names a detached card and changes nothing
        on this one), then drop both selections. */
    method UnflipCards()
      requires Inv() && secondCard.Some?
      modifies this`firstCard, this`secondCard, board
      ensures Inv()
      ensures forall j :: 0 <= j < board.Length ==>
                board[j] == if old(firstCard).Some? && old(secondCard).Some? && old(Selects(j))
                            then old(board[j]).(flipped := false) else old(board[j])
      ensures firstCard.None? && secondCard.None?
    {
      ghost var before := board[..];
      TurnDownKeepsBalance(before, round, firstCard, secondCard, matchedPairs, strayMatches, previewPending);
      if firstCard.Some? && secondCard.Some? {
        if IsCurrent(firstCard, round) {
          var p := firstCard.value.pos;
          SetFlagKeepsCards(deck[..], board[..], p, false);
          board[p] := board[p].(flipped := false);
        }
        assert board[..] == TurnDown(before, firstCard, round);
        if IsCurrent(secondCard, round) {
          var q := secondCard.value.pos;
          SetFlagKeepsCards(deck[..], board[..], q, false);
          board[q] := board[q].(flipped := false);
        }
        assert board[..] == TurnDown(TurnDown(before, firstCard, round), secondCard, round);
      }
      ResetCards();
    }

    /** The mismatch timeout: turn the two selected cards face down, drop the
        selections and lift the lockout. */
    method MismatchTimeout()
      requires Valid() && isChecking
      modifies this`firstCard, this`secondCard, this`isChecking, board
      ensures Valid()
      ensures forall j :: 0 <= j < board.Length ==>
                board[j] == if old(Selects(j)) then old(board[j]).(flipped := false) else old(board[j])
      ensures firstCard.None? && secondCard.None? && !isChecking
    {
      UnflipCards();
      isChecking := false;
    }

    /** One firing of the countdown interval. With no time left it clears the
        interval and reports the end of the round (None); otherwise it shows the
        remaining time and takes exactly one second off. */
    method Tick() returns (display: Option<string>)
      requires Valid() && timerArmed
      modifies this`timeRemaining, this`timerArmed
      ensures Valid() && timeRemaining >= 0
      ensures old(timeRemaining) <= 0 ==>
                display.None? && !timerArmed && timeRemaining == old(timeRemaining)
      ensures old(timeRemaining) > 0 ==>
                && display == Some(Readout.FormatTime(old(timeRemaining)))
                && timeRemaining == old(timeRemaining) - 1 && timerArmed
    {
      if timeRemaining <= 0 {
        timerArmed := false;
        return None;
      }
      display := Some(Readout.FormatTime(timeRemaining));
      timeRemaining := timeRemaining - 1;
    }

    /** `resetGame` (the "Try Again" handler): counters back to their initial
        values and a new board, then the game-started flag cleared. The interval
        is not cleared, and the selections and the lockout are kept: they now
        refer to cards of the old board. */
    method ResetGame(picks: seq<int>)
      requires deck.Length == |Cards.InitialDeck()| && Cards.IsPairDeck(deck[..])
      requires firstCard.Some? ==> firstCard.value.round <= round
      requires secondCard.Some? ==> firstCard.Some? && secondCard.value.round <= round
      requires (isChecking <==> secondCard.Some?) && !startShown
      requires Cards.ValidPicks(picks, deck.Length)
      modifies this`matchedPairs, this`score, this`timeRemaining, this`gameStarted, this`strayMatches,
               this`board, this`round, this`previewPending, deck
      ensures Valid() && fresh(board) && Dealt(old(deck[..]), picks)
      ensures matchedPairs == 0 && score == 0 && timeRemaining == TimeLimit
      ensures !gameStarted && previewPending && round == old(round) + 1
      ensures !IsCurrent(firstCard, round) && !IsCurrent(secondCard, round)
    {
      matchedPairs, score, timeRemaining := 0, 0, TimeLimit;
      strayMatches := 0;
      CreateBoard(picks);
      gameStarted := false;
      DealtIsValid();
    }
  }
}
