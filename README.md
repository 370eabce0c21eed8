# goker in Dafny

A Dafny model of the core of goker, a Go library for Texas Hold'em. It covers these parts:

- **Cards and categories** (`cards.dfy`, `handrank.dfy`). The card ranks Two..Ace are the integers 2..14 and the suits Clubs..Spades are codes 0..3. The ten hand categories, HighCard = 1 .. RoyalFlush = 10, are ordered as integers. The bit constants `straightValue` (31), `wheelStraightValue` (16444) and `royalFlushValue` (31744) are defined here, and so is the `tiebreakerShifts` table [16, 12, 8, 4, 0].
- **Hand evaluation** (`hand.dfy`, reasoned about in `handfacts.dfy` and `tiebreak.dfy`).
  - `NewHand` checks the size first and then looks for duplicates.
  - It sorts the cards by rank, descending.
  - `evaluate` computes, once per hand:
    - the rank-presence mask, one bit per rank (`1 << rank`);
    - whether the hand is a flush;
    - the straight test `mask / (mask & -mask) == 31`, with the wheel A-2-3-4-5 as a special case;
    - the category, first match wins.
  - `TiebreakScore` groups the cards by rank count, sorts them by count and then rank, and packs their ranks into 4-bit fields.
  - `Compare` orders by category, then applies the "wheel loses" rule, then compares the scores.
- **The combination generator** (`utils.dfy`). `Combinations` is the recursive generator that fills a shared buffer. It is modelled as a method over an `array` and proved equal to a recursive enumeration `Choose`. `BitSequenceToInt` works on a 64-bit Go `int`, and `GetBinaryIndexFromCardRank` is modelled as well.
- **Showdown selection** (`showdown.dfy`). There is one fold for the three loops that get the best hand or the winners: `findBestHand`, `findWinnerIndices` and the loops in `GetWinners`, `GetWinnersParallel` and `EvaluateAndCompareBatch`. The fold is stated over an abstract comparison. The Go loops are methods proved equal to the fold.
- **Equity** (`runouts.dfy`, `split.dfy`, `counters.dfy`, `equity.dfy`).
  - `cardKey` and the remaining deck.
  - The exact division of trials among workers, using Go's truncating `/` and `%`.
  - The win/tie counters, each kept in an `array`.
  - `runSimulations`, `Calculate`, `CalculateExact` and its "too many combinations" rule.
  - The integer fields of `EquityResult`.
- **Board, deck, player and game state** (`boards.dfy`, `decks.dfy`, `players.dfy`, `dealing.dfy`, `table.dfy`, `games.dfy`). `Board`, `Deck`, `Player` and `Game` are classes whose fields the methods update. The deck is a stack popped from its end. The street order is a state machine derived from the number of board cards.
- **The batch evaluators** (`parallel.dfy`). The goroutine fan-out becomes a sequential loop. It gives the same positional result, because each goroutine writes only its own slot.

Errors are the five sentinel values of `errors.go`, kept as a datatype (`errors.dfy`). The module also holds `Option` and `Result`.

## Model

| member | source | states |
|---|---|---|
| Cards.SuitCode | card.go:8-13 | the suits take the codes 0..3, in the order Clubs, Diamonds, Hearts, Spades |
| Cards.SuitCodeInjective | card.go:8-13 | different suits have different codes |
| Cards.RankString | card.go:49-64 | rank names are one character: the decimal digit for 2..9, and T, J, Q, K, A for ten, jack, queen, king and ace |
| Cards.RankStringInjective | card.go:49-64 | different ranks get different names |
| Cards.NewCard | card.go:73-75 | the card holds the given rank and suit unchanged |
| Cards.Value | card.go:78-80 | the value is the rank as an integer, in 2..14 |
| Cards.SuitIgnored | card.go:88-95 | Equal and Less compare ranks only: replacing either card's suit changes neither result |
| Cards.Trichotomy | card.go:88-95 | exactly one of Less(a, b), Less(b, a) and Equal(a, b) holds |
| Cards.AllSuits | card.go:98-100 | four distinct suits, in code order, and every suit is at its code's position |
| Cards.AllRanks | card.go:103-105 | the 13 ranks 2..14, strictly ascending |
| HandRanks.CategoryOrder | handrank.go:6-17 | HighCard < Pair < ... < StraightFlush < RoyalFlush, ten consecutive integers |
| HandRanks.HandRankString | handrank.go:19-44 | the result is "Unknown" exactly for values that are not one of the ten categories |
| HandRanks.HandRankStringInjective | handrank.go:19-44 | the ten categories have ten different names |
| HandRanks.RankBit | hand.go:84 | a rank's bit is non-zero and lies outside the two unused low bits and bit 15 |
| HandRanks.RankBitIsShift | hand.go:84 | a rank's bit is `1 << rank` |
| HandRanks.WheelIsAceToFive | handrank.go:56 | 16444 is the mask of {A, 5, 4, 3, 2}, and the ranks present are exactly those |
| HandRanks.WheelFailsDivisionTest | handrank.go:55-56 | the wheel mask fails the lowest-bit test, so it needs its own constant |
| HandRanks.RoyalIsAceToTen | handrank.go:55-60 | 31744 is the mask of A, K, Q, J and T, a run from Ten, and it passes the lowest-bit test |
| HandRanks.StraightTestComplete | handrank.go:55 | straightValue is 0b11111, and every run of five adjacent bits passes the test |
| HandRanks.StraightTestSound | hand.go:130-135 | a non-zero mask passes the test only when its bits are five adjacent positions |
| HandRanks.StraightTestMeaning | hand.go:130-135 | for a non-zero rank mask, the test holds if and only if the mask is a run of five ranks starting at some rank from Two to Ten |
| Combinatorics.Generate | utils.go:13-25 | the recursion appends, in order, the current prefix followed by each k-subset of the items from `start` |
| Combinatorics.Combinations | utils.go:4-29 | empty when n <= 0 or n > len(items), otherwise the enumeration Choose(items, 0, n) |
| Combinatorics.CardCombinations | utils.go:32-34 | same as Combinations, on cards |
| Combinatorics.ChooseIsPick | utils.go:13-25 | each combination picks the items at a list of indices |
| Combinatorics.ChooseLength | utils.go:14-18 | every combination has length k |
| Combinatorics.ChooseIndicesRange | utils.go:13-25 | the index lists are strictly increasing, within range, and of length k |
| Combinatorics.ChooseIndicesCount | utils.go:21-24 | there are C(m - start, k) index lists |
| Combinatorics.ChooseCount | utils.go:21-24 | there are C(len(items), n) combinations |
| Combinatorics.ChooseIndicesSorted | utils.go:21-23 | index lists come in lexicographic order, with the rightmost index varying fastest |
| Combinatorics.ChooseIndicesDistinct | utils.go:21-23 | no index list occurs twice |
| Combinatorics.PairsOfFour | utils.go:4-29 | the pairs from [1, 2, 3, 4] are exactly [1,2], [1,3], [1,4], [2,3], [2,4], [3,4], in that order |
| Combinatorics.KnownCounts | utils.go:21-24 | C(4,2) = 6, C(7,5) = 21 and C(44,1) = 44 |
| Combinatorics.Wrap64 | utils.go:40 | Go's 64-bit int wrap-around: the result lies in the signed range and is congruent mod 2^64 |
| Combinatorics.BitSequenceToInt | utils.go:37-43 | the bits are read most significant first, and the result is wrapped to 64 bits |
| Combinatorics.LowBitOnly | utils.go:40 | only the low bit of each element counts |
| Combinatorics.NoWrapUpTo63Bits | utils.go:37-43 | up to 63 bits do not wrap |
| Combinatorics.KnownBitValues | utils.go:37-43 | [1,0,1] is 5, [1,1,1,1] is 15, [1,0,0,0] is 8 and [0,0,0,1] is 1 |
| Combinatorics.GetBinaryIndexFromCardRank | utils.go:46-48 | the index is 14 - rank, in 0..12, so Ace gives 0 and Two gives 12 |
| Combinatorics.BinaryIndexReversesOrder | utils.go:46-48 | a higher rank has a lower index |
| Players.Player.constructor | player.go:12-17 | NewPlayer stores the name and no hole cards |
| Players.Player.SetHoleCards | player.go:20-27 | on error, the cards are unchanged; otherwise the hole cards are exactly the two given cards; the name is kept |
| Players.HoleCardsError | player.go:20-23 | InvalidHoleCards unless there are exactly two cards |
| Hands.Count | hand.go:96-102 | the count of a rank is positive exactly when some card has that rank |
| Hands.Contains | hand.go:297-304 | true if and only if some card has the rank |
| Hands.CardValuesOf | hand.go:81-87 | the mask's bit for a rank is set if and only if some card has that rank; no other bit is set |
| Hands.ComputeCardValues | hand.go:81-87 | the OR loop computes CardValuesOf |
| Hands.ComputeIsFlush | hand.go:105-116 | the loop computes IsFlushOf; a flush has every card in one suit |
| Hands.StraightOf | hand.go:119-136 | a wheel is always also a straight |
| Hands.StraightOfMeaning | hand.go:119-136 | isWheel if and only if the mask is A-5-4-3-2; isStraight if and only if it is the wheel or a run of five ranks |
| Hands.GetRankCounts | hand.go:96-102 | the map's keys are exactly the ranks held, and each value is that rank's count |
| Hands.KeysWithAreTallies | hand.go:157-171 | the number of map entries with count c is the number of ranks held c times |
| Hands.CountCategory | hand.go:174-190 | the rank-count branch always gives a category that is not a straight or flush |
| Hands.CategoryOf | hand.go:139-191 | the category is always one of the ten |
| Hands.ComputeHandRank | hand.go:139-191 | the counting loop and the first-match decision compute CategoryOf |
| Hands.Evaluate | hand.go:66-77 | the cached fields are set, the cards and player are kept, and an evaluated hand is left as it is (write-once) |
| Hands.EvaluateHand | hand.go:66-77 | the method computes Evaluate |
| Hands.SortByRank | hand.go:42-46 | the result is a permutation of the input, in non-increasing rank order |
| Hands.Unevaluated | hand.go:48-50 | the new hand holds the cards, unevaluated, with no player |
| Hands.MakeHand | hand.go:26-53 | InvalidHandSize when the length is not 5 (checked first), DuplicateCards when a (rank, suit) pair repeats, and otherwise an evaluated hand whose cards are a rank-sorted permutation of the input |
| Hands.NewHand | hand.go:26-53 | the method computes MakeHand |
| Hands.NewHandWithPlayer | hand.go:56-63 | the same as NewHand with the player tag set, and the same error otherwise |
| Hands.WithCounts | hand.go:226-229 | one entry per card |
| Hands.SortByCount | hand.go:232-237 | a permutation sorted by count descending, then rank descending |
| Hands.KeyOrder | hand.go:221-237 | one sorted entry per card |
| Hands.TiebreakScore | hand.go:214-248 | the method computes Score(h.cards) |
| Hands.PackRanks | hand.go:240-245 | the OR-shift loop packs the first five ranks |
| Hands.Compare | hand.go:255-284 | the result is -1, 0 or 1, and a higher category always wins |
| HandFacts.MaskMeaning | hand.go:81-87 | the wheel mask means ranks A-5-4-3-2, a run mask means five ranks in a row, and the royal mask means T-J-Q-K-A |
| HandFacts.TallyMeaning | hand.go:157-171 | some rank count equals c if and only if there is a group of c; two pair counts are exactly two pairs |
| HandFacts.FlushRanksDistinct | hand.go:139-191 | five distinct cards of one suit have five different ranks |
| HandFacts.StraightRanksDistinct | hand.go:174-190 | a straight has no pair, trips or quads |
| HandFacts.EvaluateIsPokerCategory | hand.go:139-191 | for five distinct cards, the category computed is the poker category defined from the cards directly |
| HandFacts.ScoreFive | hand.go:240-245 | the packed score is the five key ranks in base 16, below 2^20 |
| HandFacts.ScoreOrder | handrank.go:74 | the fields do not overlap, so scores order as the key-rank sequences do, lexicographically |
| HandFacts.MadeHandsEvaluated | hand.go:48-52 | a hand NewHand returns is evaluated and has five cards |
| HandFacts.EvaluateEvaluated | hand.go:66-77 | evaluate leaves consistent cached fields |
| HandFacts.ContainsByMask | hand.go:297-304 | Contains agrees with the cached mask |
| HandFacts.StraightCategories | hand.go:194-211 | `isStraight` holds exactly for Straight, StraightFlush and RoyalFlush, and `isWheel` implies `isStraight` |
| HandFacts.CompareByKey | hand.go:255-284 | Compare is the sign of the category difference, then of the wheel bonus, then of the score |
| HandFacts.CompareAntisymmetric | hand.go:255-284 | Compare(a, b) = -Compare(b, a), and Compare(a, a) = 0 |
| HandFacts.CompareTotal | hand.go:287-294 | exactly one of Beats(a, b), Ties(a, b) and Beats(b, a) holds |
| HandFacts.CompareTransitive | hand.go:255-294 | Beats and Ties compose transitively, so Compare is a total preorder |
| HandFacts.SameCategoryOrder | hand.go:274-283 | within one category and wheel status, Beats and Ties come from the key ranks |
| HandFacts.WheelLoses | hand.go:265-272 | a wheel loses to any other straight of the same category |
| Tiebreaks.CountsOfPermutation | hand.go:221-224 | reordering the cards keeps every rank's count |
| Tiebreaks.ScoreByRankCounts | hand.go:214-248 | the score depends only on how many cards of each rank there are |
| Tiebreaks.SameRanksTie | hand.go:255-294 | two evaluated hands with the same rank counts, both flushes or both not, have the same category and the same score, and tie |
| Tiebreaks.SameRanksOtherSuitsTie | hand.go:26-53 | NewHand on the same ranks in other suits gives hands that tie, unless exactly one is a flush |
| Showdown.Made | parallel.go:89-92 | a hand exactly when NewHand succeeded (nil otherwise) |
| Showdown.Keep | equity.go:269-271 | the step of findBestHand keeps one of the two, and is nil only when both are |
| Showdown.Admit | equity.go:281-298 | one step of findWinnerIndices: a nil entry changes nothing, otherwise the winners restart at i, gain i, or stay |
| Showdown.WinnersShape | equity.go:277-302 | winners are increasing indices of present hands, and a best hand exists exactly when there are winners |
| Showdown.WinnersHead | equity.go:286-295 | the best hand is the hand at the first winner |
| Showdown.AdmitPreserves | equity.go:281-298 | each step keeps the loop invariant: the winners are the present hands so far that no hand so far beats |
| Showdown.WinnersByInv | equity.go:277-302 | the invariant holds after every prefix |
| Showdown.BestIsWinnersBest | equity.go:260-275 | findBestHand's result is the winner loop's best hand |
| Showdown.WinnersByMeaning | equity.go:277-302 | for any total preorder: an index is a winner if and only if its hand is present and no hand beats it; the winners increase and are empty only when all entries are nil; the best hand is the first winner's and beats every earlier hand |
| Showdown.TiedAreTop | equity.go:292-298 | a present hand ties the best if and only if no hand beats it |
| Showdown.FirstWinnerBeatsEarlier | equity.go:269-271 | the first winner strictly beats every earlier hand, so the earliest among equal hands is kept |
| Showdown.ComparePreorder | hand.go:255-284 | Compare is a total preorder on evaluated hands |
| Showdown.WinnersMeaning | equity.go:277-302 | with Compare: winners are exactly the present hands no hand beats, ascending; the list is empty only when all entries are nil; every winner ties the best hand |
| Showdown.BestMeaning | equity.go:260-275 | the best hand is nil only when no hand is present; otherwise it is a present hand no hand beats and that beats every earlier hand |
| Decks.StandardDeck | deck.go:13-24 | 52 cards |
| Decks.StandardDeckIndex | deck.go:17-21 | card (rank, suit) is at position 13 * suit + rank - 2 |
| Decks.StandardDeckComplete | deck.go:13-24 | every card is present, and no card is present twice |
| Decks.Swap | deck.go:27-31 | same length |
| Decks.ShuffleSteps | deck.go:27-31 | same length |
| Decks.Shuffled | deck.go:27-31 | same length |
| Decks.ShufflePermutes | deck.go:27-31 | the shuffle only swaps, so the multiset of cards is unchanged |
| Decks.Drawn | deck.go:49-59 | the n cards drawn are the last n, last card first |
| Decks.DrawnConserves | deck.go:49-59 | drawn plus left equals the deck before, as multisets |
| Decks.DrawManyOutcome | deck.go:49-59 | success exactly when n <= Len; on failure EmptyDeck and an empty deck (the cards drawn are not restored); on success n cards, conserved |
| Decks.Deck.constructor | deck.go:13-24 | NewDeck is a permutation of the standard 52 cards |
| Decks.Deck.Shuffle | deck.go:27-31 | the new cards are the pick-driven shuffle of the old ones |
| Decks.Deck.Len | deck.go:34-36 | the number of cards |
| Decks.Deck.Draw | deck.go:39-46 | EmptyDeck and no change on an empty deck; otherwise the last card, and only it is removed |
| Decks.Deck.DrawMany | deck.go:49-59 | result and new deck are DrawManyOutcome of the old deck |
| Decks.Deck.Burn | deck.go:62-65 | Draw with the card thrown away: same error, same removal |
| Decks.Deck.Remaining | deck.go:68-72 | the current cards |
| Decks.NewDeckHoldsEveryCardOnce | deck.go:13-24 | a new deck holds each of the 52 cards exactly once |
| Boards.BoardStateString | board.go:13-26 | "Unknown" exactly outside Preflop..River |
| Boards.BoardStateStringInjective | board.go:13-26 | the four states have four different names |
| Boards.StateOf | board.go:41-54 | 3 cards give Flop, 4 Turn, 5 River, and any other count Preflop |
| Boards.Board.constructor | board.go:34-38 | NewBoard has no cards (so Preflop) |
| Boards.Board.FlopCards | board.go:57-62 | the first three cards when there are at least three, otherwise nil |
| Boards.Board.TurnCard | board.go:77-82 | the card at index 3 when there are at least four, otherwise nil |
| Boards.Board.RiverCard | board.go:94-99 | the card at index 4 when there are at least five, otherwise nil |
| Boards.Board.SetFlop | board.go:65-74 | with exactly 3 cards on an empty board, appends them; otherwise InvalidBoardState and no change |
| Boards.Board.SetTurn | board.go:85-91 | with 3 cards on the board, appends the card; otherwise InvalidBoardState and no change |
| Boards.Board.SetRiver | board.go:102-108 | with 4 cards on the board, appends the card; otherwise InvalidBoardState and no change |
| Boards.FlopError | board.go:66-68 | InvalidBoardState unless there are 3 flop cards and the board is empty |
| Boards.StreetError | board.go:86-88 | InvalidBoardState unless the board has the needed count |
| Boards.SettersAdvanceStreets | board.go:65-108 | the setters that succeed move Preflop to Flop, then Turn, then River; at River every setter fails |
| Split.GoDiv | equity.go:61 | Go's `/` truncates toward zero: the Euclidean quotient for a >= 0, and at most 0 for a < 0 |
| Split.GoMod | equity.go:62 | Go's `%`: a = b * q + r, with r taking the sign of a |
| Split.GoDivModNonneg | equity.go:61-62 | for non-negative simulation counts, Go's operators agree with Dafny's |
| Split.NegativeShare | equity.go:64-76 | negative simulation counts give no worker a positive share |
| Split.TrialsBeforeValue | equity.go:64-76 | the trials before worker w are w * q + min(w, rem) |
| Split.TrialSplit | equity.go:61-76 | the shares add up to simulations exactly, or to 0 when simulations is negative |
| Runouts.CardKey | equity.go:237-239 | the key consists of the rank and the suit code |
| Runouts.CardKeyInjective | equity.go:237-239 | equal keys if and only if equal cards |
| Runouts.KeysOfMeaning | equity.go:45-54 | a card's key is in the used set if and only if the card is used |
| Runouts.UsedKeys | equity.go:45-54 | the loops collect the keys of the hole cards and the board |
| Runouts.BuildRemainingDeck | equity.go:241-252 | the nested loops compute Remaining(used) |
| Runouts.RemainingMeaning | equity.go:241-252 | exactly the cards whose key is unused, in suit-then-rank order, without duplicates |
| Runouts.RemainingCount | equity.go:241-252 | 52 - number of distinct used cards |
| Runouts.ExactCombos | equity.go:163-166 | nil when cardsNeeded <= 0 or exceeds the remaining deck; each combination has cardsNeeded cards |
| Runouts.RemainingFor | equity.go:148-159 | CalculateExact's deck is Remaining of the used keys |
| Runouts.RunoutsFor | equity.go:148-166 | CalculateExact's combinations |
| Runouts.ExactTotal | equity.go:163-171 | C(len(remaining), 5 - len(board)) runouts, and none with a full board |
| Runouts.ExactCount | equity.go:163-171 | C(len(remaining), n) combinations |
| Runouts.RiverEnumeration | equity.go:163-171 | four distinct hole cards with a 4-card board give 44 runouts |
| Runouts.FullBoards | equity.go:115-118 | each trial's board is the board followed by the first cardsNeeded shuffled cards |
| Runouts.ExactBoards | equity.go:186-190 | each exact trial's board is the board followed by the combination |
| Counters.WinCredit | equity.go:134-140 | a win only for a sole winner |
| Counters.CreditOnce | equity.go:134-140 | each player gets at most one win or tie per trial, and a tie exactly when there are several winners and the player is one of them |
| Counters.TotalsAppend | equity.go:81-90 | the counts over two runs of trials add |
| Counters.TotalsBound | equity.go:81-90 | wins + ties <= number of trials |
| Counters.Credit | equity.go:134-140 | the arrays gain exactly the per-trial credits |
| Counters.ResultOf | equity.go:84-90 | Losses = Total - Wins - Ties |
| Counters.ResultsOf | equity.go:81-93 | one result per player, from that player's totals |
| Counters.Results | equity.go:81-93 | the results loop builds ResultsOf |
| Equity.NewEquityCalculator | equity.go:26-31 | a positive worker count is kept; a count <= 0 becomes the CPU count, which is positive |
| Equity.FiveCardCombos | equity.go:261 | no combinations from fewer than five cards |
| Equity.MadeHands | parallel.go:75-96 | position i holds NewHand of set i, or nil when that call fails, whatever the other positions hold |
| Equity.FindBestHand | equity.go:260-275 | the loop computes the best of the five-card hands |
| Equity.BestHandMeaning | equity.go:260-275 | nil exactly when no combination is a valid hand; otherwise an evaluated valid combination that no combination beats and that beats every earlier one (the earliest among equal hands) |
| Equity.FindWinnerIndices | equity.go:277-302 | the loop computes the winner fold |
| Equity.BestHands | equity.go:121-129 | each player's best hand on the full board |
| Equity.BestHandsOn | equity.go:121-129 | the loop computes BestHands |
| Equity.PlayOut | equity.go:121-132 | one trial's winners |
| Equity.WinnersAtMeaning | equity.go:121-132 | winners are ascending, in range, and exactly the players whose best hand no other beats |
| Equity.JudgedUnique | equity.go:115-140 | the outcome of each trial is determined by its board |
| Equity.OutcomesBound | equity.go:81-90 | for every player, wins + ties <= trials |
| Equity.Trial | equity.go:115-140 | one trial credits exactly its winners |
| Equity.RunSimulations | equity.go:98-142 | after numSims trials, the counters hold the totals of the judged runouts |
| Equity.Calculate | equity.go:37-96 | one result per player, each the totals of judging every runout; Wins + Ties + Losses = Total = simulations, and none of them is negative when simulations >= 0 |
| Equity.RunWorkers | equity.go:61-79 | the workers, run in turn on consecutive shares, judge every runout once |
| Equity.ShareFits | equity.go:61-76 | each share starts where the last one ended and stays within the trials |
| Equity.CalculateAccounting | equity.go:81-90 | Wins + Ties + Losses = Total = simulations, Losses >= 0, and Wins, Ties <= simulations |
| Equity.RunCombinations | equity.go:182-218 | every combination is judged once, and the counters hold the totals |
| Equity.CalculateExact | equity.go:147-233 | nil exactly when the count of combinations exceeds maxCombinations; otherwise one result per player, the judged totals, with Wins + Ties + Losses = Total = that count and none negative |
| Equity.ExactAccounting | equity.go:220-230 | Wins + Ties + Losses = Total, and Losses >= 0 |
| Dealing.Decimal | game.go:21 | the decimal digits of n, with no leading zero |
| Dealing.DecimalRoundTrip | game.go:21 | reading the digits back gives n |
| Dealing.SeatNameNumber | game.go:21 | seat i is named "Player " followed by i + 1 |
| Dealing.SeatNamesDistinct | game.go:21 | different seats get different names |
| Dealing.Served | game.go:29-40 | the number of players who get both hole cards before the deck runs out |
| Dealing.HoleCardsAt | game.go:29-40 | the player at seat i gets the next two cards from the end |
| Dealing.HoleDraw | game.go:31-38 | each seat's DrawMany(2) takes those two cards, or fails with EmptyDeck |
| Dealing.FlopDeal | game.go:43-55 | outside Preflop: InvalidBoardState with deck untouched; otherwise burn one card and deal three; a shortfall gives EmptyDeck with the board unchanged and the cards consumed |
| Dealing.CardDeal | game.go:58-85 | the same for Turn and River: burn one card, deal one |
| Dealing.NextStreetMeaning | game.go:88-99 | the street advances by one, the earlier board is kept and cards are conserved; at River, InvalidBoardState |
| Dealing.FlopConserves | game.go:43-55 | burn, deal and the rest of the deck make up the deck before |
| Dealing.CardConserves | game.go:58-85 | burn, dealt card and the rest of the deck make up the deck before |
| Dealing.DealToRiver | game.go:88-99 | three calls deal the cards at fixed positions up to River, and a fourth fails |
| Dealing.DealtCardsDistinct | game.go:29-99 | from a deck without duplicates, no card is dealt twice |
| Dealing.NewGameDealsDistinct | game.go:13-26 | up to 22 players on a new game can be dealt to River with every card dealt distinct |
| Table.CandidatesOf | game.go:116-122 | the valid hands among the combinations, each tagged with the player |
| Table.CandidateHands | game.go:102-125 | InvalidBoardState exactly when the board has fewer than 3 cards |
| Table.CandidatesBest | game.go:128-144 | the first-best candidate is findBestHand's result, tagged with the player |
| Table.CompareIgnoresPlayer | hand.go:255-284 | the player tag never affects Compare |
| Table.BestHandForMeaning | game.go:128-144 | InvalidBoardState when the board is short or no candidate is valid; otherwise the best hand, tagged with the player |
| Table.CombosOfDistinct | game.go:116-122 | every combination of distinct cards is a valid hand |
| Table.CandidatesAll | game.go:116-122 | no candidate is lost when every combination is valid |
| Table.TwentyOneCandidates | game.go:102-125 | 2 hole cards with a full board give 21 candidates |
| Table.Split | game.go:184-189 | parallel player and hand lists, one entry per winner |
| Table.RunWinnersAgrees | game.go:169-182 | GetWinners' loop picks the entries at the winner fold's indices |
| Table.Entries | game.go:158-166 | each seat's player and best hand |
| Table.ShowdownMeaning | game.go:148-192 | InvalidBoardState unless it is River and every seat has a best hand; otherwise equal-length lists, non-empty when there are players, whose players are exactly those whose best hand no other beats, listed in seat order, and whose hands all tie |
| Table.FailedSeat | game.go:161-164 | a seat whose best hand fails makes the showdown return that error |
| Table.SomeSeatFails | game.go:161-164 | any failing seat gives InvalidBoardState |
| Table.SeatsShowdown | game.go:148-192 | the showdown is the winner loop over the seats' entries |
| Table.SelectWinners | game.go:169-189 | the loop computes the winners and splits them into parallel lists |
| Table.SplitEntries | game.go:184-189 | the loop computes Split |
| Table.ShowdownAgrees | game.go:148-192 | the showdown over Entries |
| Games.FirstError | parallel.go:36-41 | nothing exactly when every result is fine; otherwise the error of the first failing seat |
| Games.Pair | parallel.go:21-29 | the players paired with their hands, in seat order |
| Games.Game.constructor | game.go:13-26 | NewGame seats numPlayers distinct players "Player 1".., shuffles a full deck and deals each served player the next two cards |
| Games.Game.DealHoleCards | game.go:29-40 | two cards per seat in seat order; EmptyDeck on a shortfall, with the deck emptied and the seats already served keeping their cards |
| Games.Game.DealFlop | game.go:43-55 | deck and board become FlopDeal's |
| Games.Game.DealTurn | game.go:58-70 | deck and board become CardDeal's for the Flop |
| Games.Game.DealRiver | game.go:73-85 | deck and board become CardDeal's for the Turn |
| Games.Game.DealNextStreet | game.go:88-99 | deck and board become NextStreetDeal's |
| Games.Game.GetCandidateHands | game.go:102-125 | the result is CandidateHands |
| Games.Game.GetBestHand | game.go:128-144 | the result is BestHandFor |
| Games.Game.GetWinners | game.go:148-192 | the result is the showdown |
| Games.Game.CollectBestHands | game.go:158-166 | each seat's best hand, or InvalidBoardState from a failing seat |
| Games.Game.SeatResults | parallel.go:21-34 | position k holds seat k's best-hand result |
| Games.Game.GetWinnersParallel | parallel.go:10-66 | the same result as GetWinners: InvalidBoardState before River, the first seat error, or the same winners and hands |
| Parallel.EvaluateHandsBatch | parallel.go:70-98 | position i holds NewHand(cardSets[i]) or nil, independent of the other sets |
| Parallel.EvaluateAndCompareBatch | parallel.go:102-129 | the indices and best hand are the winner fold over the batch |
| Parallel.BatchWinners | parallel.go:108-126 | the loop computes the winner fold |
| Parallel.BatchWinnersMeaning | parallel.go:102-129 | no best hand exactly when every set is invalid; ascending indices of exactly the valid hands no other beats; the best hand is the first of them, and every listed hand ties it |

## Left out

- Goroutines, `sync.WaitGroup`, semaphore and result channels, and `atomic` counters are not modelled. Each worker's trials, each batch slot and each seat's best hand are computed in turn, in a sequential loop. Each unit of work is independent, and the reduction is a sum or a positional write, so the results agree.
- `rand.Shuffle` becomes input. `Deck.Shuffle` takes a function `pick` that chooses the swap partner at each step. `Calculate` takes the sequence of shuffled remaining decks, one per trial (`shuffleDeck`, equity.go:254-258), and requires that each is a permutation of the remaining deck.
- `EquityResult.Equity`, the float64 ratio, is not modelled. Only Wins, Ties, Losses and Total are. With a full board `CalculateExact` gets no combinations, so Total is 0 and the float ratio would divide by zero.
- `runtime.NumCPU()` is a parameter, required to be positive.
- The display functions are not modelled: `Card.String`, `CardSuit.String` (glyphs), `Hand.String`, `Board.String` and `Player.String`. The `fmt.Sprintf` duplicate key of `NewHand` is (rank, suit) equality.
- Dead code is not modelled: `computeCardCounts`, `binaryArithmeticToHandRank`, and the `*Value` constants that only it uses.
- Benchmarks and the example file print and time only.
- Hands.Compare's ordering properties are not part of its own contract. The accessors `Rank`, `IsFlush`, `IsStraight` and `IsWheel` are field projections without a contract. So are `Beats`, `Ties`, `Cards.Equal`, `Cards.Less` and `Board.State`. Their properties are the lemmas StraightCategories, CompareTotal, CompareTransitive, SuitIgnored, Trichotomy and StateOf.
- Hands.SortByCount: Go's `sort.Slice` is not stable. The model fixes one order among entries with equal keys, insertion order. The score reads only ranks, and entries with equal keys have equal ranks, so no result depends on the choice. Hands.SortByRank fixes an order the same way. That order is only visible when cards of one rank are listed.
- The `Player` pointer in `Hand` is an opaque tag `Player?`. It is never compared.
- The fresh copies made by `Combinations`, `SetHoleCards` and `Remaining` are modelled as sequence values. Go copies there, so no later write can reach the original, and a Dafny sequence cannot be written through another reference either.
- Boards.Board.FlopCards, TurnCard and RiverCard: Go hands out a sub-slice of `b.Cards` (`b.Cards[:3]`, board.go:59) and pointers into it (`&b.Cards[3]`, board.go:79; `&b.Cards[4]`, board.go:96). A caller can therefore change the board through the result, and appending to the flop slice of a board with four or more cards overwrites the turn card. The model returns copies, so writes through these results are not modelled.
- Decks.Deck.DrawMany requires n >= 0. Go's `make` panics for a negative count.
- Games.Game.constructor takes numPlayers as a `nat`. Go's `make` panics for a negative count.
- Games.Game.DealHoleCards requires `Seated()`: the players are distinct objects, as `NewGame` creates them. Go does not check this.
- Equity.Calculate requires `ec.workers > 0`: Go divides the trials by the worker count (equity.go:61-62), which panics on zero. `NewEquityCalculator` always gives a positive count.
- Equity.Calculate (and Equity.RunSimulations for its `numSims`) requires, when trials are run, that the board holds at most five cards and that the remaining deck holds the 5 - |board| cards to deal. Go panics otherwise: `make([]Card, len(board), 5)` at equity.go:116 panics when the board is longer than five, and `localDeck[:cardsNeeded]` at equity.go:118 panics when cardsNeeded is negative or exceeds the remaining deck. The model does not represent these panics.
- Equity.CalculateExact requires `ec.workers > 0` although it does no division. A zero count makes the semaphore of equity.go:179 unbuffered, so Go blocks forever once there is a combination to run, yet still returns nil for too many combinations and results for none. A negative count panics in `make`. The model covers only positive counts, which is all `NewEquityCalculator` produces.
- Cards.Rank is the subset 2..14 of Go's `CardRank int`. Values outside the thirteen named ranks, which Go's type admits but no constructor in the repository produces, are not modelled.
- `EvaluateHandsBatch` and `EvaluateAndCompareBatch` take `workers`, which only sizes the pool, so it is unused. The result buffer is a sequence of values rather than a slice of pointers.
- Seat names are "Player " followed by the decimal form of the seat number, given by `Decimal`. `fmt.Sprintf` is not modelled beyond this.
