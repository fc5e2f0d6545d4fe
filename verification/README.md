# playingCard: a Dafny model of the memory-matching card game's core

The app deals a deck of playing cards into card views. The views drift around the
screen, pushed by a UIKit dynamic behaviour. Tapping a view flips it. Two face-up views
that show the same card are enlarged, shrunk, faded and hidden. Two that differ are
flipped back and re-join the drifting behaviour.

This project models that core as pure functions over immutable data. The modules:

- `PlayingCard`: suits, ranks, the rank order key, the labels, and the canonical lists.
- `Decimal`: Swift's `String(_: Int)` with a parser, so that the labels can be shown to
  lose nothing.
- `PlayingCardDeck`: the 52-card deck, `draw()`, and `Int.arc4random`.
- `FloatRandom`: `Float.arc4random` and `CGFloat.arc4random`.
- `CardBehavior`: which items are in the collision and item behaviours. It also covers
  the one-shot pushes, with their angle toward the centre and their magnitude.
- `PlayingCardView`: the rank's corner label, the pips-per-row table, and the number of
  pips `drawPips` draws.
- `ViewController`:
  - dealing in `viewDidLoad`;
  - the `faceUpCardViews` filter and the `faceUpCardViewsMatch` test;
  - `lastChosenCardView`;
  - `flipCards` as a transition system: every tap and every animation completion is one
    event on a timeline.
- `ControllerProofs`: the state invariant the transitions keep, the effect of each
  completion branch, what dealing hands out, and the two findings below.

How the environment is represented:

- **Randomness is a parameter.**
  - `arc4random_uniform(n)` is a natural number `u < n` passed in.
  - `Float.random(in: lo...hi)` is a unit draw `t` in [0, 1], giving `lo + t * (hi - lo)`.
  - The covering lemmas show that every value of the promised range is reached by some
    draw. The invariant lemmas and the dealing lemmas hold for all draws.
  - The worked scenarios at the end of `ControllerProofs` take any two views of one card,
    any behaviour and any bounds. They fix one push draw, `StillDraw`, for the pushes that
    a completion creates. `ControllerProofs.PairFromViewDidLoad` takes any draws.
- **Animations use UIKit's model-value semantics.** A property assigned inside an
  animation block takes its final value at once. The completion closure becomes a pending
  `Completion` that the environment may fire at any later point, in any order relative to
  the other pending completions and to taps.
- **Tap delivery follows UIKit hit-testing.** A view that is hidden, has alpha below
  0.01, or has a `UIView.transition` in flight (a flip or a flip-back) receives no tap.
  The elimination animations use `UIViewPropertyAnimator`, which leaves interaction
  enabled.
- **Starting views and constants.**
  - Card views start visible, at the identity transform, with alpha 1: the storyboard
    defaults.
  - A view's identity is its slot index.
  - `CGFloat.pi` is the constant 3.141592653589793.
- **Dealing traps.** The two program-stopping cases of dealing are `Err` values:
  - the range `1...0` when there are no card views;
  - unwrapping the `nil` of an empty deck when there are more than 104 views.

Facts about the program that the model keeps as they are:

- The race guard is the `lastChosenCardView` comparison, not a flip counter.
- An odd number of views is not rejected. `(count + 1) / 2` cards are drawn, and one
  card of the pile is left undealt.
- A matched pair is never marked as matched. It is only hidden.
- Nothing detects the end of the game.

## Model

| member | source | states |
|---|---|---|
| PlayingCard.RawValue | playingCard/PlayingCard.swift:28-31 | each suit's raw value is two characters: one of the four suit symbols ♠ ♥ ♦ ♣, then the emoji variation selector |
| PlayingCard.RawValueInjective | playingCard/PlayingCard.swift:22-31 | two suits have the same raw value exactly when they are the same suit |
| PlayingCard.AllSuits | playingCard/PlayingCard.swift:33 | the suit list has four suits, with no repetition |
| PlayingCard.AllSuitsComplete | playingCard/PlayingCard.swift:28-33 | every suit is in the suit list |
| PlayingCard.AllRanks | playingCard/PlayingCard.swift:61-69 | the rank list has thirteen ranks, and the rank at position i has order key i+1 |
| PlayingCard.Order | playingCard/PlayingCard.swift:50-59 | a numbered rank's key is its pip count; the ace and every face get a key in 0 to 13, which is 0 exactly for a face whose kind is not J, Q or K |
| PlayingCard.OrderZeroCases | playingCard/PlayingCard.swift:50-59 | the order key is 0 exactly for the numeric rank 0 and for a face whose kind is not J, Q or K |
| PlayingCard.AllRanksStrictlyIncreasing | playingCard/PlayingCard.swift:50-69 | the rank list is in strictly increasing order and has no repetition |
| PlayingCard.OrderInjectiveOnAllRanks | playingCard/PlayingCard.swift:50-69 | on the listed ranks, equal order keys mean equal ranks |
| PlayingCard.RankOfOrder | playingCard/PlayingCard.swift:50-69 | there is a listed rank with order key n exactly when 1 <= n <= 13 |
| PlayingCard.RankOfOrderInvertsOrder | playingCard/PlayingCard.swift:50-69 | every listed rank is recovered from its order key |
| PlayingCard.Description | playingCard/PlayingCard.swift:38-44 | the ace is labelled "A", a face by its kind, and a numbered rank by the canonical decimal numeral of its pip count: no leading zero, no "-0", and it reads back as the pip count |
| PlayingCard.NumericDescriptionRoundTrip | playingCard/PlayingCard.swift:41 | a numeric rank's label is a decimal numeral that reads back as its pip count |
| PlayingCard.AllRanksDescriptions | playingCard/PlayingCard.swift:38-44 | the listed ranks are labelled A, 2 to 10, J, Q, K |
| PlayingCard.DescriptionInjectiveOnAllRanks | playingCard/PlayingCard.swift:38-69 | no two listed ranks share a label |
| PlayingCard.CardDescription | playingCard/PlayingCard.swift:14-16 | a card's label splits after two characters into its suit's raw value and its rank's label |
| PlayingCard.CardDescriptionInjective | playingCard/PlayingCard.swift:14-16 | two cards with listed ranks have the same label exactly when they are the same card |
| Decimal.NatToDecimal | playingCard/PlayingCard.swift:41 | a natural number renders as a non-empty string of digits, one digit exactly below 10, with no leading zero |
| Decimal.ParseNatToDecimal | playingCard/PlayingCard.swift:41 | parsing the rendering of a natural number gives the number back |
| Decimal.IntToDecimal | playingCard/PlayingCard.swift:41 | an integer's rendering starts with a minus sign exactly when the integer is negative, and is canonical: no leading zero other than "0" itself, and no "-0" |
| Decimal.IntToDecimalRoundTrip | playingCard/PlayingCard.swift:41 | every integer's rendering is well formed and parses back to the integer |
| Decimal.IntToDecimalOfParse | playingCard/PlayingCard.swift:41 | every canonical decimal string is the rendering of the integer it reads as |
| Decimal.CanonicalDecimalIff | playingCard/PlayingCard.swift:41 | a string is the rendering of n exactly when it is a canonical decimal string that reads as n |
| Decimal.IntToDecimalInjective | playingCard/PlayingCard.swift:41 | distinct integers render differently |
| PlayingCardDeck.IntArc4Random | playingCard/PlayingCardDeck.swift:35-45 | the result lies in [0, n) for positive n, is 0 for 0, and lies in (n, 0] for negative n |
| PlayingCardDeck.IntArc4RandomCoversRange | playingCard/PlayingCardDeck.swift:35-45 | every value of the promised range is the result of some draw |
| PlayingCardDeck.RemoveAt | playingCard/PlayingCardDeck.swift:27 | removing at i returns the element at i, and the others keep their order; together they are a permutation of the array |
| PlayingCardDeck.RemoveRandomly | playingCard/ViewController.swift:29-31 | one removal per view: the removed and the remaining elements together are a permutation of the pile |
| PlayingCardDeck.FreshDeck | playingCard/PlayingCardDeck.swift:15-23 | a new deck has 52 cards, with the card at position 13*s+r made of suit s and rank r |
| PlayingCardDeck.NewDeck | playingCard/PlayingCardDeck.swift:15-23 | the nested suit and rank loops build exactly the fresh deck |
| PlayingCardDeck.FreshDeckAt | playingCard/PlayingCardDeck.swift:18-21 | the deck is suit-major, with the listed order inside each suit |
| PlayingCardDeck.FreshDeckDistinct | playingCard/PlayingCardDeck.swift:15-23 | no card occurs twice in a new deck |
| PlayingCardDeck.FreshDeckMembership | playingCard/PlayingCardDeck.swift:15-23 | a card is in a new deck exactly when its rank is a listed rank |
| PlayingCardDeck.FreshDeckExactlyOnce | playingCard/PlayingCardDeck.swift:15-23 | every card with a listed rank occurs exactly once in a new deck, and no other card occurs |
| PlayingCardDeck.Draw | playingCard/PlayingCardDeck.swift:25-31 | an empty deck yields nil and stays unchanged; otherwise the drawn card is removed and the deck shrinks by one card |
| PlayingCardDeck.DrawMany | playingCard/PlayingCardDeck.swift:25-31 | repeated draws return as many cards as draws; with the rest of the deck they are a permutation of the deck |
| PlayingCardDeck.DrawManyDistinct | playingCard/PlayingCardDeck.swift:25-31 | from a deck without repetition, the drawn cards and the rest have no repetition |
| PlayingCardDeck.DrawWholeFreshDeck | playingCard/PlayingCardDeck.swift:15-31 | 52 draws return every card of a new deck exactly once and empty it, and the next draw yields nil |
| FloatRandom.RandomIn | playingCard/ViewController.swift:111 | a draw from lo...hi lies in the range, with the ends reached at draws 0 and 1 |
| FloatRandom.RandomInCovers | playingCard/ViewController.swift:111 | every value of lo...hi is the result of some draw |
| FloatRandom.CheckedRandomIn | playingCard/ViewController.swift:113 | drawing from a closed range stops the program exactly when its lower bound exceeds its upper bound |
| FloatRandom.Arc4RandomAsWritten | playingCard/ViewController.swift:108-118 | as written, the result exists exactly for a non-negative receiver, and then lies between 0 and the receiver |
| FloatRandom.Arc4RandomAsWrittenTrapsOnNegative | playingCard/ViewController.swift:112-113 | as written, every negative receiver stops the program |
| FloatRandom.Arc4Random | playingCard/ViewController.swift:108-124 | corrected: the result lies between 0 and the receiver for every sign |
| FloatRandom.Arc4RandomAgreesOnNonNegative | playingCard/ViewController.swift:108-118 | for a non-negative receiver the corrected and the written function agree |
| CardBehavior.QuadrantOf | playingCard/CardBehavior.swift:50-61 | the default case is taken exactly when the item lies on a centre line |
| CardBehavior.PushAngle | playingCard/CardBehavior.swift:48-62 | with reference bounds, the angle lies in the quarter arc pointing from the item's quadrant toward the centre (any direction on a centre line); without them, it is the default 0 |
| CardBehavior.PushAngleCoversArc | playingCard/CardBehavior.swift:48-62 | every angle of that arc is the result of some draw |
| CardBehavior.PushMagnitude | playingCard/CardBehavior.swift:63 | the magnitude lies in [1, 3] |
| CardBehavior.PushMagnitudeCoversRange | playingCard/CardBehavior.swift:63 | every magnitude in [1, 3] is the result of some draw |
| CardBehavior.NewBehavior | playingCard/CardBehavior.swift:14-43 | a new behaviour has the bounds as its boundary, no rotation, elasticity 1 and resistance 0, no members and no pushes |
| CardBehavior.AddItem | playingCard/CardBehavior.swift:45-76 | the item joins both child behaviours and gets exactly one new pending push: aimed at it, with the angle and magnitude its draw gives, magnitude in [1, 3]; earlier pushes are unchanged |
| CardBehavior.RemoveItem | playingCard/CardBehavior.swift:78-82 | the item leaves both child behaviours, and pending pushes are kept |
| CardBehavior.RemoveAfterAdd | playingCard/CardBehavior.swift:72-82 | removing an item just added gives the membership from before the add, minus the item, and its push stays pending |
| CardBehavior.ActPush | playingCard/CardBehavior.swift:65-67 | a push's action delivers the push if it is still pending and removes only that push |
| CardBehavior.PushActsAtMostOnce | playingCard/CardBehavior.swift:65-67 | a second action of the same push delivers nothing and changes nothing |
| PlayingCardView.RankString | playingCard/PlayingCardView.swift:208-217 | the label is "?" exactly outside 1 to 13; for 2 to 10 it is a numeral that reads back as the rank |
| PlayingCardView.RankStringMatchesDescription | playingCard/PlayingCardView.swift:208-217 | for every listed rank, the view's label of its order key equals the rank's own label |
| PlayingCardView.TablePipSums | playingCard/PlayingCardView.swift:145 | the row entries for each rank 0 to 10 add up to exactly that many pips |
| PlayingCardView.DrawPips | playingCard/PlayingCardView.swift:162-181 | the drawing loop draws exactly `rank` pips over the rank's rows, and nothing for a rank outside the table |
| PlayingCardView.MaxRowLength | playingCard/PlayingCardView.swift:149 | the reduction is an upper bound on every row's length and is attained, or 0 for no rows |
| PlayingCardView.RowMax | playingCard/PlayingCardView.swift:150 | the largest entry of a row bounds every entry and is attained, or 0 for an empty row |
| PlayingCardView.MaxPipsPerRow | playingCard/PlayingCardView.swift:150 | the reduction bounds every entry of every row, is never negative, and is attained unless it is 0 |
| PlayingCardView.TableEntries | playingCard/PlayingCardView.swift:145 | rank 0 has only 0 entries; every other rank has only entries of 1 or 2 |
| PlayingCardView.TableShape | playingCard/PlayingCardView.swift:145-150 | the table has at most 5 rows per rank and at most 2 pips per row |
| ViewController.FaceUpSlots | playingCard/ViewController.swift:40-42 | a slot is listed exactly when its view is face-up, not hidden, not enlarged to 3x and fully opaque; the slots are listed in increasing order |
| ViewController.Enlarge | playingCard/ViewController.swift:66-67 | the first elimination phase sets only the transform, to three times the size, which takes the view out of the face-up filter |
| ViewController.TurnDown | playingCard/ViewController.swift:86-87 | the flip-back sets only the face, to face-down, which takes the view out of the face-up filter |
| ViewController.ShrinkAndFade | playingCard/ViewController.swift:70-72 | the second elimination phase sets only the transform, to a tenth, and alpha, to below the 0.01 at which UIKit delivers taps; the view leaves the face-up filter |
| ViewController.HideAndRestore | playingCard/ViewController.swift:74-78 | the clean-up hides the view and restores alpha 1 and the identity transform, changing nothing else; the hidden view is out of the face-up filter |
| ViewController.Choose | playingCard/ViewController.swift:55-60 | an accepted tap keeps the state well-formed |
| ViewController.TapAsWritten | playingCard/ViewController.swift:51-60 | as written, a tap either changes nothing or is accepted |
| ViewController.Tap | playingCard/ViewController.swift:51-60 | corrected: a tap either changes nothing or is accepted |
| ViewController.CompleteFlip | playingCard/ViewController.swift:62-98 | a flip completion keeps the state well-formed and keeps every view |
| ViewController.CompleteEnlarge | playingCard/ViewController.swift:68-73 | the end of the enlargement keeps the state well-formed |
| ViewController.CompleteFade | playingCard/ViewController.swift:73-79 | the end of the fade keeps the state well-formed |
| ViewController.CompleteFlipBack | playingCard/ViewController.swift:87-90 | the end of a flip-back puts its card back into both child behaviours with one new push; the views, the pending list and every other member are unchanged |
| ViewController.Dequeue | playingCard/ViewController.swift:62 | a completion runs once: the pending list loses exactly that entry, the others keep their order, and nothing else in the state changes |
| ViewController.Complete | playingCard/ViewController.swift:62-98 | any pending completion keeps the state well-formed |
| ViewController.Step | playingCard/ViewController.swift:51-98 | any event keeps the state well-formed and keeps every view |
| ViewController.Run | playingCard/ViewController.swift:51-98 | any run of events keeps the state well-formed and keeps every view |
| ViewController.StepAsWritten | playingCard/ViewController.swift:51-98 | the written program's step: a tap changes nothing or is accepted, and every other event is the corrected step |
| ViewController.RunAsWritten | playingCard/ViewController.swift:51-98 | any run of the written program keeps the state well-formed and keeps every view |
| ViewController.Doubled | playingCard/ViewController.swift:27 | the pile holds every drawn card exactly twice as often as it was drawn |
| ViewController.DealPile | playingCard/ViewController.swift:24-28 | the pile is built exactly when the deck has enough cards, and is then each drawn card twice; otherwise a nil is unwrapped |
| ViewController.DealCards | playingCard/ViewController.swift:24-31 | dealing succeeds exactly for 1 to 104 views and then gives one card per view; 0 views fails on the empty range |
| ViewController.AdmitAll | playingCard/ViewController.swift:29-35 | after the add loop, the slots 0 to n-1 have joined both child behaviours, each slot i with its own new push aimed at it; earlier members and pushes are kept |
| ViewController.ViewDidLoad | playingCard/ViewController.swift:22-36 | loading succeeds exactly for 1 to 104 views and gives a well-formed state with one view per card view |
| ControllerProofs.FaceUpMatchOrderFree | playingCard/ViewController.swift:44-47 | the match test holds exactly when two views are shown face-up and every two shown views agree on rank and suit, whatever their order |
| ControllerProofs.ShownIffFaceUpAtIdentity | playingCard/ViewController.swift:40-42 | for a view the animations can produce, passing the face-up filter means face-up, not hidden and at the identity transform |
| ControllerProofs.ViewDidLoadEstablishesInv | playingCard/ViewController.swift:22-36 | after loading, the invariant holds, no view is shown face-up, every view is in the behaviour, and nothing is pending |
| ControllerProofs.ChooseKeepsInv | playingCard/ViewController.swift:55-60 | an accepted tap keeps the invariant |
| ControllerProofs.TapKeepsInv | playingCard/ViewController.swift:51-60 | every tap keeps the invariant: at most two views are shown face-up, only face-down views are in the behaviour, and views in elimination are consistently marked |
| ControllerProofs.EnlargePairKeepsInv | playingCard/ViewController.swift:65-68 | starting the elimination of a matching pair keeps the invariant |
| ControllerProofs.TurnDownPairKeepsInv | playingCard/ViewController.swift:83-92 | flipping back a mismatched pair keeps the invariant |
| ControllerProofs.CompleteFlipKeepsInv | playingCard/ViewController.swift:62-98 | every branch of the flip completion keeps the invariant |
| ControllerProofs.CompleteEnlargeKeepsInv | playingCard/ViewController.swift:68-73 | the end of the enlargement keeps the invariant |
| ControllerProofs.CompleteFadeKeepsInv | playingCard/ViewController.swift:73-79 | the end of the fade keeps the invariant |
| ControllerProofs.CompleteKeepsInv | playingCard/ViewController.swift:62-98 | every completion keeps the invariant |
| ControllerProofs.StepKeepsInv | playingCard/ViewController.swift:51-98 | every event keeps the invariant |
| ControllerProofs.RunKeepsInv | playingCard/ViewController.swift:51-98 | every run of events keeps the invariant |
| ControllerProofs.EliminatedOutOfBehavior | playingCard/ViewController.swift:74-79 | under the invariant, a view that is hidden or not at the identity transform is in neither child behaviour |
| ControllerProofs.TapGuard | playingCard/ViewController.swift:51-60 | a tap is accepted exactly when the recogniser ended, the view can receive it, fewer than two views are shown face-up, and the view is not being eliminated; otherwise nothing changes |
| ControllerProofs.ChooseEffect | playingCard/ViewController.swift:55-60 | an accepted tap records the slot as last chosen, takes it out of both child behaviours, toggles only its face, and adds one pending flip |
| ControllerProofs.ChooseShowsTappedView | playingCard/ViewController.swift:55-63 | after an accepted tap, at most two views are shown face-up, and the tapped view is among them exactly when it was face-down |
| ControllerProofs.TapIgnoresEliminating | playingCard/ViewController.swift:55 | corrected: a tap on a view that is not at the identity transform changes nothing |
| ControllerProofs.TapDuringFlipIgnored | playingCard/ViewController.swift:55-60 | while a flip or flip-back transition runs on a view, a tap on it changes nothing, in the written and in the corrected controller |
| ControllerProofs.FlipDoneOnMatch | playingCard/ViewController.swift:63-81 | on a match, both views are enlarged, nothing is shown face-up any more, the behaviour is untouched, and one enlargement is pending for the pair |
| ControllerProofs.FlipDoneOnMismatch | playingCard/ViewController.swift:82-92 | on a mismatch, a completion that is not the last chosen changes nothing; the last chosen one turns both views face-down and starts their two flip-backs |
| ControllerProofs.FlipDoneAlone | playingCard/ViewController.swift:93-98 | when the number of views shown face-up is not two, the views and pending completions stay the same, and the chosen view re-joins the behaviour, with one new push, exactly when it is face-down |
| ControllerProofs.FlipBackReAdmits | playingCard/ViewController.swift:87-90 | when a flip-back ends, its card rejoins both child behaviours with one new push, the completion is consumed, and the views are unchanged |
| ControllerProofs.EliminationPhases | playingCard/ViewController.swift:66-80 | the pair is shrunk to a tenth and fully transparent, then hidden, opaque again and back at the identity transform; the other views are untouched |
| ControllerProofs.HiddenStaysHidden | playingCard/ViewController.swift:74-79 | no event un-hides a hidden view or shows it face-up |
| ControllerProofs.HiddenStaysHiddenOverRun | playingCard/ViewController.swift:51-98 | no run of events un-hides a hidden view |
| ControllerProofs.CompleteKeepsCards | playingCard/ViewController.swift:62-98 | completions never change which card a view shows |
| ControllerProofs.StepKeepsCards | playingCard/ViewController.swift:51-98 | no event changes which card a view shows |
| ControllerProofs.RunKeepsCards | playingCard/ViewController.swift:32-33 | the rank and suit set at load time stay for every run |
| ControllerProofs.MatchIffSameCard | playingCard/ViewController.swift:44-47 | the match test holds exactly when two views are shown face-up and they were dealt the same card |
| ControllerProofs.PairsCoverCount | playingCard/ViewController.swift:25 | the pile holds count or count+1 cards, and exactly count when count is even |
| ControllerProofs.DealtFromPile | playingCard/ViewController.swift:24-31 | the dealt cards are the ones removed from the doubled pile of drawn cards, and for an even count the pile is used up |
| ControllerProofs.DealPairsUp | playingCard/ViewController.swift:24-31 | from a deck without repetition, every dealt card comes from the deck and is dealt once or twice, and exactly twice when the view count is even |
| ControllerProofs.ViewDidLoadShowsCards | playingCard/ViewController.swift:24-33 | every view shows the order key and suit raw value of the card dealt to it, a card with a listed rank, and for an even count each dealt card is dealt exactly twice |
| ControllerProofs.Reachable | playingCard/ViewController.swift:22-98 | in every state reachable from loading, the invariant holds, every view keeps its card, and the match test holds exactly for two face-up views of the same card, which for an even count are all the views of that card |
| ControllerProofs.CompleteRevealsNothing | playingCard/ViewController.swift:62-98 | no completion makes a view shown face-up, so the number of face-up views never grows |
| ControllerProofs.TapAsWrittenBounded | playingCard/ViewController.swift:55 | a tap of the written program never leaves more than two views shown face-up |
| ControllerProofs.StepAsWrittenKeepsInv | playingCard/ViewController.swift:51-98 | every event of the written program keeps the state well-formed, at most two views face-up and the cards shown, and a hidden view stays hidden |
| ControllerProofs.RunAsWrittenKeepsInv | playingCard/ViewController.swift:51-98 | the same holds over every run of the written program |
| ControllerProofs.ReachableAsWritten | playingCard/ViewController.swift:22-98 | in every state the written program reaches from loading, at most two views are face-up, every view keeps its card, and the match test holds exactly for two face-up views of the same card |
| ControllerProofs.PairMatched | playingCard/ViewController.swift:51-81 | two views of the same card, each tapped with its flip completed, end up enlarged, out of the behaviour, with nothing shown face-up, and the invariant holds |
| ControllerProofs.TapDuringEliminationAsWritten | playingCard/ViewController.swift:55-98 | as written, a tap on an enlarged view of a matched pair is accepted; the view ends hidden and face-down but still in both child behaviours, which breaks the invariant |
| ControllerProofs.TapDuringEliminationCorrected | playingCard/ViewController.swift:55 | corrected, that tap on either view of the pair changes nothing |
| ControllerProofs.PairFromViewDidLoad | playingCard/ViewController.swift:29-35 | loading two views, with any pile draws, push draws and bounds, where the one deck draw picks card u, gives the scenario's start state: both views show card u face-down over the behaviour the add loop builds |

## Left out

- The physics of UIKit Dynamics (motion, collisions, elasticity at work) is left out. Only membership of the child behaviours and the pending pushes are modelled.
- Drawing and layout are left out: corner strings, fonts, face-card images, pip rectangles, the pinch gesture and `setNeedsDisplay`. They produce pixels, not state. Of `PlayingCardView` only `rankString`, the table and the number of pips drawn are modelled.
- Animation durations, delays and the `finished`/`position` arguments of the completions are left out. Completions fire in any order chosen by the environment, which covers every timing.
- Gesture recogniser states other than `.ended` are reduced to a boolean. Every other state falls to the `default: break`.
- Float and CGFloat precision is left out, including the `Float(self)` narrowing in `CGFloat.arc4random`. Values are exact reals, and `Float.random` is `lo + t * (hi - lo)` for an injected unit draw.
- Strings are sequences of Unicode scalars, not Swift `Character`s (grapheme clusters). So a suit's raw value counts as two characters here, the symbol and the variation selector, where Swift counts "♠️" as one. PlayingCard.CardDescription's "splits after two characters" is in scalars.
- The randomness of `arc4random_uniform` and `Float.random` is not modelled. It is an input.
- `convenience init(in:)` registering the behaviour with an animator is left out. The animator's reference bounds are a `bounds` parameter of the game state, and `None` models an animator without a reference view.
- The storyboard is left out. The number of card views is a parameter, and views start visible, opaque and at the identity transform.
- PlayingCardDeck.IntArc4Random: it requires |n| <= 0xFFFF_FFFF instead of modelling the `UInt32(_:)` trap beyond that. The deck and pile never exceed 104 cards.
- ViewController.CompleteFlip: its own contract states only well-formedness. Its three branches are stated by ControllerProofs.FlipDoneOnMatch, ControllerProofs.FlipDoneOnMismatch and ControllerProofs.FlipDoneAlone.
- ViewController.CompleteEnlarge: its own contract states only well-formedness. The two elimination phases are stated by ControllerProofs.EliminationPhases.
- ViewController.CompleteFade: its own contract states only well-formedness. Its effect is stated by ControllerProofs.EliminationPhases.
- ViewController.Complete: its own contract states only well-formedness. The behaviour of each completion is stated by the ControllerProofs lemmas.
- ViewController.Step: it uses the corrected tap ViewController.Tap, not the written one, so ControllerProofs.StepKeepsInv, ControllerProofs.RunKeepsInv and ControllerProofs.Reachable are about the corrected program. For the written program (ViewController.StepAsWritten and ViewController.RunAsWritten) only the weaker ControllerProofs.InvAsWritten is proved: at most two views face-up, the cards kept, and hidden views kept hidden. The full invariant fails there, as ControllerProofs.TapDuringEliminationAsWritten shows. Step's own contract states only well-formedness. The invariant and card facts are stated by ControllerProofs.StepKeepsInv and ControllerProofs.StepKeepsCards.
- ViewController.Run: its own contract states only well-formedness. What holds after a run is stated by ControllerProofs.Reachable.
- ViewController.RunAsWritten: its own contract states only well-formedness. What holds after a run is stated by ControllerProofs.ReachableAsWritten.
- ViewController.Choose: its own contract states only well-formedness. Its effect is stated by ControllerProofs.ChooseEffect.
- ViewController.TapAsWritten: its own contract states only that a tap changes nothing or is accepted. When it is accepted is stated by ControllerProofs.TapGuard for the corrected ViewController.Tap, which adds one condition.
- ViewController.Tap: its own contract states only that a tap changes nothing or is accepted. The exact condition is in ControllerProofs.TapGuard.

## Findings

| source | as written | input that shows it | evidently intended | confidence | as-written member | corrected member |
|---|---|---|---|---|---|---|
| playingCard/ViewController.swift:55 | A tap is acted on whenever fewer than two views pass the face-up filter. That filter skips views enlarged to 3x, so a view of a matched pair in its first elimination phase can be tapped. | Two views dealt the same card. Tap the first and complete its flip, then tap the second and complete its flip: the pair matches and is enlarged. Tap the first again before the enlargement completes, then let its flip, the enlargement and the fade complete. The first view ends hidden and face-down, yet it is back in the collision and item behaviours. | A view that is being eliminated ignores taps, so a hidden view never re-joins the behaviour. | medium, not executed (depends on UIKit delivering taps to views animated by `UIViewPropertyAnimator`, which it does by default) | ControllerProofs.TapDuringEliminationAsWritten | ControllerProofs.TapDuringEliminationCorrected |
| playingCard/ViewController.swift:113 | The negative branch draws from `-self...0`. | Any negative receiver, e.g. `(-1.0).arc4random`, forms the range `1.0...0.0`, whose lower bound exceeds its upper bound, and the program stops. | A value between the receiver and 0, drawn from `self...0`. | high, not executed (latent: the program only calls it with positive receivers) | FloatRandom.Arc4RandomAsWritten | FloatRandom.Arc4Random |

For the first finding:

- `ViewController.TapAsWritten` models the tap as written.
- `ViewController.Tap` is the corrected tap that the timeline `ViewController.Step` uses. It also requires the tapped view to be at the identity transform.
- `ControllerProofs.StepKeepsInv` and `ControllerProofs.Reachable` prove the invariant for the corrected tap. The invariant says a hidden view is in neither child behaviour.
- `ViewController.StepAsWritten` and `ViewController.RunAsWritten` are the timeline with the written tap. `ControllerProofs.ReachableAsWritten` proves what still holds there.

For the second finding, `CardBehavior.PushAngle` and `CardBehavior.PushMagnitude` use the corrected `FloatRandom.Arc4Random`.
