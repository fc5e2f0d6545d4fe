/** The controller: dealing pairs into card views, the derived set of face-up
    views, the match test, and the tap and animation-completion transitions.
    Every tap and every animation completion is an event on one timeline;
    the environment chooses which pending completion fires next. */
module ViewController {
  import opened Wrappers
  import opened PlayingCard
  import opened PlayingCardDeck
  import opened CardBehavior

  /** A view's affine transform, reduced to its uniform scale factor; the identity is scale 1. */
  datatype Transform = Scale(factor: real)

  const Identity := Scale(1.0)
  /** The first elimination phase scales a matched card up to three times its size. */
  const Enlarged := Scale(3.0)
  /** The second elimination phase scales it down to a tenth. */
  const Shrunk := Scale(0.1)

  /** What the controller reads and writes on one card view: the rank's order key and the suit's
      raw value it was dealt, and the display state. */
  datatype CardView = CardView(
    rank: int,
    suit: string,
    isFaceUp: bool,
    isHidden: bool,
    transform: Transform,
    alpha: real)

  /** A started animation whose completion has not run yet, with what its closure captured. */
  datatype Completion =
    | FlipDone(chosen: nat)
    | EnlargeDone(cards: seq<nat>)
    | FadeDone(cards: seq<nat>)
    | FlipBackDone(card: nat)

  /** The controller's state. Slots are the indices of `views`; `bounds` is the animator's reference bounds. */
  datatype Game = Game(
    views: seq<CardView>,
    behavior: Behavior,
    bounds: Option<Rect>,
    lastChosen: Option<nat>,
    pending: seq<Completion>)

  /** Inputs on the timeline: a tap recognised on a slot (`ended` is whether the recogniser reached
      `.ended`), the completion of the pending animation at `index`, and a push's action. A completion
      carries the draws for the push it may create. */
  datatype Event =
    | Tapped(slot: nat, ended: bool)
    | Completed(index: nat, draw: PushDraw)
    | PushActed(id: nat)

  predicate RefersWithin(c: Completion, n: nat) {
    match c
    case FlipDone(s) => s < n
    case EnlargeDone(cs) => forall k :: 0 <= k < |cs| ==> cs[k] < n
    case FadeDone(cs) => forall k :: 0 <= k < |cs| ==> cs[k] < n
    case FlipBackDone(s) => s < n
  }

  /** Every slot the state mentions exists, and the behaviour's push numbers are consistent. */
  ghost predicate WellFormed(g: Game) {
    && Valid(g.behavior)
    && (g.lastChosen.Some? ==> g.lastChosen.value < |g.views|)
    && forall k :: 0 <= k < |g.pending| ==> RefersWithin(g.pending[k], |g.views|)
  }

  predicate ValidEvent(g: Game, e: Event) {
    match e
    case Tapped(s, _) => s < |g.views|
    case Completed(k, _) => k < |g.pending|
    case PushActed(_) => true
  }

  /** The filter behind `faceUpCardViews`: face-up, not hidden, not at three times its size, fully opaque. */
  predicate ShownFaceUp(v: CardView) {
    v.isFaceUp && !v.isHidden && v.transform != Enlarged && v.alpha == 1.0
  }

  /** The slots below `n` whose view passes the filter, in increasing order. */
  function FaceUpSlotsBelow(views: seq<CardView>, n: nat): (r: seq<nat>)
    requires n <= |views|
    ensures |r| <= n
    ensures forall k :: 0 <= k < |r| ==> r[k] < n && ShownFaceUp(views[r[k]])
    ensures forall i :: 0 <= i < n && ShownFaceUp(views[i]) ==> i in r
    ensures forall k, l :: 0 <= k < l < |r| ==> r[k] < r[l]
    decreases n
  {
    if n == 0 then []
    else FaceUpSlotsBelow(views, n - 1) + (if ShownFaceUp(views[n - 1]) then [n - 1] else [])
  }

  /** `faceUpCardViews`: exactly the slots whose view passes the filter, in slot order. */
  function FaceUpSlots(views: seq<CardView>): (r: seq<nat>)
    ensures forall i :: i in r <==> 0 <= i < |views| && ShownFaceUp(views[i])
    ensures forall k, l :: 0 <= k < l < |r| ==> r[k] < r[l]
    ensures |r| <= |views|
  {
    FaceUpSlotsBelow(views, |views|)
  }

  /** `faceUpCardViewsMatch`: exactly two views are shown face-up and they show the same rank and suit. */
  predicate FaceUpMatch(views: seq<CardView>) {
    var up := FaceUpSlots(views);
    |up| == 2 && views[up[0]].rank == views[up[1]].rank && views[up[0]].suit == views[up[1]].suit
  }

  /** The views with `f` applied to the listed slots. */
  function Apply(views: seq<CardView>, slots: seq<nat>, f: CardView -> CardView): (r: seq<CardView>)
    ensures |r| == |views|
    ensures forall i :: 0 <= i < |views| ==> r[i] == if i in slots then f(views[i]) else views[i]
  {
    seq(|views|, i requires 0 <= i < |views| => if i in slots then f(views[i]) else views[i])
  }

  /** The changes the animations make to one view. Each one takes the view out of the face-up filter. */
  function Enlarge(v: CardView): (r: CardView)
    ensures r.transform == Enlarged && !ShownFaceUp(r)
    ensures r.(transform := v.transform) == v
  {
    v.(transform := Enlarged)
  }

  function TurnDown(v: CardView): (r: CardView)
    ensures !r.isFaceUp && !ShownFaceUp(r)
    ensures r.(isFaceUp := v.isFaceUp) == v
  {
    v.(isFaceUp := false)
  }

  function ShrinkAndFade(v: CardView): (r: CardView)
    ensures r.transform == Shrunk && r.alpha < 0.01 && !ShownFaceUp(r)
    ensures r.(transform := v.transform, alpha := v.alpha) == v
  {
    v.(transform := Shrunk, alpha := 0.0)
  }

  function HideAndRestore(v: CardView): (r: CardView)
    ensures r.isHidden && !ShownFaceUp(r)
    ensures r.alpha == 1.0 && r.transform == Identity
    ensures r.(isHidden := v.isHidden, alpha := v.alpha, transform := v.transform) == v
  {
    v.(isHidden := true, alpha := 1.0, transform := Identity)
  }

  /** Whether UIKit delivers a tap to the view: it is not hidden, its alpha is at least 0.01, and no
      flip transition (which disables interaction with the view while it runs) is in flight on it. */
  predicate Deliverable(g: Game, s: nat)
    requires s < |g.views|
  {
    && !g.views[s].isHidden
    && g.views[s].alpha >= 0.01
    && FlipDone(s) !in g.pending
    && FlipBackDone(s) !in g.pending
  }

  /** An accepted tap: record the slot as last chosen, take it out of the behaviour, toggle its
      face (the transition sets the new value at once) and start the flip. */
  function Choose(g: Game, s: nat): (r: Game)
    requires s < |g.views|
    ensures WellFormed(g) ==> WellFormed(r)
  {
    g.(lastChosen := Some(s),
       behavior := RemoveItem(g.behavior, s),
       views := g.views[s := g.views[s].(isFaceUp := !g.views[s].isFaceUp)],
       pending := g.pending + [FlipDone(s)])
  }

  /** `flipCards` as written: the tap is acted on when the recogniser ended and fewer than two
      views are shown face-up. */
  function TapAsWritten(g: Game, s: nat, ended: bool): (r: Game)
    requires s < |g.views|
    ensures r == g || r == Choose(g, s)
  {
    if ended && Deliverable(g, s) && |FaceUpSlots(g.views)| < 2 then Choose(g, s) else g
  }

  /** `flipCards` with the tap also ignored on a view that is being eliminated (not at the identity transform). */
  function Tap(g: Game, s: nat, ended: bool): (r: Game)
    requires s < |g.views|
    ensures r == g || r == Choose(g, s)
  {
    if ended && Deliverable(g, s) && |FaceUpSlots(g.views)| < 2 && g.views[s].transform == Identity then Choose(g, s)
    else g
  }

  /** The completion of a tap's flip: eliminate a matching pair, flip back a mismatched pair when this
      was the last chosen slot, or re-admit a lone card that is now face-down. */
  function CompleteFlip(g: Game, chosen: nat, draw: PushDraw): (r: Game)
    requires chosen < |g.views| && WellFormed(g)
    ensures WellFormed(r) && |r.views| == |g.views|
  {
    var cardsToAnimate := FaceUpSlots(g.views);
    if FaceUpMatch(g.views) then
      g.(views := Apply(g.views, cardsToAnimate, Enlarge),
         pending := g.pending + [EnlargeDone(cardsToAnimate)])
    else if |cardsToAnimate| == 2 then
      if g.lastChosen == Some(chosen) then
        g.(views := Apply(g.views, cardsToAnimate, TurnDown),
           pending := g.pending + [FlipBackDone(cardsToAnimate[0]), FlipBackDone(cardsToAnimate[1])])
      else g
    else if !g.views[chosen].isFaceUp then
      g.(behavior := AddItem(g.behavior, chosen, g.bounds, draw))
    else g
  }

  /** The first elimination phase ends: shrink to a tenth and fade out. */
  function CompleteEnlarge(g: Game, cards: seq<nat>): (r: Game)
    requires WellFormed(g) && forall k :: 0 <= k < |cards| ==> cards[k] < |g.views|
    ensures WellFormed(r) && |r.views| == |g.views|
  {
    g.(views := Apply(g.views, cards, ShrinkAndFade),
       pending := g.pending + [FadeDone(cards)])
  }

  /** The second elimination phase ends: hidden, opaque again, identity transform. */
  function CompleteFade(g: Game, cards: seq<nat>): (r: Game)
    requires WellFormed(g)
    ensures WellFormed(r) && |r.views| == |g.views|
  {
    g.(views := Apply(g.views, cards, HideAndRestore))
  }

  /** A flip-back transition ends: the card goes back into the behaviour. */
  function CompleteFlipBack(g: Game, card: nat, draw: PushDraw): (r: Game)
    requires WellFormed(g)
    ensures WellFormed(r) && |r.views| == |g.views|
    ensures card in r.behavior.collision && card in r.behavior.items
    ensures forall c :: c != card ==> (c in r.behavior.collision <==> c in g.behavior.collision)
    ensures forall c :: c != card ==> (c in r.behavior.items <==> c in g.behavior.items)
    ensures |r.behavior.pushes| == |g.behavior.pushes| + 1
    ensures r.views == g.views && r.pending == g.pending && r.lastChosen == g.lastChosen
  {
    g.(behavior := AddItem(g.behavior, card, g.bounds, draw))
  }

  /** The state with the pending completion at `k` taken off the list. */
  function Dequeue(g: Game, k: nat): (r: Game)
    requires WellFormed(g) && k < |g.pending|
    ensures WellFormed(r)
    ensures |r.pending| == |g.pending| - 1
    ensures forall j :: 0 <= j < |r.pending| ==> r.pending[j] == g.pending[if j < k then j else j + 1]
    ensures multiset(r.pending) + multiset{g.pending[k]} == multiset(g.pending)
    ensures r.(pending := g.pending) == g
  {
    var pending := g.pending[..k] + g.pending[k + 1..];
    assert forall j :: 0 <= j < |pending| ==> pending[j] == g.pending[if j < k then j else j + 1];
    assert g.pending == g.pending[..k] + [g.pending[k]] + g.pending[k + 1..];
    g.(pending := pending)
  }

  function Complete(g: Game, k: nat, draw: PushDraw): (r: Game)
    requires WellFormed(g) && k < |g.pending|
    ensures WellFormed(r) && |r.views| == |g.views|
  {
    var rest := Dequeue(g, k);
    match g.pending[k]
    case FlipDone(s) => CompleteFlip(rest, s, draw)
    case EnlargeDone(cs) => CompleteEnlarge(rest, cs)
    case FadeDone(cs) => CompleteFade(rest, cs)
    case FlipBackDone(s) => CompleteFlipBack(rest, s, draw)
  }

  /** One event on the timeline. */
  function Step(g: Game, e: Event): (r: Game)
    requires WellFormed(g) && ValidEvent(g, e)
    ensures WellFormed(r)
    ensures |r.views| == |g.views|
  {
    match e
    case Tapped(s, ended) => Tap(g, s, ended)
    case Completed(k, draw) => Complete(g, k, draw)
    case PushActed(id) => g.(behavior := ActPush(g.behavior, id).behavior)
  }

  /** Whether every event of the sequence is valid in the state it reaches. */
  ghost predicate ValidRun(g: Game, es: seq<Event>)
    requires WellFormed(g)
    decreases |es|
  {
    |es| == 0 || (ValidEvent(g, es[0]) && ValidRun(Step(g, es[0]), es[1..]))
  }

  /** The state after the events, one at a time. */
  function Run(g: Game, es: seq<Event>): (r: Game)
    requires WellFormed(g) && ValidRun(g, es)
    ensures WellFormed(r) && |r.views| == |g.views|
    decreases |es|
  {
    if |es| == 0 then g else Run(Step(g, es[0]), es[1..])
  }

  /** One event on the timeline of the program as written: a tap goes through `TapAsWritten`, every
      other event is as in `Step`. */
  function StepAsWritten(g: Game, e: Event): (r: Game)
    requires WellFormed(g) && ValidEvent(g, e)
    ensures WellFormed(r) && |r.views| == |g.views|
    ensures e.Tapped? ==> r == g || r == Choose(g, e.slot)
    ensures !e.Tapped? ==> r == Step(g, e)
  {
    match e
    case Tapped(s, ended) => TapAsWritten(g, s, ended)
    case _ => Step(g, e)
  }

  /** Whether every event of the sequence is valid in the state the written program reaches. */
  ghost predicate ValidRunAsWritten(g: Game, es: seq<Event>)
    requires WellFormed(g)
    decreases |es|
  {
    |es| == 0 || (ValidEvent(g, es[0]) && ValidRunAsWritten(StepAsWritten(g, es[0]), es[1..]))
  }

  /** The state the written program reaches after the events, one at a time. */
  function RunAsWritten(g: Game, es: seq<Event>): (r: Game)
    requires WellFormed(g) && ValidRunAsWritten(g, es)
    ensures WellFormed(r) && |r.views| == |g.views|
    decreases |es|
  {
    if |es| == 0 then g else RunAsWritten(StepAsWritten(g, es[0]), es[1..])
  }

  /** What stops `viewDidLoad`: the range `1...0` when there are no card views, or unwrapping the
      `nil` that `draw()` returns once the deck is empty. */
  datatype DealTrap = EmptyRange | NilUnwrapped

  function Min(a: nat, b: nat): nat {
    if a < b then a else b
  }

  /** Each card twice in a row, in order. */
  function Doubled(cs: seq<Card>): (r: seq<Card>)
    ensures |r| == 2 * |cs|
    ensures multiset(r) == multiset(cs) + multiset(cs)
  {
    if |cs| == 0 then []
    else
      assert cs == [cs[0]] + cs[1..];
      [cs[0], cs[0]] + Doubled(cs[1..])
  }

  /** The first loop of `viewDidLoad`: `pairs` times, unwrap `draw()` and append the card twice. */
  function DealPile(d: Deck, pairs: nat, us: seq<nat>): (r: Result<seq<Card>, DealTrap>)
    requires |us| == Min(pairs, |d.cards|) && ValidDraws(|d.cards|, us)
    ensures r.Ok? <==> pairs <= |d.cards|
    ensures r.Err? ==> r.error == NilUnwrapped
    ensures r.Ok? ==> r.value == Doubled(DrawMany(d, us).0)
    decreases pairs
  {
    if pairs == 0 then Ok([])
    else
      var drawn := Draw(d, if |us| > 0 then us[0] else 0);
      match drawn.card
      case None => Err(NilUnwrapped)
      case Some(c) =>
        match DealPile(drawn.deck, pairs - 1, us[1..])
        case Err(e) => Err(e)
        case Ok(rest) =>
          assert ([c] + DrawMany(drawn.deck, us[1..]).0)[1..] == DrawMany(drawn.deck, us[1..]).0;
          Ok([c, c] + rest)
  }

  /** The injected draws: one per `draw()` that finds a card, each below the deck size at that point;
      when dealing gets that far, one per view for taking a card from the pile. */
  predicate DealDraws(count: nat, deckDraws: seq<nat>, pileDraws: seq<nat>) {
    var pairs := (count + 1) / 2;
    && |deckDraws| == Min(pairs, 52) && ValidDraws(52, deckDraws)
    && (pairs <= 52 ==> |pileDraws| == count && ValidDraws(2 * pairs, pileDraws))
  }

  /** The cards `viewDidLoad` assigns to the views: (count+1)/2 cards drawn from the new deck, each
      appended twice, then one card per view removed from the pile at a random index. */
  function DealCards(deck: Deck, count: nat, deckDraws: seq<nat>, pileDraws: seq<nat>): (r: Result<seq<Card>, DealTrap>)
    requires |deck.cards| == 52 && DealDraws(count, deckDraws, pileDraws)
    ensures r.Ok? <==> 1 <= count <= 104
    ensures r == Err(EmptyRange) <==> count == 0
    ensures r.Ok? ==> |r.value| == count
  {
    if count == 0 then Err(EmptyRange)
    else
      match DealPile(deck, (count + 1) / 2, deckDraws)
      case Err(e) => Err(e)
      case Ok(pile) => Ok(RemoveRandomly(pile, pileDraws).0)
  }

  /** A freshly dealt view: face-down, visible, identity transform, opaque, showing the card's order key and suit. */
  function DealtView(c: Card): CardView {
    CardView(Order(c.rank), RawValue(c.suit), false, false, Identity, 1.0)
  }

  /** The creation number the `k`-th push after `b`'s last one receives. */
  function PushId(b: Behavior, k: nat): nat {
    b.nextPush + k
  }

  /** The end of the second loop of `viewDidLoad`: views 0 to n-1 added to the behaviour in order,
      view i receiving the i-th new push. */
  function AdmitAll(b: Behavior, n: nat, bounds: Option<Rect>, draws: seq<PushDraw>): (r: Behavior)
    requires Valid(b) && |draws| == n
    ensures Valid(r) && r.settings == b.settings
    ensures forall i :: i in r.collision <==> i in b.collision || 0 <= i < n
    ensures forall i :: i in r.items <==> i in b.items || 0 <= i < n
    ensures |r.pushes| == |b.pushes| + n && r.nextPush == b.nextPush + n
    ensures forall id :: id in b.pushes ==> id in r.pushes && r.pushes[id] == b.pushes[id]
    ensures forall i :: 0 <= i < n ==> PushId(b, i) in r.pushes && r.pushes[PushId(b, i)].item == i
    decreases n
  {
    if n == 0 then b else AddItem(AdmitAll(b, n - 1, bounds, draws[..n - 1]), n - 1, bounds, draws[n - 1])
  }

  /** `viewDidLoad`: deal, turn every view face-down with its card, and add every view to the behaviour. */
  function ViewDidLoad(count: nat, deckDraws: seq<nat>, pileDraws: seq<nat>, pushDraws: seq<PushDraw>, bounds: Option<Rect>)
    : (r: Result<Game, DealTrap>)
    requires DealDraws(count, deckDraws, pileDraws) && |pushDraws| == count
    ensures r.Ok? <==> 1 <= count <= 104
    ensures r.Ok? ==> WellFormed(r.value) && |r.value.views| == count
  {
    match DealCards(FreshDeck(), count, deckDraws, pileDraws)
    case Err(e) => Err(e)
    case Ok(cards) =>
      Ok(Game(
        seq(count, i requires 0 <= i < count => DealtView(cards[i])),
        AdmitAll(NewBehavior(), count, bounds, pushDraws),
        bounds,
        None,
        []))
  }
}
