/** Properties of the controller: what a tap does and when it is ignored, what each flip completion
    does, how a matched pair is eliminated, the invariant every reachable state keeps, and what
    the dealing promises about pairs. */
module ControllerProofs {
  import opened Wrappers
  import opened PlayingCard
  import opened PlayingCardDeck
  import opened CardBehavior
  import opened ViewController

  // ---------------------------------------------------------------------------
  // Counting face-up views
  // ---------------------------------------------------------------------------

  /** If every view shown face-up in `w` is shown face-up in `v` (below `n`, except possibly at
      slot `s`), `w` has at most one more face-up slot than `v` below `n`, and none more if `s` is
      not below `n`. */
  lemma {:induction false} FaceUpAtMostOneMore(v: seq<CardView>, w: seq<CardView>, s: nat, n: nat)
    requires n <= |v| == |w|
    requires forall i :: 0 <= i < n && i != s && ShownFaceUp(w[i]) ==> ShownFaceUp(v[i])
    ensures |FaceUpSlotsBelow(w, n)| <= |FaceUpSlotsBelow(v, n)| + (if s < n then 1 else 0)
    decreases n
  {
    if n > 0 {
      FaceUpAtMostOneMore(v, w, s, n - 1);
    }
  }

  /** No view becomes shown face-up: the face-up count does not grow. */
  lemma NoNewFaceUp(v: seq<CardView>, w: seq<CardView>)
    requires |v| == |w|
    requires forall i :: 0 <= i < |w| && ShownFaceUp(w[i]) ==> ShownFaceUp(v[i])
    ensures |FaceUpSlots(w)| <= |FaceUpSlots(v)|
  {
    FaceUpAtMostOneMore(v, w, |v|, |v|);
  }

  /** Only slot `s` may become shown face-up: the face-up count grows by at most one. */
  lemma OneNewFaceUp(v: seq<CardView>, w: seq<CardView>, s: nat)
    requires |v| == |w|
    requires forall i :: 0 <= i < |w| && i != s && ShownFaceUp(w[i]) ==> ShownFaceUp(v[i])
    ensures |FaceUpSlots(w)| <= |FaceUpSlots(v)| + 1
  {
    FaceUpAtMostOneMore(v, w, s, |v|);
  }

  /** With no view shown face-up below `n`, the face-up slots below `n` are none. */
  lemma {:induction false} NoFaceUpBelow(v: seq<CardView>, n: nat)
    requires n <= |v|
    requires forall i :: 0 <= i < n ==> !ShownFaceUp(v[i])
    ensures FaceUpSlotsBelow(v, n) == []
    decreases n
  {
    if n > 0 {
      NoFaceUpBelow(v, n - 1);
    }
  }

  /** `faceUpCardViewsMatch` does not depend on the order of the face-up views: it holds exactly
      when two views are shown face-up and every two shown views agree on rank and suit. */
  lemma FaceUpMatchOrderFree(views: seq<CardView>)
    ensures FaceUpMatch(views) <==>
      && |FaceUpSlots(views)| == 2
      && forall i, j :: 0 <= i < |views| && 0 <= j < |views| && ShownFaceUp(views[i]) && ShownFaceUp(views[j]) ==>
           views[i].rank == views[j].rank && views[i].suit == views[j].suit
  {
    var up := FaceUpSlots(views);
    if |up| == 2 {
      assert up[0] in up && up[1] in up;
      forall i | 0 <= i < |views| && ShownFaceUp(views[i])
        ensures i == up[0] || i == up[1]
      {
        assert i in up;
      }
    }
  }

  // ---------------------------------------------------------------------------
  // The invariant of reachable states
  // ---------------------------------------------------------------------------

  /** A view's transform is one the animations set, it is transparent exactly when shrunk and
      opaque otherwise, and a view that is being or has been eliminated is face-up. */
  predicate Consistent(v: CardView) {
    && (if v.transform == Shrunk then v.alpha == 0.0 else (v.transform == Identity || v.transform == Enlarged) && v.alpha == 1.0)
    && ((v.isHidden || v.transform != Identity) ==> v.isFaceUp)
  }

  /** For a consistent view the face-up filter is the plain reading: face-up, not hidden, at the
      identity transform. */
  lemma ShownIffFaceUpAtIdentity(v: CardView)
    requires Consistent(v)
    ensures ShownFaceUp(v) <==> v.isFaceUp && !v.isHidden && v.transform == Identity
  {
  }

  /** The slot exists and its view is in an elimination phase or eliminated. */
  predicate Eliminating(views: seq<CardView>, c: nat) {
    c < |views| && (views[c].transform != Identity || views[c].isHidden)
  }

  /** Every view is consistent. */
  ghost predicate ViewsConsistent(g: Game) {
    forall i :: 0 <= i < |g.views| ==> Consistent(g.views[i])
  }

  /** Only face-down views are in the behaviour. */
  ghost predicate BehaviorFaceDown(g: Game) {
    forall c :: c in g.behavior.collision || c in g.behavior.items ==> c < |g.views| && !g.views[c].isFaceUp
  }

  /** A view waiting for its flip-back to end is face-down. */
  ghost predicate FlipBacksFaceDown(g: Game) {
    forall k :: 0 <= k < |g.pending| && g.pending[k].FlipBackDone? ==>
      g.pending[k].card < |g.views| && !g.views[g.pending[k].card].isFaceUp
  }

  /** The views named by a pending elimination phase are being eliminated. */
  ghost predicate EliminationsMarked(g: Game) {
    forall k, j :: 0 <= k < |g.pending| && (g.pending[k].EnlargeDone? || g.pending[k].FadeDone?) && 0 <= j < |g.pending[k].cards| ==>
      Eliminating(g.views, g.pending[k].cards[j])
  }

  /** The invariant: well-formed, at most two views shown face-up, and the four facts above. */
  ghost predicate Inv(g: Game) {
    && WellFormed(g)
    && |FaceUpSlots(g.views)| <= 2
    && ViewsConsistent(g)
    && BehaviorFaceDown(g)
    && FlipBacksFaceDown(g)
    && EliminationsMarked(g)
  }

  /** Taking a completion off the list keeps the invariant. */
  lemma DequeueKeepsInv(g: Game, k: nat)
    requires Inv(g) && k < |g.pending|
    ensures Inv(Dequeue(g, k))
  {
    var r := Dequeue(g, k);
    forall j | 0 <= j < |r.pending|
      ensures r.pending[j] == g.pending[if j < k then j else j + 1]
    {
    }
  }

  /** An accepted tap keeps the invariant. */
  lemma ChooseKeepsInv(g: Game, s: nat)
    requires Inv(g) && s < |g.views|
    requires Deliverable(g, s) && |FaceUpSlots(g.views)| < 2 && g.views[s].transform == Identity
    ensures Inv(Choose(g, s))
  {
    var r := Choose(g, s);
    OneNewFaceUp(g.views, r.views, s);
    forall k | 0 <= k < |r.pending| && r.pending[k].FlipBackDone?
      ensures r.pending[k].card != s && k < |g.pending|
    {
      if k < |g.pending| {
        assert r.pending[k] == g.pending[k];
        assert g.pending[k] in g.pending;
      }
    }
    forall k | 0 <= k < |r.pending| && (r.pending[k].EnlargeDone? || r.pending[k].FadeDone?)
      ensures k < |g.pending| && r.pending[k] == g.pending[k]
    {
    }
  }

  /** A tap, accepted or not, keeps the invariant. */
  lemma TapKeepsInv(g: Game, s: nat, ended: bool)
    requires Inv(g) && s < |g.views|
    ensures Inv(Tap(g, s, ended))
  {
    if Tap(g, s, ended) != g {
      ChooseKeepsInv(g, s);
    }
  }

  /** Starting the elimination of a matching pair keeps the invariant. */
  lemma EnlargePairKeepsInv(g: Game, chosen: nat, draw: PushDraw)
    requires Inv(g) && chosen < |g.views| && FaceUpMatch(g.views)
    ensures Inv(CompleteFlip(g, chosen, draw))
  {
    var r := CompleteFlip(g, chosen, draw);
    var up := FaceUpSlots(g.views);
    NoNewFaceUp(g.views, r.views);
    forall i | 0 <= i < |r.views|
      ensures Consistent(r.views[i])
    {
      assert Consistent(g.views[i]);
    }
    forall k, j | 0 <= k < |r.pending| && (r.pending[k].EnlargeDone? || r.pending[k].FadeDone?) && 0 <= j < |r.pending[k].cards|
      ensures Eliminating(r.views, r.pending[k].cards[j])
    {
      if k < |g.pending| {
        assert r.pending[k] == g.pending[k];
      } else {
        assert r.pending[k].cards[j] in up;
      }
    }
  }

  /** Turning a mismatched pair face-down keeps the invariant. */
  lemma TurnDownPairKeepsInv(g: Game, chosen: nat, draw: PushDraw)
    requires Inv(g) && chosen < |g.views| && !FaceUpMatch(g.views)
    requires |FaceUpSlots(g.views)| == 2 && g.lastChosen == Some(chosen)
    ensures Inv(CompleteFlip(g, chosen, draw))
  {
    var r := CompleteFlip(g, chosen, draw);
    var up := FaceUpSlots(g.views);
    assert up[0] in up && up[1] in up;
    NoNewFaceUp(g.views, r.views);
    forall i | 0 <= i < |r.views|
      ensures Consistent(r.views[i])
    {
      assert Consistent(g.views[i]);
    }
    forall k | 0 <= k < |r.pending| && r.pending[k].FlipBackDone?
      ensures r.pending[k].card < |r.views| && !r.views[r.pending[k].card].isFaceUp
    {
      if k < |g.pending| {
        assert r.pending[k] == g.pending[k];
      }
    }
    forall k, j | 0 <= k < |r.pending| && (r.pending[k].EnlargeDone? || r.pending[k].FadeDone?) && 0 <= j < |r.pending[k].cards|
      ensures Eliminating(r.views, r.pending[k].cards[j])
    {
      assert r.pending[k] == g.pending[k];
    }
  }

  /** The completion of a flip keeps the invariant. */
  lemma CompleteFlipKeepsInv(g: Game, chosen: nat, draw: PushDraw)
    requires Inv(g) && chosen < |g.views|
    ensures Inv(CompleteFlip(g, chosen, draw))
  {
    if FaceUpMatch(g.views) {
      EnlargePairKeepsInv(g, chosen, draw);
    } else if |FaceUpSlots(g.views)| == 2 && g.lastChosen == Some(chosen) {
      TurnDownPairKeepsInv(g, chosen, draw);
    }
  }

  /** The end of the first elimination phase keeps the invariant. */
  lemma CompleteEnlargeKeepsInv(g: Game, cards: seq<nat>)
    requires Inv(g)
    requires forall j :: 0 <= j < |cards| ==> cards[j] < |g.views| && Eliminating(g.views, cards[j])
    ensures Inv(CompleteEnlarge(g, cards))
  {
    var r := CompleteEnlarge(g, cards);
    NoNewFaceUp(g.views, r.views);
    forall i | 0 <= i < |r.views|
      ensures Consistent(r.views[i])
    {
      if i in cards {
        var j :| 0 <= j < |cards| && cards[j] == i;
        assert Eliminating(g.views, cards[j]);
      }
    }
    forall k, j | 0 <= k < |r.pending| && (r.pending[k].EnlargeDone? || r.pending[k].FadeDone?) && 0 <= j < |r.pending[k].cards|
      ensures Eliminating(r.views, r.pending[k].cards[j])
    {
      if k < |g.pending| {
        assert r.pending[k] == g.pending[k];
      } else {
        assert r.pending[k].cards[j] in cards;
      }
    }
  }

  /** The end of the second elimination phase keeps the invariant. */
  lemma CompleteFadeKeepsInv(g: Game, cards: seq<nat>)
    requires Inv(g)
    requires forall j :: 0 <= j < |cards| ==> Eliminating(g.views, cards[j])
    ensures Inv(CompleteFade(g, cards))
  {
    var r := CompleteFade(g, cards);
    NoNewFaceUp(g.views, r.views);
    forall i | 0 <= i < |r.views|
      ensures Consistent(r.views[i])
    {
      if i in cards {
        var j :| 0 <= j < |cards| && cards[j] == i;
        assert Eliminating(g.views, cards[j]);
      }
    }
  }

  /** The completion at `k` keeps the invariant. */
  lemma CompleteKeepsInv(g: Game, k: nat, draw: PushDraw)
    requires Inv(g) && k < |g.pending|
    ensures Inv(Complete(g, k, draw))
  {
    var rest := Dequeue(g, k);
    DequeueKeepsInv(g, k);
    match g.pending[k]
    case FlipDone(s) =>
      CompleteFlipKeepsInv(rest, s, draw);
    case EnlargeDone(cs) =>
      CompleteEnlargeKeepsInv(rest, cs);
    case FadeDone(cs) =>
      CompleteFadeKeepsInv(rest, cs);
    case FlipBackDone(s) =>
  }

  /** Every event keeps the invariant. */
  lemma StepKeepsInv(g: Game, e: Event)
    requires Inv(g) && ValidEvent(g, e)
    ensures Inv(Step(g, e))
  {
    match e
    case Tapped(s, ended) => TapKeepsInv(g, s, ended);
    case Completed(k, draw) => CompleteKeepsInv(g, k, draw);
    case PushActed(id) =>
  }

  /** Every run of events keeps the invariant. */
  lemma {:induction false} RunKeepsInv(g: Game, es: seq<Event>)
    requires Inv(g) && ValidRun(g, es)
    ensures Inv(Run(g, es))
    decreases |es|
  {
    if |es| > 0 {
      StepKeepsInv(g, es[0]);
      RunKeepsInv(Step(g, es[0]), es[1..]);
    }
  }

  /** In a state that keeps the invariant, no eliminated view is in the behaviour and no view is
      being eliminated while in it. */
  lemma EliminatedOutOfBehavior(g: Game, i: nat)
    requires Inv(g) && i < |g.views|
    requires g.views[i].isHidden || g.views[i].transform != Identity
    ensures i !in g.behavior.collision && i !in g.behavior.items
  {
    assert Consistent(g.views[i]);
  }

  /** The state `viewDidLoad` produces keeps the invariant: nothing is shown face-up, every view is
      in the behaviour, nothing was chosen and nothing is pending. */
  lemma ViewDidLoadEstablishesInv(count: nat, deckDraws: seq<nat>, pileDraws: seq<nat>, pushDraws: seq<PushDraw>, bounds: Option<Rect>)
    requires DealDraws(count, deckDraws, pileDraws) && |pushDraws| == count
    requires 1 <= count <= 104
    ensures var g := ViewDidLoad(count, deckDraws, pileDraws, pushDraws, bounds).value;
      && Inv(g)
      && FaceUpSlots(g.views) == []
      && (forall i :: 0 <= i < count ==> i in g.behavior.collision && i in g.behavior.items)
      && g.lastChosen == None && g.pending == []
  {
    var cards := DealCards(FreshDeck(), count, deckDraws, pileDraws).value;
    var views := seq(count, i requires 0 <= i < count => DealtView(cards[i]));
    var g := Game(views, AdmitAll(NewBehavior(), count, bounds, pushDraws), bounds, None, []);
    assert ViewDidLoad(count, deckDraws, pileDraws, pushDraws, bounds) == Ok(g);
    LoadedStateInv(views, g.behavior, bounds);
  }

  /** Dealt views over a behaviour whose members are all slots form a state that keeps the invariant. */
  lemma LoadedStateInv(views: seq<CardView>, b: Behavior, bounds: Option<Rect>)
    requires Valid(b)
    requires forall i :: 0 <= i < |views| ==> views[i] == CardView(views[i].rank, views[i].suit, false, false, Identity, 1.0)
    requires forall c :: c in b.collision || c in b.items ==> c < |views|
    ensures Inv(Game(views, b, bounds, None, []))
    ensures FaceUpSlots(views) == []
  {
    DealtViewsShowNothing(views);
  }

  /** Freshly dealt views are consistent, face-down, and none of them is shown face-up. */
  lemma DealtViewsShowNothing(views: seq<CardView>)
    requires forall i :: 0 <= i < |views| ==> views[i] == CardView(views[i].rank, views[i].suit, false, false, Identity, 1.0)
    ensures forall i :: 0 <= i < |views| ==> Consistent(views[i]) && !views[i].isFaceUp
    ensures FaceUpSlots(views) == []
  {
    NoFaceUpBelow(views, |views|);
  }

  // ---------------------------------------------------------------------------
  // Taps
  // ---------------------------------------------------------------------------

  /** A tap is acted on exactly when the recogniser ended, UIKit delivers it, fewer than two views
      are shown face-up and the view is at the identity transform; otherwise nothing changes. */
  lemma TapGuard(g: Game, s: nat, ended: bool)
    requires s < |g.views|
    ensures Tap(g, s, ended) == Choose(g, s) <==>
      ended && Deliverable(g, s) && |FaceUpSlots(g.views)| < 2 && g.views[s].transform == Identity
    ensures Tap(g, s, ended) != Choose(g, s) ==> Tap(g, s, ended) == g
  {
    assert |Choose(g, s).pending| == |g.pending| + 1;
  }

  /** An acted-on tap turns only the tapped view over, takes only it out of the behaviour, records
      it as last chosen and starts its flip; pushes already created stay pending. */
  lemma ChooseEffect(g: Game, s: nat)
    requires s < |g.views|
    ensures var r := Choose(g, s);
      && r.lastChosen == Some(s)
      && |r.views| == |g.views|
      && r.views[s].isFaceUp == !g.views[s].isFaceUp
      && r.views[s].(isFaceUp := g.views[s].isFaceUp) == g.views[s]
      && (forall i :: 0 <= i < |g.views| && i != s ==> r.views[i] == g.views[i])
      && s !in r.behavior.collision && s !in r.behavior.items
      && (forall c :: c != s ==> (c in r.behavior.collision <==> c in g.behavior.collision))
      && (forall c :: c != s ==> (c in r.behavior.items <==> c in g.behavior.items))
      && r.behavior.pushes == g.behavior.pushes
      && r.pending == g.pending + [FlipDone(s)]
  {
  }

  /** With the invariant, an acted-on tap leaves at most two views shown face-up, and the tapped
      view is shown face-up afterwards exactly when it was face-down before. */
  lemma ChooseShowsTappedView(g: Game, s: nat)
    requires Inv(g) && s < |g.views|
    requires Deliverable(g, s) && |FaceUpSlots(g.views)| < 2 && g.views[s].transform == Identity
    ensures |FaceUpSlots(Choose(g, s).views)| <= 2
    ensures s in FaceUpSlots(Choose(g, s).views) <==> !g.views[s].isFaceUp
  {
    ChooseKeepsInv(g, s);
  }

  /** The corrected `flipCards` ignores a tap on a view that is in an elimination phase. */
  lemma TapIgnoresEliminating(g: Game, s: nat, ended: bool)
    requires s < |g.views| && g.views[s].transform != Identity
    ensures Tap(g, s, ended) == g
  {
  }

  /** While a flip or flip-back transition is in flight on a view, UIKit delivers no tap to it, so
      both the written and the corrected `flipCards` leave the state alone. */
  lemma TapDuringFlipIgnored(g: Game, s: nat, ended: bool)
    requires s < |g.views| && (FlipDone(s) in g.pending || FlipBackDone(s) in g.pending)
    ensures TapAsWritten(g, s, ended) == g && Tap(g, s, ended) == g
  {
  }

  // ---------------------------------------------------------------------------
  // The completion of a flip
  // ---------------------------------------------------------------------------

  /** A matching pair: both views start the first elimination phase and are no longer shown
      face-up; the behaviour and every other view are untouched. */
  lemma FlipDoneOnMatch(g: Game, chosen: nat, draw: PushDraw)
    requires WellFormed(g) && chosen < |g.views| && FaceUpMatch(g.views)
    ensures var r := CompleteFlip(g, chosen, draw);
      var up := FaceUpSlots(g.views);
      && FaceUpSlots(r.views) == []
      && (forall i :: 0 <= i < |g.views| ==> r.views[i] == if i in up then g.views[i].(transform := Enlarged) else g.views[i])
      && r.behavior == g.behavior
      && r.lastChosen == g.lastChosen
      && r.pending == g.pending + [EnlargeDone(up)]
  {
    var r := CompleteFlip(g, chosen, draw);
    NoFaceUpBelow(r.views, |r.views|);
  }

  /** Two views that do not match: the completion of the last chosen view's flip turns both face
      down and starts their flip-backs, after which nothing is shown face-up; the completion of
      the other view's flip changes nothing, so the pair is flipped back once. */
  lemma FlipDoneOnMismatch(g: Game, chosen: nat, draw: PushDraw)
    requires WellFormed(g) && chosen < |g.views|
    requires |FaceUpSlots(g.views)| == 2 && !FaceUpMatch(g.views)
    ensures g.lastChosen != Some(chosen) ==> CompleteFlip(g, chosen, draw) == g
    ensures g.lastChosen == Some(chosen) ==>
      var r := CompleteFlip(g, chosen, draw);
      var up := FaceUpSlots(g.views);
      && FaceUpSlots(r.views) == []
      && (forall i :: 0 <= i < |g.views| ==> r.views[i] == if i in up then g.views[i].(isFaceUp := false) else g.views[i])
      && r.behavior == g.behavior
      && r.pending == g.pending + [FlipBackDone(up[0]), FlipBackDone(up[1])]
  {
    if g.lastChosen == Some(chosen) {
      var r := CompleteFlip(g, chosen, draw);
      NoFaceUpBelow(r.views, |r.views|);
    }
  }

  /** Any other count of face-up views: the views are untouched, and the chosen view rejoins the
      behaviour with one new push exactly when it is now face-down. */
  lemma FlipDoneAlone(g: Game, chosen: nat, draw: PushDraw)
    requires WellFormed(g) && chosen < |g.views| && |FaceUpSlots(g.views)| != 2
    ensures var r := CompleteFlip(g, chosen, draw);
      && r.views == g.views && r.pending == g.pending && r.lastChosen == g.lastChosen
      && (chosen in r.behavior.collision <==> chosen in g.behavior.collision || !g.views[chosen].isFaceUp)
      && (chosen in r.behavior.items <==> chosen in g.behavior.items || !g.views[chosen].isFaceUp)
      && |r.behavior.pushes| == |g.behavior.pushes| + (if g.views[chosen].isFaceUp then 0 else 1)
  {
  }

  /** The end of a flip-back puts its card back into the behaviour with a new push, consumes the
      completion, and leaves the views and the other pending completions alone. */
  lemma FlipBackReAdmits(g: Game, k: nat, draw: PushDraw)
    requires WellFormed(g) && k < |g.pending| && g.pending[k].FlipBackDone?
    ensures var r := Complete(g, k, draw);
      var c := g.pending[k].card;
      && c in r.behavior.collision && c in r.behavior.items
      && (forall d :: d != c ==> (d in r.behavior.collision <==> d in g.behavior.collision))
      && |r.behavior.pushes| == |g.behavior.pushes| + 1
      && r.views == g.views && r.lastChosen == g.lastChosen
      && multiset(r.pending) + multiset{g.pending[k]} == multiset(g.pending)
  {
    assert Dequeue(g, k).behavior == g.behavior && Dequeue(g, k).views == g.views;
  }

  // ---------------------------------------------------------------------------
  // Elimination
  // ---------------------------------------------------------------------------

  /** The two elimination phases: after the first, the views are shrunk and transparent, so UIKit
      delivers them no taps; after the second, they are hidden, opaque and at the identity
      transform. Other views and the behaviour are untouched throughout. */
  lemma EliminationPhases(g: Game, cards: seq<nat>)
    requires WellFormed(g) && forall j :: 0 <= j < |cards| ==> cards[j] < |g.views|
    ensures var m := CompleteEnlarge(g, cards);
      && m.behavior == g.behavior
      && (forall i :: 0 <= i < |g.views| && i in cards ==> m.views[i].transform == Shrunk && m.views[i].alpha == 0.0 && !Deliverable(m, i))
      && m.pending == g.pending + [FadeDone(cards)]
    ensures var r := CompleteFade(CompleteEnlarge(g, cards), cards);
      && r.behavior == g.behavior
      && (forall i :: 0 <= i < |g.views| && i in cards ==>
            r.views[i].isHidden && r.views[i].alpha == 1.0 && r.views[i].transform == Identity && !ShownFaceUp(r.views[i]))
      && (forall i :: 0 <= i < |g.views| && i !in cards ==> r.views[i] == g.views[i])
  {
  }

  /** An eliminated view stays eliminated: no event shows it again. */
  lemma HiddenStaysHidden(g: Game, e: Event, i: nat)
    requires WellFormed(g) && ValidEvent(g, e) && i < |g.views| && g.views[i].isHidden
    ensures Step(g, e).views[i].isHidden && !ShownFaceUp(Step(g, e).views[i])
  {
    match e
    case Tapped(s, ended) =>
    case Completed(k, draw) =>
      var rest := Dequeue(g, k);
      match g.pending[k] {
        case FlipDone(c) =>
        case EnlargeDone(cs) =>
        case FadeDone(cs) =>
        case FlipBackDone(c) =>
      }
    case PushActed(id) =>
  }

  /** Over any run of events an eliminated view stays eliminated. */
  lemma {:induction false} HiddenStaysHiddenOverRun(g: Game, es: seq<Event>, i: nat)
    requires WellFormed(g) && ValidRun(g, es) && i < |g.views| && g.views[i].isHidden
    ensures Run(g, es).views[i].isHidden
    decreases |es|
  {
    if |es| > 0 {
      HiddenStaysHidden(g, es[0], i);
      HiddenStaysHiddenOverRun(Step(g, es[0]), es[1..], i);
    }
  }

  // ---------------------------------------------------------------------------
  // Cards shown by the views
  // ---------------------------------------------------------------------------

  /** The views show the cards slot by slot: the rank's order key and the suit's raw value, for
      cards of a canonical rank. */
  ghost predicate ShowsCards(views: seq<CardView>, cards: seq<Card>) {
    && |views| == |cards|
    && forall i :: 0 <= i < |views| ==>
         cards[i].rank in AllRanks() && views[i].rank == Order(cards[i].rank) && views[i].suit == RawValue(cards[i].suit)
  }

  /** No completion changes the card a view shows. */
  lemma CompleteKeepsCards(g: Game, k: nat, draw: PushDraw, cards: seq<Card>)
    requires WellFormed(g) && k < |g.pending| && ShowsCards(g.views, cards)
    ensures ShowsCards(Complete(g, k, draw).views, cards)
  {
    var rest := Dequeue(g, k);
    match g.pending[k] {
      case FlipDone(c) =>
      case EnlargeDone(cs) =>
      case FadeDone(cs) =>
      case FlipBackDone(c) =>
    }
  }

  /** No event changes the card a view shows. */
  lemma StepKeepsCards(g: Game, e: Event, cards: seq<Card>)
    requires WellFormed(g) && ValidEvent(g, e) && ShowsCards(g.views, cards)
    ensures ShowsCards(Step(g, e).views, cards)
  {
    if e.Completed? {
      CompleteKeepsCards(g, e.index, e.draw, cards);
    }
  }

  lemma {:induction false} RunKeepsCards(g: Game, es: seq<Event>, cards: seq<Card>)
    requires WellFormed(g) && ValidRun(g, es) && ShowsCards(g.views, cards)
    ensures ShowsCards(Run(g, es).views, cards)
    decreases |es|
  {
    if |es| > 0 {
      StepKeepsCards(g, es[0], cards);
      RunKeepsCards(Step(g, es[0]), es[1..], cards);
    }
  }

  /** `faceUpCardViewsMatch` holds exactly when two views are shown face-up and they show the same card. */
  lemma MatchIffSameCard(views: seq<CardView>, cards: seq<Card>)
    requires ShowsCards(views, cards)
    ensures FaceUpMatch(views) <==>
      |FaceUpSlots(views)| == 2 && cards[FaceUpSlots(views)[0]] == cards[FaceUpSlots(views)[1]]
  {
    var up := FaceUpSlots(views);
    if |up| == 2 {
      assert up[0] in up && up[1] in up;
      var a, b := cards[up[0]], cards[up[1]];
      OrderInjectiveOnAllRanks(a.rank, b.rank);
      RawValueInjective(a.suit, b.suit);
    }
  }

  // ---------------------------------------------------------------------------
  // Dealing
  // ---------------------------------------------------------------------------

  /** An element at |idx| distinct positions occurs at least |idx| times. */
  lemma {:induction false} OccursAtLeast<T>(s: seq<T>, x: T, idx: set<nat>)
    requires forall i :: i in idx ==> i < |s| && s[i] == x
    ensures multiset(s)[x] >= |idx|
    decreases |s|
  {
    if |s| == 0 {
      assert idx == {};
    } else {
      var t := s[..|s| - 1];
      var last := |s| - 1;
      assert s == t + [s[last]];
      var rest := idx - {last};
      OccursAtLeast(t, x, rest);
      if last in idx {
        assert idx == rest + {last};
      } else {
        assert idx == rest;
      }
    }
  }

  /** A card taken from a pile of cards drawn from a deck without repetitions, each appended
      twice: it comes from the deck and is taken at most twice, and exactly twice when the pile is
      used up. */
  lemma TakenFromDoubledPile(deck: seq<Card>, drawn: seq<Card>, deckRest: seq<Card>, taken: seq<Card>, left: seq<Card>, x: Card)
    requires forall y :: multiset(deck)[y] <= 1
    requires multiset(drawn) + multiset(deckRest) == multiset(deck)
    requires multiset(taken) + multiset(left) == multiset(Doubled(drawn))
    requires x in taken
    ensures x in deck && 1 <= multiset(taken)[x] <= 2
    ensures left == [] ==> multiset(taken)[x] == 2
  {
    var pile := multiset(Doubled(drawn));
    assert pile[x] == 2 * multiset(drawn)[x];
    assert multiset(drawn)[x] <= multiset(deck)[x] <= 1;
    assert multiset(taken)[x] <= pile[x];
    if left == [] {
      assert multiset(taken) == pile;
    }
  }

  /** (count+1)/2 pairs hold every view, with one card to spare when the count is odd. */
  lemma PairsCoverCount(count: nat)
    ensures count <= 2 * ((count + 1) / 2) <= count + 1
    ensures count % 2 == 0 ==> 2 * ((count + 1) / 2) == count
  {
    var h := count / 2;
    assert count == 2 * h + count % 2;
    if count % 2 == 0 {
      assert count + 1 == 2 * h + 1;
    } else {
      assert count + 1 == 2 * (h + 1);
    }
  }

  /** The cards `DealCards` assigns: one per view removed at random from the doubled drawn cards,
      and the whole pile when the number of views is even. */
  lemma DealtFromPile(deck: Deck, count: nat, deckDraws: seq<nat>, pileDraws: seq<nat>)
    requires |deck.cards| == 52 && DealDraws(count, deckDraws, pileDraws)
    requires 1 <= count <= 104
    ensures (count + 1) / 2 <= 52 && ValidDraws(|Doubled(DrawMany(deck, deckDraws).0)|, pileDraws)
    ensures var removed := RemoveRandomly(Doubled(DrawMany(deck, deckDraws).0), pileDraws);
      && DealCards(deck, count, deckDraws, pileDraws).value == removed.0
      && (count % 2 == 0 ==> removed.1 == [])
  {
    var pairs := (count + 1) / 2;
    PairsCoverCount(count);
    var pile := DealPile(deck, pairs, deckDraws);
    assert pile == Ok(Doubled(DrawMany(deck, deckDraws).0));
    var removed := RemoveRandomly(pile.value, pileDraws);
    assert DealCards(deck, count, deckDraws, pileDraws) == Ok(removed.0);
    if count % 2 == 0 {
      assert |removed.1| == 2 * pairs - count == 0;
    }
  }

  /** Dealing from a deck without repetitions: every dealt card comes from the deck and is dealt at
      most twice; with an even number of views every dealt card is dealt exactly twice. */
  lemma DealPairsUp(deck: Deck, count: nat, deckDraws: seq<nat>, pileDraws: seq<nat>)
    requires |deck.cards| == 52 && DealDraws(count, deckDraws, pileDraws)
    requires forall y :: multiset(deck.cards)[y] <= 1
    requires 1 <= count <= 104
    ensures var cards := DealCards(deck, count, deckDraws, pileDraws).value;
      && (forall i :: 0 <= i < |cards| ==> cards[i] in deck.cards && 1 <= multiset(cards)[cards[i]] <= 2)
      && (count % 2 == 0 ==> forall i :: 0 <= i < |cards| ==> multiset(cards)[cards[i]] == 2)
  {
    var cards := DealCards(deck, count, deckDraws, pileDraws).value;
    DealtFromPile(deck, count, deckDraws, pileDraws);
    var drawn := DrawMany(deck, deckDraws);
    var removed := RemoveRandomly(Doubled(drawn.0), pileDraws);
    forall i | 0 <= i < |cards|
      ensures cards[i] in deck.cards && 1 <= multiset(cards)[cards[i]] <= 2
      ensures count % 2 == 0 ==> multiset(cards)[cards[i]] == 2
    {
      TakenFromDoubledPile(deck.cards, drawn.0, drawn.1.cards, removed.0, removed.1, cards[i]);
    }
  }

  /** The views `viewDidLoad` creates show the cards dealt from a fresh deck, and those come in pairs. */
  lemma ViewDidLoadShowsCards(count: nat, deckDraws: seq<nat>, pileDraws: seq<nat>, pushDraws: seq<PushDraw>, bounds: Option<Rect>)
    requires DealDraws(count, deckDraws, pileDraws) && |pushDraws| == count
    requires 1 <= count <= 104
    ensures var cards := DealCards(FreshDeck(), count, deckDraws, pileDraws).value;
      && ShowsCards(ViewDidLoad(count, deckDraws, pileDraws, pushDraws, bounds).value.views, cards)
      && (count % 2 == 0 ==> forall i :: 0 <= i < |cards| ==> multiset(cards)[cards[i]] == 2)
  {
    var cards := DealCards(FreshDeck(), count, deckDraws, pileDraws).value;
    FreshDeckDistinct();
    DistinctIffNoRepeats(FreshDeck().cards);
    DealPairsUp(FreshDeck(), count, deckDraws, pileDraws);
    forall i | 0 <= i < |cards|
      ensures cards[i].rank in AllRanks()
    {
      FreshDeckMembership(cards[i]);
    }
  }

  /** A card present exactly twice, at positions `a` and `b`, is at no other position. */
  lemma WholePair(cards: seq<Card>, a: nat, b: nat, i: nat)
    requires a < b < |cards| && i < |cards| && cards[i] == cards[a] == cards[b]
    requires multiset(cards)[cards[a]] == 2
    ensures i == a || i == b
  {
    if i != a && i != b {
      OccursAtLeast(cards, cards[a], {a, b, i});
    }
  }

  /** Every state reachable from `viewDidLoad` keeps the invariant and still shows the dealt cards;
      two views match exactly when they show the same card, and with an even number of views a
      matching pair is every view that shows that card. */
  lemma Reachable(count: nat, deckDraws: seq<nat>, pileDraws: seq<nat>, pushDraws: seq<PushDraw>, bounds: Option<Rect>, es: seq<Event>)
    requires DealDraws(count, deckDraws, pileDraws) && |pushDraws| == count
    requires 1 <= count <= 104
    requires ValidRun(ViewDidLoad(count, deckDraws, pileDraws, pushDraws, bounds).value, es)
    ensures var g := Run(ViewDidLoad(count, deckDraws, pileDraws, pushDraws, bounds).value, es);
      var cards := DealCards(FreshDeck(), count, deckDraws, pileDraws).value;
      var up := FaceUpSlots(g.views);
      && Inv(g)
      && ShowsCards(g.views, cards)
      && (FaceUpMatch(g.views) <==> |up| == 2 && cards[up[0]] == cards[up[1]])
      && (count % 2 == 0 && FaceUpMatch(g.views) ==>
            forall i :: 0 <= i < count && cards[i] == cards[up[0]] ==> i in up)
  {
    var g0 := ViewDidLoad(count, deckDraws, pileDraws, pushDraws, bounds).value;
    var g := Run(g0, es);
    var cards := DealCards(FreshDeck(), count, deckDraws, pileDraws).value;
    ViewDidLoadEstablishesInv(count, deckDraws, pileDraws, pushDraws, bounds);
    RunKeepsInv(g0, es);
    ViewDidLoadShowsCards(count, deckDraws, pileDraws, pushDraws, bounds);
    RunKeepsCards(g0, es, cards);
    MatchIffSameCard(g.views, cards);
    var up := FaceUpSlots(g.views);
    if count % 2 == 0 && FaceUpMatch(g.views) {
      forall i | 0 <= i < count && cards[i] == cards[up[0]]
        ensures i in up
      {
        WholePair(cards, up[0], up[1], i);
      }
    }
  }

  // ---------------------------------------------------------------------------
  // The program as written
  // ---------------------------------------------------------------------------

  /** No completion makes a view shown face-up: each animation takes its views out of the filter,
      and the other completions leave the views alone. */
  lemma CompleteRevealsNothing(g: Game, k: nat, draw: PushDraw)
    requires WellFormed(g) && k < |g.pending|
    ensures var r := Complete(g, k, draw);
      forall i :: 0 <= i < |r.views| && ShownFaceUp(r.views[i]) ==> ShownFaceUp(g.views[i])
    ensures |FaceUpSlots(Complete(g, k, draw).views)| <= |FaceUpSlots(g.views)|
  {
    var rest := Dequeue(g, k);
    assert rest.views == g.views;
    match g.pending[k] {
      case FlipDone(c) =>
      case EnlargeDone(cs) =>
      case FadeDone(cs) =>
      case FlipBackDone(c) =>
    }
    NoNewFaceUp(g.views, Complete(g, k, draw).views);
  }

  /** A tap of the written program never leaves more than two views shown face-up. */
  lemma TapAsWrittenBounded(g: Game, s: nat, ended: bool)
    requires s < |g.views| && |FaceUpSlots(g.views)| <= 2
    ensures |FaceUpSlots(TapAsWritten(g, s, ended).views)| <= 2
  {
    if ended && Deliverable(g, s) && |FaceUpSlots(g.views)| < 2 {
      OneNewFaceUp(g.views, Choose(g, s).views, s);
    }
  }

  /** What the written program keeps over any run: well-formed, at most two views shown face-up,
      and the views showing the dealt cards. */
  ghost predicate InvAsWritten(g: Game, cards: seq<Card>) {
    WellFormed(g) && |FaceUpSlots(g.views)| <= 2 && ShowsCards(g.views, cards)
  }

  /** Every event of the written program keeps `InvAsWritten`, and an eliminated view stays hidden. */
  lemma StepAsWrittenKeepsInv(g: Game, e: Event, cards: seq<Card>)
    requires InvAsWritten(g, cards) && ValidEvent(g, e)
    ensures InvAsWritten(StepAsWritten(g, e), cards)
    ensures forall i :: 0 <= i < |g.views| && g.views[i].isHidden ==> StepAsWritten(g, e).views[i].isHidden
  {
    match e
    case Tapped(s, ended) =>
      TapAsWrittenBounded(g, s, ended);
      TapAsWrittenKeepsCards(g, s, ended, cards);
    case Completed(k, draw) =>
      CompleteAsWrittenKeepsInv(g, k, draw, cards);
    case PushActed(id) =>
  }

  /** A tap of the written program changes no card and un-hides no view. */
  lemma TapAsWrittenKeepsCards(g: Game, s: nat, ended: bool, cards: seq<Card>)
    requires WellFormed(g) && s < |g.views| && ShowsCards(g.views, cards)
    ensures ShowsCards(TapAsWritten(g, s, ended).views, cards)
    ensures forall i :: 0 <= i < |g.views| && g.views[i].isHidden ==> TapAsWritten(g, s, ended).views[i].isHidden
  {
  }

  /** A completion keeps `InvAsWritten` and un-hides no view. */
  lemma CompleteAsWrittenKeepsInv(g: Game, k: nat, draw: PushDraw, cards: seq<Card>)
    requires InvAsWritten(g, cards) && k < |g.pending|
    ensures InvAsWritten(Complete(g, k, draw), cards)
    ensures forall i :: 0 <= i < |g.views| && g.views[i].isHidden ==> Complete(g, k, draw).views[i].isHidden
  {
    CompleteRevealsNothing(g, k, draw);
    CompleteKeepsCards(g, k, draw, cards);
    forall i | 0 <= i < |g.views| && g.views[i].isHidden
      ensures Complete(g, k, draw).views[i].isHidden
    {
      HiddenStaysHidden(g, Completed(k, draw), i);
    }
  }

  /** Every run of the written program keeps `InvAsWritten`, and an eliminated view stays hidden. */
  lemma {:induction false} RunAsWrittenKeepsInv(g: Game, es: seq<Event>, cards: seq<Card>)
    requires InvAsWritten(g, cards) && ValidRunAsWritten(g, es)
    ensures InvAsWritten(RunAsWritten(g, es), cards)
    ensures forall i :: 0 <= i < |g.views| && g.views[i].isHidden ==> RunAsWritten(g, es).views[i].isHidden
    decreases |es|
  {
    if |es| > 0 {
      StepAsWrittenKeepsInv(g, es[0], cards);
      RunAsWrittenKeepsInv(StepAsWritten(g, es[0]), es[1..], cards);
    }
  }

  /** Every state the written program reaches from `viewDidLoad` has at most two views shown
      face-up and still shows the dealt cards, so two views match exactly when they show the same card. */
  lemma ReachableAsWritten(count: nat, deckDraws: seq<nat>, pileDraws: seq<nat>, pushDraws: seq<PushDraw>, bounds: Option<Rect>, es: seq<Event>)
    requires DealDraws(count, deckDraws, pileDraws) && |pushDraws| == count
    requires 1 <= count <= 104
    requires ValidRunAsWritten(ViewDidLoad(count, deckDraws, pileDraws, pushDraws, bounds).value, es)
    ensures var g := RunAsWritten(ViewDidLoad(count, deckDraws, pileDraws, pushDraws, bounds).value, es);
      var cards := DealCards(FreshDeck(), count, deckDraws, pileDraws).value;
      var up := FaceUpSlots(g.views);
      && InvAsWritten(g, cards)
      && (FaceUpMatch(g.views) <==> |up| == 2 && cards[up[0]] == cards[up[1]])
  {
    var g0 := ViewDidLoad(count, deckDraws, pileDraws, pushDraws, bounds).value;
    var cards := DealCards(FreshDeck(), count, deckDraws, pileDraws).value;
    ViewDidLoadEstablishesInv(count, deckDraws, pileDraws, pushDraws, bounds);
    ViewDidLoadShowsCards(count, deckDraws, pileDraws, pushDraws, bounds);
    RunAsWrittenKeepsInv(g0, es, cards);
    MatchIffSameCard(RunAsWritten(g0, es).views, cards);
  }

  // ---------------------------------------------------------------------------
  // A tap on a view that is being eliminated
  // ---------------------------------------------------------------------------

  /** The face-up slots of two views. */
  lemma FaceUpSlotsOfPair(a: CardView, b: CardView)
    ensures FaceUpSlots([a, b]) == (if ShownFaceUp(a) then [0] else []) + (if ShownFaceUp(b) then [1] else [])
  {
    var v := [a, b];
    assert FaceUpSlotsBelow(v, 1) == FaceUpSlotsBelow(v, 0) + (if ShownFaceUp(a) then [0] else []);
  }

  /** A view as `viewDidLoad` leaves it: face-down, visible, identity transform, opaque. */
  predicate Dealt(v: CardView) {
    !v.isFaceUp && !v.isHidden && v.transform == Identity && v.alpha == 1.0
  }

  /** A valid behaviour whose members are among two slots. */
  ghost predicate OverPair(b: Behavior) {
    Valid(b) && forall c :: c in b.collision || c in b.items ==> c < 2
  }

  /** The view face-up; then enlarged; then, tapped again, face-down while enlarged. */
  function Up(v: CardView): CardView { v.(isFaceUp := true) }
  function Big(v: CardView): CardView { Up(v).(transform := Enlarged) }
  function BigDown(v: CardView): CardView { Big(v).(isFaceUp := false) }

  /** Two views showing the same card, dealt, with behaviour `b`. */
  function Pair(v: CardView, b: Behavior, bd: Option<Rect>): Game {
    Game([v, v], b, bd, None, [])
  }

  /** The states after each event of `MatchPair`. */
  function FirstUp(v: CardView, b: Behavior, bd: Option<Rect>): Game {
    Game([Up(v), v], RemoveItem(b, 0), bd, Some(0), [FlipDone(0)])
  }

  function FirstShown(v: CardView, b: Behavior, bd: Option<Rect>): Game {
    Game([Up(v), v], RemoveItem(b, 0), bd, Some(0), [])
  }

  function BothUp(v: CardView, b: Behavior, bd: Option<Rect>): Game {
    Game([Up(v), Up(v)], RemoveItem(RemoveItem(b, 0), 1), bd, Some(1), [FlipDone(1)])
  }

  function PairEnlarged(v: CardView, b: Behavior, bd: Option<Rect>): Game {
    Game([Big(v), Big(v)], RemoveItem(RemoveItem(b, 0), 1), bd, Some(1), [EnlargeDone([0, 1])])
  }

  /** One fixed draw for the pushes created below. */
  const StillDraw := PushDraw(Point(0.0, 0.0), 0.0, 0.0)

  /** The events that turn both views face-up and complete both flips. */
  const MatchPair := [Tapped(0, true), Completed(0, StillDraw), Tapped(1, true), Completed(0, StillDraw)]

  lemma PairInv(v: CardView, b: Behavior, bd: Option<Rect>)
    requires Dealt(v) && OverPair(b)
    ensures Inv(Pair(v, b, bd))
  {
    FaceUpSlotsOfPair(v, v);
  }

  lemma FirstTapped(v: CardView, b: Behavior, bd: Option<Rect>)
    requires Dealt(v) && OverPair(b)
    ensures ValidEvent(Pair(v, b, bd), Tapped(0, true)) && Step(Pair(v, b, bd), Tapped(0, true)) == FirstUp(v, b, bd)
  {
    FaceUpSlotsOfPair(v, v);
  }

  lemma FirstFlipped(v: CardView, b: Behavior, bd: Option<Rect>)
    requires Dealt(v) && OverPair(b)
    ensures ValidEvent(FirstUp(v, b, bd), Completed(0, StillDraw))
    ensures Step(FirstUp(v, b, bd), Completed(0, StillDraw)) == FirstShown(v, b, bd)
  {
    FaceUpSlotsOfPair(Up(v), v);
  }

  lemma SecondTapped(v: CardView, b: Behavior, bd: Option<Rect>)
    requires Dealt(v) && OverPair(b)
    ensures ValidEvent(FirstShown(v, b, bd), Tapped(1, true))
    ensures Step(FirstShown(v, b, bd), Tapped(1, true)) == BothUp(v, b, bd)
  {
    FaceUpSlotsOfPair(Up(v), v);
  }

  lemma SecondFlipped(v: CardView, b: Behavior, bd: Option<Rect>)
    requires Dealt(v) && OverPair(b)
    ensures ValidEvent(BothUp(v, b, bd), Completed(0, StillDraw))
    ensures Step(BothUp(v, b, bd), Completed(0, StillDraw)) == PairEnlarged(v, b, bd)
  {
    var g := BothUp(v, b, bd);
    FaceUpSlotsOfPair(Up(v), Up(v));
    var rest := Dequeue(g, 0);
    assert rest == g.(pending := []);
    assert FaceUpSlots(rest.views) == [0, 1];
    var views := Apply(rest.views, [0, 1], Enlarge);
    assert views == [Big(v), Big(v)];
    assert CompleteFlip(rest, 1, StillDraw) == rest.(views := views, pending := [EnlargeDone([0, 1])]);
  }

  /** The four events run one after the other. */
  lemma MatchPairRun(v: CardView, b: Behavior, bd: Option<Rect>)
    requires Dealt(v) && OverPair(b)
    ensures ValidRun(Pair(v, b, bd), MatchPair)
    ensures Run(Pair(v, b, bd), MatchPair) == PairEnlarged(v, b, bd)
  {
    FirstTapped(v, b, bd);
    FirstFlipped(v, b, bd);
    SecondTapped(v, b, bd);
    SecondFlipped(v, b, bd);
    var es := MatchPair;
    assert ValidRun(PairEnlarged(v, b, bd), es[1..][1..][1..][1..]);
    assert Run(BothUp(v, b, bd), es[1..][1..][1..]) == PairEnlarged(v, b, bd);
    assert Run(FirstShown(v, b, bd), es[1..][1..]) == PairEnlarged(v, b, bd);
    assert Run(FirstUp(v, b, bd), es[1..]) == PairEnlarged(v, b, bd);
  }

  /** Two dealt views showing the same card, both tapped with both flips completed: both are in the
      first elimination phase, face-up, three times their size, still opaque and not hidden, out of
      the behaviour, with nothing shown face-up; the state keeps the invariant. */
  lemma PairMatched(v: CardView, b: Behavior, bd: Option<Rect>)
    requires Dealt(v) && OverPair(b)
    ensures ValidRun(Pair(v, b, bd), MatchPair)
    ensures Run(Pair(v, b, bd), MatchPair) == PairEnlarged(v, b, bd)
    ensures Inv(PairEnlarged(v, b, bd))
    ensures FaceUpSlots(PairEnlarged(v, b, bd).views) == []
    ensures 0 !in PairEnlarged(v, b, bd).behavior.collision && 1 !in PairEnlarged(v, b, bd).behavior.collision
  {
    MatchPairRun(v, b, bd);
    PairInv(v, b, bd);
    RunKeepsInv(Pair(v, b, bd), MatchPair);
    FaceUpSlotsOfPair(Big(v), Big(v));
  }

  /** The first view tapped while enlarged, as written, and the states after the three pending completions. */
  function TappedWhileEnlarged(v: CardView, b: Behavior, bd: Option<Rect>): Game {
    Game([BigDown(v), Big(v)], RemoveItem(RemoveItem(RemoveItem(b, 0), 1), 0), bd, Some(0),
         [EnlargeDone([0, 1]), FlipDone(0)])
  }

  function ReAdmitted(v: CardView, b: Behavior, bd: Option<Rect>): Game
    requires Valid(b)
  {
    Game([BigDown(v), Big(v)], AddItem(RemoveItem(RemoveItem(RemoveItem(b, 0), 1), 0), 0, bd, StillDraw),
         bd, Some(0), [EnlargeDone([0, 1])])
  }

  function PairShrunk(v: CardView, b: Behavior, bd: Option<Rect>): Game
    requires Valid(b)
  {
    ReAdmitted(v, b, bd).(views := [ShrinkAndFade(BigDown(v)), ShrinkAndFade(Big(v))], pending := [FadeDone([0, 1])])
  }

  lemma EnlargedTappedAsWritten(v: CardView, b: Behavior, bd: Option<Rect>)
    requires Dealt(v) && OverPair(b)
    ensures TapAsWritten(PairEnlarged(v, b, bd), 0, true) == TappedWhileEnlarged(v, b, bd)
  {
    var g := PairEnlarged(v, b, bd);
    FaceUpSlotsOfPair(Big(v), Big(v));
    assert |FaceUpSlots(g.views)| < 2 && Deliverable(g, 0);
    assert g.views[0 := g.views[0].(isFaceUp := !g.views[0].isFaceUp)] == [BigDown(v), Big(v)];
    assert Choose(g, 0) == TappedWhileEnlarged(v, b, bd);
  }

  lemma NothingShownAfterRetap(v: CardView)
    ensures FaceUpSlots([BigDown(v), Big(v)]) == []
  {
    FaceUpSlotsOfPair(BigDown(v), Big(v));
  }

  lemma EnlargedFlipped(v: CardView, b: Behavior, bd: Option<Rect>)
    requires Dealt(v) && OverPair(b)
    ensures WellFormed(TappedWhileEnlarged(v, b, bd))
    ensures Complete(TappedWhileEnlarged(v, b, bd), 1, StillDraw) == ReAdmitted(v, b, bd)
  {
    var g := TappedWhileEnlarged(v, b, bd);
    var rest := g.(pending := [EnlargeDone([0, 1])]);
    assert Dequeue(g, 1) == rest;
    NothingShownAfterRetap(v);
    assert rest.views == [BigDown(v), Big(v)];
    assert CompleteFlip(rest, 0, StillDraw) == rest.(behavior := AddItem(rest.behavior, 0, bd, StillDraw));
  }

  lemma ReAdmittedShrunk(v: CardView, b: Behavior, bd: Option<Rect>)
    requires Dealt(v) && OverPair(b)
    ensures WellFormed(ReAdmitted(v, b, bd))
    ensures Complete(ReAdmitted(v, b, bd), 0, StillDraw) == PairShrunk(v, b, bd)
  {
    var g := ReAdmitted(v, b, bd);
    assert Dequeue(g, 0) == g.(pending := []);
    assert Apply(g.views, [0, 1], ShrinkAndFade) == PairShrunk(v, b, bd).views;
  }

  lemma ShrunkHidden(v: CardView, b: Behavior, bd: Option<Rect>)
    requires Dealt(v) && OverPair(b)
    ensures WellFormed(PairShrunk(v, b, bd))
    ensures var r := Complete(PairShrunk(v, b, bd), 0, StillDraw);
      && r.views[0].isHidden && !r.views[0].isFaceUp
      && 0 in r.behavior.collision && 0 in r.behavior.items
  {
    var g := PairShrunk(v, b, bd);
    assert Dequeue(g, 0) == g.(pending := []);
  }

  /** As written, `flipCards` acts on a tap on the first view of a matched pair while it is
      enlarged: the flip's completion finds no face-up view and puts the now face-down view back
      into the behaviour, and the two elimination phases then hide it while it stays in the
      collision and item behaviours, a state the invariant excludes. */
  lemma TapDuringEliminationAsWritten(v: CardView, b: Behavior, bd: Option<Rect>)
    requires Dealt(v) && OverPair(b)
    ensures TapAsWritten(PairEnlarged(v, b, bd), 0, true) == TappedWhileEnlarged(v, b, bd)
    ensures WellFormed(TappedWhileEnlarged(v, b, bd))
    ensures Complete(TappedWhileEnlarged(v, b, bd), 1, StillDraw) == ReAdmitted(v, b, bd)
    ensures WellFormed(ReAdmitted(v, b, bd))
    ensures Complete(ReAdmitted(v, b, bd), 0, StillDraw) == PairShrunk(v, b, bd)
    ensures WellFormed(PairShrunk(v, b, bd))
    ensures var r := Complete(PairShrunk(v, b, bd), 0, StillDraw);
      && r.views[0].isHidden && !r.views[0].isFaceUp
      && 0 in r.behavior.collision && 0 in r.behavior.items
      && !Inv(r)
  {
    EnlargedTappedAsWritten(v, b, bd);
    EnlargedFlipped(v, b, bd);
    ReAdmittedShrunk(v, b, bd);
    ShrunkHidden(v, b, bd);
    var r := Complete(PairShrunk(v, b, bd), 0, StillDraw);
    if Inv(r) {
      EliminatedOutOfBehavior(r, 0);
    }
  }

  /** The corrected `flipCards` ignores that tap on either view of the pair. */
  lemma TapDuringEliminationCorrected(v: CardView, b: Behavior, bd: Option<Rect>)
    requires Dealt(v) && OverPair(b)
    ensures Tap(PairEnlarged(v, b, bd), 0, true) == PairEnlarged(v, b, bd)
    ensures Tap(PairEnlarged(v, b, bd), 1, true) == PairEnlarged(v, b, bd)
  {
  }

  /** Loading two card views deals one card twice, whichever card is drawn and however the pile is
      taken apart, and yields the starting state of the scenario above. */
  lemma PairFromViewDidLoad(u: nat, pileDraws: seq<nat>, draws: seq<PushDraw>, bd: Option<Rect>)
    requires u < 52 && ValidDraws(2, pileDraws) && |pileDraws| == 2 && |draws| == 2
    ensures DealDraws(2, [u], pileDraws)
    ensures var b := AdmitAll(NewBehavior(), 2, bd, draws);
      var v := DealtView(FreshDeck().cards[u]);
      && Dealt(v) && OverPair(b)
      && ViewDidLoad(2, [u], pileDraws, draws, bd) == Ok(Pair(v, b, bd))
  {
    var c := FreshDeck().cards[u];
    DealOneCardTwice(u, pileDraws);
    var views := seq(2, i requires 0 <= i < 2 => DealtView([c, c][i]));
    assert views == [DealtView(c), DealtView(c)];
  }

  /** With two views, the deck yields the one card drawn, and the pile of two copies is dealt whole. */
  lemma DealOneCardTwice(u: nat, pileDraws: seq<nat>)
    requires u < 52 && ValidDraws(2, pileDraws) && |pileDraws| == 2
    ensures DealDraws(2, [u], pileDraws)
    ensures DealCards(FreshDeck(), 2, [u], pileDraws) == Ok([FreshDeck().cards[u], FreshDeck().cards[u]])
  {
    var c := FreshDeck().cards[u];
    assert DrawMany(FreshDeck(), [u]).0 == [c];
    assert Doubled([c]) == [c, c];
    TwinPileDealtWhole(c, pileDraws);
  }

  /** Removing both elements of a pile of two copies, in any order, gives the two copies. */
  lemma TwinPileDealtWhole<T>(x: T, us: seq<nat>)
    requires ValidDraws(2, us) && |us| == 2
    ensures RemoveRandomly([x, x], us).0 == [x, x]
  {
    var removed := RemoveRandomly([x, x], us);
    assert multiset(removed.0) == multiset{x, x};
    assert removed.0[0] in multiset(removed.0) && removed.0[1] in multiset(removed.0);
  }
}
