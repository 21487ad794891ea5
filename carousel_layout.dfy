/**
 * The card strip `renderProjects` builds (js/main.js): one card per project,
 * then clones of the first three appended and clones of the last three
 * prepended, so that the strip can be scrolled past either end.
 */
module CarouselLayout {
  import opened SiteData
  import opened CarouselIndex

  /** A child of the slider: the card of a project, or a `cloneNode` copy of one. */
  datatype Card = Card(project: Project, isClone: bool)

  /** The real cards, one per project, in order. */
  function RealCards(projects: seq<Project>): (cards: seq<Card>)
    ensures |cards| == |projects|
    ensures forall i :: 0 <= i < |projects| ==> cards[i] == Card(projects[i], false)
  {
    seq(|projects|, i requires 0 <= i < |projects| => Card(projects[i], false))
  }

  /** Clones of the given cards, in the same order. */
  function Clones(cards: seq<Card>): (clones: seq<Card>)
    ensures |clones| == |cards|
    ensures forall i :: 0 <= i < |cards| ==> clones[i] == cards[i].(isClone := true)
  {
    seq(|cards|, i requires 0 <= i < |cards| => cards[i].(isClone := true))
  }

  /**
   * The finished strip for at least three projects: clones of the last three
   * cards, the real cards, clones of the first three.
   */
  function Strip(projects: seq<Project>): (strip: seq<Card>)
    requires |projects| >= ClonesCount
    ensures |strip| == |projects| + 2 * ClonesCount
    ensures strip[ClonesCount..|projects| + ClonesCount] == RealCards(projects)
  {
    var cards := RealCards(projects);
    Clones(cards[|cards| - ClonesCount..]) + cards + Clones(cards[..ClonesCount])
  }

  /**
   * The clone loops of `renderProjects`, run on an initially empty slider.
   * With fewer than three projects, `cards[i]` is `undefined` at i = N and
   * `cloneNode` throws a TypeError: `ok` is false and the slider keeps the
   * real cards and the clones appended before the throw.
   */
  method RenderProjects(projects: seq<Project>) returns (slider: seq<Card>, ok: bool)
    ensures ok <==> |projects| >= ClonesCount
    ensures ok ==> slider == Strip(projects)
    ensures !ok ==> slider == RealCards(projects) + Clones(RealCards(projects))
  {
    slider := [];
    var i := 0;
    while i < |projects|
      invariant 0 <= i <= |projects|
      invariant slider == RealCards(projects[..i])
    {
      RealCardsSnoc(projects, i);
      slider := slider + [Card(projects[i], false)];
      i := i + 1;
    }
    assert projects[..i] == projects;
    var cards := slider;
    // append clones of the first few
    i := 0;
    while i < ClonesCount
      invariant 0 <= i <= ClonesCount && i <= |cards|
      invariant slider == cards + Clones(cards[..i])
    {
      if i >= |cards| {
        assert cards[..i] == cards;
        ok := false;
        return;
      }
      ClonesSnoc(cards, i);
      slider := slider + [cards[i].(isClone := true)];
      i := i + 1;
    }
    // prepend clones of the last few
    var n := |cards|;
    i := 0;
    while i < ClonesCount
      invariant 0 <= i <= ClonesCount
      invariant slider == Clones(cards[n - i..]) + cards + Clones(cards[..ClonesCount])
    {
      ClonesCons(cards, n - 1 - i);
      slider := [cards[n - 1 - i].(isClone := true)] + slider;
      i := i + 1;
    }
    ok := true;
  }

  /** One more real card. */
  lemma RealCardsSnoc(projects: seq<Project>, i: int)
    requires 0 <= i < |projects|
    ensures RealCards(projects[..i + 1]) == RealCards(projects[..i]) + [Card(projects[i], false)]
  {
  }

  /** One more clone at the end. */
  lemma ClonesSnoc(cards: seq<Card>, i: int)
    requires 0 <= i < |cards|
    ensures Clones(cards[..i + 1]) == Clones(cards[..i]) + [cards[i].(isClone := true)]
  {
  }

  /** One more clone at the front. */
  lemma ClonesCons(cards: seq<Card>, i: int)
    requires 0 <= i < |cards|
    ensures Clones(cards[i..]) == [cards[i].(isClone := true)] + Clones(cards[i + 1..])
  {
  }

  /** `realCardsCount = cards.length - clonesCount * 2` recovers N from the strip. */
  lemma StripSize(projects: seq<Project>)
    requires |projects| >= ClonesCount
    ensures |Strip(projects)| - 2 * ClonesCount == |projects|
  {
  }

  /**
   * Position `p` of the strip shows project `(p - 3) mod N`; it is a clone
   * exactly in the three leading and three trailing positions.
   */
  lemma StripPosition(projects: seq<Project>, p: int)
    requires |projects| >= ClonesCount && 0 <= p < |projects| + 2 * ClonesCount
    ensures Strip(projects)[p].project == projects[(p - ClonesCount) % |projects|]
    ensures Strip(projects)[p].isClone <==> p < ClonesCount || p >= |projects| + ClonesCount
  {
    var n := |projects|;
    var cards := RealCards(projects);
    var head := Clones(cards[n - ClonesCount..]);
    if p < ClonesCount {
      assert Strip(projects)[p] == head[p];
      ModUnique(p - ClonesCount, n, -1, p - ClonesCount + n);
    } else if p < n + ClonesCount {
      assert Strip(projects)[p] == cards[p - ClonesCount];
      ModUnique(p - ClonesCount, n, 0, p - ClonesCount);
    } else {
      assert Strip(projects)[p] == Clones(cards[..ClonesCount])[p - n - ClonesCount];
      ModUnique(p - ClonesCount, n, 1, p - ClonesCount - n);
    }
  }

  /**
   * The dot the scroll handler activates at the offset of strip position `p`
   * names the project that position shows, clone or not: the dots and the
   * clone layout agree.
   */
  lemma ActiveDotNamesVisibleProject(projects: seq<Project>, p: int, w: int)
    requires |projects| >= ClonesCount && 0 <= p < |projects| + 2 * ClonesCount && w > 0
    ensures Strip(projects)[p].project == projects[ActiveIndexAt(OffsetOf(p, w), w, |projects|)]
  {
    StripPosition(projects, p);
    ActiveIndexOnCard(p, w, |projects|);
  }

  /**
   * The teleport targets are twins: positions `p` and `p + N` of the strip show
   * the same project, so jumping between them changes nothing the user sees.
   */
  lemma TeleportTwins(projects: seq<Project>, p: int)
    requires |projects| >= ClonesCount && 0 <= p && p + |projects| < |projects| + 2 * ClonesCount
    ensures Strip(projects)[p].project == Strip(projects)[p + |projects|].project
  {
    var n := |projects|;
    StripPosition(projects, p);
    StripPosition(projects, p + n);
    ModShift(p - ClonesCount, 1, n);
  }
}
