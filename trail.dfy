/**
 * The mouse trail of the background canvas (`setupParticles` in js/main.js):
 * trail particles spawned on mouse moves, and the per-frame loop that updates
 * every particle and splices out the dead ones while it iterates.
 *
 * Lengths, speeds and life are fixed-point numbers in thousandths (1000 is one
 * pixel, or full life), so that no floating point enters the model.
 */
module Trail {

  /** One pixel, or a life of 100%, in thousandths. */
  const Scale: int := 1000
  /** A particle no larger than 0.2 px is dead. */
  const DeathSize: int := 200
  /** The smallest fade per frame, 0.02. */
  const MinDecay: int := 20

  /** A `TrailParticle`; `gold` chooses between the gold and the green colour. */
  datatype TrailParticle = TrailParticle(
    x: int, y: int, size: int, speedX: int, speedY: int, gold: bool, life: int, decay: int)

  /**
   * Five draws of `Math.random()`, each scaled to an integer in [0, 1000), for
   * the size, the two speeds, the colour and the decay of a new particle.
   */
  datatype Draws = Draws(size: int, speedX: int, speedY: int, colour: int, decay: int)

  predicate DrawsInRange(d: Draws)
  {
    && 0 <= d.size < Scale && 0 <= d.speedX < Scale && 0 <= d.speedY < Scale
    && 0 <= d.colour < Scale && 0 <= d.decay < Scale
  }

  /**
   * `new TrailParticle(x, y)`: 1 to 4 px, speeds in [-1, 1), full life, and a
   * fade of 0.02 to 0.05 per frame.
   */
  function Spawn(x: int, y: int, d: Draws): (p: TrailParticle)
    requires DrawsInRange(d)
    ensures p.x == x && p.y == y
    ensures Scale <= p.size < 4 * Scale
    ensures -Scale <= p.speedX < Scale && -Scale <= p.speedY < Scale
    ensures p.life == Scale && MinDecay <= p.decay < 50
  {
    TrailParticle(x, y, d.size * 3 + Scale, d.speedX * 2 - Scale, d.speedY * 2 - Scale,
      d.colour > Scale / 2, Scale, d.decay * 30 / Scale + MinDecay)
  }

  /** `update()`: move by the speed, shrink to 95%, fade by `decay`. */
  function Update(p: TrailParticle): (q: TrailParticle)
    ensures q.gold == p.gold && q.decay == p.decay
    ensures p.size >= 0 ==> 0 <= q.size <= p.size
    ensures p.size > DeathSize ==> q.size < p.size
    ensures p.decay > 0 ==> q.life < p.life
  {
    p.(x := p.x + p.speedX, y := p.y + p.speedY, size := p.size * 95 / 100, life := p.life - p.decay)
  }

  /** The removal test of the frame loop: faded out, or shrunk to 0.2 px. */
  predicate IsDead(p: TrailParticle)
    ensures !IsDead(p) ==> p.life >= 1 && p.size >= DeathSize + 1
  {
    p.life <= 0 || p.size <= DeathSize
  }

  /** Every particle updated once, in order. */
  function Updated(ps: seq<TrailParticle>): (qs: seq<TrailParticle>)
    ensures |qs| == |ps|
    ensures forall i :: 0 <= i < |ps| ==> qs[i] == Update(ps[i])
  {
    seq(|ps|, i requires 0 <= i < |ps| => Update(ps[i]))
  }

  /** The particles that are not dead, in their original order (a stable filter). */
  function Survivors(ps: seq<TrailParticle>): (r: seq<TrailParticle>)
    ensures |r| <= |ps|
    ensures forall q :: q in r ==> q in ps && !IsDead(q)
  {
    if ps == [] then []
    else (if IsDead(ps[0]) then [] else [ps[0]]) + Survivors(ps[1..])
  }

  /** Filtering distributes over concatenation. */
  lemma {:induction false} SurvivorsAppend(a: seq<TrailParticle>, b: seq<TrailParticle>)
    ensures Survivors(a + b) == Survivors(a) + Survivors(b)
  {
    if a != [] {
      assert (a + b)[1..] == a[1..] + b;
      SurvivorsAppend(a[1..], b);
    } else {
      assert a + b == b;
    }
  }

  /** No live particle is dropped. */
  lemma {:induction false} SurvivorsKeepLive(ps: seq<TrailParticle>, q: TrailParticle)
    requires q in ps && !IsDead(q)
    ensures q in Survivors(ps)
  {
    if ps[0] != q {
      assert q in ps[1..];
      SurvivorsKeepLive(ps[1..], q);
    }
  }

  /** One animation frame of the trail. */
  function Frame(ps: seq<TrailParticle>): (r: seq<TrailParticle>)
    ensures |r| <= |ps|
    ensures forall q :: q in r ==> !IsDead(q) && exists i :: 0 <= i < |ps| && q == Update(ps[i])
  {
    var us := Updated(ps);
    assert forall q :: q in us ==> exists i :: 0 <= i < |ps| && q == Update(ps[i]);
    Survivors(us)
  }

  /** `n` frames with no mouse movement in between. */
  function Frames(ps: seq<TrailParticle>, n: nat): (r: seq<TrailParticle>)
    decreases n
  {
    if n == 0 then ps else Frames(Frame(ps), n - 1)
  }

  /** The particle has faded for at least `j` frames at the slowest rate. */
  predicate FadedFor(p: TrailParticle, j: int)
  {
    p.decay >= MinDecay && p.life <= Scale - MinDecay * j
  }

  /** A frame fades every survivor by at least one more step. */
  lemma FrameFades(ps: seq<TrailParticle>, j: int)
    requires forall p :: p in ps ==> FadedFor(p, j)
    ensures forall q :: q in Frame(ps) ==> FadedFor(q, j + 1)
  {
    var us := Updated(ps);
    forall q | q in Frame(ps)
      ensures FadedFor(q, j + 1)
    {
      var i :| 0 <= i < |us| && us[i] == q;
      assert FadedFor(ps[i], j);
    }
  }

  /** After `n` frames every remaining particle has faded for `j + n` steps. */
  lemma {:induction false} FramesFade(ps: seq<TrailParticle>, j: int, n: nat)
    requires forall p :: p in ps ==> FadedFor(p, j)
    ensures forall q :: q in Frames(ps, n) ==> FadedFor(q, j + n)
    decreases n
  {
    if n > 0 {
      FrameFades(ps, j);
      FramesFade(Frame(ps), j + 1, n - 1);
    }
  }

  /**
   * Every particle has at most full life and fades by at least 0.02 per frame:
   * true of every spawned particle, and kept by every frame (FramePreservesFading).
   */
  predicate Fading(ps: seq<TrailParticle>)
  {
    forall p :: p in ps ==> p.life <= Scale && p.decay >= MinDecay
  }

  /** A frame keeps every particle fading. */
  lemma FramePreservesFading(ps: seq<TrailParticle>)
    requires Fading(ps)
    ensures Fading(Frame(ps))
  {
    FrameFades(ps, 0);
  }

  /**
   * Particles spawned by mouse moves are all gone 50 frames after the mouse
   * stops: full life fades by at least 0.02 per frame, and a particle whose life
   * reaches 0 is removed.
   */
  lemma TrailDrains(ps: seq<TrailParticle>, n: nat)
    requires Fading(ps)
    requires n >= Scale / MinDecay
    ensures Frames(ps, n) == []
  {
    FramesFade(ps, 0, n);
    FramesLast(ps, n);
    var r := Frames(ps, n);
    assert forall q :: q in r ==> q.life <= 0;
    FirstIsMember(r);
  }

  /** A non-empty sequence has a member. */
  lemma FirstIsMember(r: seq<TrailParticle>)
    ensures r == [] || r[0] in r
  {
  }

  /** The last of `n` frames. */
  lemma {:induction false} FramesLast(ps: seq<TrailParticle>, n: nat)
    requires n >= 1
    ensures Frames(ps, n) == Frame(Frames(ps, n - 1))
    decreases n
  {
    if n > 1 {
      FramesLast(Frame(ps), n - 1);
    }
  }

  /**
   * The loop invariant of the frame loop: the first `k` original particles have
   * been handled and their updated survivors occupy `t[..i]`, while the rest
   * of `t` is the unvisited rest of the original array.
   */
  predicate Compacted(t: seq<TrailParticle>, i: int, before: seq<TrailParticle>, k: int)
  {
    && 0 <= i <= |t| && 0 <= k <= |before|
    && |t| - i == |before| - k
    && t[..i] == Survivors(Updated(before)[..k])
    && t[i..] == before[k..]
  }

  /** When the loop has reached the end, the frame is complete. */
  lemma CompactedDone(t: seq<TrailParticle>, i: int, before: seq<TrailParticle>, k: int)
    requires Compacted(t, i, before, k) && i == |t|
    ensures t == Frame(before)
  {
    assert Updated(before)[..k] == Updated(before);
    assert t[..i] == t;
  }

  /** The next particle is the next original one. */
  lemma CompactedNext(t: seq<TrailParticle>, i: int, before: seq<TrailParticle>, k: int)
    requires Compacted(t, i, before, k) && i < |t|
    ensures k < |before| && t[i] == before[k]
  {
    assert t[i..][0] == before[k..][0];
  }

  /**
   * One pass of the frame loop keeps the invariant: the particle at `i` is
   * updated, then spliced out with the index stepped back if it died.
   */
  lemma CompactedStep(t: seq<TrailParticle>, i: int, before: seq<TrailParticle>, k: int)
    requires Compacted(t, i, before, k) && i < |t|
    ensures var t1 := t[i := Update(t[i])];
      if IsDead(t1[i]) then Compacted(t1[..i] + t1[i + 1..], i, before, k + 1)
      else Compacted(t1, i + 1, before, k + 1)
  {
    CompactedNext(t, i, before, k);
    var q := Update(t[i]);
    var t1 := t[i := q];
    var updated := Updated(before);
    assert updated[..k + 1] == updated[..k] + [q];
    SurvivorsAppend(updated[..k], [q]);
    assert [q][1..] == [];
    assert t[i + 1..] == t[i..][1..];
    assert before[k + 1..] == before[k..][1..];
    assert t1[i + 1..] == t[i + 1..];
    if IsDead(q) {
      assert (t1[..i] + t1[i + 1..])[..i] == t[..i];
      assert (t1[..i] + t1[i + 1..])[i..] == t[i + 1..];
    } else {
      assert t1[..i + 1] == t[..i] + [q];
    }
  }

  /** The canvas state the trail code reads and writes. */
  class ParticleField {
    var trailParticles: seq<TrailParticle>
    /** `window.innerWidth < 768` at the last resize: no trail on mobile. */
    var isMobile: bool

    /** Every particle of the trail was spawned and has only faded since. */
    predicate Valid()
      reads this
    {
      Fading(trailParticles)
    }

    constructor(innerWidth: int)
      ensures Valid()
      ensures trailParticles == [] && isMobile == (innerWidth < 768)
    {
      trailParticles := [];
      isMobile := innerWidth < 768;
    }

    /** `resize`: re-evaluate the mobile test. */
    method Resize(innerWidth: int)
      requires Valid()
      modifies this
      ensures Valid()
      ensures isMobile == (innerWidth < 768) && trailParticles == old(trailParticles)
    {
      isMobile := innerWidth < 768;
    }

    /**
     * `mousemove`: off mobile, two trail particles spawn at the mouse position
     * (`x`, `y`), given in thousandths of a pixel like the particles' coordinates.
     */
    method MouseMove(x: int, y: int, d1: Draws, d2: Draws)
      requires Valid()
      requires DrawsInRange(d1) && DrawsInRange(d2)
      modifies this
      ensures Valid()
      ensures isMobile == old(isMobile)
      ensures old(isMobile) ==> trailParticles == old(trailParticles)
      ensures !old(isMobile) ==> trailParticles == old(trailParticles) + [Spawn(x, y, d1), Spawn(x, y, d2)]
    {
      if !isMobile {
        ghost var spawned := [Spawn(x, y, d1), Spawn(x, y, d2)];
        var i := 0;
        while i < 2
          invariant 0 <= i <= 2
          invariant trailParticles == old(trailParticles) + [Spawn(x, y, d1), Spawn(x, y, d2)][..i]
          invariant !isMobile && Valid()
        {
          trailParticles := trailParticles + [Spawn(x, y, if i == 0 then d1 else d2)];
          i := i + 1;
        }
        assert spawned[..2] == spawned;
      }
    }

    /**
     * The trail part of `animate`: update every particle in place and splice out
     * the dead ones, stepping the index back after each removal. The result is
     * the stable filter of the updated particles: none is skipped, none is
     * updated twice.
     */
    method AnimateTrail()
      requires Valid()
      modifies this
      ensures Valid()
      ensures trailParticles == Frame(old(trailParticles))
      ensures isMobile == old(isMobile)
    {
      ghost var before := trailParticles;
      ghost var k := 0;
      var i := 0;
      while i < |trailParticles|
        invariant Compacted(trailParticles, i, before, k)
        invariant isMobile == old(isMobile)
        decreases |trailParticles| - i
      {
        CompactedStep(trailParticles, i, before, k);
        trailParticles := trailParticles[i := Update(trailParticles[i])];
        if IsDead(trailParticles[i]) {
          trailParticles := trailParticles[..i] + trailParticles[i + 1..];
          i := i - 1;
        }
        i := i + 1;
        k := k + 1;
      }
      CompactedDone(trailParticles, i, before, k);
      FramePreservesFading(before);
    }

    /**
     * Successive `animate` frames (each one requests the next) while the mouse
     * stays still: after 50 of them the trail is empty.
     */
    method StillFrames(n: nat)
      requires Valid()
      modifies this
      ensures Valid() && isMobile == old(isMobile)
      ensures trailParticles == Frames(old(trailParticles), n)
      ensures n >= Scale / MinDecay ==> trailParticles == []
    {
      ghost var start := trailParticles;
      var i := 0;
      while i < n
        invariant 0 <= i <= n && Valid() && isMobile == old(isMobile)
        invariant trailParticles == Frames(start, i)
      {
        FramesLast(start, i + 1);
        AnimateTrail();
        i := i + 1;
      }
      if n >= Scale / MinDecay {
        TrailDrains(start, n);
      }
    }
  }
}
