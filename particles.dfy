/**
 The ambient particle field of the hero section. Each particle takes four
 random draws, in the order its fields are written: x, y, size, duration.
 The draws are an input here, one real per call of the random source.
 */
module Particles {

  datatype Particle = Particle(id: int, x: real, y: real, size: real, duration: real)

  /** The number of particles the page asks for on each render. */
  const PageCount: nat := 50

  /** Random draws consumed by one particle. */
  const DrawsPerParticle: nat := 4

  /** A draw of the random source lies in [0, 1). */
  predicate IsUnitDraw(u: real) {
    0.0 <= u < 1.0
  }

  predicate AllUnitDraws(draws: seq<real>) {
    forall k :: 0 <= k < |draws| ==> IsUnitDraw(draws[k])
  }

  /** The half-open ranges the affine maps of unit draws land in. */
  predicate WellFormed(p: Particle) {
    && 0.0 <= p.x < 100.0
    && 0.0 <= p.y < 100.0
    && 1.0 <= p.size < 4.0
    && 10.0 <= p.duration < 30.0
  }

  /** Particle `i`, built from its own four draws. */
  function MakeParticle(i: nat, draws: seq<real>): (p: Particle)
    requires DrawsPerParticle * i + DrawsPerParticle <= |draws|
    ensures p.id == i
    ensures IsUnitDraw(draws[DrawsPerParticle * i]) && IsUnitDraw(draws[DrawsPerParticle * i + 1])
            && IsUnitDraw(draws[DrawsPerParticle * i + 2]) && IsUnitDraw(draws[DrawsPerParticle * i + 3])
            ==> WellFormed(p)
  {
    Particle(i,
             draws[DrawsPerParticle * i] * 100.0,
             draws[DrawsPerParticle * i + 1] * 100.0,
             draws[DrawsPerParticle * i + 2] * 3.0 + 1.0,
             draws[DrawsPerParticle * i + 3] * 20.0 + 10.0)
  }

  /**
   The generator: `count` particles with ids 0 .. count-1 in order; when every
   draw is a unit draw, every particle is within its ranges.
   */
  function Generate(count: nat, draws: seq<real>): (r: seq<Particle>)
    requires DrawsPerParticle * count <= |draws|
    ensures |r| == count
    ensures forall i :: 0 <= i < count ==> r[i].id == i
    ensures forall i :: 0 <= i < count ==> r[i] == MakeParticle(i, draws)
    ensures AllUnitDraws(draws) ==> forall i :: 0 <= i < count ==> WellFormed(r[i])
    decreases count
  {
    if count == 0 then [] else Generate(count - 1, draws) + [MakeParticle(count - 1, draws)]
  }

  /** Particle `i` depends on its own four draws only. */
  lemma ParticleUsesOwnDraws(count: nat, draws: seq<real>, other: seq<real>, i: nat)
    requires DrawsPerParticle * count <= |draws| && DrawsPerParticle * count <= |other|
    requires i < count
    requires draws[DrawsPerParticle * i .. DrawsPerParticle * i + DrawsPerParticle] == other[DrawsPerParticle * i .. DrawsPerParticle * i + DrawsPerParticle]
    ensures Generate(count, draws)[i] == Generate(count, other)[i]
  {
    assert draws[DrawsPerParticle * i] == draws[DrawsPerParticle * i .. DrawsPerParticle * i + DrawsPerParticle][0];
    assert draws[DrawsPerParticle * i + 1] == draws[DrawsPerParticle * i .. DrawsPerParticle * i + DrawsPerParticle][1];
    assert draws[DrawsPerParticle * i + 2] == draws[DrawsPerParticle * i .. DrawsPerParticle * i + DrawsPerParticle][2];
    assert draws[DrawsPerParticle * i + 3] == draws[DrawsPerParticle * i .. DrawsPerParticle * i + DrawsPerParticle][3];
  }

  /** The field the page renders: 50 particles, ids 0 .. 49, none repeated, all within range. */
  lemma PageField(draws: seq<real>)
    requires DrawsPerParticle * PageCount <= |draws| && AllUnitDraws(draws)
    ensures |Generate(PageCount, draws)| == 50
    ensures forall i, j :: 0 <= i < j < 50 ==> Generate(PageCount, draws)[i].id != Generate(PageCount, draws)[j].id
    ensures forall p :: p in Generate(PageCount, draws) ==> 0 <= p.id < 50 && WellFormed(p)
  {
  }
}
