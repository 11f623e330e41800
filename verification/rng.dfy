/**
 * The counter-based random stream: a (base seed, counter) pair on 64-bit
 * words, advanced by one per draw and whitened by a splitmix64-style mixer.
 * All arithmetic is `bv64`, so Rust's `wrapping_add` and `wrapping_mul`
 * are the native operations.
 */
module Rng {

  datatype CounterRng = CounterRng(baseSeed: bv64, counter: bv64)

  /** `RngFactory`: only the base seed. */
  datatype RngFactory = RngFactory(baseSeed: bv64)

  function New(baseSeed: bv64, counter: bv64): (g: CounterRng)
    ensures g.baseSeed == baseSeed && g.counter == counter
  {
    CounterRng(baseSeed, counter)
  }

  // ---------------------------------------------------------------------
  // The mixer, as three invertible stages.

  function Stage1(z: bv64): bv64 { (z ^ (z >> 30)) * 0xbf58476d1ce4e5b9 }
  function Stage2(z: bv64): bv64 { (z ^ (z >> 27)) * 0x94d049bb133111eb }
  function Stage3(z: bv64): bv64 { z ^ (z >> 31) }

  function Mix(z: bv64): bv64 {
    Stage3(Stage2(Stage1(z)))
  }

  // Inverses: an xor with a right shift by k is undone by xoring the shifts
  // by k, 2k, ... ; an odd multiplier is undone by its inverse mod 2^64.
  function UnStage1(y: bv64): bv64 {
    var a := y * 0x96de1b173f119089;
    a ^ (a >> 30) ^ (a >> 60)
  }

  function UnStage2(y: bv64): bv64 {
    var a := y * 0x319642b2d24d8ec3;
    a ^ (a >> 27) ^ (a >> 54)
  }

  function UnStage3(y: bv64): bv64 {
    y ^ (y >> 31) ^ (y >> 62)
  }

  function Unmix(y: bv64): bv64 {
    UnStage1(UnStage2(UnStage3(y)))
  }

  lemma UnStage1Expanded(z: bv64)
    ensures UnStage1((z ^ (z >> 30)) * 0xbf58476d1ce4e5b9) == z
  {
  }

  lemma UnStage2Expanded(z: bv64)
    ensures UnStage2((z ^ (z >> 27)) * 0x94d049bb133111eb) == z
  {
  }

  lemma UnStage3Expanded(z: bv64)
    ensures UnStage3(z ^ (z >> 31)) == z
  {
  }

  lemma UnStage1Stage1(z: bv64)
    ensures UnStage1(Stage1(z)) == z
  {
    UnStage1Expanded(z);
  }

  lemma UnStage2Stage2(z: bv64)
    ensures UnStage2(Stage2(z)) == z
  {
    UnStage2Expanded(z);
  }

  lemma UnStage3Stage3(z: bv64)
    ensures UnStage3(Stage3(z)) == z
  {
    UnStage3Expanded(z);
  }

  /** `Unmix` is a left inverse of `Mix`, so the mixer is injective. */
  lemma UnmixMix(z: bv64)
    ensures Unmix(Mix(z)) == z
  {
    UnStage3Stage3(Stage2(Stage1(z)));
    UnStage2Stage2(Stage1(z));
    UnStage1Stage1(z);
  }

  lemma MixInjective(a: bv64, b: bv64)
    ensures Mix(a) == Mix(b) <==> a == b
  {
    UnmixMix(a);
    UnmixMix(b);
  }

  // ---------------------------------------------------------------------
  // Drawing.

  /** The counter step of `next_u64`: a wrapping increment. */
  function Bump(g: CounterRng): (h: CounterRng)
    ensures h.baseSeed == g.baseSeed && h.counter == g.counter + 1
  {
    CounterRng(g.baseSeed, g.counter + 1)
  }

  /** The mixer input of a state: `base_seed + counter`, wrapping. */
  function Input(h: CounterRng): bv64 {
    h.baseSeed + h.counter
  }

  /** The word a generator emits from its (already bumped) state; `Unmix`
      recovers the mixer input from it. */
  function Output(h: CounterRng): (w: bv64)
    ensures Unmix(w) == Input(h)
  {
    UnmixMix(Input(h));
    Mix(Input(h))
  }

  /** `next_u64`: bump the counter, then emit.  Result: (generator after
      the draw, drawn word). */
  function NextU64(g: CounterRng): (r: (CounterRng, bv64))
    ensures r.0 == Bump(g) && r.1 == Output(r.0)
  {
    var g' := Bump(g);
    (g', Output(g'))
  }

  const TwoPow53: real := 9007199254740992.0

  /** The top 53 bits of a word, as the integer `uniform` scales. */
  function Top53(word: bv64): (n: nat)
    ensures n < 0x20_0000_0000_0000
  {
    var t := word >> 11;
    assert t < 0x20_0000_0000_0000;
    t as int
  }

  /** A word mapped onto [0, 1) with 53 bits of resolution (the scaling by
      2^-53 is exact in binary64). */
  function UnitInterval(word: bv64): (u: real)
    ensures 0.0 <= u < 1.0
    ensures u * TwoPow53 == Top53(word) as real
  {
    Top53(word) as real / TwoPow53
  }

  /** `uniform`: one draw mapped onto [0, 1). */
  function Uniform(g: CounterRng): (r: (CounterRng, real))
    ensures r.0 == NextU64(g).0
    ensures 0.0 <= r.1 < 1.0
  {
    var (g', word) := NextU64(g);
    (g', UnitInterval(word))
  }

  /** The generator after `k` draws. */
  function Advance(g: CounterRng, k: nat): (r: CounterRng)
    ensures r.baseSeed == g.baseSeed
  {
    if k == 0 then g else Bump(Advance(g, k - 1))
  }

  /** The first `k` words drawn from `g`, one `next_u64` call each; the
      j-th is emitted by the generator that has been bumped j+1 times. */
  function Draws(g: CounterRng, k: nat): (out: seq<bv64>)
    ensures |out| == k
    ensures forall j :: 0 <= j < k ==> out[j] == Output(Advance(g, j + 1))
    decreases k
  {
    if k == 0 then []
    else Draws(g, k - 1) + [NextU64(Advance(g, k - 1)).1]
  }

  // ---------------------------------------------------------------------
  // The factory.

  function CreateCounterRng(f: RngFactory, pathId: bv64): (g: CounterRng)
    ensures g.baseSeed == f.baseSeed && g.counter == pathId
  {
    New(f.baseSeed, pathId)
  }

  /** `create_std_rng`'s seed, `base_seed + path_id` (wrapping): the mixer
      input the counter generator of the same path starts from. */
  function StdSeed(f: RngFactory, pathId: bv64): bv64 {
    Input(CreateCounterRng(f, pathId))
  }

  /** Advancing path p's generator by k+1 draws gives path p+1's generator
      advanced by k. */
  lemma {:induction false} ShiftedAdvance(f: RngFactory, p: bv64, k: nat)
    ensures Advance(CreateCounterRng(f, p), k + 1) == Advance(CreateCounterRng(f, p + 1), k)
  {
    if k > 0 {
      ShiftedAdvance(f, p, k - 1);
    }
  }

  /** Path p+1's stream is path p's stream without its first word. */
  lemma {:induction false} NeighbourPathStreams(f: RngFactory, p: bv64, k: nat)
    ensures Draws(CreateCounterRng(f, p + 1), k) == Draws(CreateCounterRng(f, p), k + 1)[1..]
  {
    var long := Draws(CreateCounterRng(f, p), k + 1);
    var short := Draws(CreateCounterRng(f, p + 1), k);
    forall j | 0 <= j < k
      ensures short[j] == long[j + 1]
    {
      ShiftedAdvance(f, p, j + 1);
    }
  }

  /** Equal words have equal preimages under the mixer. */
  lemma PreimagesDiffer(w1: bv64, w2: bv64)
    requires Unmix(w1) != Unmix(w2)
    ensures w1 != w2
  {
  }

  /** States whose mixer inputs differ emit different words. */
  lemma OutputsDiffer(g: CounterRng, h: CounterRng)
    requires Input(g) != Input(h)
    ensures Output(g) != Output(h)
  {
    PreimagesDiffer(Output(g), Output(h));
  }

  lemma DrawsHead(g: CounterRng, k: nat)
    requires k >= 1
    ensures Draws(g, k)[0] == Output(Bump(g))
  {
    assert Advance(g, 1) == Bump(g);
  }

  /** Two generators whose first mixer inputs differ already differ in their
      first word, so their streams differ. */
  lemma DistinctInputsDistinctStreams(g: CounterRng, h: CounterRng, k: nat)
    requires Input(Bump(g)) != Input(Bump(h)) && k >= 1
    ensures Draws(g, k) != Draws(h, k)
  {
    DrawsHead(g, k);
    DrawsHead(h, k);
    OutputsDiffer(Bump(g), Bump(h));
  }

  /** One bump always changes the mixer input. */
  lemma BumpChangesInput(g: CounterRng)
    ensures Input(Bump(g)) != Input(g)
  {
  }

  /** Adjacent path ids (the pair 0 and 1 of the module's own test among
      them) draw different streams. */
  lemma AdjacentPathsDistinctStreams(f: RngFactory, p: bv64, k: nat)
    requires k >= 1
    ensures Draws(CreateCounterRng(f, p), k) != Draws(CreateCounterRng(f, p + 1), k)
  {
    var g := CreateCounterRng(f, p);
    ShiftedAdvance(f, p, 0);
    assert Advance(g, 1) == Bump(g);
    BumpChangesInput(Bump(g));
    DistinctInputsDistinctStreams(g, CreateCounterRng(f, p + 1), k);
  }
}
