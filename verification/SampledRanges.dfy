/** The sampling plan `sampled_ranges`: head, tail and pseudo-random masked stripes. */
module SampledRanges {
  import opened Common
  import opened Bits

  const MIB: nat := 1048576

  datatype VerifyPlan = VerifyPlan(totalBytes: nat, samplePct: nat, stripeSeed: nat)

  /** `VerifyPlan::sampled`: the percentage is clamped, the seed is the size. */
  function Sampled(totalBytes: nat, pct: nat): VerifyPlan {
    VerifyPlan(totalBytes, Min(Max(pct, 1), 100), totalBytes)
  }

  datatype Range = Range(offset: nat, length: nat)

  /** `total * pct / 100` on `u64`; the product wraps. */
  function Target(p: VerifyPlan): nat {
    p.totalBytes * p.samplePct % U64_LIMIT / 100
  }

  function Stripe(p: VerifyPlan): (r: nat)
    ensures 1 <= r <= 1048576
    ensures Target(p) > 0 ==> r <= Target(p)
    ensures r < Target(p) ==> r == 1048576
    ensures Target(p) == 0 ==> r == 1
  {
    Min(MIB, Max(Target(p), 1))
  }

  function Lengths(ranges: seq<Range>): nat {
    if ranges == [] then 0 else ranges[0].length + Lengths(ranges[1..])
  }

  /** The linear congruential step, on `u64`. */
  function Lcg(state: nat): nat {
    (state * 1664525 + 1013904223) % U64_LIMIT
  }

  function OrOne(n: nat): nat {
    if n % 2 == 0 then n + 1 else n
  }

  predicate InBounds(r: Range, total: nat) {
    0 < r.length && r.offset + r.length <= total
  }

  ghost predicate SortedByOffset(ranges: seq<Range>) {
    forall i, j | 0 <= i < j < |ranges| :: ranges[i].offset <= ranges[j].offset
  }

  /** `sort_by_key` on the offset; equal offsets keep their order. */
  function SortRanges(ranges: seq<Range>): seq<Range> {
    if ranges == [] then [] else InsertRange(ranges[0], SortRanges(ranges[1..]))
  }

  function InsertRange(x: Range, s: seq<Range>): (r: seq<Range>)
    ensures |r| == |s| + 1
  {
    if s == [] then [x]
    else if x.offset <= s[0].offset then [x] + s
    else [s[0]] + InsertRange(x, s[1..])
  }

  lemma {:induction false} InsertKeeps(x: Range, s: seq<Range>)
    ensures multiset(InsertRange(x, s)) == multiset(s) + multiset{x}
    ensures Lengths(InsertRange(x, s)) == x.length + Lengths(s)
  {
    if s != [] {
      assert s == [s[0]] + s[1..];
      if x.offset > s[0].offset {
        InsertKeeps(x, s[1..]);
        assert ([s[0]] + InsertRange(x, s[1..]))[1..] == InsertRange(x, s[1..]);
      } else {
        assert ([x] + s)[1..] == s;
      }
    }
  }

  /** `lo` is not above any offset. */
  ghost predicate AllFrom(lo: nat, ranges: seq<Range>) {
    forall i | 0 <= i < |ranges| :: lo <= ranges[i].offset
  }

  lemma {:induction false} InsertSorted(x: Range, s: seq<Range>, lo: nat)
    requires SortedByOffset(s) && AllFrom(lo, s) && lo <= x.offset
    ensures SortedByOffset(InsertRange(x, s)) && AllFrom(lo, InsertRange(x, s))
  {
    if s != [] && x.offset > s[0].offset {
      InsertSorted(x, s[1..], s[0].offset);
    }
  }

  /** Sorting orders the ranges and changes neither which ranges there are nor their summed length. */
  lemma {:induction false} SortRangesSound(ranges: seq<Range>)
    ensures SortedByOffset(SortRanges(ranges)) && multiset(SortRanges(ranges)) == multiset(ranges)
    ensures Lengths(SortRanges(ranges)) == Lengths(ranges)
  {
    hide InsertRange;
    if ranges != [] {
      SortRangesSound(ranges[1..]);
      InsertKeeps(ranges[0], SortRanges(ranges[1..]));
      InsertSorted(ranges[0], SortRanges(ranges[1..]), 0);
      assert SortRanges(ranges) == InsertRange(ranges[0], SortRanges(ranges[1..]));
      assert ranges == [ranges[0]] + ranges[1..];
    }
  }

  // ----- The plan

  /** Always the start, and the end when the two do not meet. */
  function HeadTail(p: VerifyPlan): (r: seq<Range>)
    requires p.totalBytes > 0
    ensures Lengths(r) <= 2 * Stripe(p)
    ensures forall i | 0 <= i < |r| :: InBounds(r[i], p.totalBytes)
  {
    var head := [Range(0, Min(Stripe(p), p.totalBytes))];
    if p.totalBytes > 2 * Stripe(p) then
      LengthsAppend(head, Range(p.totalBytes - Stripe(p), Stripe(p)));
      head + [Range(p.totalBytes - Stripe(p), Stripe(p))]
    else head
  }

  /** The stripe a generator state picks. */
  function Filler(p: VerifyPlan, state: nat): (r: Range)
    requires p.totalBytes > 0
    ensures InBounds(r, p.totalBytes) && r.length <= Stripe(p)
  {
    var aligned := AndNot(state % p.totalBytes, Stripe(p) - 1);
    Range(aligned, Min(Stripe(p), p.totalBytes - aligned))
  }

  /** The stripes added until the target is covered. */
  function Fill(p: VerifyPlan, state: nat, covered: nat): seq<Range>
    requires p.totalBytes > 0
    decreases Target(p) - covered
  {
    if covered >= Target(p) then []
    else
      var s := Lcg(state);
      [Filler(p, s)] + Fill(p, s, covered + Filler(p, s).length)
  }

  /** The stripes never fall short of the target, and pass it by less than one stripe. */
  lemma {:induction false} FillCovers(p: VerifyPlan, state: nat, covered: nat)
    requires p.totalBytes > 0
    ensures Target(p) <= covered + Lengths(Fill(p, state, covered)) <= Max(covered, Target(p) + Stripe(p) - 1)
    ensures forall i | 0 <= i < |Fill(p, state, covered)| :: InBounds(Fill(p, state, covered)[i], p.totalBytes)
    decreases Target(p) - covered
  {
    hide Target, Lcg, Filler, Stripe;
    if covered < Target(p) {
      var s := Lcg(state);
      FillCovers(p, s, covered + Filler(p, s).length);
      FillStep(p, state, covered);
      assert Fill(p, state, covered)[1..] == Fill(p, s, covered + Filler(p, s).length);
    }
  }

  /** The stripes a plan adds to its head and tail. */
  function Fillers(p: VerifyPlan): seq<Range>
    requires p.totalBytes > 0
  {
    Fill(p, OrOne(p.stripeSeed), Lengths(HeadTail(p)))
  }

  function SamplePlan(p: VerifyPlan): seq<Range> {
    if p.totalBytes == 0 || p.samplePct == 0 then []
    else SortRanges(HeadTail(p) + Fillers(p))
  }

  lemma {:induction false} LengthsAppend(a: seq<Range>, r: Range)
    ensures Lengths(a + [r]) == Lengths(a) + r.length
  {
    if a == [] {
      assert a + [r] == [r] && [r][1..] == [];
    } else {
      LengthsAppend(a[1..], r);
      assert (a + [r])[1..] == a[1..] + [r];
    }
  }

  lemma {:induction false} LengthsConcat(a: seq<Range>, b: seq<Range>)
    ensures Lengths(a + b) == Lengths(a) + Lengths(b)
  {
    if a == [] {
      assert a + b == b;
    } else {
      LengthsConcat(a[1..], b);
      assert (a + b)[1..] == a[1..] + b;
    }
  }

  /** `sampled_ranges`: the loop ends for every plan and every seed. */
  method SampledRanges(p: VerifyPlan) returns (ranges: seq<Range>)
    ensures ranges == SamplePlan(p)
  {
    if p.totalBytes == 0 || p.samplePct == 0 {
      return [];
    }
    var target := Target(p);
    var stripe := Min(MIB, Max(target, 1));
    var headLen := Min(stripe, p.totalBytes);
    ranges := [Range(0, headLen)];
    if p.totalBytes > 2 * stripe {
      ranges := ranges + [Range(p.totalBytes - stripe, stripe)];
    }
    assert ranges == HeadTail(p);
    ranges := FillToTarget(p, ranges);
    ranges := SortRanges(ranges);
  }

  /** The loop of `sampled_ranges`. */
  method FillToTarget(p: VerifyPlan, head: seq<Range>) returns (ranges: seq<Range>)
    requires p.totalBytes > 0
    ensures ranges == head + Fill(p, OrOne(p.stripeSeed), Lengths(head))
  {
    hide AndNot, Target, Lcg, Fill, Filler;
    var target := Target(p);
    var stripe := Stripe(p);
    ranges := head;
    var covered: nat := Lengths(ranges);
    var state: nat := OrOne(p.stripeSeed);
    ghost var plan := ranges + Fill(p, state, covered);
    while covered < target
      invariant plan == ranges + Fill(p, state, covered)
      decreases target - covered
    {
      FillStep(p, state, covered);
      state := Lcg(state);
      var offset := state % Max(p.totalBytes, 1);
      var aligned := AndNot(offset, stripe - 1);
      FillerParts(p, state);
      var len := Min(stripe, p.totalBytes - aligned);
      if len == 0 {
        // A masked offset stays below the total: there is always a byte to sample.
        assert false;
      }
      ghost var rest := Fill(p, state, covered + len);
      assert ranges + ([Range(aligned, len)] + rest) == ranges + [Range(aligned, len)] + rest;
      ranges := ranges + [Range(aligned, len)];
      covered := covered + len;
    }
    FillStep(p, state, covered);
    assert ranges + [] == ranges;
  }

  lemma FillStep(p: VerifyPlan, state: nat, covered: nat)
    requires p.totalBytes > 0
    ensures covered >= Target(p) ==> Fill(p, state, covered) == []
    ensures covered < Target(p) ==>
              Fill(p, state, covered)
              == [Filler(p, Lcg(state))] + Fill(p, Lcg(state), covered + Filler(p, Lcg(state)).length)
  {
    hide Target, Lcg, Filler;
  }

  lemma FillerParts(p: VerifyPlan, state: nat)
    requires p.totalBytes > 0
    ensures var aligned := AndNot(state % Max(p.totalBytes, 1), Stripe(p) - 1);
            aligned < p.totalBytes && Filler(p, state) == Range(aligned, Min(Stripe(p), p.totalBytes - aligned))
  {
    hide Stripe;
  }

  /** What every plan guarantees, for any percentage, seed and size. */
  lemma PlanGuarantees(p: VerifyPlan)
    requires p.totalBytes > 0 && p.samplePct > 0
    ensures var plan := SamplePlan(p);
            (&& SortedByOffset(plan)
             && (forall r | r in plan :: InBounds(r, p.totalBytes))
             && Range(0, Min(Stripe(p), p.totalBytes)) in plan
             && (p.totalBytes > 2 * Stripe(p) ==> Range(p.totalBytes - Stripe(p), Stripe(p)) in plan)
             && Target(p) <= Lengths(plan) <= Max(2 * Stripe(p), Target(p) + Stripe(p) - 1))
  {
    hide Fill, SortRanges, HeadTail, Filler;
    var head, fill := HeadTail(p), Fillers(p);
    FillCovers(p, OrOne(p.stripeSeed), Lengths(head));
    SortRangesSound(head + fill);
    LengthsConcat(head, fill);
    SameMembers(SortRanges(head + fill), head + fill);
    HeadTailParts(p);
  }

  lemma HeadTailParts(p: VerifyPlan)
    requires p.totalBytes > 0
    ensures Range(0, Min(Stripe(p), p.totalBytes)) in HeadTail(p)
    ensures p.totalBytes > 2 * Stripe(p) ==> Range(p.totalBytes - Stripe(p), Stripe(p)) in HeadTail(p)
  {
    assert HeadTail(p)[0] in HeadTail(p);
    if p.totalBytes > 2 * Stripe(p) {
      assert HeadTail(p)[1] in HeadTail(p);
    }
  }

  /** Without wrap-around the target is the stated share; up to 100 percent it stays within the device in any case. */
  lemma TargetIsShare(p: VerifyPlan)
    requires p.samplePct <= 100
    ensures Target(p) <= p.totalBytes
    ensures p.totalBytes * p.samplePct < U64_LIMIT ==> Target(p) == p.totalBytes * p.samplePct / 100
  {
    ProductMonotone(p.totalBytes, p.samplePct, 100);
    var product := p.totalBytes * p.samplePct;
    assert product % U64_LIMIT <= product && (product < U64_LIMIT ==> product % U64_LIMIT == product);
  }

  lemma ProductMonotone(a: nat, b: nat, c: nat)
    requires b <= c
    ensures a * b <= a * c
  {
  }

  // ----- Which bytes are sampled

  predicate Within(r: Range, x: nat) {
    r.offset <= x < r.offset + r.length
  }

  /** Some range of the plan contains the byte at `x`. */
  ghost predicate Samples(plan: seq<Range>, x: nat) {
    exists r :: r in plan && Within(r, x)
  }

  /** The generator's state after `k` steps. */
  function Draw(state: nat, k: nat): nat
    decreases k
  {
    if k == 0 then state else Draw(Lcg(state), k - 1)
  }

  lemma {:induction false} FillIsDrawn(p: VerifyPlan, state: nat, covered: nat, k: nat)
    requires p.totalBytes > 0 && k < |Fill(p, state, covered)|
    ensures Fill(p, state, covered)[k] == Filler(p, Draw(state, k + 1))
    decreases k
  {
    hide Target, Lcg, Filler;
    assert Draw(state, k + 1) == Draw(Lcg(state), k);
    if k > 0 {
      FillIsDrawn(p, Lcg(state), covered + Filler(p, Lcg(state)).length, k - 1);
    }
  }

  /** Filler `k` of a plan is the one of draw `k + 1`. */
  lemma FillerIsDrawn(p: VerifyPlan, k: nat)
    requires p.totalBytes > 0 && k < |Fillers(p)|
    ensures Fillers(p)[k] == Filler(p, Draw(OrOne(p.stripeSeed), k + 1))
  {
    FillIsDrawn(p, OrOne(p.stripeSeed), Lengths(HeadTail(p)), k);
  }

  lemma HeadTailLengths(p: VerifyPlan)
    requires p.totalBytes > 0
    ensures Lengths(HeadTail(p)) >= Min(Stripe(p), p.totalBytes)
    ensures Stripe(p) < p.totalBytes <= 2 * Stripe(p) ==> Lengths(HeadTail(p)) == Stripe(p)
  {
    hide Target;
    var head := HeadTail(p);
    assert Lengths(head) == head[0].length + Lengths(head[1..]);
  }

  /** A target of at most 1 MiB that the device can hold is met by the head alone. */
  lemma HeadMeetsSmallTarget(p: VerifyPlan)
    requires p.totalBytes > 0 && Target(p) <= MIB && Target(p) <= p.totalBytes
    ensures Fillers(p) == []
  {
    hide Fill, Target;
    FillStep(p, OrOne(p.stripeSeed), Lengths(HeadTail(p)));
    HeadTailLengths(p);
  }

  lemma MibIsPow2()
    ensures IsPow2(MIB)
  {
    assert Pow2(4) == 16 && Pow2(8) == 16 * Pow2(4) && Pow2(12) == 16 * Pow2(8);
    assert Pow2(16) == 16 * Pow2(12) && Pow2(20) == 16 * Pow2(16);
  }

  /** Block `q` of 1 MiB, cut at the end of the device. */
  function Block(p: VerifyPlan, q: nat): Range {
    Range(q * MIB, Max(0, Min(MIB, p.totalBytes - q * MIB)))
  }

  /** With 1 MiB stripes a filler is the whole block its state falls into, cut at the end of the device. */
  lemma FillerIsBlock(p: VerifyPlan, s: nat, x: nat)
    requires x < p.totalBytes && Target(p) >= MIB
    ensures Filler(p, s) == Block(p, s % p.totalBytes / MIB)
    ensures Within(Filler(p, s), x) <==> s % p.totalBytes / MIB == x / MIB
  {
    hide Target, AndNot;
    var a := s % p.totalBytes;
    MaskIsBlock(a);
    assert Filler(p, s) == Range(AndNot(a, MIB - 1), Min(MIB, p.totalBytes - AndNot(a, MIB - 1)));
    hide Filler, Stripe;
    InBlock(a / MIB, x, p.totalBytes);
  }

  lemma MaskIsBlock(a: nat)
    ensures AndNot(a, MIB - 1) == a / MIB * MIB
  {
    hide AndNot;
    MibIsPow2();
    MaskRoundsDown(a, MIB);
  }

  lemma InBlock(q: nat, x: nat, total: nat)
    requires x < total
    ensures q * MIB <= x < q * MIB + Min(MIB, total - q * MIB) <==> q == x / MIB
  {
  }

  /** Draw `k + 1` falls into the block of 1 MiB that holds the byte at `x`. */
  predicate DrawsBlock(p: VerifyPlan, x: nat, k: nat)
    requires p.totalBytes > 0
  {
    Draw(OrOne(p.stripeSeed), k + 1) % p.totalBytes / MIB == x / MIB
  }

  /** Some filler of the plan is drawn in the block of the byte at `x`. */
  ghost predicate BlockDrawn(p: VerifyPlan, x: nat)
    requires p.totalBytes > 0
  {
    exists k :: 0 <= k < |Fillers(p)| && DrawsBlock(p, x, k)
  }

  /**
   * Exactly which bytes a plan samples, for any percentage and seed: the first stripe, past two stripes
   * the last one, and the blocks the generator draws.
   */
  lemma SampledBytes(p: VerifyPlan, x: nat)
    requires p.samplePct > 0 && x < p.totalBytes
    ensures Samples(SamplePlan(p), x)
       <==> || x < Stripe(p)
            || (p.totalBytes > 2 * Stripe(p) && x >= p.totalBytes - Stripe(p))
            || BlockDrawn(p, x)
  {
    hide SortRanges, Fillers, Lcg, Draw;
    var ranges := HeadTail(p) + Fillers(p);
    SortRangesSound(ranges);
    SameMembers(SamplePlan(p), ranges);
    HeadTailSamples(p, x);
    if x >= Stripe(p) {
      FillersSample(p, x);
    }
    assert Samples(SamplePlan(p), x) <==> Samples(HeadTail(p), x) || Samples(Fillers(p), x) by {
      hide HeadTail, Within, Stripe;
    }
  }

  lemma HeadTailSamples(p: VerifyPlan, x: nat)
    requires x < p.totalBytes
    ensures Samples(HeadTail(p), x)
       <==> x < Stripe(p) || (p.totalBytes > 2 * Stripe(p) && x >= p.totalBytes - Stripe(p))
  {
    hide Target;
    HeadTailParts(p);
    assert Within(HeadTail(p)[0], x) <==> x < Stripe(p);
  }

  lemma FillersSample(p: VerifyPlan, x: nat)
    requires x < p.totalBytes && x >= Stripe(p)
    ensures Samples(Fillers(p), x) <==> BlockDrawn(p, x)
  {
    hide Fillers, Filler, Lcg, Draw, Within;
    if Target(p) < MIB {
      HeadMeetsSmallTarget(p);
    } else {
      forall k | 0 <= k < |Fillers(p)|
        ensures Within(Fillers(p)[k], x) <==> DrawsBlock(p, x, k)
      {
        FillerIsDrawn(p, k);
        FillerIsBlock(p, Draw(OrOne(p.stripeSeed), k + 1), x);
      }
      hide DrawsBlock;
      if k :| 0 <= k < |Fillers(p)| && DrawsBlock(p, x, k) {
        assert Fillers(p)[k] in Fillers(p);
      }
    }
  }

  /** `states` starts at the seed with its lowest bit set and follows the generator. */
  ghost predicate FollowsGenerator(states: seq<nat>, seed: nat) {
    && states != [] && states[0] % 2 == 1 && (states[0] == seed || states[0] == seed + 1)
    && forall i | 0 <= i < |states| - 1 ::
         states[i + 1] == (states[i] * 1664525 + 1013904223) % 0x1_0000_0000_0000_0000
  }

  lemma {:induction false} DrawIsState(states: seq<nat>, k: nat)
    requires k < |states|
    requires forall i | 0 <= i < |states| - 1 ::
               states[i + 1] == (states[i] * 1664525 + 1013904223) % 0x1_0000_0000_0000_0000
    ensures Draw(states[0], k) == states[k]
    decreases k
  {
    if k > 0 {
      assert states[1] == Lcg(states[0]);
      DrawIsState(states[1..], k - 1);
    }
  }

  /** How the seed enters a plan: filler `k` is the block of 1 MiB that state `k + 1` modulo the size falls into. */
  lemma FillersFollowGenerator(p: VerifyPlan, states: seq<nat>, k: nat)
    requires p.totalBytes > 0 && Target(p) >= MIB
    requires FollowsGenerator(states, p.stripeSeed) && k + 1 < |states| && k < |Fillers(p)|
    ensures Fillers(p)[k] == Block(p, states[k + 1] % p.totalBytes / MIB)
  {
    hide Fillers, Target, Draw, Lcg;
    DrawIsState(states, k + 1);
    FillerIsDrawn(p, k);
    FillerIsBlock(p, states[k + 1], 0);
  }

  /** The constructor takes the size as the seed, and of 1 to 100 the percentage nearest to `pct`. */
  lemma ConstructorSets(totalBytes: nat, pct: nat, other: nat)
    requires 1 <= other <= 100
    ensures var p := Sampled(totalBytes, pct);
            (&& p.totalBytes == totalBytes == p.stripeSeed && 1 <= p.samplePct <= 100
             && Max(pct - p.samplePct, p.samplePct - pct) <= Max(pct - other, other - pct))
  {
  }

  // ----- The end of the device

  /** Draw `k + 1` does not fall into the first MiB. */
  predicate PastFirst(p: VerifyPlan, state: nat, k: nat)
    requires p.totalBytes > 0
  {
    Draw(state, k + 1) % p.totalBytes >= MIB
  }

  /** On a device of up to 2 MiB the draws go on until one is past the first MiB or the target is met. */
  lemma {:induction false} FillReachesEnd(p: VerifyPlan, state: nat, covered: nat)
    requires MIB < p.totalBytes <= 2 * MIB && Target(p) >= MIB
    ensures (exists k :: 0 <= k < |Fill(p, state, covered)| && PastFirst(p, state, k))
       <==> exists k: nat :: covered + k * MIB < Target(p) && PastFirst(p, state, k)
    decreases Target(p) - covered
  {
    hide Target, Lcg, Filler;
    var s := Lcg(state);
    var next := covered + Filler(p, s).length;
    FillStep(p, state, covered);
    if covered < Target(p) {
      assert Draw(state, 1) == s;
      forall k: nat ensures PastFirst(p, state, k + 1) == PastFirst(p, s, k) {
        assert Draw(state, k + 2) == Draw(s, k + 1);
      }
      if PastFirst(p, state, 0) {
        assert covered + 0 * MIB < Target(p);
      } else {
        FillerLength(p, s);
        FillReachesEnd(p, s, next);
        if k: nat :| k < |Fill(p, state, covered)| && PastFirst(p, state, k) {
          assert PastFirst(p, s, k - 1);
          var j: nat :| next + j * MIB < Target(p) && PastFirst(p, s, j);
          assert covered + (j + 1) * MIB < Target(p) && PastFirst(p, state, j + 1);
        }
        if k: nat :| covered + k * MIB < Target(p) && PastFirst(p, state, k) {
          assert next + (k - 1) * MIB < Target(p) && PastFirst(p, s, k - 1);
          var j: nat :| j < |Fill(p, s, next)| && PastFirst(p, s, j);
          assert PastFirst(p, state, j + 1);
        }
      }
    }
  }

  lemma FillerLength(p: VerifyPlan, s: nat)
    requires MIB < p.totalBytes && Target(p) >= MIB && s % p.totalBytes < MIB
    ensures Filler(p, s).length == MIB
  {
    FillerIsBlock(p, s, 0);
  }

  /** Before the target is met, a draw falls past the first MiB. */
  ghost predicate EndDrawn(p: VerifyPlan)
    requires p.totalBytes > 0
  {
    exists k: nat :: MIB + k * MIB < Target(p) && PastFirst(p, OrOne(p.stripeSeed), k)
  }

  /**
   * When the last byte is sampled: one stripe covers the device, or the tail stripe is added, or a draw
   * reaches it. Up to 100 percent only the first draw can.
   */
  lemma EndSampled(p: VerifyPlan)
    requires p.totalBytes > 0 && p.samplePct > 0
    ensures Samples(SamplePlan(p), p.totalBytes - 1)
       <==> p.totalBytes <= Stripe(p) || p.totalBytes > 2 * Stripe(p) || EndDrawn(p)
    ensures p.samplePct <= 100 ==>
              (Samples(SamplePlan(p), p.totalBytes - 1)
               <==> || p.totalBytes <= Stripe(p) || p.totalBytes > 2 * Stripe(p)
                    || (Target(p) > MIB && Lcg(OrOne(p.stripeSeed)) % p.totalBytes >= MIB))
  {
    hide SamplePlan, Fillers, Lcg, Target;
    SampledBytes(p, p.totalBytes - 1);
    if Stripe(p) < p.totalBytes <= 2 * Stripe(p) {
      if Target(p) <= MIB {
        HeadMeetsSmallTarget(p);
      } else {
        EndBlockDrawn(p);
        OneDraw(p);
      }
    }
  }

  lemma EndBlockDrawn(p: VerifyPlan)
    requires MIB < p.totalBytes <= 2 * MIB && Target(p) > MIB
    ensures BlockDrawn(p, p.totalBytes - 1) <==> EndDrawn(p)
  {
    hide Target, Fill, Draw;
    HeadTailLengths(p);
    FillReachesEnd(p, OrOne(p.stripeSeed), MIB);
    assert Fillers(p) == Fill(p, OrOne(p.stripeSeed), MIB);
    forall k: nat ensures PastFirst(p, OrOne(p.stripeSeed), k) == DrawsBlock(p, p.totalBytes - 1, k) {
      assert (p.totalBytes - 1) / MIB == 1;
    }
    hide PastFirst, DrawsBlock;
    if BlockDrawn(p, p.totalBytes - 1) {
      var k :| 0 <= k < |Fillers(p)| && DrawsBlock(p, p.totalBytes - 1, k);
      assert PastFirst(p, OrOne(p.stripeSeed), k);
      assert EndDrawn(p);
    }
    if EndDrawn(p) {
      var k: nat :| MIB + k * MIB < Target(p) && PastFirst(p, OrOne(p.stripeSeed), k);
      assert exists k :: 0 <= k < |Fillers(p)| && PastFirst(p, OrOne(p.stripeSeed), k);
      var j :| 0 <= j < |Fillers(p)| && PastFirst(p, OrOne(p.stripeSeed), j);
      assert DrawsBlock(p, p.totalBytes - 1, j);
    }
  }

  lemma OneDraw(p: VerifyPlan)
    requires MIB < p.totalBytes <= 2 * MIB && MIB < Target(p)
    ensures p.samplePct <= 100 ==> (EndDrawn(p) <==> Lcg(OrOne(p.stripeSeed)) % p.totalBytes >= MIB)
  {
    hide Lcg, Target;
    if p.samplePct <= 100 {
      TargetIsShare(p);
      var seed := OrOne(p.stripeSeed);
      assert Draw(seed, 1) == Lcg(seed);
      if PastFirst(p, seed, 0) {
        assert MIB + 0 * MIB < Target(p);
      }
    }
  }

  /** So the end of the device is not always sampled: 60 percent of 10 bytes is the first 6 bytes. */
  lemma EndNotAlwaysSampled(seed: nat)
    ensures !Samples(SamplePlan(VerifyPlan(10, 60, seed)), 9)
  {
    var p := VerifyPlan(10, 60, seed);
    assert Target(p) == 6 && Stripe(p) == 6;
    EndSampled(p);
  }

  lemma TwoMibPlan()
    ensures var p := Sampled(2 * MIB, 100);
            HeadTail(p) == [Range(0, MIB)] && Fillers(p) == [Range(0, MIB)] && Stripe(p) == MIB
  {
    var p := Sampled(2 * MIB, 100);
    assert p == VerifyPlan(2 * MIB, 100, 2 * MIB) && Target(p) == 2 * MIB;
    assert Lcg(OrOne(2 * MIB)) % (2 * MIB) == 547180;
    hide Target, Lcg, OrOne, HeadTail, Fillers;
    OneFiller(p, Lcg(OrOne(p.stripeSeed)));
  }

  /** Nor does 100 percent sample every byte: of 2 MiB it reads the first MiB twice and the second never. */
  lemma FullShareReadsHalf(x: nat)
    requires x < 2 * MIB
    ensures var plan := SamplePlan(Sampled(2 * MIB, 100));
            Lengths(plan) == 2 * MIB && (Samples(plan, x) <==> x < MIB)
  {
    hide Target, Lcg, OrOne, HeadTail, Fillers, Stripe, SortRanges;
    TwoMibPlan();
    var twice := [Range(0, MIB)] + [Range(0, MIB)];
    LengthsConcat([Range(0, MIB)], [Range(0, MIB)]);
    SortRangesSound(twice);
    SameMembers(SortRanges(twice), twice);
    assert Range(0, MIB) in twice;
  }

  lemma OneFiller(p: VerifyPlan, s: nat)
    requires MIB < p.totalBytes <= 2 * MIB && MIB < Target(p) <= 2 * MIB
    requires s == Lcg(OrOne(p.stripeSeed)) && s % p.totalBytes < MIB
    ensures HeadTail(p) == [Range(0, MIB)] && Fillers(p) == [Range(0, MIB)]
  {
    hide Target, Lcg, Fill;
    HeadTailLengths(p);
    FillerIsBlock(p, s, 0);
    FillStep(p, OrOne(p.stripeSeed), MIB);
    FillStep(p, s, 2 * MIB);
  }

  // ----- Overlap

  /**
   * Up to 100 percent, or with a target of at least 1 MiB, fillers start at multiples of 1 MiB, and any two
   * of them are the same range or share no byte.
   */
  lemma FillersAlign(p: VerifyPlan)
    requires p.totalBytes > 0 && (p.samplePct <= 100 || Target(p) >= MIB)
    ensures forall r | r in Fillers(p) :: r.offset % MIB == 0 && r.length <= MIB
    ensures forall r, q | r in Fillers(p) && q in Fillers(p) :: r == q || Apart(r.offset, q.offset, MIB)
  {
    hide Fillers, Target;
    if Target(p) < MIB {
      TargetIsShare(p);
      HeadMeetsSmallTarget(p);
    } else {
      forall r | r in Fillers(p) ensures r == Block(p, r.offset / MIB) {
        FillerOfDraw(p, r);
      }
      forall r, q | r in Fillers(p) && q in Fillers(p) ensures r == q || Apart(r.offset, q.offset, MIB) {
        MultiplesApart(r.offset / MIB, q.offset / MIB, MIB);
      }
    }
  }

  lemma FillerOfDraw(p: VerifyPlan, r: Range)
    requires p.totalBytes > 0 && Target(p) >= MIB && r in Fillers(p)
    ensures r == Block(p, r.offset / MIB)
  {
    hide Fillers, Target, Draw;
    var k :| 0 <= k < |Fillers(p)| && Fillers(p)[k] == r;
    FillerIsDrawn(p, k);
    FillerIsBlock(p, Draw(OrOne(p.stripeSeed), k + 1), 0);
  }

  /** The fillers of `VerifyPlan(10, 200, 0)` for a state `s`, by its last decimal digit. */
  lemma OverlapParts(s: nat)
    ensures Target(VerifyPlan(10, 200, 0)) == 20 && HeadTail(VerifyPlan(10, 200, 0)) == [Range(0, 10)]
    ensures s % 10 == 8 ==> Filler(VerifyPlan(10, 200, 0), s) == Range(8, 2)
    ensures s % 10 == 3 ==> Filler(VerifyPlan(10, 200, 0), s) == Range(0, 10)
  {
    assert AndNot(8, 19) == 8 && AndNot(3, 19) == 0;
  }

  lemma TwoDraws()
    ensures Lcg(1) % 10 == 8 && Lcg(Lcg(1)) % 10 == 3
  {
  }

  /** A hand-made plan of 200 percent has fillers that overlap partially; its stripe of 20 is not a power of two. */
  lemma FillersCanOverlap()
    ensures Fillers(VerifyPlan(10, 200, 0)) == [Range(8, 2), Range(0, 10)]
  {
    var p := VerifyPlan(10, 200, 0);
    hide Target, Lcg, Fill, HeadTail, Filler;
    var s := Lcg(1);
    TwoDraws();
    OverlapParts(s);
    OverlapParts(Lcg(s));
    assert Lengths([Range(0, 10)]) == 10;
    FillStep(p, 1, 10);
    FillStep(p, s, 12);
    FillStep(p, Lcg(s), 22);
  }
}
