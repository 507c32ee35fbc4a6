/**
 The two carousels of the home page: approved testimonials, stepped by
 arrows and dots, and active promotional banners, stepped by arrows and by
 a timer. Indexes never go negative, so the modulo of JavaScript and of
 Dafny agree on them.
 */
module Carousel {
  import Seqs
  import Store

  const AutoAdvanceMs := 4000

  // ---------------------------------------------------------------- testimonials

  function IsApproved(t: Store.Testimonial): bool { t.approved }

  /** The testimonials the section shows; the section renders nothing when there are none. */
  function ApprovedTestimonials(ts: seq<Store.Testimonial>): (r: seq<Store.Testimonial>)
    ensures forall t :: t in r <==> t in ts && t.approved
    ensures r == [] <==> forall i :: 0 <= i < |ts| ==> !ts[i].approved
    ensures forall t :: multiset(r)[t] == if t.approved then multiset(ts)[t] else 0
  {
    var r := Seqs.Filter(ts, IsApproved);
    forall t ensures multiset(r)[t] == if t.approved then multiset(ts)[t] else 0 {
      Seqs.FilterMultiplicity(ts, IsApproved, t);
    }
    assert r == [] <==> forall i :: 0 <= i < |ts| ==> !ts[i].approved by {
      if r == [] {
        forall i | 0 <= i < |ts| ensures !ts[i].approved {
          assert ts[i] in ts;
        }
      } else {
        assert r[0] in ts;
      }
    }
    r
  }

  /** `handleNext` on the index: the following slide, wrapping to the first. */
  function Next(i: nat, n: nat): (r: nat)
    requires n > 0
    ensures r < n
    ensures i + 1 < n ==> r == i + 1
    ensures i + 1 == n ==> r == 0
  {
    (i + 1) % n
  }

  /** `handlePrev` on the index: the preceding slide, wrapping to the last. */
  function Prev(i: nat, n: nat): (r: nat)
    requires n > 0
    ensures r < n
    ensures 0 < i < n + 1 ==> r == i - 1
    ensures i == 0 ==> r == n - 1
  {
    (i - 1 + n) % n
  }

  /** Within range, one step back undoes one step forward, and the other way round. */
  lemma NextPrevInverse(i: nat, n: nat)
    requires i < n
    ensures Prev(Next(i, n), n) == i
    ensures Next(Prev(i, n), n) == i
  {
  }

  /** `k` steps forward. */
  function Advance(i: nat, n: nat, k: nat): (r: nat)
    requires n > 0
    ensures r < n || (k == 0 && r == i)
  {
    if k == 0 then i else Next(Advance(i, n, k - 1), n)
  }

  /** `m` modulo `n`, by repeated subtraction: the slide reached `m` steps after the first. */
  function Wrap(m: nat, n: nat): (r: nat)
    requires n > 0
    ensures r < n
    ensures m < n ==> r == m
  {
    if m < n then m else Wrap(m - n, n)
  }

  lemma {:induction false} WrapStep(m: nat, n: nat)
    requires n > 0
    ensures Next(Wrap(m, n), n) == Wrap(m + 1, n)
  {
    if m >= n {
      WrapStep(m - n, n);
    }
  }

  lemma {:induction false} AdvanceIsWrap(i: nat, n: nat, k: nat)
    requires n > 0 && i < n
    ensures Advance(i, n, k) == Wrap(i + k, n)
  {
    if k > 0 {
      AdvanceIsWrap(i, n, k - 1);
      WrapStep(i + k - 1, n);
    }
  }

  /** Stepping forward once per slide comes back to where it started. */
  lemma FullCycle(i: nat, n: nat)
    requires n > 0 && i < n
    ensures Advance(i, n, n) == i
  {
    AdvanceIsWrap(i, n, n);
  }

  /** The slide index and the direction the next animation enters from. */
  datatype TestimonialView = TestimonialView(index: nat, direction: int)

  const InitialTestimonialView := TestimonialView(0, 0)

  function HandleNext(v: TestimonialView, n: nat): (r: TestimonialView)
    requires n > 0
    ensures r.direction == 1 && r.index == Next(v.index, n)
  {
    TestimonialView(Next(v.index, n), 1)
  }

  function HandlePrev(v: TestimonialView, n: nat): (r: TestimonialView)
    requires n > 0
    ensures r.direction == -1 && r.index == Prev(v.index, n)
  {
    TestimonialView(Prev(v.index, n), -1)
  }

  /** The dots are drawn only when there is more than one testimonial. */
  predicate ShowsDots(n: nat) { n > 1 }

  /** A dot click jumps to its slide; the animation comes from the right only for a later slide. */
  function DotClick(v: TestimonialView, target: nat): (r: TestimonialView)
    ensures r.index == target
    ensures r.direction == 1 <==> target > v.index
    ensures r.direction == -1 <==> target <= v.index
  {
    TestimonialView(target, if target > v.index then 1 else -1)
  }

  /** Clicking the dot of the slide already shown keeps the slide but sets a backward direction. */
  lemma CurrentDotPointsBack(v: TestimonialView)
    ensures DotClick(v, v.index) == v.(direction := -1)
  {
  }

  // ---------------------------------------------------------------- promotional banners

  function IsActive(b: Store.PromoBanner): bool { b.active }

  /** The banners the strip shows; it renders nothing when none is active. */
  function ActiveBanners(bs: seq<Store.PromoBanner>): (r: seq<Store.PromoBanner>)
    ensures forall b :: b in r <==> b in bs && b.active
    ensures r == [] <==> forall i :: 0 <= i < |bs| ==> !bs[i].active
    ensures forall b :: multiset(r)[b] == if b.active then multiset(bs)[b] else 0
  {
    var r := Seqs.Filter(bs, IsActive);
    forall b ensures multiset(r)[b] == if b.active then multiset(bs)[b] else 0 {
      Seqs.FilterMultiplicity(bs, IsActive, b);
    }
    assert r == [] <==> forall i :: 0 <= i < |bs| ==> !bs[i].active by {
      if r == [] {
        forall i | 0 <= i < |bs| ensures !bs[i].active {
          assert bs[i] in bs;
        }
      } else {
        assert r[0] in bs;
      }
    }
    r
  }

  /** `prevBanner`: the last banner from the first, else one back, without reducing modulo the count. */
  function BannerPrev(i: nat, n: nat): (r: nat)
    requires n > 0
    ensures i < n ==> r < n
    ensures i == 0 ==> r == n - 1
    ensures i > 0 ==> r == i - 1
  {
    if i == 0 then n - 1 else i - 1
  }

  /** `nextBanner` and the timer step the same way as the testimonials' arrow. */
  function BannerNext(i: nat, n: nat): (r: nat)
    requires n > 0
    ensures r == Next(i, n)
  {
    (i + 1) % n
  }

  /** For an index in range, the banner's backward step is the testimonials' one. */
  lemma BannerPrevAgrees(i: nat, n: nat)
    requires i < n
    ensures BannerPrev(i, n) == Prev(i, n)
  {
  }

  /** The banner steps are mutual inverses within range. */
  lemma BannerStepsInverse(i: nat, n: nat)
    requires i < n
    ensures BannerPrev(BannerNext(i, n), n) == i
    ensures BannerNext(BannerPrev(i, n), n) == i
  {
    BannerPrevAgrees(BannerNext(i, n), n);
    BannerPrevAgrees(i, n);
    NextPrevInverse(i, n);
  }

  /** An index left past the end by a shrinking list stays out of range on a backward step, unlike the testimonials' step. */
  lemma StaleBannerIndex(n: nat)
    requires n > 0
    ensures BannerPrev(n + 1, n) == n
    ensures Prev(n + 1, n) == 0
  {
  }

  /** The four-second timer is installed only when more than one banner is active. */
  function AutoAdvanceInstalled(activeCount: nat): (installed: bool)
    ensures installed <==> activeCount > 1
  {
    !(activeCount <= 1)
  }

  /** After `k` timer ticks from the first banner, the banner shown is `k` wrapped around the count. */
  lemma TimerTicks(n: nat, k: nat)
    requires AutoAdvanceInstalled(n)
    ensures Advance(0, n, k) == Wrap(k, n)
  {
    AdvanceIsWrap(0, n, k);
  }
}
