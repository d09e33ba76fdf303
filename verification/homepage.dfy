/** The flash-sale countdown of the home page (src/components/HomePage.tsx:28-37).
    The one-second timer that drives it is left to the caller: one tick is one call. */
module Countdown {
  datatype TimeLeft = TimeLeft(hours: int, minutes: int, seconds: int)

  const Start := TimeLeft(23, 45, 32)

  /** The remaining time in seconds. */
  function Total(t: TimeLeft): int {
    t.hours * 3600 + t.minutes * 60 + t.seconds
  }

  predicate NonNegative(t: TimeLeft) {
    t.hours >= 0 && t.minutes >= 0 && t.seconds >= 0
  }

  predicate ClockFace(t: TimeLeft) {
    t.hours >= 0 && 0 <= t.minutes < 60 && 0 <= t.seconds < 60
  }

  /** One second of the countdown: borrow from minutes, then from hours; stop at zero. */
  function Tick(t: TimeLeft): (r: TimeLeft)
    // a running non-negative countdown loses exactly one second
    ensures NonNegative(t) && t != TimeLeft(0, 0, 0) ==> NonNegative(r) && Total(r) == Total(t) - 1
    ensures t == TimeLeft(0, 0, 0) ==> r == t
  {
    if t.seconds > 0 then t.(seconds := t.seconds - 1)
    else if t.minutes > 0 then t.(minutes := t.minutes - 1, seconds := 59)
    else if t.hours > 0 then TimeLeft(t.hours - 1, 59, 59)
    else t
  }

  /** A tick keeps minutes and seconds on the clock face. */
  lemma TickKeepsClockFace(t: TimeLeft)
    requires ClockFace(t)
    ensures ClockFace(Tick(t))
  {
  }

  function Ticks(t: TimeLeft, n: nat): TimeLeft
    decreases n
  {
    if n == 0 then t else Ticks(Tick(t), n - 1)
  }

  /** A non-negative countdown reaches 0:0:0 after exactly its total number of
      seconds, and stays there. */
  lemma RunsDownToZero(t: TimeLeft, extra: nat)
    requires NonNegative(t)
    ensures Total(t) >= 0
    ensures Ticks(t, Total(t) + extra) == TimeLeft(0, 0, 0)
    ensures forall k: nat :: k < Total(t) ==> Ticks(t, k) != TimeLeft(0, 0, 0)
  {
    assert t.hours * 3600 >= 0 && t.minutes * 60 >= 0;
    Drains(t, Total(t) + extra);
    forall k: nat | k < Total(t)
      ensures Ticks(t, k) != TimeLeft(0, 0, 0)
    {
      NotYet(t, k);
    }
  }

  /** Fewer ticks than seconds left leave the countdown running. */
  lemma {:induction false} NotYet(t: TimeLeft, k: nat)
    requires NonNegative(t) && k < Total(t)
    ensures Ticks(t, k) != TimeLeft(0, 0, 0)
    decreases k
  {
    if k > 0 {
      var next := Tick(t);
      NotYet(next, k - 1);
      assert Ticks(t, k) == Ticks(next, k - 1);
    }
  }

  /** At least as many ticks as seconds left empty the countdown. */
  lemma {:induction false} Drains(t: TimeLeft, n: nat)
    requires NonNegative(t) && Total(t) <= n
    ensures Ticks(t, n) == TimeLeft(0, 0, 0)
    decreases n
  {
    if n == 0 {
      NothingLeft(t);
    } else {
      var next := Tick(t);
      Drains(next, n - 1);
      assert Ticks(t, n) == Ticks(next, n - 1);
    }
  }

  lemma NothingLeft(t: TimeLeft)
    requires NonNegative(t) && Total(t) <= 0
    ensures t == TimeLeft(0, 0, 0)
  {
    assert t.hours * 3600 >= 0 && t.minutes * 60 >= 0;
  }

  /** The page's starting value 23:45:32 is on the clock face, 85532 seconds from zero. */
  lemma StartTotal()
    ensures Total(Start) == 85532
    ensures ClockFace(Start)
  {
  }

}

/** The banner slider of the home page (src/components/HomePage.tsx:20, 233, 241):
    a slide index moved by the arrows and by a timer, modulo the number of banners. */
module Slider {
  /** `(prev + 1) % banners.length`. */
  function Next(i: int, n: int): (r: int)
    requires n > 0 && 0 <= i
    ensures 0 <= r < n
    ensures i < n - 1 ==> r == i + 1
    ensures i == n - 1 ==> r == 0
  {
    (i + 1) % n
  }

  /** `(prev - 1 + banners.length) % banners.length`. */
  function Prev(i: int, n: int): (r: int)
    requires n > 0 && 0 <= i
    ensures 0 <= r < n
    ensures 0 < i < n ==> r == i - 1
    ensures i == 0 ==> r == n - 1
  {
    (i - 1 + n) % n
  }

  /** The two arrows undo each other on every slide. */
  lemma PrevUndoesNext(i: int, n: int)
    requires n > 0 && 0 <= i < n
    ensures Prev(Next(i, n), n) == i
    ensures Next(Prev(i, n), n) == i
  {
  }

  function Advance(i: int, n: int, k: nat): (r: int)
    requires n > 0 && 0 <= i
    ensures 0 <= r
    decreases k
  {
    if k == 0 then i else Advance(Next(i, n), n, k - 1)
  }

  /** Up to one full turn, `k` automatic advances move `k` slides forward,
      wrapping past the last slide to the first. */
  lemma {:induction false} AdvanceWithinOneTurn(i: int, n: int, k: nat)
    requires n > 0 && 0 <= i < n && k <= n
    ensures Advance(i, n, k) == if i + k < n then i + k else i + k - n
    decreases k
  {
    if k > 0 {
      AdvanceWithinOneTurn(Next(i, n), n, k - 1);
    }
  }

  /** After as many advances as there are banners the slider is back where it started. */
  lemma FullTurn(i: int, n: int)
    requires n > 0 && 0 <= i < n
    ensures Advance(i, n, n) == i
  {
    AdvanceWithinOneTurn(i, n, n);
  }

}

/** The flag-filtered product sections of the home page
    (src/components/HomePage.tsx:313, 329, 345). */
module HomePage {
  import opened Wrappers
  import opened Seqs
  import opened Catalog

  function HasFlashSale(): Product -> bool { (p: Product) => p.flashSale.Some? }
  function IsTrending(): Product -> bool { (p: Product) => p.trending }
  function IsNewArrival(): Product -> bool { (p: Product) => p.newArrival }

  /** The flash-sale, trending and new-arrival sections of the page. */
  datatype Sections = Sections(flash: seq<Product>, trending: seq<Product>, arrivals: seq<Product>)

  /** Each section is the catalog filtered by its flag. */
  function Sectioned(catalog: seq<Product>): (r: Sections)
    ensures forall i :: 0 <= i < |r.flash| ==> r.flash[i].flashSale.Some?
    ensures forall i :: 0 <= i < |catalog| && catalog[i].flashSale.Some? ==> catalog[i] in r.flash
    ensures forall i :: 0 <= i < |r.trending| ==> r.trending[i].trending
    ensures forall i :: 0 <= i < |catalog| && catalog[i].trending ==> catalog[i] in r.trending
    ensures forall i :: 0 <= i < |r.arrivals| ==> r.arrivals[i].newArrival
    ensures forall i :: 0 <= i < |catalog| && catalog[i].newArrival ==> catalog[i] in r.arrivals
    ensures SubsequenceOf(r.flash, catalog) && SubsequenceOf(r.trending, catalog)
            && SubsequenceOf(r.arrivals, catalog)
  {
    FilterIsSubsequence(HasFlashSale(), catalog);
    FilterIsSubsequence(IsTrending(), catalog);
    FilterIsSubsequence(IsNewArrival(), catalog);
    Sections(Filter(HasFlashSale(), catalog), Filter(IsTrending(), catalog), Filter(IsNewArrival(), catalog))
  }

  /** The trending section shows exactly what a `trending=true` catalog query returns. */
  lemma TrendingMatchesServerFilter(catalog: seq<Product>)
    ensures Sectioned(catalog).trending == ApplyFilters(NoFilters.(trending := Some("true")), catalog)
  {
    var q := NoFilters.(trending := Some("true"));
    ListingIsConjunction(q, catalog);
    forall p
      ensures IsTrending()(p) == AdmittedBy(q)(p)
    {
    }
    FilterExt(IsTrending(), AdmittedBy(q), catalog);
  }
}
