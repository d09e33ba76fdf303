/** The product catalog and the filter engine behind `GET /products`
    (src/supabase/functions/server/index.tsx:170-217). The handler applies
    the supplied filters one after another; the model does the same and
    proves that the result is exactly the order-preserving selection of the
    products that pass every supplied filter. */
module Catalog {
  import opened Wrappers
  import opened Text
  import opened Seqs

  datatype FlashSale = FlashSale(discount: int, endTime: int)

  /** A catalog product (src/contexts/AppContext.tsx:4-27); prices are whole
      currency units. */
  datatype Product = Product(
    id: string,
    name: string,
    price: int,
    originalPrice: Option<int>,
    category: string,
    brand: string,
    description: string,
    sizes: seq<string>,
    colors: seq<string>,
    inStock: bool,
    featured: bool,
    trending: bool,
    newArrival: bool,
    flashSale: Option<FlashSale>)

  /** A price bound as `parseFloat` yields it: a number, or NaN for text that is not one. */
  datatype Bound = Num(n: int) | NaN

  /** The query string of `GET /products`. A string field is None when the
      parameter is absent; a price field is None when the parameter is absent
      or empty, and otherwise holds its parsed value. */
  datatype Query = Query(
    category: Option<string>,
    brand: Option<string>,
    minPrice: Option<Bound>,
    maxPrice: Option<Bound>,
    inStock: Option<string>,
    featured: Option<string>,
    trending: Option<string>,
    newArrival: Option<string>,
    search: Option<string>)

  const NoFilters := Query(None, None, None, None, None, None, None, None, None)

  /** A string query parameter is truthy: present and non-empty. */
  predicate Supplied(v: Option<string>) {
    v.Some? && |v.value| > 0
  }

  /** A flag parameter applies only when it is exactly the text "true". */
  predicate IsTrue(v: Option<string>) {
    v == Some("true")
  }

  // ------------------------------------------------------------ the engine

  /** One filter step of the handler. */
  datatype Criterion =
    | CategoryHas(term: string)
    | BrandHas(term: string)
    | AtLeast(bound: Bound)
    | AtMost(bound: Bound)
    | InStock
    | Featured
    | Trending
    | NewArrival
    | Mentions(term: string)

  /** Whether `p` survives the filter step `c`; a NaN bound compares false. */
  predicate Satisfies(p: Product, c: Criterion) {
    match c
    case CategoryHas(t) => ContainsIgnoringCase(p.category, t)
    case BrandHas(t) => ContainsIgnoringCase(p.brand, t)
    case AtLeast(b) => b.Num? && p.price >= b.n
    case AtMost(b) => b.Num? && p.price <= b.n
    case InStock => p.inStock
    case Featured => p.featured
    case Trending => p.trending
    case NewArrival => p.newArrival
    case Mentions(t) =>
      || ContainsIgnoringCase(p.name, t)
      || ContainsIgnoringCase(p.description, t)
      || ContainsIgnoringCase(p.category, t)
      || ContainsIgnoringCase(p.brand, t)
  }

  /** The filter step `c` as a predicate on products. */
  function Passes(c: Criterion): Product -> bool {
    p => Satisfies(p, c)
  }

  function Step(present: bool, c: Criterion): seq<Criterion> {
    if present then [c] else []
  }

  /** The filter steps the handler runs for `q`, in the handler's order. */
  function Criteria(q: Query): seq<Criterion> {
    Step(Supplied(q.category), CategoryHas(q.category.GetOr("")))
    + Step(Supplied(q.brand), BrandHas(q.brand.GetOr("")))
    + Step(q.minPrice.Some?, AtLeast(q.minPrice.GetOr(NaN)))
    + Step(q.maxPrice.Some?, AtMost(q.maxPrice.GetOr(NaN)))
    + Step(IsTrue(q.inStock), InStock)
    + Step(IsTrue(q.featured), Featured)
    + Step(IsTrue(q.trending), Trending)
    + Step(IsTrue(q.newArrival), NewArrival)
    + Step(Supplied(q.search), Mentions(q.search.GetOr("")))
  }

  /** Runs the filter steps one after another, each on the previous step's output. */
  function Sieve(ps: seq<Product>, cs: seq<Criterion>): seq<Product>
    decreases |cs|
  {
    if |cs| == 0 then ps else Sieve(Filter(Passes(cs[0]), ps), cs[1..])
  }

  /** The filtered product list the handler returns, from the products the scan decoded. */
  function ApplyFilters(q: Query, ps: seq<Product>): seq<Product> {
    Sieve(ps, Criteria(q))
  }

  // ------------------------------------------------------------ the reference

  /** `p` survives every step of `cs`. */
  predicate PassesAll(p: Product, cs: seq<Criterion>)
    decreases |cs|
  {
    |cs| == 0 || (Satisfies(p, cs[0]) && PassesAll(p, cs[1..]))
  }

  function PassesEvery(cs: seq<Criterion>): Product -> bool {
    p => PassesAll(p, cs)
  }

  /** What a product must satisfy for `q`, stated field by field: every
      supplied filter holds (AND), and `search` matches any of four fields (OR). */
  predicate Admits(q: Query, p: Product) {
    && (Supplied(q.category) ==> ContainsIgnoringCase(p.category, q.category.value))
    && (Supplied(q.brand) ==> ContainsIgnoringCase(p.brand, q.brand.value))
    && (q.minPrice.Some? ==> q.minPrice.value.Num? && p.price >= q.minPrice.value.n)
    && (q.maxPrice.Some? ==> q.maxPrice.value.Num? && p.price <= q.maxPrice.value.n)
    && (IsTrue(q.inStock) ==> p.inStock)
    && (IsTrue(q.featured) ==> p.featured)
    && (IsTrue(q.trending) ==> p.trending)
    && (IsTrue(q.newArrival) ==> p.newArrival)
    && (Supplied(q.search) ==>
          || ContainsIgnoringCase(p.name, q.search.value)
          || ContainsIgnoringCase(p.description, q.search.value)
          || ContainsIgnoringCase(p.category, q.search.value)
          || ContainsIgnoringCase(p.brand, q.search.value))
  }

  function AdmittedBy(q: Query): Product -> bool {
    p => Admits(q, p)
  }

  /** Filtering step by step keeps exactly the products that pass every step. */
  lemma {:induction false} SieveIsConjunction(ps: seq<Product>, cs: seq<Criterion>)
    ensures Sieve(ps, cs) == Filter(PassesEvery(cs), ps)
    decreases |cs|
  {
    if |cs| == 0 {
      assert forall p :: PassesEvery(cs)(p);
      AllKept(PassesEvery(cs), ps);
    } else {
      SieveIsConjunction(Filter(Passes(cs[0]), ps), cs[1..]);
      FilterCompose(Passes(cs[0]), PassesEvery(cs[1..]), ps);
      ConsPointwise(cs);
      FilterExt(Both(Passes(cs[0]), PassesEvery(cs[1..])), PassesEvery(cs), ps);
    }
  }

  lemma ConsPointwise(cs: seq<Criterion>)
    requires |cs| > 0
    ensures forall p :: Both(Passes(cs[0]), PassesEvery(cs[1..]))(p) == PassesEvery(cs)(p)
  {
    forall p
      ensures Both(Passes(cs[0]), PassesEvery(cs[1..]))(p) == PassesEvery(cs)(p)
    {
      PassesAllCons(p, cs);
    }
  }

  lemma PassesAllCons(p: Product, cs: seq<Criterion>)
    requires |cs| > 0
    ensures PassesAll(p, cs) <==> Satisfies(p, cs[0]) && PassesAll(p, cs[1..])
  {
  }

  lemma {:induction false} PassesAllAppend(p: Product, a: seq<Criterion>, b: seq<Criterion>)
    ensures PassesAll(p, a + b) <==> PassesAll(p, a) && PassesAll(p, b)
    decreases |a|
  {
    if |a| == 0 {
      assert a + b == b;
    } else {
      assert (a + b)[0] == a[0];
      assert (a + b)[1..] == a[1..] + b;
      PassesAllAppend(p, a[1..], b);
    }
  }

  lemma PassesStep(p: Product, present: bool, c: Criterion)
    ensures PassesAll(p, Step(present, c)) <==> (present ==> Satisfies(p, c))
  {
    if present {
      assert Step(present, c)[0] == c;
    }
  }

  /** Admits, read off the handler's steps one by one. */
  predicate StepwiseAdmits(q: Query, p: Product) {
    && (Supplied(q.category) ==> Satisfies(p, CategoryHas(q.category.GetOr(""))))
    && (Supplied(q.brand) ==> Satisfies(p, BrandHas(q.brand.GetOr(""))))
    && (q.minPrice.Some? ==> Satisfies(p, AtLeast(q.minPrice.GetOr(NaN))))
    && (q.maxPrice.Some? ==> Satisfies(p, AtMost(q.maxPrice.GetOr(NaN))))
    && (IsTrue(q.inStock) ==> Satisfies(p, InStock))
    && (IsTrue(q.featured) ==> Satisfies(p, Featured))
    && (IsTrue(q.trending) ==> Satisfies(p, Trending))
    && (IsTrue(q.newArrival) ==> Satisfies(p, NewArrival))
    && (Supplied(q.search) ==> Satisfies(p, Mentions(q.search.GetOr(""))))
  }

  /** Nine optional steps in a row pass `p` exactly when each present step does. */
  lemma NineSteps(p: Product, b1: bool, c1: Criterion, b2: bool, c2: Criterion, b3: bool, c3: Criterion,
                  b4: bool, c4: Criterion, b5: bool, c5: Criterion, b6: bool, c6: Criterion,
                  b7: bool, c7: Criterion, b8: bool, c8: Criterion, b9: bool, c9: Criterion)
    ensures PassesAll(p, Step(b1, c1) + Step(b2, c2) + Step(b3, c3) + Step(b4, c4) + Step(b5, c5)
                         + Step(b6, c6) + Step(b7, c7) + Step(b8, c8) + Step(b9, c9))
      <==> && (b1 ==> Satisfies(p, c1)) && (b2 ==> Satisfies(p, c2)) && (b3 ==> Satisfies(p, c3))
           && (b4 ==> Satisfies(p, c4)) && (b5 ==> Satisfies(p, c5)) && (b6 ==> Satisfies(p, c6))
           && (b7 ==> Satisfies(p, c7)) && (b8 ==> Satisfies(p, c8)) && (b9 ==> Satisfies(p, c9))
  {
    var t := Step(b1, c1);
    var acc := b1 ==> Satisfies(p, c1);
    PassesStep(p, b1, c1);
    assert PassesAll(p, t) == acc;
    t, acc := Extend(p, t, acc, b2, c2);
    t, acc := Extend(p, t, acc, b3, c3);
    t, acc := Extend(p, t, acc, b4, c4);
    t, acc := Extend(p, t, acc, b5, c5);
    t, acc := Extend(p, t, acc, b6, c6);
    t, acc := Extend(p, t, acc, b7, c7);
    t, acc := Extend(p, t, acc, b8, c8);
    t, acc := Extend(p, t, acc, b9, c9);
  }

  /** One more optional step: the conjunction grows by one conjunct. */
  lemma Extend(p: Product, t: seq<Criterion>, acc: bool, b: bool, c: Criterion)
    returns (t': seq<Criterion>, acc': bool)
    requires PassesAll(p, t) == acc
    ensures t' == t + Step(b, c)
    ensures acc' == (acc && (b ==> Satisfies(p, c)))
    ensures PassesAll(p, t') == acc'
  {
    PassesStep(p, b, c);
    PassesAllAppend(p, t, Step(b, c));
    t' := t + Step(b, c);
    acc' := acc && (b ==> Satisfies(p, c));
  }

  lemma CriteriaAreStepwise(q: Query, p: Product)
    ensures PassesAll(p, Criteria(q)) <==> StepwiseAdmits(q, p)
  {
    var c1, c2, c3 := CategoryHas(q.category.GetOr("")), BrandHas(q.brand.GetOr("")), AtLeast(q.minPrice.GetOr(NaN));
    var c4, c9 := AtMost(q.maxPrice.GetOr(NaN)), Mentions(q.search.GetOr(""));
    var b1, b2, b9 := Supplied(q.category), Supplied(q.brand), Supplied(q.search);
    var b5, b6, b7, b8 := IsTrue(q.inStock), IsTrue(q.featured), IsTrue(q.trending), IsTrue(q.newArrival);
    assert Criteria(q) == Step(b1, c1) + Step(b2, c2) + Step(q.minPrice.Some?, c3) + Step(q.maxPrice.Some?, c4)
      + Step(b5, InStock) + Step(b6, Featured) + Step(b7, Trending) + Step(b8, NewArrival) + Step(b9, c9);
    NineSteps(p, b1, c1, b2, c2, q.minPrice.Some?, c3, q.maxPrice.Some?, c4,
      b5, InStock, b6, Featured, b7, Trending, b8, NewArrival, b9, c9);
  }

  /** The handler's steps for `q` pass exactly the products `q` admits. */
  lemma CriteriaMeanAdmits(q: Query, p: Product)
    ensures PassesAll(p, Criteria(q)) <==> Admits(q, p)
  {
    CriteriaAreStepwise(q, p);
  }

  /** The listing is the order-preserving selection of the products that pass
      every supplied filter: each kept product passes all of them, each product
      passing all of them is kept, and the relative order is the scan order. */
  lemma ListingIsConjunction(q: Query, ps: seq<Product>)
    ensures ApplyFilters(q, ps) == Filter(AdmittedBy(q), ps)
    ensures SubsequenceOf(ApplyFilters(q, ps), ps)
    ensures forall i :: 0 <= i < |ApplyFilters(q, ps)| ==> Admits(q, ApplyFilters(q, ps)[i])
    ensures forall i :: 0 <= i < |ps| && Admits(q, ps[i]) ==> ps[i] in ApplyFilters(q, ps)
  {
    SieveIsConjunction(ps, Criteria(q));
    forall p
      ensures PassesEvery(Criteria(q))(p) == AdmittedBy(q)(p)
    {
      CriteriaMeanAdmits(q, p);
    }
    FilterExt(PassesEvery(Criteria(q)), AdmittedBy(q), ps);
    FilterIsSubsequence(AdmittedBy(q), ps);
  }

  /** With no filter supplied the catalog comes back unchanged. */
  lemma NoFiltersKeepsAll(ps: seq<Product>)
    ensures ApplyFilters(NoFilters, ps) == ps
  {
  }

  /** A flag parameter other than the literal "true" ("false", "1", "") changes nothing. */
  lemma FlagNeedsLiteralTrue(q: Query, ps: seq<Product>, v: string)
    requires v != "true"
    ensures ApplyFilters(q.(inStock := Some(v)), ps) == ApplyFilters(q.(inStock := None), ps)
    ensures ApplyFilters(q.(featured := Some(v)), ps) == ApplyFilters(q.(featured := None), ps)
    ensures ApplyFilters(q.(trending := Some(v)), ps) == ApplyFilters(q.(trending := None), ps)
    ensures ApplyFilters(q.(newArrival := Some(v)), ps) == ApplyFilters(q.(newArrival := None), ps)
  {
  }

  /** Both price bounds are inclusive; a NaN bound keeps nothing. */
  lemma PriceBoundsInclusive(q: Query, p: Product, lo: int, hi: int)
    requires q == NoFilters.(minPrice := Some(Num(lo)), maxPrice := Some(Num(hi)))
    ensures Admits(q, p) <==> lo <= p.price <= hi
    ensures !Admits(NoFilters.(minPrice := Some(NaN)), p)
  {
  }

  /** `brand=denim` keeps a product whose brand is "DenimCo": the match is a
      case-insensitive substring test, not equality. */
  lemma BrandMatchIgnoresCase(p: Product)
    requires p.brand == "DenimCo"
    ensures Admits(NoFilters.(brand := Some("denim")), p)
  {
    assert ToLower("DenimCo") == "denimco";
    assert ToLower("denim") == "denim";
    assert "denim" <= "denimco";
  }
}
