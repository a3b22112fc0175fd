/**
 * The random-surfer transition model and the sampling estimator
 * (pagerank/pagerank.py, lines 52-112). The random draws of
 * `random.random()` and the uniformly chosen first page of
 * `random.choice` are parameters.
 */
module Sampling {
  import opened Wrappers
  import opened Corpora

  // ---------------------------------------------------------------------------
  // transition_model
  // ---------------------------------------------------------------------------

  /** Raises every target by the same share, visiting the targets in the order ps. */
  function AddShare(ps: seq<Page>, targets: set<Page>, share: real, acc: Ranks): (r: Ranks)
    requires Distinct(ps) && forall p :: p in ps && p in targets ==> p in acc
    ensures r.Keys == acc.Keys
    ensures forall p :: p in r ==> r[p] == if p in ps && p in targets then acc[p] + share else acc[p]
  {
    if ps == [] then acc
    else
      var acc' := if ps[0] in targets then acc[ps[0] := acc[ps[0]] + share] else acc;
      AddShare(ps[1..], targets, share, acc')
  }

  /**
   * The random surfer's chance of moving from `page` to p: 1/N when `page`
   * has no links; otherwise (1-d)/N, plus d/L when p is one of the L pages
   * `page` links to.
   */
  function Chance(c: Web, page: Page, d: real, p: Page): real
    requires page in c.links
  {
    var n := Size(c) as real;
    var links := c.links[page];
    if links == {} then 1.0 / n
    else (1.0 - d) / n + if p in links then d / |links| as real else 0.0
  }

  /** Lines 66-69: a page without links sends the surfer to any page with chance 1/N. */
  function UniformJump(c: Web, page: Page): (dist: Ranks)
    requires page in c.links && Dangling(c, page)
    ensures dist.Keys == c.links.Keys
    ensures forall p :: p in dist ==> dist[p] == Chance(c, page, 0.0, p)
  {
    OrderIsCorpus(c);
    Fill(c.order, 1.0 / Size(c) as real, map[])
  }

  /** Lines 71-77: (1-d)/N to every page, then d/L more to each of the L linked pages. */
  function DampedJump(c: Web, page: Page, d: real): (dist: Ranks)
    requires page in c.links && !Dangling(c, page)
    ensures dist.Keys == c.links.Keys
    ensures BaseShare(dist, c.order, (1.0 - d) / Size(c) as real, d / |c.links[page]| as real, c.links[page])
  {
    OrderIsCorpus(c);
    var base := Fill(c.order, (1.0 - d) / Size(c) as real, map[]);
    AddShare(c.order, c.links[page], d / |c.links[page]| as real, base)
  }

  /** The distribution of the page the surfer visits after `page`: every corpus page with its `Chance`. */
  function TransitionModel(c: Web, page: Page, d: real): (dist: Ranks)
    requires page in c.links
    ensures dist.Keys == c.links.Keys
    ensures forall p :: p in dist ==> dist[p] == Chance(c, page, d, p)
  {
    if c.links[page] == {} then UniformJump(c, page) else DampedJump(c, page, d)
  }

  /** Every page of ps carries `base`, plus `share` when it is one of the targets. */
  ghost predicate BaseShare(m: Ranks, ps: seq<Page>, base: real, share: real, targets: set<Page>)
  {
    forall p :: p in ps ==> p in m && m[p] == base + if p in targets then share else 0.0
  }

  /** k copies of x added up; keeps the sums below free of products. */
  function Times(k: nat, x: real): real {
    if k == 0 then 0.0 else x + Times(k - 1, x)
  }

  lemma {:induction false} TimesIsProduct(k: nat, x: real)
    ensures Times(k, x) == k as real * x
  {
    if k > 0 {
      TimesIsProduct(k - 1, x);
    }
  }

  lemma {:induction false} TotalBaseShare(m: Ranks, ps: seq<Page>, base: real, share: real, targets: set<Page>)
    requires BaseShare(m, ps, base, share, targets)
    ensures Total(m, ps) == Times(|ps|, base) + Times(CountIn(ps, targets), share)
    decreases ps
  {
    if ps != [] {
      TotalBaseShare(m, ps[1..], base, share, targets);
    }
  }

  /** n shares of x/n make x. */
  lemma TimesShare(x: real, n: nat)
    requires n > 0
    ensures Times(n, x / n as real) == x
  {
    TimesIsProduct(n, x / n as real);
    ScaleBack(x, n);
  }

  /** The two shares of the damped distribution add up to 1. */
  lemma DampedMass(ps: seq<Page>, links: set<Page>, d: real)
    requires |ps| > 0 && |links| > 0
    ensures Times(|ps|, (1.0 - d) / |ps| as real) + Times(|links|, d / |links| as real) == 1.0
  {
    TimesShare(1.0 - d, |ps|);
    TimesShare(d, |links|);
  }

  lemma DampedTotal(m: Ranks, ps: seq<Page>, base: real, share: real, links: set<Page>)
    requires Distinct(ps) && forall p :: p in links ==> p in ps
    requires BaseShare(m, ps, base, share, links)
    requires Times(|ps|, base) + Times(|links|, share) == 1.0
    ensures Total(m, ps) == 1.0
  {
    TotalBaseShare(m, ps, base, share, links);
    CountInCovered(ps, links);
  }

  lemma DampedSumsToOne(c: Web, page: Page, d: real)
    requires page in c.links && !Dangling(c, page)
    ensures Total(DampedJump(c, page, d), c.order) == 1.0
  {
    var links := c.links[page];
    var base, share := (1.0 - d) / |c.order| as real, d / |links| as real;
    var dist := DampedJump(c, page, d);
    assert BaseShare(dist, c.order, base, share, links);
    DampedMass(c.order, links, d);
    DampedTotal(dist, c.order, base, share, links);
  }

  /**
   * Over exact reals the transition model is a probability distribution:
   * its values over the corpus sum to 1.
   */
  lemma TransitionSumsToOne(c: Web, page: Page, d: real)
    requires page in c.links
    ensures Total(TransitionModel(c, page, d), c.order) == 1.0
  {
    if Dangling(c, page) {
      UniformTotal(UniformJump(c, page), c.order, Size(c));
    } else {
      DampedSumsToOne(c, page, d);
    }
  }

  lemma ChanceIsPositive(c: Web, page: Page, d: real, p: Page)
    requires page in c.links && 0.0 <= d < 1.0
    ensures Chance(c, page, d, p) > 0.0
  {
    var n := Size(c);
    Quotient(1.0, n);
    Quotient(1.0 - d, n);
    if !Dangling(c, page) {
      Quotient(d, |c.links[page]|);
    }
  }

  /** With 0 <= d < 1 every page of the corpus can be reached in one step. */
  lemma TransitionIsPositive(c: Web, page: Page, d: real)
    requires page in c.links && 0.0 <= d < 1.0
    ensures forall p :: p in c.links ==> TransitionModel(c, page, d)[p] > 0.0
  {
    forall p | p in c.links ensures TransitionModel(c, page, d)[p] > 0.0 {
      ChanceIsPositive(c, page, d, p);
    }
  }

  // ---------------------------------------------------------------------------
  // The selection walk of sample_pagerank
  // ---------------------------------------------------------------------------

  /**
   * Walks the pages in order, taking away each skipped page's probability
   * from x: the first page whose probability covers what is left of x; None
   * when the walk runs off the end.
   */
  function Select(dist: Ranks, ps: seq<Page>, x: real): (r: Option<Page>)
    ensures r.Some? ==> r.value in ps
    decreases ps
  {
    if ps == [] then None
    else if x <= Value(dist, ps[0]) then Some(ps[0])
    else Select(dist, ps[1..], x - Value(dist, ps[0]))
  }

  /** The walk picks some page whenever x does not exceed the total mass. */
  lemma {:induction false} SelectTotal(dist: Ranks, ps: seq<Page>, x: real)
    requires ps != [] && x <= Total(dist, ps)
    ensures Select(dist, ps, x).Some?
    decreases ps
  {
    if x > Value(dist, ps[0]) {
      SelectTotal(dist, ps[1..], x - Value(dist, ps[0]));
    }
  }

  lemma PrefixStep(dist: Ranks, ps: seq<Page>, k: nat)
    requires 0 < k <= |ps|
    ensures Total(dist, ps[..k]) == Value(dist, ps[0]) + Total(dist, ps[1..][..k - 1])
  {
    assert ps[..k][1..] == ps[1..][..k - 1];
  }

  predicate NonNegativeOn(dist: Ranks, ps: seq<Page>) {
    forall p :: p in ps ==> Value(dist, p) >= 0.0
  }

  lemma {:induction false} PrefixNonNegative(dist: Ranks, ps: seq<Page>, k: nat)
    requires NonNegativeOn(dist, ps) && k <= |ps|
    ensures Total(dist, ps[..k]) >= 0.0
    decreases k
  {
    if k > 0 {
      PrefixStep(dist, ps, k);
      PrefixNonNegative(dist, ps[1..], k - 1);
    }
  }

  /**
   * The walk picks the k-th page exactly when x falls in that page's
   * cumulative interval (P(k), P(k+1)], P(k) being the mass of the first k
   * pages; the first page's interval also takes every x <= P(1).
   */
  lemma {:induction false} SelectInterval(dist: Ranks, ps: seq<Page>, x: real, k: nat)
    requires Distinct(ps) && NonNegativeOn(dist, ps) && k < |ps|
    ensures Select(dist, ps, x) == Some(ps[k])
        <==> (k == 0 || Total(dist, ps[..k]) < x) && x <= Total(dist, ps[..k + 1])
    decreases k
  {
    PrefixStep(dist, ps, k + 1);
    if k == 0 {
      assert Total(dist, ps[1..][..0]) == 0.0;
    } else {
      PrefixStep(dist, ps, k);
      var v0 := Value(dist, ps[0]);
      SelectInterval(dist, ps[1..], x - v0, k - 1);
      assert ps[1..][k - 1] == ps[k] && ps[k] != ps[0];
      if k - 1 > 0 {
        PrefixNonNegative(dist, ps[1..], k - 1);
      } else {
        assert Total(dist, ps[1..][..0]) == 0.0;
      }
    }
  }

  // ---------------------------------------------------------------------------
  // sample_pagerank
  // ---------------------------------------------------------------------------

  /** The chain so far: the page last visited and the visits counted, in order. */
  datatype Walker = Walker(current: Page, visits: seq<Page>)

  /** How a later sample picks its page from the current one and its draw. */
  type Chooser = (Page, real) -> Option<Page>

  /**
   * Lines 95-107 for one later sample: the transition model of the current
   * page, walked with draw x. Pages outside the corpus never come up (the
   * chain starts and stays inside it); they pick nothing.
   */
  function Next(c: Web, d: real, visit: Page, x: real): (r: Option<Page>)
    ensures r.Some? ==> r.value in c.links
  {
    if visit in c.links then Select(TransitionModel(c, visit, d), c.order, x) else None
  }

  /** The random surfer of corpus c with damping factor d. */
  function Surfer(c: Web, d: real): Chooser {
    (p, x) => Next(c, d, p, x)
  }

  /**
   * One later sample (lines 98-105): the visits so far are kept, and they grow
   * by one page exactly when the chooser picks one, that page becoming the
   * current one; otherwise the surfer stays where it is.
   */
  function Step(next: Chooser, w: Walker, x: real): (r: Walker)
    ensures |w.visits| <= |r.visits| <= |w.visits| + 1 && r.visits[..|w.visits|] == w.visits
    ensures |r.visits| == |w.visits| + 1 <==> next(w.current, x).Some?
    ensures |r.visits| == |w.visits| + 1 ==> r.visits[|w.visits|] == r.current
    ensures |r.visits| == |w.visits| ==> r.current == w.current
    ensures next(w.current, x).Some? ==> r.current == next(w.current, x).value
    ensures next(w.current, x).None? ==> r == w
  {
    match next(w.current, x)
    case Some(p) => Walker(p, w.visits + [p])
    case None => w
  }

  /**
   * The chain after the first i samples. Sample 0 visits `start` and ignores
   * its draw; sample i > 0 walks with draws[i].
   */
  function Run(next: Chooser, start: Page, draws: seq<real>, i: nat): (w: Walker)
    requires 1 <= i <= |draws|
    ensures 1 <= |w.visits| <= i && w.visits[0] == start
    decreases i
  {
    if i == 1 then Walker(start, [start])
    else Step(next, Run(next, start, draws, i - 1), draws[i - 1])
  }

  /** Every page the estimator counts, one entry per counted visit. */
  function Visits(c: Web, d: real, start: Page, draws: seq<real>): seq<Page> {
    if |draws| == 0 then [] else Run(Surfer(c, d), start, draws, |draws|).visits
  }

  /** From a page of s the chooser only ever picks pages of s. */
  ghost predicate Closed(next: Chooser, s: set<Page>) {
    forall p, x :: p in s && next(p, x).Some? ==> next(p, x).value in s
  }

  /** From a page of s the chooser picks some page for every draw of at most 1. */
  ghost predicate Picks(next: Chooser, s: set<Page>) {
    forall p, x :: p in s && x <= 1.0 ==> next(p, x).Some?
  }

  /** A chain that starts in s never leaves it when the chooser is closed over s. */
  lemma {:induction false} RunStays(next: Chooser, s: set<Page>, start: Page, draws: seq<real>, i: nat)
    requires Closed(next, s) && start in s && 1 <= i <= |draws|
    ensures Run(next, start, draws, i).current in s
    ensures forall p :: p in Run(next, start, draws, i).visits ==> p in s
    decreases i
  {
    if i > 1 {
      RunStays(next, s, start, draws, i - 1);
    }
  }

  /** When every draw is at most 1 and the chooser always picks, each sample is counted. */
  lemma {:induction false} RunCounts(next: Chooser, s: set<Page>, start: Page, draws: seq<real>, i: nat)
    requires Closed(next, s) && Picks(next, s) && start in s && 1 <= i <= |draws|
    requires forall j :: 0 <= j < |draws| ==> draws[j] <= 1.0
    ensures |Run(next, start, draws, i).visits| == i
    decreases i
  {
    if i > 1 {
      RunCounts(next, s, start, draws, i - 1);
      RunStays(next, s, start, draws, i - 1);
    }
  }

  /** The surfer stays in the corpus and, with draws of at most 1, always moves. */
  lemma SurferStays(c: Web, d: real)
    ensures Closed(Surfer(c, d), c.links.Keys) && Picks(Surfer(c, d), c.links.Keys)
  {
    forall p, x | p in c.links && x <= 1.0 ensures Surfer(c, d)(p, x).Some? {
      NextPicks(c, d, p, x);
    }
  }

  /** rank maps exactly the visited pages, each to its number of visits over n. */
  ghost predicate Frequencies(rank: Ranks, visits: seq<Page>, n: nat) {
    && (forall p :: p in rank <==> p in visits)
    && forall p :: p in rank ==> n > 0 && rank[p] == multiset(visits)[p] as real / n as real
  }

  /** The visit counter matches the visits: one key per visited page, holding its number of visits. */
  ghost predicate Counts(counter: map<Page, nat>, visits: seq<Page>) {
    && (forall p :: p in counter <==> p in visits)
    && forall p :: p in counter ==> counter[p] == multiset(visits)[p]
  }

  /** Counts one more visit of p, the counter starting at 0 for a page not seen yet. */
  function Bump(counter: map<Page, nat>, p: Page): (r: map<Page, nat>)
    ensures r.Keys == counter.Keys + {p}
  {
    counter[p := (if p in counter then counter[p] else 0) + 1]
  }

  lemma CountOneMore(counter: map<Page, nat>, visits: seq<Page>, p: Page)
    requires Counts(counter, visits)
    ensures Counts(Bump(counter, p), visits + [p])
  {
    assert multiset(visits + [p]) == multiset(visits) + multiset{p};
    if p !in counter {
      assert p !in visits;
    }
  }

  /** The loop state after i samples: the page last visited and the counter, as the chain dictates. */
  ghost predicate Tracks(next: Chooser, start: Page, draws: seq<real>, i: nat, visit: Page, counter: map<Page, nat>)
    requires 1 <= i <= |draws|
  {
    visit == Run(next, start, draws, i).current && Counts(counter, Run(next, start, draws, i).visits)
  }

  /** One pass of the sampling loop keeps the counter in step with the chain. */
  lemma TracksStep(next: Chooser, start: Page, draws: seq<real>, i: nat, visit: Page, counter: map<Page, nat>)
    requires 1 <= i < |draws| && Tracks(next, start, draws, i, visit, counter)
    ensures match next(visit, draws[i])
      case Some(p) => Tracks(next, start, draws, i + 1, p, Bump(counter, p))
      case None => Tracks(next, start, draws, i + 1, visit, counter)
  {
    var w := Run(next, start, draws, i);
    assert Run(next, start, draws, i + 1) == Step(next, w, draws[i]);
    if next(visit, draws[i]).Some? {
      CountOneMore(counter, w.visits, next(visit, draws[i]).value);
    }
  }

  /**
   * Lines 109-112: each counted page gets its number of visits divided by the
   * number of samples, so a counter of some visits becomes their frequencies.
   */
  function Normalise(counter: map<Page, nat>, n: nat): (rank: Ranks)
    requires n > 0
    ensures rank.Keys == counter.Keys
    ensures forall p :: p in rank ==> rank[p] == counter[p] as real / n as real
    ensures forall visits :: Counts(counter, visits) ==> Frequencies(rank, visits, n)
  {
    map p | p in counter :: counter[p] as real / n as real
  }

  /**
   * Lines 93-107: the loop over the samples, counting every page the chain
   * visits; `next` picks each later page.
   */
  method Walk(next: Chooser, start: Page, draws: seq<real>) returns (counter: map<Page, nat>)
    requires |draws| > 0
    ensures Counts(counter, Run(next, start, draws, |draws|).visits)
  {
    counter := map[start := 1];
    var visit := start;
    assert Counts(counter, [start]);
    for i := 1 to |draws|
      invariant Tracks(next, start, draws, i, visit, counter)
    {
      TracksStep(next, start, draws, i, visit, counter);
      var pick := next(visit, draws[i]);
      if pick.Some? {
        visit := pick.value;
        counter := Bump(counter, visit);
      }
    }
  }

  lemma CountsGiveFrequencies(counter: map<Page, nat>, visits: seq<Page>, n: nat)
    requires Counts(counter, visits) && n > 0
    ensures Frequencies(Normalise(counter, n), visits, n)
  {
  }

  /**
   * sample_pagerank: the visit frequencies of the chain that `Walk` counts,
   * each page's count divided by the number of samples.
   */
  method SamplePagerank(c: Web, d: real, start: Page, draws: seq<real>) returns (rank: Ranks)
    ensures Frequencies(rank, Visits(c, d, start, draws), |draws|)
  {
    if |draws| == 0 {
      return map[];
    }
    var counter := Walk(Surfer(c, d), start, draws);
    CountsGiveFrequencies(counter, Run(Surfer(c, d), start, draws, |draws|).visits, |draws|);
    rank := Normalise(counter, |draws|);
  }

  // ---------------------------------------------------------------------------
  // What the estimate adds up to
  // ---------------------------------------------------------------------------

  /** A draw of at most 1 never runs off the end of a page's transition model. */
  lemma NextPicks(c: Web, d: real, p: Page, x: real)
    requires p in c.links && x <= 1.0
    ensures Next(c, d, p, x).Some?
  {
    TransitionSumsToOne(c, p, d);
    assert p in c.order;
    SelectTotal(TransitionModel(c, p, d), c.order, x);
  }

  /** Sum of the multiplicities the pages ps have in ms. */
  function Mass(ms: multiset<Page>, ps: seq<Page>): nat
    decreases ps
  {
    if ps == [] then 0 else ms[ps[0]] + Mass(ms, ps[1..])
  }

  lemma {:induction false} MassAdd(ms: multiset<Page>, ps: seq<Page>, x: Page)
    ensures Mass(ms + multiset{x}, ps) == Mass(ms, ps) + CountIn(ps, {x})
    decreases ps
  {
    if ps != [] {
      MassAdd(ms, ps[1..], x);
    }
  }

  /** A duplicate-free list covering every visit meets the visits |visits| times. */
  lemma {:induction false} MassOfVisits(visits: seq<Page>, ps: seq<Page>)
    requires Distinct(ps) && forall p :: p in visits ==> p in ps
    ensures Mass(multiset(visits), ps) == |visits|
  {
    if visits == [] {
      MassEmpty(ps);
    } else {
      var v := visits[..|visits| - 1];
      var x := visits[|visits| - 1];
      assert visits == v + [x];
      MassOfVisits(v, ps);
      MassAdd(multiset(v), ps, x);
      CountInCovered(ps, {x});
    }
  }

  lemma {:induction false} MassEmpty(ps: seq<Page>)
    ensures Mass(multiset{}, ps) == 0
  {
    if ps != [] {
      MassEmpty(ps[1..]);
    }
  }

  lemma SumOfQuotients(a: nat, b: nat, n: nat)
    requires n > 0
    ensures a as real / n as real + b as real / n as real == (a + b) as real / n as real
  {
  }

  lemma WholeQuotient(k: nat, n: nat)
    requires k == n > 0
    ensures k as real / n as real == 1.0
  {
  }

  /** The estimate over ps adds up to the share of the samples that visited ps. */
  lemma {:induction false} FrequenciesTotal(rank: Ranks, visits: seq<Page>, n: nat, ps: seq<Page>)
    requires Frequencies(rank, visits, n) && n > 0
    ensures Total(rank, ps) == Mass(multiset(visits), ps) as real / n as real
    decreases ps
  {
    if ps != [] {
      FrequenciesTotal(rank, visits, n, ps[1..]);
      var p := ps[0];
      if p !in rank {
        assert p !in visits;
      }
      assert Value(rank, p) == multiset(visits)[p] as real / n as real;
      SumOfQuotients(multiset(visits)[p], Mass(multiset(visits), ps[1..]), n);
    }
  }

  /**
   * The source's promise that the estimates sum to 1: it holds whenever
   * every draw is at most 1, as `random.random()` guarantees.
   */
  lemma SampleSumsToOne(c: Web, d: real, start: Page, draws: seq<real>, rank: Ranks)
    requires start in c.links && |draws| > 0
    requires forall j :: 0 <= j < |draws| ==> draws[j] <= 1.0
    requires Frequencies(rank, Visits(c, d, start, draws), |draws|)
    ensures Total(rank, c.order) == 1.0
  {
    var n := |draws|;
    var visits := Run(Surfer(c, d), start, draws, n).visits;
    assert visits == Visits(c, d, start, draws);
    SurferStays(c, d);
    RunCounts(Surfer(c, d), c.links.Keys, start, draws, n);
    RunStays(Surfer(c, d), c.links.Keys, start, draws, n);
    MassOfVisits(visits, c.order);
    FrequenciesTotal(rank, visits, n, c.order);
    WholeQuotient(Mass(multiset(visits), c.order), n);
  }

  /** With a single sample the estimate gives the start page rank 1 and no other page a rank. */
  lemma SampleOneDraw(c: Web, d: real, start: Page, x: real, rank: Ranks)
    requires Frequencies(rank, Visits(c, d, start, [x]), 1)
    ensures rank == map[start := 1.0]
  {
    var visits := Visits(c, d, start, [x]);
    assert visits == [start];
    assert multiset(visits)[start] == 1;
    assert rank.Keys == {start};
  }
}
