/**
 * The link graph both PageRank estimators read (pagerank/pagerank.py): a map
 * from each page to the set of pages it links to, and the order in which the
 * source's dictionary yields its pages. Ranks and probabilities are exact
 * reals.
 */
module Corpora {

  type Page = string

  /** Page -> rank (or probability). A page that is absent counts as 0. */
  type Ranks = map<Page, real>

  datatype Corpus = Corpus(links: map<Page, set<Page>>, order: seq<Page>)

  predicate Distinct(s: seq<Page>) {
    forall i, j :: 0 <= i < j < |s| ==> s[i] != s[j]
  }

  /**
   * What `crawl` hands over: the order lists every page once, every link
   * target is a page of the corpus, and no page links to itself.
   */
  predicate Valid(c: Corpus) {
    && Distinct(c.order)
    && (forall p :: p in c.links ==> p in c.order)
    && (forall p :: p in c.order ==> p in c.links)
    && (forall p, q :: p in c.links && q in c.links[p] ==> q in c.links && q != p)
  }

  /** In a list without repeats, no page comes back after its own position. */
  lemma DistinctAfter(s: seq<Page>, i: nat)
    requires Distinct(s) && i < |s|
    ensures s[i] !in s[i + 1..]
  {
    var rest := s[i + 1..];
    forall k | 0 <= k < |rest|
      ensures rest[k] != s[i]
    {
      assert rest[k] == s[i + 1 + k];
    }
  }

  /** The first i pages of s, after the first of them, are the first i-1 pages of s's tail. */
  lemma PrefixTail(s: seq<Page>, i: nat)
    requires 0 < i <= |s|
    ensures s[..i][0] == s[0] && s[..i][1..] == s[1..][..i - 1]
  {
  }

  /** A corpus that satisfies Valid. */
  type Web = c: Corpus | Valid(c) witness Corpus(map[], [])

  /** The source's `len(corpus)`. */
  function Size(c: Corpus): nat {
    |c.order|
  }

  /** A page with no outgoing links. */
  predicate Dangling(c: Corpus, p: Page)
    requires p in c.links
  {
    c.links[p] == {}
  }

  lemma OrderIsCorpus(c: Corpus)
    requires Valid(c)
    ensures (set p | p in c.order) == c.links.Keys
  {
  }

  function Value(m: Ranks, p: Page): real {
    if p in m then m[p] else 0.0
  }

  /** Sum of the values of the pages ps. */
  function Total(m: Ranks, ps: seq<Page>): real
    decreases ps
  {
    if ps == [] then 0.0 else Value(m, ps[0]) + Total(m, ps[1..])
  }

  predicate NonNegative(m: Ranks) {
    forall p :: p in m ==> m[p] >= 0.0
  }

  /** Sets every page of ps to v, keeping the other entries of acc. */
  function Fill(ps: seq<Page>, v: real, acc: Ranks): (r: Ranks)
    ensures r.Keys == acc.Keys + set p | p in ps
    ensures forall p :: p in r ==> r[p] == if p in ps then v else acc[p]
  {
    if ps == [] then acc else Fill(ps[1..], v, acc[ps[0] := v])
  }

  lemma {:induction false} TotalNonNegative(m: Ranks, ps: seq<Page>)
    requires NonNegative(m)
    ensures Total(m, ps) >= 0.0
    decreases ps
  {
    if ps != [] {
      TotalNonNegative(m, ps[1..]);
    }
  }

  /** Summing the same value over ps gives |ps| times it. */
  lemma {:induction false} TotalConstant(m: Ranks, ps: seq<Page>, v: real)
    requires forall p :: p in ps ==> p in m && m[p] == v
    ensures Total(m, ps) == |ps| as real * v
    decreases ps
  {
    if ps != [] {
      TotalConstant(m, ps[1..], v);
    }
  }

  /** How many entries of ps lie in s. */
  function CountIn(ps: seq<Page>, s: set<Page>): nat {
    if ps == [] then 0 else (if ps[0] in s then 1 else 0) + CountIn(ps[1..], s)
  }

  /** A duplicate-free list that covers s meets s exactly |s| times. */
  lemma {:induction false} CountInCovered(ps: seq<Page>, s: set<Page>)
    requires Distinct(ps) && forall p :: p in s ==> p in ps
    ensures CountIn(ps, s) == |s|
  {
    if ps != [] {
      var rest := ps[1..];
      assert forall p :: p in s - {ps[0]} ==> p in rest;
      CountInCovered(rest, s - {ps[0]});
      assert ps[0] !in rest;
      CountInIgnores(rest, s, ps[0]);
    }
  }

  lemma {:induction false} CountInIgnores(ps: seq<Page>, s: set<Page>, x: Page)
    requires x !in ps
    ensures CountIn(ps, s - {x}) == CountIn(ps, s)
  {
    if ps != [] {
      CountInIgnores(ps[1..], s, x);
    }
  }

  lemma ScaleBack(x: real, n: nat)
    requires n > 0
    ensures n as real * (x / n as real) == x
  {
  }

  lemma Quotient(x: real, n: nat)
    requires n > 0 && x >= 0.0
    ensures x / n as real >= 0.0
    ensures x > 0.0 ==> x / n as real > 0.0
  {
  }

  /** N copies of 1/N sum to 1. */
  lemma UniformTotal(m: Ranks, ps: seq<Page>, n: nat)
    requires n > 0 && |ps| == n
    requires forall p :: p in ps ==> p in m && m[p] == 1.0 / n as real
    ensures Total(m, ps) == 1.0
  {
    TotalConstant(m, ps, 1.0 / n as real);
    ScaleBack(1.0, n);
  }
}
