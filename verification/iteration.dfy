/**
 * The iterative estimator iterate_pagerank (pagerank/pagerank.py, lines
 * 115-167): the uniform start, the index of each page's parents, the in-place
 * update sweep, the stopping check, and the loop around them, which is
 * bounded here by a fuel count.
 */
module Iteration {
  import opened Wrappers
  import opened Corpora

  // ---------------------------------------------------------------------------
  // Initialisation (lines 124-129)
  // ---------------------------------------------------------------------------

  /** Every page starts with rank 1/N; an empty corpus starts with no ranks. */
  function InitialRanks(c: Web): (m: Ranks)
    ensures m.Keys == c.links.Keys
    ensures forall p :: p in m ==> m[p] == 1.0 / Size(c) as real
  {
    OrderIsCorpus(c);
    if Size(c) == 0 then map[] else Fill(c.order, 1.0 / Size(c) as real, map[])
  }

  lemma InitialRanksSumToOne(c: Web)
    requires Size(c) > 0
    ensures Total(InitialRanks(c), c.order) == 1.0
  {
    UniformTotal(InitialRanks(c), c.order, Size(c));
  }

  // ---------------------------------------------------------------------------
  // The parent index (lines 131-144)
  // ---------------------------------------------------------------------------

  /** page -> the pages whose rank flows into it, in the order they were found. */
  type Parents = map<Page, seq<Page>>

  /**
   * q passes rank to p when q links to p, or when q has no links at all and
   * so is taken to link to every page of the corpus, itself included.
   */
  predicate IsParent(c: Corpus, q: Page, p: Page) {
    q in c.links && (p in c.links[q] || c.links[q] == {})
  }

  /** No page is listed twice as a parent of the same page. */
  predicate Unique(par: Parents) {
    forall p :: p in par ==> Distinct(par[p])
  }

  /** par lists x among the parents of k. */
  predicate Listed(par: Parents, k: Page, x: Page) {
    k in par && x in par[k]
  }

  /** Lines 133-135: a page without an entry gets [q]; otherwise q is added unless it is already listed. */
  function AddLinkParent(par: Parents, p: Page, q: Page): (r: Parents)
    ensures r.Keys == par.Keys + {p}
    ensures forall k, x :: Listed(r, k, x) <==> Listed(par, k, x) || (k == p && x == q)
    ensures Unique(par) ==> Unique(r)
  {
    if p !in par then par[p := [q]]
    else if q in par[p] then par
    else par[p := par[p] + [q]]
  }

  /** Lines 132-135 for one page q: every target of q's links gets q as a parent. */
  function LinkInner(par: Parents, q: Page, ps: seq<Page>, targets: set<Page>): (r: Parents)
    ensures r.Keys == par.Keys + (set p | p in ps && p in targets)
    ensures forall k, x :: Listed(r, k, x) <==> Listed(par, k, x) || (x == q && k in ps && k in targets)
    ensures Unique(par) ==> Unique(r)
    decreases |ps|
  {
    if ps == [] then par
    else
      var par' := if ps[0] in targets then AddLinkParent(par, ps[0], q) else par;
      LinkInner(par', q, ps[1..], targets)
  }

  /** Lines 131-135: the link pass over the pages qs. */
  function LinkPass(c: Web, qs: seq<Page>, par: Parents): (r: Parents)
    requires forall q :: q in qs ==> q in c.links
    ensures forall k :: k in r ==> k in par || k in c.links
    ensures forall k :: k in par ==> k in r
    ensures Unique(par) ==> Unique(r)
    decreases qs
  {
    if qs == [] then par
    else LinkPass(c, qs[1..], LinkInner(par, qs[0], c.order, c.links[qs[0]]))
  }

  /** After the link pass over qs, k lists x exactly when it did before or x is one of qs and links to k. */
  lemma {:induction false} LinkPassListed(c: Web, qs: seq<Page>, par: Parents, k: Page, x: Page)
    requires forall q :: q in qs ==> q in c.links
    ensures Listed(LinkPass(c, qs, par), k, x) <==> Listed(par, k, x) || (x in qs && k in c.links[x])
    decreases qs
  {
    if qs != [] {
      var q, rest := qs[0], qs[1..];
      assert qs == [q] + rest;
      var par' := LinkInner(par, q, c.order, c.links[q]);
      LinkPassListed(c, rest, par', k, x);
      if k in c.links[q] {
        assert k in c.order;
      }
    }
  }

  /**
   * Lines 140-141 for one page p and a page q without links. As written
   * (`guarded` false) the code gives a page without an entry the list [q]
   * and then adds q once more, so such a page gets [q, q]. The corrected version
   * (`guarded` true) adds q once, with the membership test of line 134.
   */
  function AddDanglingParent(par: Parents, p: Page, q: Page, guarded: bool): (r: Parents)
    ensures r.Keys == par.Keys + {p}
    ensures forall k, x :: Listed(r, k, x) <==> Listed(par, k, x) || (k == p && x == q)
    ensures guarded && Unique(par) ==> Unique(r)
  {
    if p !in par then par[p := if guarded then [q] else [q, q]]
    else if guarded && q in par[p] then par
    else par[p := par[p] + [q]]
  }

  /** Lines 139-141: a page q without links becomes a parent of every page ps. */
  function DanglingInner(par: Parents, q: Page, ps: seq<Page>, guarded: bool): (r: Parents)
    ensures r.Keys == par.Keys + (set p | p in ps)
    ensures forall k, x :: Listed(r, k, x) <==> Listed(par, k, x) || (x == q && k in ps)
    ensures guarded && Unique(par) ==> Unique(r)
    decreases |ps|
  {
    if ps == [] then par
    else DanglingInner(AddDanglingParent(par, ps[0], q, guarded), q, ps[1..], guarded)
  }

  /** Lines 137-144: the pass over the pages qs that handles pages without links and gives every page an entry. */
  function DanglingPass(c: Web, qs: seq<Page>, par: Parents, guarded: bool): (r: Parents)
    requires forall q :: q in qs ==> q in c.links
    ensures forall k :: k in r ==> k in par || k in c.links
    ensures forall k :: k in par ==> k in r
    ensures forall q :: q in qs ==> q in r
    ensures guarded && Unique(par) ==> Unique(r)
    decreases qs
  {
    if qs == [] then par
    else
      var q := qs[0];
      var par1 := if c.links[q] == {} then DanglingInner(par, q, c.order, guarded) else par;
      var par2 := if q !in par1 then par1[q := []] else par1;
      DanglingPass(c, qs[1..], par2, guarded)
  }

  /** After the pass over qs, k lists x exactly when it did before or x is one of qs, has no links, and k is a page. */
  lemma {:induction false} DanglingPassListed(c: Web, qs: seq<Page>, par: Parents, guarded: bool, k: Page, x: Page)
    requires forall q :: q in qs ==> q in c.links
    ensures Listed(DanglingPass(c, qs, par, guarded), k, x)
        <==> Listed(par, k, x) || (x in qs && c.links[x] == {} && k in c.order)
    decreases qs
  {
    if qs != [] {
      var q, rest := qs[0], qs[1..];
      assert qs == [q] + rest;
      var par1 := if c.links[q] == {} then DanglingInner(par, q, c.order, guarded) else par;
      var par2 := if q !in par1 then par1[q := []] else par1;
      DanglingPassListed(c, rest, par2, guarded, k, x);
      assert Listed(par2, k, x) <==> Listed(par1, k, x);
    }
  }

  lemma ParentIndexListed(c: Web, guarded: bool)
    ensures var par := DanglingPass(c, c.order, LinkPass(c, c.order, map[]), guarded);
      forall p, q :: Listed(par, p, q) <==> p in c.links && IsParent(c, q, p)
  {
    var links := LinkPass(c, c.order, map[]);
    var par := DanglingPass(c, c.order, links, guarded);
    forall p, q ensures Listed(par, p, q) <==> p in c.links && IsParent(c, q, p) {
      DanglingPassListed(c, c.order, links, guarded, p, q);
      LinkPassListed(c, c.order, map[], p, q);
    }
  }

  /** The whole index: the link pass, then the pass for pages without links. */
  function ParentIndexWith(c: Web, guarded: bool): (par: Parents)
    ensures par.Keys == c.links.Keys
    ensures forall p, q :: p in par ==> (q in par[p] <==> IsParent(c, q, p))
    ensures guarded ==> Unique(par)
    ensures Indexed(c, par)
  {
    ParentIndexListed(c, guarded);
    DanglingPass(c, c.order, LinkPass(c, c.order, map[]), guarded)
  }

  /** The parent index as lines 131-144 build it. */
  function ParentIndexAsWritten(c: Web): (par: Parents)
    ensures par.Keys == c.links.Keys
    ensures forall p, q :: p in par ==> (q in par[p] <==> IsParent(c, q, p))
  {
    ParentIndexWith(c, false)
  }

  /** The corrected parent index, each parent listed once; `IteratePagerankCorrected` runs on it. */
  function ParentIndex(c: Web): (par: Parents)
    ensures par.Keys == c.links.Keys
    ensures forall p, q :: p in par ==> (q in par[p] <==> IsParent(c, q, p))
    ensures Unique(par)
    ensures Indexed(c, par)
  {
    ParentIndexWith(c, true)
  }

  /** Page "a" links to "b", and "b" has no links; "b" comes first. */
  function Example(): Corpus {
    Corpus(map["a" := {"b"}, "b" := {}], ["b", "a"])
  }

  lemma ExampleLinkPass()
    ensures Valid(Example())
    ensures LinkPass(Example(), Example().order, map[]) == map["b" := ["a"]]
  {
    var c := Example();
    assert Valid(c);
    assert c.order[1..] == ["a"] && c.order[1..][1..] == [];
    var none: Parents := map[];
    var links := map["b" := ["a"]];
    assert LinkInner(none, "b", c.order, {}) == none;
    assert LinkInner(none, "a", c.order, {"b"}) == links by {
      assert AddLinkParent(none, "b", "a") == links;
      assert LinkInner(links, "a", ["a"], {"b"}) == links;
    }
    assert LinkPass(c, c.order, none) == LinkPass(c, ["a"], none);
    assert LinkPass(c, ["a"], none) == LinkPass(c, [], links);
  }

  /** The parents of each page after "b", which has no links, is handled. */
  function ExampleAfter(guarded: bool): Parents {
    map["b" := ["a", "b"], "a" := if guarded then ["b"] else ["b", "b"]]
  }

  lemma ExampleDanglingInner(guarded: bool)
    ensures DanglingInner(map["b" := ["a"]], "b", Example().order, guarded) == ExampleAfter(guarded)
  {
    var links := map["b" := ["a"]];
    assert links["b"] + ["b"] == ["a", "b"];
    assert Example().order[1..] == ["a"] && Example().order[1..][1..] == [];
    assert AddDanglingParent(links, "b", "b", guarded) == map["b" := ["a", "b"]];
    assert AddDanglingParent(map["b" := ["a", "b"]], "a", "b", guarded) == ExampleAfter(guarded);
  }

  lemma ExampleDanglingPass(guarded: bool)
    requires Valid(Example())
    ensures DanglingPass(Example(), Example().order, map["b" := ["a"]], guarded) == ExampleAfter(guarded)
  {
    var c := Example();
    var after := ExampleAfter(guarded);
    assert c.order[1..] == ["a"] && c.order[1..][1..] == [];
    ExampleDanglingInner(guarded);
    assert c.links["b"] == {} && "b" in after;
    assert DanglingPass(c, c.order, map["b" := ["a"]], guarded) == DanglingPass(c, ["a"], after, guarded);
    assert c.links["a"] != {} && "a" in after;
    assert DanglingPass(c, ["a"], after, guarded) == DanglingPass(c, [], after, guarded);
  }

  /**
   * In the example corpus "a" has no parent from a link, so when "b" is
   * handled as a page without links, the code as written lists "b" twice
   * for "a" and the sweep adds b's share to "a" twice; the corrected index
   * lists it once.
   */
  lemma DuplicateParent()
    ensures Valid(Example())
    ensures ParentIndexAsWritten(Example())["a"] == ["b", "b"]
    ensures ParentIndex(Example())["a"] == ["b"]
  {
    ExampleLinkPass();
    ExampleDanglingPass(false);
    ExampleDanglingPass(true);
  }

  // ---------------------------------------------------------------------------
  // One sweep (lines 150-157)
  // ---------------------------------------------------------------------------

  /** The parents listed for p; none when p has no entry. */
  function Of(par: Parents, p: Page): seq<Page> {
    if p in par then par[p] else []
  }

  /** Every listed parent is a page of the corpus. */
  predicate Indexed(c: Web, par: Parents) {
    forall p, q :: p in par && q in par[p] ==> q in c.links
  }

  /** `num_links`: N for a parent without links, its number of links otherwise. */
  function Out(c: Corpus, q: Page): (n: nat)
    requires q in c.links && Size(c) > 0
    ensures n > 0
  {
    if Dangling(c, q) then Size(c) else |c.links[q]|
  }

  /** What parent q passes on when it holds the rank x: d times x divided by its number of outgoing links. */
  function Pass(c: Corpus, d: real, x: real, q: Page): (r: real)
    requires q in c.links && Size(c) > 0
    ensures r * Out(c, q) as real == d * x
  {
    d * (x / Out(c, q) as real)
  }

  /**
   * Line 157: what parent q passes on under the ranks m; over its outgoing
   * links q hands out d times its rank in equal parts.
   */
  function Share(c: Corpus, d: real, m: Ranks, q: Page): (r: real)
    requires q in c.links && Size(c) > 0
    ensures r * Out(c, q) as real == d * Value(m, q)
  {
    Pass(c, d, Value(m, q), q)
  }

  /** Lines 152-157: p's rank grows by the share of each parent in qs, read as the ranks stand at that moment. */
  function Accumulate(c: Corpus, d: real, p: Page, qs: seq<Page>, m: Ranks): (r: Ranks)
    requires Size(c) > 0 && forall q :: q in qs ==> q in c.links
    ensures r.Keys == m.Keys + {p}
    ensures forall k :: k in r && k != p ==> r[k] == m[k]
    decreases qs
  {
    if qs == [] then m[p := Value(m, p)]
    else Accumulate(c, d, p, qs[1..], m[p := Value(m, p) + Share(c, d, m, qs[0])])
  }

  /** The sum of the shares of the parents qs under the ranks m. */
  function Inflow(c: Corpus, d: real, m: Ranks, qs: seq<Page>): real
    requires Size(c) > 0 && forall q :: q in qs ==> q in c.links
    decreases qs
  {
    if qs == [] then 0.0 else Share(c, d, m, qs[0]) + Inflow(c, d, m, qs[1..])
  }

  /**
   * Line 151: the damped base every page is reset to in a sweep, (1-d)/N, so
   * that the N pages together hold the 1-d of the random jump.
   */
  function Base(c: Web, d: real): (r: real)
    requires Size(c) > 0
    ensures r * Size(c) as real == 1.0 - d
  {
    (1.0 - d) / Size(c) as real
  }

  /** Lines 151-157 for one page p: reset to (1-d)/N, then add every parent's share. */
  function Update(c: Web, d: real, par: Parents, m: Ranks, p: Page): (r: Ranks)
    requires Indexed(c, par) && p in c.links
    ensures r.Keys == m.Keys + {p}
    ensures forall k :: k in r && k != p ==> r[k] == m[k]
  {
    assert p in c.order;
    Accumulate(c, d, p, Of(par, p), m[p := Base(c, d)])
  }

  /** Lines 150-157 over the pages ps, each update reading the ranks the earlier ones left. */
  function SweepFrom(c: Web, d: real, par: Parents, ps: seq<Page>, m: Ranks): (r: Ranks)
    requires Indexed(c, par) && forall p :: p in ps ==> p in c.links
    ensures forall k :: k in r <==> k in m || k in ps
    ensures forall k :: k in r && k !in ps ==> r[k] == m[k]
    decreases ps
  {
    if ps == [] then m
    else SweepFrom(c, d, par, ps[1..], Update(c, d, par, m, ps[0]))
  }

  /** One pass of the `while True` loop over the whole corpus. */
  function Sweep(c: Web, d: real, par: Parents, m: Ranks): (r: Ranks)
    requires Indexed(c, par)
    ensures r.Keys == m.Keys + c.links.Keys
  {
    OrderIsCorpus(c);
    SweepFrom(c, d, par, c.order, m)
  }

  lemma Product(a: real, b: real)
    requires a >= 0.0 && b >= 0.0
    ensures a * b >= 0.0
  {
  }

  lemma ShareNonNegative(c: Corpus, d: real, m: Ranks, q: Page)
    requires q in c.links && Size(c) > 0 && d >= 0.0 && NonNegative(m)
    ensures Share(c, d, m, q) >= 0.0
  {
    var n := Out(c, q);
    Quotient(Value(m, q), n);
    Product(d, Value(m, q) / n as real);
  }

  /** With d >= 0 and non-negative ranks, accumulating only raises p's rank and keeps every rank non-negative. */
  lemma {:induction false} AccumulateGrows(c: Corpus, d: real, p: Page, qs: seq<Page>, m: Ranks)
    requires Size(c) > 0 && forall q :: q in qs ==> q in c.links
    requires d >= 0.0 && NonNegative(m)
    ensures Accumulate(c, d, p, qs, m)[p] >= Value(m, p)
    ensures NonNegative(Accumulate(c, d, p, qs, m))
    decreases qs
  {
    if qs != [] {
      ShareNonNegative(c, d, m, qs[0]);
      AccumulateGrows(c, d, p, qs[1..], m[p := Value(m, p) + Share(c, d, m, qs[0])]);
    }
  }

  /** Shares do not depend on ranks outside the parents qs. */
  lemma {:induction false} InflowFrame(c: Corpus, d: real, m: Ranks, m': Ranks, qs: seq<Page>)
    requires Size(c) > 0 && forall q :: q in qs ==> q in c.links && Value(m, q) == Value(m', q)
    ensures Inflow(c, d, m, qs) == Inflow(c, d, m', qs)
    decreases qs
  {
    if qs != [] {
      InflowFrame(c, d, m, m', qs[1..]);
      assert Value(m, qs[0]) == Value(m', qs[0]);
      assert Share(c, d, m, qs[0]) == Share(c, d, m', qs[0]);
    }
  }

  /** When p is not among its own parents, accumulating adds exactly the inflow. */
  lemma {:induction false} AccumulateInflow(c: Corpus, d: real, p: Page, qs: seq<Page>, m: Ranks)
    requires Size(c) > 0 && forall q :: q in qs ==> q in c.links
    requires p !in qs
    ensures Accumulate(c, d, p, qs, m)[p] == Value(m, p) + Inflow(c, d, m, qs)
    decreases qs
  {
    if qs != [] {
      var m' := m[p := Value(m, p) + Share(c, d, m, qs[0])];
      AccumulateInflow(c, d, p, qs[1..], m');
      InflowFrame(c, d, m, m', qs[1..]);
    }
  }

  /**
   * The update rule: a page that is not its own parent gets (1-d)/N plus
   * the shares of its parents, under the ranks as they stand when its turn
   * comes (pages earlier in the sweep already hold their new ranks).
   */
  lemma UpdateFormula(c: Web, d: real, par: Parents, m: Ranks, p: Page)
    requires Indexed(c, par) && p in c.links && p !in Of(par, p)
    ensures Size(c) > 0
    ensures Update(c, d, par, m, p)[p] == Base(c, d) + Inflow(c, d, m, Of(par, p))
  {
    assert p in c.order;
    var start := m[p := Base(c, d)];
    AccumulateInflow(c, d, p, Of(par, p), start);
    InflowFrame(c, d, m, start, Of(par, p));
  }

  /** For 0 <= d <= 1 an update keeps the ranks non-negative and puts p at or above (1-d)/N. */
  lemma UpdateFloor(c: Web, d: real, par: Parents, m: Ranks, p: Page)
    requires Indexed(c, par) && p in c.links && 0.0 <= d <= 1.0 && NonNegative(m)
    ensures Size(c) > 0
    ensures Update(c, d, par, m, p)[p] >= Base(c, d)
    ensures NonNegative(Update(c, d, par, m, p))
  {
    assert p in c.order;
    Quotient(1.0 - d, Size(c));
    AccumulateGrows(c, d, p, Of(par, p), m[p := Base(c, d)]);
  }

  /** Pages swept keep at least (1-d)/N, and no rank goes negative. */
  lemma {:induction false} SweepFromFloor(c: Web, d: real, par: Parents, ps: seq<Page>, m: Ranks)
    requires Indexed(c, par) && forall p :: p in ps ==> p in c.links
    requires 0.0 <= d <= 1.0 && NonNegative(m) && Size(c) > 0
    ensures NonNegative(SweepFrom(c, d, par, ps, m))
    ensures forall p :: p in ps ==> SweepFrom(c, d, par, ps, m)[p] >= Base(c, d)
    decreases ps
  {
    if ps != [] {
      var m' := Update(c, d, par, m, ps[0]);
      UpdateFloor(c, d, par, m, ps[0]);
      SweepFromFloor(c, d, par, ps[1..], m');
    }
  }

  /** After a sweep every page holds at least (1-d)/N, and no rank is negative. */
  lemma SweepFloor(c: Web, d: real, par: Parents, m: Ranks)
    requires Indexed(c, par) && 0.0 <= d <= 1.0 && NonNegative(m) && Size(c) > 0
    ensures NonNegative(Sweep(c, d, par, m))
    ensures forall p :: p in c.links ==> Sweep(c, d, par, m)[p] >= Base(c, d)
  {
    SweepFromFloor(c, d, par, c.order, m);
  }

  /**
   * After sweeping ps, a page listed once, at position i, holds what its own
   * update gave it, the update reading the ranks the pages before it left:
   * the pages after it do not touch it.
   */
  lemma {:induction false} SweepFromAt(c: Web, d: real, par: Parents, ps: seq<Page>, m: Ranks, i: nat)
    requires Indexed(c, par) && (forall p :: p in ps ==> p in c.links)
    requires i < |ps| && ps[i] !in ps[i + 1..]
    ensures SweepFrom(c, d, par, ps, m)[ps[i]] == Update(c, d, par, SweepFrom(c, d, par, ps[..i], m), ps[i])[ps[i]]
    decreases i
  {
    var u := Update(c, d, par, m, ps[0]);
    if i == 0 {
      assert ps[..0] == [] && ps[1..] == ps[i + 1..];
    } else {
      assert ps[1..][i - 1] == ps[i] && ps[1..][i..] == ps[i + 1..];
      SweepFromAt(c, d, par, ps[1..], u, i - 1);
      PrefixTail(ps, i);
    }
  }

  /** SweepFromAt for the whole corpus, whose order lists every page once. */
  lemma SweepAtTurn(c: Web, d: real, par: Parents, m: Ranks, i: nat)
    requires Indexed(c, par) && i < |c.order|
    ensures Sweep(c, d, par, m)[c.order[i]]
         == Update(c, d, par, SweepFrom(c, d, par, c.order[..i], m), c.order[i])[c.order[i]]
  {
    DistinctAfter(c.order, i);
    SweepFromAt(c, d, par, c.order, m, i);
  }

  /**
   * The sweep's update rule for the i-th page when it is not its own parent:
   * (1-d)/N plus the shares of its parents, read from the ranks the first i
   * pages left, so a parent earlier in the order is read at its new rank.
   */
  lemma SweepValue(c: Web, d: real, par: Parents, m: Ranks, i: nat)
    requires Indexed(c, par) && i < |c.order| && c.order[i] !in Of(par, c.order[i])
    ensures Size(c) > 0
    ensures Sweep(c, d, par, m)[c.order[i]]
         == Base(c, d) + Inflow(c, d, SweepFrom(c, d, par, c.order[..i], m), Of(par, c.order[i]))
  {
    SweepAtTurn(c, d, par, m, i);
    UpdateFormula(c, d, par, SweepFrom(c, d, par, c.order[..i], m), c.order[i]);
  }

  /**
   * The rank p reaches from v when it gathers the shares of qs in turn while
   * every other page keeps its rank in m: a parent other than p passes on
   * its share under m, and p itself passes on its share of what it holds so
   * far.
   */
  function Gathered(c: Corpus, d: real, p: Page, qs: seq<Page>, m: Ranks, v: real): real
    requires Size(c) > 0 && forall q :: q in qs ==> q in c.links
    decreases qs
  {
    if qs == [] then v
    else Gathered(c, d, p, qs[1..], m, v + (if qs[0] == p then Pass(c, d, v, p) else Share(c, d, m, qs[0])))
  }

  /** Accumulate computes Gathered, whatever p starts from. */
  lemma {:induction false} AccumulateGathered(c: Corpus, d: real, p: Page, qs: seq<Page>, m: Ranks, v: real)
    requires Size(c) > 0 && forall q :: q in qs ==> q in c.links
    ensures Accumulate(c, d, p, qs, m[p := v])[p] == Gathered(c, d, p, qs, m, v)
    decreases qs
  {
    if qs != [] {
      var q := qs[0];
      var w := v + (if q == p then Pass(c, d, v, p) else Share(c, d, m, q));
      assert Value(m[p := v], p) + Share(c, d, m[p := v], q) == w;
      assert m[p := v][p := w] == m[p := w];
      AccumulateGathered(c, d, p, qs[1..], m, w);
    }
  }

  /** Parents other than p just add their shares. */
  lemma {:induction false} GatheredInflow(c: Corpus, d: real, p: Page, qs: seq<Page>, m: Ranks, v: real)
    requires Size(c) > 0 && (forall q :: q in qs ==> q in c.links) && p !in qs
    ensures Gathered(c, d, p, qs, m, v) == v + Inflow(c, d, m, qs)
    decreases qs
  {
    if qs != [] {
      GatheredInflow(c, d, p, qs[1..], m, v + Share(c, d, m, qs[0]));
    }
  }

  /** Parents pre other than p leave p holding its starting value plus their inflow. */
  lemma {:induction false} GatheredPrefix(c: Corpus, d: real, p: Page, pre: seq<Page>, ys: seq<Page>, m: Ranks, v: real)
    requires Size(c) > 0 && (forall q :: q in pre ==> q in c.links) && (forall q :: q in ys ==> q in c.links)
    requires p !in pre
    ensures forall q :: q in pre + ys ==> q in c.links
    ensures Gathered(c, d, p, pre + ys, m, v) == Gathered(c, d, p, ys, m, v + Inflow(c, d, m, pre))
    decreases pre
  {
    if pre == [] {
      assert pre + ys == ys;
    } else {
      var w := v + Share(c, d, m, pre[0]);
      assert (pre + ys)[0] == pre[0] && (pre + ys)[1..] == pre[1..] + ys;
      GatheredPrefix(c, d, p, pre[1..], ys, m, w);
      assert w + Inflow(c, d, m, pre[1..]) == v + Inflow(c, d, m, pre);
    }
  }

  /** When p is the next parent, it adds its own share of what it holds. */
  lemma GatheredSelfStep(c: Corpus, d: real, p: Page, qs: seq<Page>, m: Ranks, v: real)
    requires Size(c) > 0 && (forall q :: q in qs ==> q in c.links) && qs != [] && qs[0] == p
    ensures Gathered(c, d, p, qs, m, v) == Gathered(c, d, p, qs[1..], m, v + Pass(c, d, v, p))
  {
  }

  /**
   * A page listed once among its own parents, after the parents pre and
   * before the parents post: by its own turn it holds a, its starting value
   * plus the shares of pre, and it adds what it passes on when holding a.
   */
  lemma GatheredSelf(c: Corpus, d: real, p: Page, pre: seq<Page>, post: seq<Page>, m: Ranks, v: real)
    requires Size(c) > 0 && p in c.links
    requires (forall q :: q in pre ==> q in c.links) && (forall q :: q in post ==> q in c.links)
    requires p !in pre && p !in post
    ensures forall q :: q in pre + [p] + post ==> q in c.links
    ensures var a := v + Inflow(c, d, m, pre);
      Gathered(c, d, p, pre + [p] + post, m, v) == a + Pass(c, d, a, p) + Inflow(c, d, m, post)
  {
    var a := v + Inflow(c, d, m, pre);
    var ys := [p] + post;
    assert pre + [p] + post == pre + ys;
    GatheredPrefix(c, d, p, pre, ys, m, v);
    assert ys[1..] == post;
    GatheredSelfStep(c, d, p, ys, m, a);
    GatheredInflow(c, d, p, post, m, a + Pass(c, d, a, p));
  }

  /** The same for Accumulate over qs = pre + [p] + post, with p reset to v before its parents are read. */
  lemma AccumulateSelf(c: Corpus, d: real, p: Page, qs: seq<Page>, pre: seq<Page>, post: seq<Page>, m: Ranks, v: real)
    requires Size(c) > 0 && p in c.links && forall q :: q in qs ==> q in c.links
    requires qs == pre + [p] + post && p !in pre && p !in post
    ensures (forall q :: q in pre ==> q in c.links) && (forall q :: q in post ==> q in c.links)
    ensures var a := v + Inflow(c, d, m, pre);
      Accumulate(c, d, p, qs, m[p := v])[p] == a + Pass(c, d, a, p) + Inflow(c, d, m, post)
  {
    assert (forall q :: q in pre ==> q in qs) && (forall q :: q in post ==> q in qs);
    GatheredSelf(c, d, p, pre, post, m, v);
    AccumulateGathered(c, d, p, qs, m, v);
  }

  /**
   * The update rule for a page listed once among its own parents (with the
   * corrected index, every page without links), after the parents pre and
   * before the parents post: it is reset to (1-d)/N, gathers the shares of
   * pre, passes on its own share of that partial rank to itself, then
   * gathers the shares of post.
   */
  lemma UpdateSelf(c: Web, d: real, par: Parents, m: Ranks, p: Page, pre: seq<Page>, post: seq<Page>)
    requires Indexed(c, par) && p in c.links
    requires Of(par, p) == pre + [p] + post && p !in pre && p !in post
    ensures Size(c) > 0
    ensures (forall q :: q in pre ==> q in c.links) && (forall q :: q in post ==> q in c.links)
    ensures var a := Base(c, d) + Inflow(c, d, m, pre);
      Update(c, d, par, m, p)[p] == a + Pass(c, d, a, p) + Inflow(c, d, m, post)
  {
    assert p in c.order;
    AccumulateSelf(c, d, p, Of(par, p), pre, post, m, Base(c, d));
  }

  /**
   * The sweep's update rule for the i-th page when it is listed once among
   * its own parents: what UpdateSelf says, read from the ranks `before` the
   * first i pages left.
   */
  lemma SweepValueSelf(c: Web, d: real, par: Parents, m: Ranks, i: nat, before: Ranks, pre: seq<Page>, post: seq<Page>)
    requires Indexed(c, par) && i < |c.order| && before == SweepFrom(c, d, par, c.order[..i], m)
    requires Of(par, c.order[i]) == pre + [c.order[i]] + post && c.order[i] !in pre && c.order[i] !in post
    ensures Size(c) > 0
    ensures (forall q :: q in pre ==> q in c.links) && (forall q :: q in post ==> q in c.links)
    ensures var a := Base(c, d) + Inflow(c, d, before, pre);
      Sweep(c, d, par, m)[c.order[i]] == a + Pass(c, d, a, c.order[i]) + Inflow(c, d, before, post)
  {
    SweepAtTurn(c, d, par, m, i);
    UpdateSelf(c, d, par, before, c.order[i], pre, post);
  }

  /** A single page with no links, which is therefore its own parent. */
  function Lone(): Web {
    var c := Corpus(map["a" := {}], ["a"]);
    assert Valid(c);
    c
  }

  lemma LoneIndex(guarded: bool)
    ensures ParentIndexWith(Lone(), guarded) == map["a" := if guarded then ["a"] else ["a", "a"]]
  {
    var c := Lone();
    assert c.order[1..] == [];
    var none: Parents := map[];
    var after := map["a" := if guarded then ["a"] else ["a", "a"]];
    assert LinkPass(c, c.order, none) == LinkPass(c, [], LinkInner(none, "a", c.order, {}));
    assert LinkInner(none, "a", c.order, {}) == none;
    assert DanglingInner(none, "a", c.order, guarded) == after by {
      assert AddDanglingParent(none, "a", "a", guarded) == after;
    }
    assert DanglingPass(c, c.order, none, guarded) == DanglingPass(c, [], after, guarded);
  }

  /** The numbers of the single-page corpus at d = 1/2: the base is 1/2 and the page passes on half its rank. */
  lemma LoneFacts()
    ensures Size(Lone()) == 1 && "a" in Lone().links
    ensures Lone().order[0] == "a" && Lone().links.Keys == {"a"}
    ensures Base(Lone(), 0.5) == 0.5
    ensures forall x :: Pass(Lone(), 0.5, x, "a") == x / 2.0
  {
    assert Out(Lone(), "a") == 1;
  }

  /** In a sweep the first page of the order holds what its update gave it, read from the ranks the sweep started with. */
  lemma SweepFirst(c: Web, d: real, par: Parents, m: Ranks)
    requires Indexed(c, par) && |c.order| > 0
    ensures Sweep(c, d, par, m)[c.order[0]] == Update(c, d, par, m, c.order[0])[c.order[0]]
  {
    SweepAtTurn(c, d, par, m, 0);
    assert c.order[..0] == [];
  }

  /**
   * Updating the single page without links, at d = 1/2, with the index as
   * written: it is reset to 1/2, reads itself once (0.75) and then again
   * (1.125), whatever the ranks before.
   */
  lemma LoneUpdateAsWritten(m: Ranks)
    ensures Update(Lone(), 0.5, ParentIndexAsWritten(Lone()), m, "a")["a"] == 1.125
  {
    LoneFacts();
    LoneIndex(false);
    var c := Lone();
    var par := ParentIndexAsWritten(c);
    assert Of(par, "a") == ["a", "a"] && ["a", "a"][1..] == ["a"];
    AccumulateGathered(c, 0.5, "a", ["a", "a"], m, 0.5);
    GatheredSelfStep(c, 0.5, "a", ["a", "a"], m, 0.5);
    var once := 0.5 + Pass(c, 0.5, 0.5, "a");
    GatheredSelfStep(c, 0.5, "a", ["a"], m, once);
  }

  /**
   * The same update with the corrected index: the page reads itself once and
   * gets 0.75, which is (1-d)/N plus what it passes on from its reset rank.
   */
  lemma LoneUpdateCorrected(m: Ranks)
    ensures Update(Lone(), 0.5, ParentIndex(Lone()), m, "a")["a"] == 0.75
  {
    LoneFacts();
    LoneIndex(true);
    var c := Lone();
    var par := ParentIndex(c);
    assert Of(par, "a") == [] + ["a"] + [];
    UpdateSelf(c, 0.5, par, m, "a", [], []);
  }

  /**
   * One sweep over the single page without links, from rank 1 with d = 1/2:
   * with the index as written the page reads itself twice and gets 1.125;
   * with the corrected index it gets 0.75.
   */
  lemma LoneSweep()
    ensures Sweep(Lone(), 0.5, ParentIndexAsWritten(Lone()), map["a" := 1.0])["a"] == 1.125
    ensures Sweep(Lone(), 0.5, ParentIndex(Lone()), map["a" := 1.0])["a"] == 0.75
  {
    LoneFacts();
    var c, m := Lone(), map["a" := 1.0];
    assert c.order[0] == "a";
    SweepFirst(c, 0.5, ParentIndexAsWritten(c), m);
    SweepFirst(c, 0.5, ParentIndex(c), m);
    LoneUpdateAsWritten(m);
    LoneUpdateCorrected(m);
  }

  /** The rank a sweep of the one-page corpus gives its page: 1.125 as written, 0.75 corrected. */
  function LoneRank(guarded: bool): real {
    if guarded then 0.75 else 1.125
  }

  /** On the one-page corpus an update gives its page the same rank whatever it starts from. */
  lemma LoneUpdate(guarded: bool, m: Ranks)
    ensures Update(Lone(), 0.5, ParentIndexWith(Lone(), guarded), m, "a")["a"] == LoneRank(guarded)
  {
    if guarded {
      LoneUpdateCorrected(m);
    } else {
      LoneUpdateAsWritten(m);
    }
  }

  /** The same for a whole sweep, which on this corpus is the update of its one page. */
  lemma LoneSweepValue(guarded: bool, m: Ranks, r: Ranks)
    requires r == Sweep(Lone(), 0.5, ParentIndexWith(Lone(), guarded), m)
    ensures r.Keys == m.Keys + {"a"} && r["a"] == LoneRank(guarded)
  {
    LoneFacts();
    SweepFirst(Lone(), 0.5, ParentIndexWith(Lone(), guarded), m);
    LoneUpdate(guarded, m);
  }

  /** Ranks defined on "a" alone are the one-entry map of their value there. */
  lemma SinglePage(r: Ranks, v: real)
    requires r.Keys == {"a"} && r["a"] == v
    ensures r == map["a" := v]
  {
  }

  /** The run on the one-page corpus: the first sweep moves the rank away from 1, the second settles. */
  lemma LoneLoop(guarded: bool)
    ensures var par := ParentIndexWith(Lone(), guarded);
      var v := map["a" := LoneRank(guarded)];
      Loop(m => Sweep(Lone(), 0.5, par, m), Lone().order, map["a" := 1.0], 2) == Some(Converged(v, v))
  {
    var c := Lone();
    var par := ParentIndexWith(c, guarded);
    var step := (m: Ranks) => Sweep(c, 0.5, par, m);
    var v := map["a" := LoneRank(guarded)];
    LoneFacts();
    LoneSweepValue(guarded, map["a" := 1.0], step(map["a" := 1.0]));
    SinglePage(step(map["a" := 1.0]), LoneRank(guarded));
    LoneSweepValue(guarded, v, step(v));
    SinglePage(step(v), LoneRank(guarded));
    assert c.order == ["a"];
    assert !Settled(c.order, map["a" := 1.0], v) by {
      assert Abs(Value(v, "a") - Value(map["a" := 1.0], "a")) > Tolerance;
    }
    assert Settled(c.order, v, v);
    assert Loop(step, c.order, v, 1) == Some(Converged(v, v));
  }

  /**
   * iterate_pagerank end to end on the one-page corpus {a: {}} with d = 1/2:
   * the code returns {a: 1.125} and the corrected index {a: 0.75}, so with
   * either index the answer is not a distribution that sums to 1.
   */
  lemma LoneIterate()
    ensures IteratePagerank(Lone(), 0.5, 2) == Some(map["a" := 1.125])
    ensures IteratePagerankCorrected(Lone(), 0.5, 2) == Some(map["a" := 0.75])
  {
    LoneFacts();
    var c := Lone();
    assert InitialRanks(c) == map["a" := 1.0] by {
      assert c.order == ["a"] && c.links.Keys == {"a"};
    }
    LoneLoop(false);
    LoneLoop(true);
  }

  /**
   * In the example corpus, updating "a" with the index as written adds the
   * share of "b" twice; with the corrected index it adds it once.
   */
  lemma ExampleUpdate(d: real, m: Ranks)
    ensures Valid(Example())
    ensures Update(Example(), d, ParentIndexAsWritten(Example()), m, "a")["a"]
         == Base(Example(), d) + 2.0 * Share(Example(), d, m, "b")
    ensures Update(Example(), d, ParentIndex(Example()), m, "a")["a"]
         == Base(Example(), d) + Share(Example(), d, m, "b")
  {
    var c := Example();
    DuplicateParent();
    var asWritten, corrected := ParentIndexAsWritten(c), ParentIndex(c);
    assert Of(asWritten, "a") == ["b", "b"] && Of(corrected, "a") == ["b"];
    UpdateFormula(c, d, asWritten, m, "a");
    UpdateFormula(c, d, corrected, m, "a");
    assert Inflow(c, d, m, ["b"]) == Share(c, d, m, "b");
    assert Inflow(c, d, m, ["b", "b"]) == Share(c, d, m, "b") + Inflow(c, d, m, ["b"]);
  }

  // ---------------------------------------------------------------------------
  // The stopping check (lines 159-167)
  // ---------------------------------------------------------------------------

  /** The largest change per page that still counts as converged. */
  const Tolerance: real := 0.001

  function Abs(x: real): (r: real)
    ensures r >= 0.0 && (r == x || r == -x)
  {
    if x < 0.0 then -x else x
  }

  /** No page of ps moved by more than the tolerance. */
  predicate Settled(ps: seq<Page>, prev: Ranks, cur: Ranks) {
    forall p :: p in ps ==> Abs(Value(cur, p) - Value(prev, p)) <= Tolerance
  }

  /** Lines 159-164: scan until some page moved by more than the tolerance. */
  method AccuracyCheck(ps: seq<Page>, prev: Ranks, cur: Ranks) returns (ok: bool)
    ensures ok <==> forall p :: p in ps ==> -Tolerance <= Value(cur, p) - Value(prev, p) <= Tolerance
    ensures ok <==> Settled(ps, prev, cur)
  {
    ok := true;
    var i := 0;
    while i < |ps|
      invariant 0 <= i <= |ps|
      invariant ok
      invariant forall j :: 0 <= j < i ==> Abs(Value(cur, ps[j]) - Value(prev, ps[j])) <= Tolerance
    {
      if Abs(Value(cur, ps[i]) - Value(prev, ps[i])) > Tolerance {
        ok := false;
        break;
      }
      i := i + 1;
    }
  }

  // ---------------------------------------------------------------------------
  // The loop (lines 146-167)
  // ---------------------------------------------------------------------------

  /** A converged run: the ranks before the last sweep and the ranks it produced. */
  datatype Converged = Converged(previous: Ranks, ranks: Ranks)

  /**
   * Lines 146-167, `while True` with at most `fuel` rounds: apply `step`
   * (one sweep) and stop at the first round that moved no page of ps by more
   * than the tolerance; None when the fuel runs out first.
   */
  function Loop(step: Ranks -> Ranks, ps: seq<Page>, m: Ranks, fuel: nat): (r: Option<Converged>)
    ensures r.Some? ==> r.value.ranks == step(r.value.previous) && Settled(ps, r.value.previous, r.value.ranks)
    decreases fuel
  {
    if fuel == 0 then None
    else
      var next := step(m);
      if Settled(ps, m, next) then Some(Converged(m, next))
      else Loop(step, ps, next, fuel - 1)
  }

  /** Whatever the step preserves holds of the ranks before the last step and of the ranks the loop stops at. */
  lemma {:induction false} LoopKeeps(step: Ranks -> Ranks, ps: seq<Page>, m: Ranks, fuel: nat, inv: Ranks -> bool)
    requires Loop(step, ps, m, fuel).Some?
    requires inv(m) && forall x :: inv(x) ==> inv(step(x))
    ensures inv(Loop(step, ps, m, fuel).value.previous)
    ensures inv(Loop(step, ps, m, fuel).value.ranks)
    decreases fuel
  {
    if !Settled(ps, m, step(m)) {
      LoopKeeps(step, ps, step(m), fuel - 1, inv);
    }
  }

  /** More fuel never changes a converged answer: the bound only cuts off runs that had not stopped yet. */
  lemma {:induction false} LoopMoreFuel(step: Ranks -> Ranks, ps: seq<Page>, m: Ranks, fuel: nat, more: nat)
    requires fuel <= more && Loop(step, ps, m, fuel).Some?
    ensures Loop(step, ps, m, more) == Loop(step, ps, m, fuel)
    decreases fuel
  {
    if !Settled(ps, m, step(m)) {
      LoopMoreFuel(step, ps, step(m), fuel - 1, more - 1);
    }
  }

  /**
   * iterate_pagerank with at most `fuel` sweeps: the uniform start, the
   * parent index as lines 131-144 build it (`guarded` false) or corrected
   * (`guarded` true), and the loop.
   */
  function IterateWith(c: Web, d: real, fuel: nat, guarded: bool): (r: Option<Ranks>)
    ensures r.Some? ==> r.value.Keys == c.links.Keys
  {
    var par := ParentIndexWith(c, guarded);
    var step := (m: Ranks) => Sweep(c, d, par, m);
    var run := Loop(step, c.order, InitialRanks(c), fuel);
    if run.Some? then
      LoopKeeps(step, c.order, InitialRanks(c), fuel, (x: Ranks) => x.Keys == c.links.Keys);
      Some(run.value.ranks)
    else None
  }

  /** iterate_pagerank as the code computes it, duplicate parents included. */
  function IteratePagerank(c: Web, d: real, fuel: nat): (r: Option<Ranks>)
    ensures r.Some? ==> r.value.Keys == c.links.Keys
  {
    IterateWith(c, d, fuel, false)
  }

  /** iterate_pagerank on the corrected parent index, each parent listed once. */
  function IteratePagerankCorrected(c: Web, d: real, fuel: nat): (r: Option<Ranks>)
    ensures r.Some? ==> r.value.Keys == c.links.Keys
  {
    IterateWith(c, d, fuel, true)
  }

  /**
   * For 0 <= d <= 1, with either index, a converged answer gives every page
   * at least (1-d)/N, and it is one sweep away from ranks it differs from by
   * at most the tolerance on every page.
   */
  lemma IteratePagerankConverged(c: Web, d: real, fuel: nat, guarded: bool)
    requires 0.0 <= d <= 1.0 && IterateWith(c, d, fuel, guarded).Some?
    ensures var par := ParentIndexWith(c, guarded);
      var run := Loop(m => Sweep(c, d, par, m), c.order, InitialRanks(c), fuel).value;
      && IterateWith(c, d, fuel, guarded).value == run.ranks == Sweep(c, d, par, run.previous)
      && Settled(c.order, run.previous, run.ranks)
    ensures forall p :: p in c.links ==> Size(c) > 0 && IterateWith(c, d, fuel, guarded).value[p] >= Base(c, d)
  {
    var par := ParentIndexWith(c, guarded);
    var step := (m: Ranks) => Sweep(c, d, par, m);
    var m0 := InitialRanks(c);
    var run := Loop(step, c.order, m0, fuel).value;
    if Size(c) > 0 {
      Quotient(1.0, Size(c));
      forall x | NonNegative(x) ensures NonNegative(step(x)) {
        SweepFloor(c, d, par, x);
      }
      LoopKeeps(step, c.order, m0, fuel, (x: Ranks) => NonNegative(x));
      SweepFloor(c, d, par, run.previous);
    }
  }
}
