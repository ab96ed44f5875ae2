/** The power method: update passes over a snapshot of the ranks, each letting
    every page hand its rank on along its links, until no rank moves by more
    than the tolerance. */
module Iteration {
  import opened Pages
  import opened Sums
  import opened Dicts
  import opened Transitions

  /** `SAMPLES`, the sampler's sample count; the power method reuses it in its tolerance. */
  const Samples: int := 10000

  /** `convergence_threshold`. */
  const ConvergenceThreshold: real := 0.001

  /** The stopping tolerance `(1 / SAMPLES) * convergence_threshold`. */
  const Tolerance: real := (1.0 / Samples as real) * ConvergenceThreshold

  function Abs(x: real): (r: real)
    ensures 0.0 <= r && (r == x || r == -x)
  {
    if x < 0.0 then -x else x
  }

  /** `1 / k`. */
  function Reciprocal(k: int): real
    requires k > 0
  {
    1.0 / k as real
  }

  /** An equal share of `x` among `k` receivers, `x / k`, written as a product
      with the reciprocal so that each count `k` is divided by only once. */
  function Portion(x: real, k: int): real
    requires k > 0
  {
    x * Reciprocal(k)
  }

  /** The share is the quotient `x / k`. */
  lemma PortionIsQuotient(x: real, k: int)
    requires k > 0
    ensures Portion(x, k) == x / k as real
  {
  }

  /** `k` equal shares of `x` add up to `x`. */
  lemma PortionsAddUp(x: real, k: int)
    requires k > 0
    ensures Copies(k, Portion(x, k)) == x
  {
    CopiesIsProduct(k, Portion(x, k));
  }

  /** What `link` hands on to `page` in one pass: an equal share of its rank
      among its links when it links to `page`, and an equal share among all
      pages when it has no links at all. Pages outside the corpus hand on nothing. */
  function Contribution(corpus: Corpus, ranks: map<Page, real>, page: Page, link: Page): real
  {
    if link !in corpus then 0.0
    else
      var links := corpus[link];
      (if page in links then Portion(At(ranks)(link), |links|) else 0.0)
      + (if |links| == 0 then Portion(At(ranks)(link), |corpus|) else 0.0)
  }

  /** The contributions to `page`, as a function of the contributing page. */
  function Contributions(corpus: Corpus, ranks: map<Page, real>, page: Page): Page -> real
  {
    link => Contribution(corpus, ranks, page, link)
  }

  /** The contributions of `link`, as a function of the receiving page. */
  function Received(corpus: Corpus, ranks: map<Page, real>, link: Page): Page -> real
  {
    page => Contribution(corpus, ranks, page, link)
  }

  /** Everything the pages of `links` hand on to `page` in one pass, added up
      one contributing page at a time. */
  ghost function InFlowFrom(corpus: Corpus, ranks: map<Page, real>, page: Page, links: set<Page>): real
    decreases |links|
  {
    if links == {} then 0.0
    else
      var link := Pick(links);
      Contribution(corpus, ranks, page, link) + InFlowFrom(corpus, ranks, page, links - {link})
  }

  /** Everything the corpus hands on to `page` in one pass. */
  ghost function InFlow(corpus: Corpus, ranks: map<Page, real>, page: Page): real
  {
    InFlowFrom(corpus, ranks, page, corpus.Keys)
  }

  /** The in-flow from `links` is the sum of their contributions. */
  lemma {:induction false} InFlowFromIsSum(corpus: Corpus, ranks: map<Page, real>, page: Page, links: set<Page>)
    ensures InFlowFrom(corpus, ranks, page, links) == SumOf(links, Contributions(corpus, ranks, page))
    decreases |links|
  {
    if links != {} {
      InFlowFromIsSum(corpus, ranks, page, links - {Pick(links)});
    }
  }

  /** The damped rank made of an in-flow: `d * flow + (1 - d) / N`. */
  function Damped(d: real, flow: real, n: int): real
    requires n > 0
  {
    d * flow + Portion(1.0 - d, n)
  }

  /** The next rank of `page` after one pass over the snapshot `ranks`. */
  ghost function NewRank(corpus: Corpus, ranks: map<Page, real>, d: real, page: Page): real
    requires page in corpus
  {
    Damped(d, InFlow(corpus, ranks, page), |corpus|)
  }

  /** One pass: the next rank of every page, computed from the snapshot `ranks` alone. */
  ghost function Pass(corpus: Corpus, ranks: map<Page, real>, d: real): (r: map<Page, real>)
    ensures r.Keys == corpus.Keys
  {
    map p | p in corpus :: NewRank(corpus, ranks, d, p)
  }

  /** The starting ranks: `1 / N` for every page. */
  function Uniform(corpus: Corpus): (r: map<Page, real>)
    ensures r.Keys == corpus.Keys
  {
    map p | p in corpus :: UniformProb(|corpus|)
  }

  /** The snapshot after `k` passes. */
  ghost function Iterate(corpus: Corpus, d: real, k: nat): (r: map<Page, real>)
    ensures r.Keys == corpus.Keys
  {
    if k == 0 then Uniform(corpus) else Pass(corpus, Iterate(corpus, d, k - 1), d)
  }

  /** No rank of `ranks` moves by the tolerance or more in `next`. */
  predicate Converged(ranks: map<Page, real>, next: map<Page, real>)
    requires ranks.Keys <= next.Keys
  {
    forall k | k in ranks :: Abs(next[k] - ranks[k]) < Tolerance
  }

  /** The pass after snapshot `k` stops the iteration. */
  ghost predicate Settles(corpus: Corpus, d: real, k: nat)
  {
    Converged(Iterate(corpus, d, k), Iterate(corpus, d, k + 1))
  }

  /** None of the first `k` snapshots stops the iteration. */
  ghost predicate NoneSettle(corpus: Corpus, d: real, k: nat)
  {
    forall j | 0 <= j < k :: !Settles(corpus, d, j)
  }

  /** The inner loop of a pass: `page_rank` accumulates, over every page of the
      corpus, what that page hands on to `page`. */
  method InFlowLoop(corpus: Corpus, ranks: map<Page, real>, page: Page) returns (pageRank: real)
    requires corpus.Keys <= ranks.Keys
    ensures pageRank == InFlow(corpus, ranks, page)
  {
    ghost var f := Contributions(corpus, ranks, page);
    pageRank := 0.0;
    var todo := corpus.Keys;
    while todo != {}
      invariant todo <= corpus.Keys
      invariant pageRank == SumOf(corpus.Keys - todo, f)
      decreases |todo|
    {
      var link :| link in todo;
      pageRank := AddContribution(corpus, ranks, page, link, pageRank);
      SumMove(corpus.Keys, todo, f, link);
      todo := todo - {link};
    }
    SumAll(corpus.Keys, f);
    InFlowFromIsSum(corpus, ranks, page, corpus.Keys);
  }

  /** One round of the inner loop: `link`'s share of its rank, when it links
      to `page`, and its share among all pages, when it has no links. */
  method AddContribution(corpus: Corpus, ranks: map<Page, real>, page: Page, link: Page, pageRank: real)
    returns (pageRank': real)
    requires link in corpus && corpus.Keys <= ranks.Keys
    ensures pageRank' == pageRank + Contribution(corpus, ranks, page, link)
  {
    pageRank' := pageRank;
    if page in corpus[link] {
      PortionIsQuotient(ranks[link], |corpus[link]|);
      pageRank' := pageRank' + ranks[link] / |corpus[link]| as real;
    }
    if |corpus[link]| == 0 {
      PortionIsQuotient(ranks[link], |corpus|);
      pageRank' := pageRank' + ranks[link] / |corpus| as real;
    }
  }

  /** The body of the pass for one page: its in-flow, damped by `d`, plus the
      random jump's `(1 - d) / N`. */
  method PageRank(corpus: Corpus, ranks: map<Page, real>, d: real, page: Page) returns (pageRank: real)
    requires corpus.Keys <= ranks.Keys && page in corpus
    ensures pageRank == NewRank(corpus, ranks, d, page)
  {
    pageRank := InFlowLoop(corpus, ranks, page);
    pageRank := d * pageRank;
    PortionIsQuotient(1.0 - d, |corpus|);
    pageRank := pageRank + (1.0 - d) / |corpus| as real;
  }

  /** One pass of the `while True` loop: every page's next rank is written into
      `values` (the `new_value` dictionary); the snapshot `ranks` is only read. */
  method UpdatePass(corpus: Corpus, ranks: map<Page, real>, d: real, values: map<Page, real>)
    returns (r: map<Page, real>)
    requires corpus.Keys <= ranks.Keys
    ensures forall p :: p in r <==> p in values || p in corpus
    ensures forall p | p in r :: r[p] == if p in corpus then NewRank(corpus, ranks, d, p) else values[p]
  {
    r := values;
    var todo := corpus.Keys;
    while todo != {}
      invariant todo <= corpus.Keys
      invariant forall p :: p in r <==> p in values || (p in corpus && p !in todo)
      invariant forall p | p in r ::
        r[p] == if p in corpus && p !in todo then NewRank(corpus, ranks, d, p) else values[p]
      decreases |todo|
    {
      var page :| page in todo;
      var pageRank := PageRank(corpus, ranks, d, page);
      r := r[page := pageRank];
      todo := todo - {page};
    }
  }

  /** `max(abs(next[k] - ranks[k]) for k in ranks)`; `max` of nothing is an error. */
  method MaxChange(ranks: map<Page, real>, next: map<Page, real>) returns (r: Result<real>)
    requires ranks.Keys <= next.Keys
    ensures ranks == map[] ==> r == Err(EmptyCorpus)
    ensures ranks != map[] ==> r.Ok?
    ensures r.Ok? ==> forall k | k in ranks :: Abs(next[k] - ranks[k]) <= r.value
    ensures r.Ok? ==> exists k | k in ranks :: Abs(next[k] - ranks[k]) == r.value
  {
    if ranks == map[] {
      return Err(EmptyCorpus);
    }
    var first :| first in ranks;
    var m := Abs(next[first] - ranks[first]);
    var todo := ranks.Keys - {first};
    while todo != {}
      invariant todo <= ranks.Keys && first !in todo
      invariant forall k | k in ranks && k !in todo :: Abs(next[k] - ranks[k]) <= m
      invariant exists k | k in ranks && k !in todo :: Abs(next[k] - ranks[k]) == m
      decreases |todo|
    {
      var k :| k in todo;
      if Abs(next[k] - ranks[k]) > m {
        m := Abs(next[k] - ranks[k]);
      }
      todo := todo - {k};
    }
    return Ok(m);
  }

  /** The starting snapshot: every page of the corpus at `1 / N`. */
  method UniformRanks(corpus: Corpus) returns (ranks: map<Page, real>)
    requires corpus != map[]
    ensures ranks == Uniform(corpus)
  {
    ranks := AssignAll(map[], corpus.Keys, UniformProb(|corpus|));
  }

  /** The power method with at most `fuel` passes standing for `while True`.
      It returns the snapshot whose next pass moves no rank by the tolerance or
      more: the first such snapshot. */
  method IteratePagerank(corpus: Corpus, d: real, fuel: nat) returns (r: Result<map<Page, real>>)
    ensures corpus == map[] ==> r == Err(EmptyCorpus)
    ensures r.Ok? ==> exists k | 0 <= k < fuel ::
      r.value == Iterate(corpus, d, k) && Settles(corpus, d, k) && NoneSettle(corpus, d, k)
    ensures r.Err? && corpus != map[] ==> r == Err(NotConverged) && NoneSettle(corpus, d, fuel)
  {
    if corpus == map[] {
      // no initial values; the first pass ends in `max([])`
      return Err(EmptyCorpus);
    }
    var ranks := UniformRanks(corpus);
    var values: map<Page, real> := map[];
    var count := 0;
    while count < fuel
      invariant 0 <= count <= fuel
      invariant ranks == Iterate(corpus, d, count)
      invariant values.Keys <= corpus.Keys
      invariant NoneSettle(corpus, d, count)
      decreases fuel - count
    {
      var difference;
      values, difference := PassAndCompare(corpus, d, count, ranks, values);
      if difference < Tolerance {
        return Ok(ranks);
      }
      NoneSettleStep(corpus, d, count);
      ranks := values;
      count := count + 1;
    }
    return Err(NotConverged);
  }

  /** The body of the `while True` loop up to its test: the pass over snapshot
      `count`, and the largest change it made. The iteration stops at `count`
      exactly when that change is below the tolerance. */
  method PassAndCompare(corpus: Corpus, d: real, count: nat, ranks: map<Page, real>, values: map<Page, real>)
    returns (values': map<Page, real>, difference: real)
    requires corpus != map[] && ranks == Iterate(corpus, d, count) && values.Keys <= corpus.Keys
    ensures values' == Iterate(corpus, d, count + 1)
    ensures Settles(corpus, d, count) <==> difference < Tolerance
  {
    values' := UpdatePass(corpus, ranks, d, values);
    PassOverwrites(corpus, ranks, d, values, values');
    NextSnapshot(corpus, d, count, ranks, values');
    var change := MaxChange(ranks, values');
    difference := change.value;
    MaxChangeDecides(ranks, values', difference);
  }

  /** A pass that writes every page of the corpus into a dictionary holding no
      other page leaves exactly the pass's ranks. */
  lemma PassOverwrites(corpus: Corpus, ranks: map<Page, real>, d: real, values: map<Page, real>, r: map<Page, real>)
    requires values.Keys <= corpus.Keys
    requires forall p :: p in r <==> p in values || p in corpus
    requires forall p | p in r :: r[p] == if p in corpus then NewRank(corpus, ranks, d, p) else values[p]
    ensures r == Pass(corpus, ranks, d)
  {
  }

  /** The pass over snapshot `k` yields snapshot `k + 1`, and the iteration
      stops there exactly when that pass converged. */
  lemma NextSnapshot(corpus: Corpus, d: real, k: nat, ranks: map<Page, real>, values: map<Page, real>)
    requires ranks == Iterate(corpus, d, k)
    requires values == Pass(corpus, ranks, d)
    ensures values == Iterate(corpus, d, k + 1)
    ensures Settles(corpus, d, k) <==> Converged(ranks, values)
  {
  }

  /** The largest change decides convergence: every change is below the
      tolerance exactly when the largest one is. */
  lemma MaxChangeDecides(ranks: map<Page, real>, next: map<Page, real>, m: real)
    requires ranks.Keys <= next.Keys
    requires forall k | k in ranks :: Abs(next[k] - ranks[k]) <= m
    requires exists k | k in ranks :: Abs(next[k] - ranks[k]) == m
    ensures Converged(ranks, next) <==> m < Tolerance
  {
    var k :| k in ranks && Abs(next[k] - ranks[k]) == m;
  }

  /** A snapshot that does not stop the iteration extends the run of those that do not. */
  lemma NoneSettleStep(corpus: Corpus, d: real, k: nat)
    requires NoneSettle(corpus, d, k) && !Settles(corpus, d, k)
    ensures NoneSettle(corpus, d, k + 1)
  {
  }
}
