/** The one-step "next page" distribution of the random surfer. */
module Transitions {
  import opened Pages
  import opened Sums
  import opened Dicts

  /** The probability of following one given link of a page with `l` links:
      `d * (1/l)`. */
  function LinkProb(d: real, l: int): real
    requires l > 0
  {
    d * (1.0 / l as real)
  }

  /** The probability of jumping to one given page of an `n`-page corpus:
      `(1-d) * (1/n)`. */
  function JumpProb(d: real, n: int): real
    requires n > 0
  {
    (1.0 - d) * (1.0 / n as real)
  }

  /** The probability of each page of an `n`-page corpus when choosing
      uniformly: `1/n`. */
  function UniformProb(n: int): real
    requires n > 0
  {
    1.0 / n as real
  }

  /** Closed form of the distribution: with probability `d` follow one of the
      page's links, otherwise jump to any page of the corpus; a page without
      links jumps to any page of the corpus. A link target outside the corpus
      still receives its share of `d` (but no share of the jump). */
  function Transition(corpus: Corpus, page: Page, d: real): (r: map<Page, real>)
    requires page in corpus
  {
    map q | q in corpus.Keys + corpus[page] :: Chance(corpus, page, d, q)
  }

  /** The probability the closed form gives page `q`. */
  function Chance(corpus: Corpus, page: Page, d: real, q: Page): real
    requires page in corpus
  {
    var links := corpus[page];
    if links != {} then
      (if q in links then LinkProb(d, |links|) else 0.0)
      + (if q in corpus then JumpProb(d, |corpus|) else 0.0)
    else
      UniformProb(|corpus|)
  }

  /** Looking up one entry of the closed form. */
  lemma TransitionAt(corpus: Corpus, page: Page, d: real, q: Page)
    requires page in corpus && q in corpus.Keys + corpus[page]
    ensures var r := Transition(corpus, page, d); var links := corpus[page];
      q in r &&
      r[q] == if links != {} then
        (if q in links then LinkProb(d, |links|) else 0.0)
        + (if q in corpus then JumpProb(d, |corpus|) else 0.0)
      else UniformProb(|corpus|)
  {
  }

  /** The entries the filling loops leave, for a page with links, are the closed form. */
  lemma FilledWithLinks(corpus: Corpus, page: Page, d: real,
                        linked: map<Page, real>, dist: map<Page, real>)
    requires page in corpus && corpus[page] != {}
    requires linked.Keys == corpus.Keys + corpus[page] && dist.Keys == linked.Keys
    requires forall q | q in linked ::
      linked[q] == if q in corpus[page] then LinkProb(d, |corpus[page]|) else 0.0
    requires forall q | q in dist ::
      dist[q] == linked[q] + if q in corpus then JumpProb(d, |corpus|) else 0.0
    ensures dist == Transition(corpus, page, d)
  {
    forall q | q in dist
      ensures dist[q] == Transition(corpus, page, d)[q]
    {
      TransitionAt(corpus, page, d, q);
    }
  }

  /** The entries the filling loop leaves, for a page without links, are the closed form. */
  lemma FilledDangling(corpus: Corpus, page: Page, d: real, dist: map<Page, real>)
    requires page in corpus && corpus[page] == {}
    requires dist.Keys == corpus.Keys
    requires forall q | q in dist :: dist[q] == UniformProb(|corpus|)
    ensures dist == Transition(corpus, page, d)
  {
    forall q | q in dist
      ensures dist[q] == Transition(corpus, page, d)[q]
    {
      TransitionAt(corpus, page, d, q);
    }
  }

  /** The distribution is defined on the corpus pages and any linked page;
      exactly the corpus pages when the links stay inside the corpus. */
  lemma TransitionKeys(corpus: Corpus, page: Page, d: real)
    requires page in corpus
    ensures Transition(corpus, page, d).Keys == corpus.Keys + corpus[page]
    ensures LinksInCorpus(corpus) ==> Transition(corpus, page, d).Keys == corpus.Keys
  {
  }

  /** A page with links: each corpus page it links to gets `d/L + (1-d)/N`,
      every other corpus page `(1-d)/N`. */
  lemma LinkedPageValues(corpus: Corpus, page: Page, d: real, q: Page)
    requires page in corpus && corpus[page] != {} && q in corpus
    ensures var r := Transition(corpus, page, d);
      q in r &&
      r[q] == if q in corpus[page]
              then d / |corpus[page]| as real + (1.0 - d) / |corpus| as real
              else (1.0 - d) / |corpus| as real
  {
    TransitionAt(corpus, page, d, q);
    assert |corpus| > 0 by { assert page in corpus.Keys; }
    ProbIsQuotient(d, |corpus[page]|);
    ProbIsQuotient(1.0 - d, |corpus|);
  }

  /** `x * (1/n)` is `x / n`. */
  lemma ProbIsQuotient(x: real, n: int)
    requires n > 0
    ensures x * (1.0 / n as real) == x / n as real
  {
  }

  /** A page without links: every page gets exactly `1/N`. */
  lemma DanglingPageValues(corpus: Corpus, page: Page, d: real, q: Page)
    requires page in corpus && corpus[page] == {} && q in corpus
    ensures var r := Transition(corpus, page, d); q in r && r[q] == 1.0 / |corpus| as real
  {
    TransitionAt(corpus, page, d, q);
  }

  /** The masses of a page with links add up to one: `L` links at `d/L + (1-d)/N`
      and the `N - L` other pages at `(1-d)/N`. */
  lemma LinkedMassIsOne(d: real, l: int, n: int, others: int, onLink: real)
    requires 0 < l <= n && others == n - l
    requires onLink == LinkProb(d, l) + JumpProb(d, n)
    ensures Copies(l, onLink) + Copies(others, JumpProb(d, n)) == 1.0
  {
    var share := LinkProb(d, l);
    var jump := JumpProb(d, n);
    assert l as real * share == d;
    assert n as real * jump == 1.0 - d;
    MulDistrib(l as real, share, jump, onLink);
    MulDistrib(jump, others as real, l as real, n as real);
    CopiesIsProduct(l, onLink);
    CopiesIsProduct(others, jump);
  }

  /** `n` pages at `1/n` each add up to one. */
  lemma UniformMassIsOne(n: int)
    requires 0 < n
    ensures Copies(n, UniformProb(n)) == 1.0
  {
    CopiesIsProduct(n, UniformProb(n));
  }

  lemma ProbsNonneg(d: real, l: int, n: int)
    requires 0.0 <= d <= 1.0 && 0 <= l && 0 < n
    ensures l > 0 ==> 0.0 <= LinkProb(d, l)
    ensures 0.0 <= JumpProb(d, n) && 0.0 <= UniformProb(n)
  {
    if l > 0 {
      assert 0.0 <= 1.0 / l as real;
    }
    assert 0.0 <= 1.0 / n as real;
  }

  /** Every entry is non-negative for a damping factor in [0, 1]. */
  lemma TransitionNonneg(corpus: Corpus, page: Page, d: real)
    requires page in corpus && 0.0 <= d <= 1.0
    ensures forall q | q in Transition(corpus, page, d) :: 0.0 <= Transition(corpus, page, d)[q]
  {
    assert |corpus| > 0 by { assert page in corpus.Keys; }
    ProbsNonneg(d, |corpus[page]|, |corpus|);
    forall q | q in Transition(corpus, page, d)
      ensures 0.0 <= Transition(corpus, page, d)[q]
    {
      TransitionAt(corpus, page, d, q);
    }
  }

  /** A page with links inside the corpus: the closed form is defined on the
      corpus, each link at `d/L + (1-d)/N` and every other page at `(1-d)/N`. */
  lemma LinkedValues(corpus: Corpus, page: Page, d: real)
    requires page in corpus && corpus[page] != {} && corpus[page] <= corpus.Keys
    ensures var r := Transition(corpus, page, d);
      r.Keys == corpus.Keys &&
      forall q | q in corpus.Keys :: At(r)(q) ==
        if q in corpus[page] then LinkProb(d, |corpus[page]|) + JumpProb(d, |corpus|)
        else JumpProb(d, |corpus|)
  {
    var r := Transition(corpus, page, d);
    forall q | q in corpus.Keys
      ensures At(r)(q) ==
        if q in corpus[page] then LinkProb(d, |corpus[page]|) + JumpProb(d, |corpus|)
        else JumpProb(d, |corpus|)
    {
      TransitionAt(corpus, page, d, q);
    }
  }

  /** The total mass is one for a page with links inside the corpus. */
  lemma LinkedTransitionMass(corpus: Corpus, page: Page, d: real)
    requires page in corpus && corpus[page] != {} && corpus[page] <= corpus.Keys
    ensures Mass(Transition(corpus, page, d)) == 1.0
  {
    var r := Transition(corpus, page, d);
    var onLink := LinkProb(d, |corpus[page]|) + JumpProb(d, |corpus|);
    LinkedValues(corpus, page, d);
    SumSplit(corpus.Keys, corpus[page], At(r));
    SumConst(corpus[page], At(r), onLink);
    SumConst(corpus.Keys - corpus[page], At(r), JumpProb(d, |corpus|));
    CardDiff(corpus.Keys, corpus[page]);
    assert |corpus.Keys| == |corpus|;
    LinkedMassIsOne(d, |corpus[page]|, |corpus|, |corpus.Keys - corpus[page]|, onLink);
  }

  /** The total mass is one for a page without links. */
  lemma DanglingTransitionMass(corpus: Corpus, page: Page, d: real)
    requires page in corpus && corpus[page] == {}
    ensures Mass(Transition(corpus, page, d)) == 1.0
  {
    var r := Transition(corpus, page, d);
    assert r.Keys == corpus.Keys;
    forall q | q in corpus
      ensures At(r)(q) == UniformProb(|corpus|)
    {
      TransitionAt(corpus, page, d, q);
    }
    SumConst(corpus.Keys, At(r), UniformProb(|corpus|));
    assert |corpus.Keys| == |corpus| && |corpus| > 0 by { assert page in corpus.Keys; }
    UniformMassIsOne(|corpus|);
  }

  /** For a damping factor in [0, 1] and links inside the corpus, the result is a
      probability distribution over the corpus. */
  lemma TransitionIsDistribution(corpus: Corpus, page: Page, d: real)
    requires page in corpus && LinksInCorpus(corpus) && 0.0 <= d <= 1.0
    ensures var r := Transition(corpus, page, d);
      r.Keys == corpus.Keys &&
      Mass(r) == 1.0 &&
      forall q | q in r :: 0.0 <= r[q] <= 1.0
  {
    var r := Transition(corpus, page, d);
    TransitionNonneg(corpus, page, d);
    if corpus[page] != {} {
      LinkedTransitionMass(corpus, page, d);
    } else {
      DanglingTransitionMass(corpus, page, d);
    }
    MassBound(r);
  }

  /** The dictionary-filling procedure: every page starts at 0; with links, each
      link is assigned `d * (1/L)` and then every corpus page receives
      `(1-d) * (1/N)` on top; without links every page is assigned `1/N`. */
  method TransitionModel(corpus: Corpus, page: Page, d: real) returns (dist: map<Page, real>)
    requires page in corpus
    ensures dist == Transition(corpus, page, d)
  {
    var pages := corpus.Keys;
    dist := AssignAll(map[], pages, 0.0);
    if corpus[page] != {} {
      dist := AssignAll(dist, corpus[page], LinkProb(d, |corpus[page]|));
      ghost var linked := dist;
      dist := AddAll(dist, pages, JumpProb(d, |corpus|));
      FilledWithLinks(corpus, page, d, linked, dist);
    } else {
      dist := AssignAll(dist, pages, UniformProb(|corpus|));
      FilledDangling(corpus, page, d, dist);
    }
  }
}
