/** Estimating ranks by letting the random surfer walk: each page's rank is the
    share of the walk's steps spent on it. */
module Sampling {
  import opened Pages
  import opened Sums
  import opened Dicts
  import opened Transitions

  /** What one visit adds to its page's estimate: `1/n`. */
  function VisitWeight(n: int): real
    requires n != 0
  {
    1.0 / n as real
  }

  /** The number of pages a walk of `n` samples visits: the start page, then
      one more per step of `range(1, n)`, which is empty when `n < 1`. */
  function WalkLength(n: int): nat
  {
    if n >= 1 then n else 1
  }

  /** A walk the random choices can produce: every visited page is in the
      corpus, and each step goes to a page the previous page's next-page
      distribution gives a positive probability. */
  predicate PossibleWalk(corpus: Corpus, d: real, walk: seq<Page>)
  {
    (forall i | 0 <= i < |walk| :: walk[i] in corpus) &&
    forall i | 1 <= i < |walk| :: PossibleStep(corpus, d, walk, i)
  }

  /** Step `i` of the walk goes from `walk[i - 1]` to a page of positive probability. */
  predicate PossibleStep(corpus: Corpus, d: real, walk: seq<Page>, i: int)
    requires 1 <= i < |walk| && walk[i - 1] in corpus
  {
    var next := Transition(corpus, walk[i - 1], d);
    walk[i] in next && next[walk[i]] > 0.0
  }

  /** The number of times the walk visits page `p`. */
  function Occurrences(walk: seq<Page>, p: Page): nat
  {
    if walk == [] then 0
    else Occurrences(walk[..|walk| - 1], p) + if walk[|walk| - 1] == p then 1 else 0
  }

  /** The visit count is the multiplicity of the page in the walk. */
  lemma {:induction false} OccurrencesIsMultiplicity(walk: seq<Page>, p: Page)
    ensures Occurrences(walk, p) == multiset(walk)[p]
  {
    if walk != [] {
      var prefix := walk[..|walk| - 1];
      assert walk == prefix + [walk[|walk| - 1]];
      OccurrencesIsMultiplicity(prefix, p);
    }
  }

  /** A page is never visited exactly when it does not occur in the walk. */
  lemma OccurrencesZeroIff(walk: seq<Page>, p: Page)
    ensures Occurrences(walk, p) == 0 <==> p !in walk
  {
    OccurrencesIsMultiplicity(walk, p);
  }

  /** One more step of the walk counts one more visit of the page it reaches. */
  lemma OccurrencesStep(walk: seq<Page>, i: int)
    requires 0 <= i < |walk|
    ensures forall p :: Occurrences(walk[..i + 1], p) == Occurrences(walk[..i], p) + if p == walk[i] then 1 else 0
  {
    assert walk[..i + 1][..i] == walk[..i];
  }

  /** Each page's estimate after a walk: its number of visits times `1/n`. */
  function Estimate(corpus: Corpus, walk: seq<Page>, n: int): map<Page, real>
    requires n != 0
  {
    map p | p in corpus :: Copies(Occurrences(walk, p), VisitWeight(n))
  }

  /** The sampler. The walk stands for the random choices: `walk[0]` is the
      uniformly chosen start page, `walk[i]` the page drawn in step `i` from the
      distribution of `walk[i - 1]`. */
  method SamplePagerank(corpus: Corpus, d: real, n: int, walk: seq<Page>)
    returns (r: Result<map<Page, real>>)
    requires PossibleWalk(corpus, d, walk)
    requires corpus != map[] ==> |walk| == WalkLength(n)
    ensures corpus == map[] ==> r == Err(EmptyCorpus)
    ensures corpus != map[] && n == 0 ==> r == Err(ZeroSamples)
    ensures corpus != map[] && n != 0 ==> r == Ok(Estimate(corpus, walk, n))
  {
    if corpus == map[] {
      // `random.choice` of an empty list
      return Err(EmptyCorpus);
    }
    var start := walk[0];
    var samples := AssignAll(map[], corpus.Keys, 0.0);
    if n == 0 {
      // `1 / n`
      return Err(ZeroSamples);
    }
    FirstVisit(corpus, walk, n, samples);
    samples := samples[start := VisitWeight(n)];
    var current := TransitionModel(corpus, start, d);
    var i := 1;
    while i < n
      invariant 1 <= i <= |walk|
      invariant samples == Estimate(corpus, walk[..i], n)
      invariant current == Transition(corpus, walk[i - 1], d)
    {
      samples, current := NextSample(corpus, d, n, walk, i, samples, current);
      i := i + 1;
    }
    WholeWalk(walk, i);
    return Ok(samples);
  }

  /** One round of the sampling loop: the page drawn from the current
      distribution gets one more visit, and its own distribution becomes the
      current one. */
  method NextSample(corpus: Corpus, d: real, n: int, walk: seq<Page>, i: int,
                    samples: map<Page, real>, current: map<Page, real>)
    returns (samples': map<Page, real>, current': map<Page, real>)
    requires n != 0 && 1 <= i < |walk| && PossibleWalk(corpus, d, walk)
    requires samples == Estimate(corpus, walk[..i], n)
    requires current == Transition(corpus, walk[i - 1], d)
    ensures samples' == Estimate(corpus, walk[..i + 1], n)
    ensures current' == Transition(corpus, walk[i], d)
  {
    var next := walk[i];
    assert PossibleStep(corpus, d, walk, i);
    assert next in current && current[next] > 0.0;
    NextVisit(corpus, walk, i, n, samples);
    samples' := samples[next := samples[next] + VisitWeight(n)];
    current' := TransitionModel(corpus, next, d);
  }

  /** The prefix of the whole length is the walk. */
  lemma WholeWalk(walk: seq<Page>, i: int)
    requires i == |walk|
    ensures walk[..i] == walk
  {
  }

  /** The start page's visit: all pages at zero, then the start page at `1/n`. */
  lemma FirstVisit(corpus: Corpus, walk: seq<Page>, n: int, zeros: map<Page, real>)
    requires n != 0 && walk != [] && walk[0] in corpus
    requires zeros.Keys == corpus.Keys
    requires forall p | p in zeros :: zeros[p] == 0.0
    ensures zeros[walk[0] := VisitWeight(n)] == Estimate(corpus, walk[..1], n)
  {
    var samples := zeros[walk[0] := VisitWeight(n)];
    var e := Estimate(corpus, walk[..1], n);
    var first := walk[..1];
    assert first[..0] == [] && first[0] == walk[0];
    forall p | p in corpus
      ensures samples[p] == e[p]
    {
      assert Occurrences(first, p) == if p == walk[0] then 1 else 0;
      if p == walk[0] {
        assert Copies(1, VisitWeight(n)) == VisitWeight(n);
      }
    }
    assert samples.Keys == e.Keys;
  }

  /** The visit of step `i`: its page's estimate grows by `1/n`. */
  lemma NextVisit(corpus: Corpus, walk: seq<Page>, i: int, n: int, samples: map<Page, real>)
    requires n != 0 && 0 <= i < |walk| && walk[i] in corpus
    requires samples == Estimate(corpus, walk[..i], n)
    ensures samples[walk[i] := samples[walk[i]] + VisitWeight(n)] == Estimate(corpus, walk[..i + 1], n)
  {
    OccurrencesStep(walk, i);
    CopiesSucc(Occurrences(walk[..i], walk[i]), VisitWeight(n));
  }

  /** The per-page visit weights of a walk, as a function. */
  function Visits(walk: seq<Page>, w: real): Page -> real
  {
    p => Copies(Occurrences(walk, p), w)
  }

  /** A single visit's weight, on page `x`. */
  function Visit(x: Page, w: real): Page -> real
  {
    p => if p == x then w else 0.0
  }

  /** Over a set of pages containing the whole walk, the visit weights add up
      to one weight per step. */
  lemma {:induction false} VisitsMass(pages: set<Page>, walk: seq<Page>, w: real)
    requires forall i | 0 <= i < |walk| :: walk[i] in pages
    ensures SumOf(pages, Visits(walk, w)) == Copies(|walk|, w)
    decreases |walk|
  {
    if walk == [] {
      SumConst(pages, Visits(walk, w), 0.0);
      CopiesZero(|pages|);
    } else {
      var prefix := walk[..|walk| - 1];
      var x := walk[|walk| - 1];
      assert walk == prefix + [x];
      VisitsMass(pages, prefix, w);
      forall p | p in pages
        ensures Visits(walk, w)(p) == Visits(prefix, w)(p) + Visit(x, w)(p)
      {
        CopiesSucc(Occurrences(prefix, p), w);
      }
      SumAdd(pages, Visits(prefix, w), Visit(x, w), Visits(walk, w));
      SumPoint(pages, Visit(x, w), x);
      CopiesSucc(|prefix|, w);
    }
  }

  /** `n` visits at `1/n` each add up to one. */
  lemma AllVisitsWeighOne(n: int)
    requires n >= 1
    ensures Copies(n, VisitWeight(n)) == 1.0
  {
    CopiesIsProduct(n, VisitWeight(n));
  }

  /** A walk of `n >= 1` samples inside the corpus yields estimates that form
      a probability distribution over the corpus. */
  lemma EstimateIsDistribution(corpus: Corpus, walk: seq<Page>, n: int)
    requires n >= 1 && |walk| == n
    requires forall i | 0 <= i < |walk| :: walk[i] in corpus
    ensures var e := Estimate(corpus, walk, n);
      e.Keys == corpus.Keys &&
      Mass(e) == 1.0 &&
      forall p | p in e :: 0.0 <= e[p] <= 1.0
  {
    var e := Estimate(corpus, walk, n);
    forall p | p in corpus.Keys
      ensures At(e)(p) == Visits(walk, VisitWeight(n))(p)
    {
    }
    SumCongruent(corpus.Keys, At(e), Visits(walk, VisitWeight(n)));
    VisitsMass(corpus.Keys, walk, VisitWeight(n));
    AllVisitsWeighOne(n);
    forall p | p in e
      ensures 0.0 <= e[p]
    {
      CopiesSign(Occurrences(walk, p), VisitWeight(n));
    }
    MassBound(e);
  }

  /** A page the walk never visits is estimated at zero; any visited page at a
      positive rank when `n >= 1`. */
  lemma EstimateZeroIffUnvisited(corpus: Corpus, walk: seq<Page>, n: int, p: Page)
    requires n >= 1 && p in corpus
    ensures Estimate(corpus, walk, n)[p] == 0.0 <==> p !in walk
  {
    CopiesSign(Occurrences(walk, p), VisitWeight(n));
    OccurrencesZeroIff(walk, p);
  }
}
