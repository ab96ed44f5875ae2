/** Why the power method's snapshots are probability distributions: a pass
    moves rank along the links without creating or losing any, and damping
    with the random jump keeps the total at one. */
module Distribution {
  import opened Pages
  import opened Sums
  import opened Transitions
  import opened Iteration

  /** What flows along each pair of pages: `Flow(corpus, ranks)(page, link)` is
      what `link` hands on to `page`. */
  function Flow(corpus: Corpus, ranks: map<Page, real>): (Page, Page) -> real
  {
    (page, link) => Contribution(corpus, ranks, page, link)
  }

  /** The in-flow of every page, as a function. */
  ghost function InFlows(corpus: Corpus, ranks: map<Page, real>): Page -> real
  {
    page => InFlow(corpus, ranks, page)
  }

  /** A page inside a corpus whose links stay inside it hands on exactly its
      rank: its links share it equally, and a page without links shares it
      equally among all pages. */
  lemma HandsOnRank(corpus: Corpus, ranks: map<Page, real>, link: Page)
    requires LinksInCorpus(corpus) && link in corpus
    ensures SumOf(corpus.Keys, Received(corpus, ranks, link)) == At(ranks)(link)
  {
    var links := corpus[link];
    var f := Received(corpus, ranks, link);
    var x := At(ranks)(link);
    if |links| == 0 {
      SumConst(corpus.Keys, f, Portion(x, |corpus|));
      PortionsAddUp(x, |corpus|);
    } else {
      SumSplit(corpus.Keys, links, f);
      SumConst(links, f, Portion(x, |links|));
      PortionsAddUp(x, |links|);
      SumConst(corpus.Keys - links, f, 0.0);
      CopiesZero(|corpus.Keys - links|);
    }
  }

  /** One pass moves rank around without creating or losing any: when every
      link stays inside the corpus, the in-flows of all pages add up to the
      total rank. */
  lemma InFlowTotal(corpus: Corpus, ranks: map<Page, real>)
    ensures (LinksInCorpus(corpus) && ranks.Keys == corpus.Keys) ==>
      SumOf(corpus.Keys, InFlows(corpus, ranks)) == Mass(ranks)
  {
    if LinksInCorpus(corpus) && ranks.Keys == corpus.Keys {
      var f := Flow(corpus, ranks);
      var s := corpus.Keys;
      SumSwap(s, s, f);
      forall page | page in s
        ensures InFlows(corpus, ranks)(page) == RowSums(s, f)(page)
      {
        InFlowFromIsSum(corpus, ranks, page, s);
        SumCongruent(s, Contributions(corpus, ranks, page), Row(f, page));
      }
      SumCongruent(s, InFlows(corpus, ranks), RowSums(s, f));
      forall link | link in s
        ensures ColumnSums(s, f)(link) == At(ranks)(link)
      {
        SumCongruent(s, Column(f, link), Received(corpus, ranks, link));
        HandsOnRank(corpus, ranks, link);
      }
      SumCongruent(s, ColumnSums(s, f), At(ranks));
    }
  }

  /** One page's rank after a pass: `d` times its in-flow plus the jump share. */
  lemma PassRankAt(corpus: Corpus, ranks: map<Page, real>, d: real, p: Page)
    ensures p in corpus ==>
      At(Pass(corpus, ranks, d))(p) == d * InFlows(corpus, ranks)(p) + Portion(1.0 - d, |corpus|)
  {
  }

  /** Every page's rank after a pass over a non-empty corpus is `d` times its
      in-flow plus the jump share `(1 - d) / N`. */
  lemma PassValues(corpus: Corpus, ranks: map<Page, real>, d: real)
    ensures corpus != map[] ==>
      IsAffine(corpus.Keys, InFlows(corpus, ranks), At(Pass(corpus, ranks, d)), d, Portion(1.0 - d, |corpus|))
  {
    if corpus != map[] {
      forall p | p in corpus.Keys
        ensures At(Pass(corpus, ranks, d))(p) == d * InFlows(corpus, ranks)(p) + Portion(1.0 - d, |corpus|)
      {
        PassRankAt(corpus, ranks, d, p);
      }
    }
  }

  /** The jump shares `(1 - d) / N` of all `N` pages add up to `1 - d`. */
  lemma JumpSharesAddUp(corpus: Corpus, d: real)
    ensures corpus != map[] ==> Copies(|corpus.Keys|, Portion(1.0 - d, |corpus|)) == 1.0 - d
  {
    if corpus != map[] {
      PortionsAddUp(1.0 - d, |corpus|);
    }
  }

  /** Ranks that are `c` times some flows plus shares `k` that add up to
      `1 - c` have `c` times the flows' total plus `1 - c` as their total. */
  lemma AffineMass<K>(s: set<K>, flows: K -> real, m: map<K, real>, c: real, k: real, total: real)
    requires m.Keys == s && IsAffine(s, flows, At(m), c, k)
    requires SumOf(s, flows) == total && Copies(|s|, k) == 1.0 - c
    ensures Mass(m) == c * total + (1.0 - c)
  {
    SumAffine(s, flows, At(m), c, k);
  }

  /** `AffineMass` for whichever arguments meet its premises. */
  lemma AffineMassWhen<K>(s: set<K>, flows: K -> real, m: map<K, real>, c: real, k: real, total: real)
    ensures (m.Keys == s && IsAffine(s, flows, At(m), c, k) &&
             SumOf(s, flows) == total && Copies(|s|, k) == 1.0 - c) ==>
            Mass(m) == c * total + (1.0 - c)
  {
    if m.Keys == s && IsAffine(s, flows, At(m), c, k) && SumOf(s, flows) == total && Copies(|s|, k) == 1.0 - c {
      AffineMass(s, flows, m, c, k, total);
    }
  }

  /** A pass turns total rank `m` into `d * m + (1 - d)`, when every link
      stays inside the corpus. */
  lemma PassMass(corpus: Corpus, ranks: map<Page, real>, d: real)
    ensures (corpus != map[] && LinksInCorpus(corpus) && ranks.Keys == corpus.Keys) ==>
      Mass(Pass(corpus, ranks, d)) == d * Mass(ranks) + (1.0 - d)
  {
    if corpus != map[] && LinksInCorpus(corpus) && ranks.Keys == corpus.Keys {
      PassValues(corpus, ranks, d);
      InFlowTotal(corpus, ranks);
      PassMassOf(corpus, ranks, d, InFlows(corpus, ranks));
    }
  }

  /** `PassMass` for any in-flows that add up to the total rank. */
  lemma PassMassOf(corpus: Corpus, ranks: map<Page, real>, d: real, flows: Page -> real)
    requires corpus != map[]
    requires IsAffine(corpus.Keys, flows, At(Pass(corpus, ranks, d)), d, Portion(1.0 - d, |corpus|))
    requires SumOf(corpus.Keys, flows) == Mass(ranks)
    ensures Mass(Pass(corpus, ranks, d)) == d * Mass(ranks) + (1.0 - d)
  {
    JumpSharesAddUp(corpus, d);
    AffineMassWhen(corpus.Keys, flows, Pass(corpus, ranks, d), d, Portion(1.0 - d, |corpus|), Mass(ranks));
  }

  /** No rank of `ranks` is negative. */
  predicate Nonneg(ranks: map<Page, real>)
  {
    forall p | p in ranks :: 0.0 <= ranks[p]
  }

  /** Non-negative ranks hand on non-negative in-flows. */
  lemma InFlowNonneg(corpus: Corpus, ranks: map<Page, real>, page: Page)
    ensures Nonneg(ranks) ==> 0.0 <= InFlow(corpus, ranks, page)
  {
    if Nonneg(ranks) {
      forall link | link in corpus.Keys
        ensures 0.0 <= Contributions(corpus, ranks, page)(link)
      {
      }
      SumNonneg(corpus.Keys, Contributions(corpus, ranks, page));
      InFlowFromIsSum(corpus, ranks, page, corpus.Keys);
    }
  }

  /** For `0 <= d <= 1`, damping a non-negative in-flow gives a non-negative rank. */
  lemma DampedNonneg(d: real, flow: real, n: int)
    ensures 0.0 <= d <= 1.0 && 0.0 <= flow && n > 0 ==> 0.0 <= Damped(d, flow, n)
  {
    if 0.0 <= d <= 1.0 && 0.0 <= flow && n > 0 {
      assert 0.0 <= d * flow;
    }
  }

  /** For `0 <= d <= 1`, a pass over non-negative ranks yields non-negative ranks. */
  lemma PassNonneg(corpus: Corpus, ranks: map<Page, real>, d: real)
    ensures 0.0 <= d <= 1.0 && Nonneg(ranks) ==> Nonneg(Pass(corpus, ranks, d))
  {
    forall p | p in corpus
      ensures 0.0 <= d <= 1.0 && Nonneg(ranks) ==> 0.0 <= NewRank(corpus, ranks, d, p)
    {
      InFlowNonneg(corpus, ranks, p);
      DampedNonneg(d, InFlow(corpus, ranks, p), |corpus|);
    }
  }

  /** Ranks over the whole corpus that are non-negative and add up to one. */
  ghost predicate IsDistribution(corpus: Corpus, ranks: map<Page, real>)
  {
    ranks.Keys == corpus.Keys && Nonneg(ranks) && Mass(ranks) == 1.0
  }

  /** The starting ranks are a distribution. */
  lemma UniformIsDistribution(corpus: Corpus)
    requires corpus != map[]
    ensures IsDistribution(corpus, Uniform(corpus))
  {
    var r := Uniform(corpus);
    SumConst(corpus.Keys, At(r), UniformProb(|corpus|));
    UniformMassIsOne(|corpus|);
  }

  /** For `0 <= d <= 1` and links inside the corpus, a pass keeps a
      distribution a distribution. */
  lemma PassKeepsDistribution(corpus: Corpus, ranks: map<Page, real>, d: real)
    requires corpus != map[] && LinksInCorpus(corpus) && 0.0 <= d <= 1.0
    requires IsDistribution(corpus, ranks)
    ensures IsDistribution(corpus, Pass(corpus, ranks, d))
  {
    PassMass(corpus, ranks, d);
    PassNonneg(corpus, ranks, d);
  }

  /** Every snapshot of the power method is a probability distribution over
      the corpus (by induction on `k`, each step kept by `PassKeepsDistribution`). */
  lemma IterateIsDistribution(corpus: Corpus, d: real, k: nat)
    requires corpus != map[] && LinksInCorpus(corpus) && 0.0 <= d <= 1.0
    ensures IsDistribution(corpus, Iterate(corpus, d, k))
  {
    if k == 0 {
      UniformIsDistribution(corpus);
    } else {
      PassKeepsDistribution(corpus, Iterate(corpus, d, k - 1), d);
    }
  }

  /** So every rank of every snapshot lies between zero and one. */
  lemma IterateRanksBounded(corpus: Corpus, d: real, k: nat)
    requires corpus != map[] && LinksInCorpus(corpus) && 0.0 <= d <= 1.0
    ensures forall p | p in Iterate(corpus, d, k) :: 0.0 <= Iterate(corpus, d, k)[p] <= 1.0
  {
    IterateIsDistribution(corpus, d, k);
    MassBound(Iterate(corpus, d, k));
  }
}
