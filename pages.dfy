/** Pages, the link graph ("corpus") and the failures the rank estimators can end in. */
module Pages {

  /** A page is identified by its file name. */
  type Page = string

  /** Each page of the corpus mapped to the set of pages it links to. */
  type Corpus = map<Page, set<Page>>

  /** Every link target is itself a page of the corpus. */
  predicate LinksInCorpus(corpus: Corpus)
  {
    forall p, q | p in corpus && q in corpus[p] :: q in corpus
  }

  /** The graph invariant the crawler establishes: links stay inside the corpus
      and no page links to itself. */
  predicate WellFormed(corpus: Corpus)
  {
    forall p, q | p in corpus && q in corpus[p] :: q in corpus && q != p
  }

  /** The points where the estimators abort instead of returning ranks. */
  datatype Error =
    | EmptyCorpus   // no page to start from: `random.choice([])`, or `max([])` in the power method
    | ZeroSamples   // `1 / n` with `n == 0`
    | NotConverged  // the power method used up its pass budget

  datatype Result<T> = Ok(value: T) | Err(error: Error)
}
