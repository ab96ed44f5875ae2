/** The link clean-up performed by the crawler once the href targets of every
    page have been extracted: self-links are dropped and only links to pages of
    the corpus are kept. Directory listing, file reading and href extraction are
    not modelled; their outcome is the `extracted` map. */
module Crawl {
  import opened Pages

  /** The distinct targets of each page's extracted href list. */
  function LinkSets(extracted: map<Page, seq<Page>>): (raw: map<Page, set<Page>>)
    ensures raw.Keys == extracted.Keys
    ensures forall p, q | p in extracted :: q in raw[p] <==> q in extracted[p]
  {
    map p | p in extracted :: set q | q in extracted[p]
  }

  /** The graph the crawler hands on: same pages, each keeping exactly its links
      to other pages of the corpus. */
  function Normalise(raw: map<Page, set<Page>>): (corpus: Corpus)
    ensures corpus.Keys == raw.Keys
    ensures WellFormed(corpus)
    ensures forall p | p in raw :: corpus[p] <= raw[p]
    ensures forall p, q | p in raw && q in raw[p] && q != p && q in raw :: q in corpus[p]
  {
    map p | p in raw :: set q | q in raw[p] - {p} && q in raw
  }

  /** A graph that already satisfies the invariant is left as it is. */
  lemma NormaliseKeepsWellFormed(corpus: Corpus)
    requires WellFormed(corpus)
    ensures Normalise(corpus) == corpus
  {
    forall p | p in corpus
      ensures Normalise(corpus)[p] == corpus[p]
    {
      assert forall q | q in corpus[p] :: q in Normalise(corpus)[p];
    }
  }

  /** Normalising twice is normalising once. */
  lemma NormaliseIdempotent(raw: map<Page, set<Page>>)
    ensures Normalise(Normalise(raw)) == Normalise(raw)
  {
    NormaliseKeepsWellFormed(Normalise(raw));
  }

  /** The link sets as the first pass of the crawler stores them: the page itself removed. */
  function WithoutSelfLinks(raw: map<Page, set<Page>>): (r: map<Page, set<Page>>)
  {
    map p | p in raw :: raw[p] - {p}
  }

  /** The link sets as the second pass leaves them: only targets that are keys. */
  function InCorpusLinks(raw: map<Page, set<Page>>): (r: Corpus)
  {
    map p | p in raw :: set q | q in raw[p] && q in raw
  }

  /** The two passes together are the normalisation. */
  lemma PassesNormalise(raw: map<Page, set<Page>>)
    ensures InCorpusLinks(WithoutSelfLinks(raw)) == Normalise(raw)
  {
  }

  /** The two passes of the crawler over its `pages` dictionary: the first stores
      each page's link set minus the page itself, the second replaces every entry
      by its links that are keys of the dictionary. */
  method FilterLinks(extracted: map<Page, seq<Page>>) returns (pages: Corpus)
    ensures pages == Normalise(LinkSets(extracted))
    ensures pages.Keys == extracted.Keys && WellFormed(pages)
  {
    pages := DropSelfLinks(extracted);
    pages := KeepCorpusLinks(pages);
    PassesNormalise(LinkSets(extracted));
  }

  /** The first pass: every page's distinct href targets, the page itself removed. */
  method DropSelfLinks(extracted: map<Page, seq<Page>>) returns (pages: map<Page, set<Page>>)
    ensures pages == WithoutSelfLinks(LinkSets(extracted))
  {
    ghost var raw := LinkSets(extracted);
    pages := map[];
    var todo := extracted.Keys;
    while todo != {}
      invariant todo <= extracted.Keys
      invariant pages.Keys == extracted.Keys - todo
      invariant forall p | p in pages :: pages[p] == raw[p] - {p}
      decreases |todo|
    {
      var file :| file in todo;
      pages := pages[file := (set q | q in extracted[file]) - {file}];
      todo := todo - {file};
    }
  }

  /** The second pass, entry by entry over the dictionary it rewrites: since
      only values change, the keys it tests against stay those of the first pass. */
  method KeepCorpusLinks(firstPass: map<Page, set<Page>>) returns (pages: Corpus)
    ensures pages == InCorpusLinks(firstPass)
  {
    pages := firstPass;
    var todo := pages.Keys;
    while todo != {}
      invariant todo <= firstPass.Keys
      invariant pages.Keys == firstPass.Keys
      invariant forall p | p in pages && p in todo :: pages[p] == firstPass[p]
      invariant forall p | p in pages && p !in todo :: pages[p] == InCorpusLinks(firstPass)[p]
      decreases |todo|
    {
      var file :| file in todo;
      pages := pages[file := set q | q in pages[file] && q in pages];
      todo := todo - {file};
    }
  }
}
