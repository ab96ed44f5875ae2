# PageRank estimators, modelled in Dafny

This project models the rank-estimation core of `pagerank.py`. The program
reads a directory of HTML pages into a *corpus*: each page maps to the set of
pages it links to. It then estimates each page's PageRank in two ways:

- the random-surfer sampler, `sample_pagerank`;
- the power method, `iterate_pagerank`.

Both rest on `transition_model`, the surfer's next-page distribution with
damping factor `d`.

The model keeps the program's imperative shape. Every Python loop that fills a
dictionary is a Dafny `while` loop over the remaining keys, proved against a
closed-form specification function. The properties that the docstrings and the
design promise are proved about those functions.

- `pages.dfy` (`Pages`): the corpus type, the graph invariants
  `LinksInCorpus` and `WellFormed`, and the `Result`/`Error` type. `Error`
  stands for the points where the Python code raises.
- `sums.dfy` (`Sums`): finite sums over sets and the algebra the
  probability arguments need (splitting, scaling, constants, swapping a double
  sum).
- `dicts.dfy` (`Dicts`): the two dictionary-filling loops, `dist[k] = v` and
  `dist[k] += v`, over a set of keys.
- `crawl.dfy` (`Crawl`): the link clean-up of `crawl`, which drops
  self-links and links leaving the corpus.
- `transition.dfy` (`Transitions`): `transition_model`, its closed form,
  its exact values, and the proof that it is a probability distribution.
- `sampling.dfy` (`Sampling`): `sample_pagerank`, with the random draws
  given as a walk, and the proof that its estimates are visit frequencies
  forming a distribution.
- `iteration.dfy` (`Iteration`): `iterate_pagerank`. This covers the
  per-link inner loop, the pass, the largest change, and the stopping rule. It
  also proves that the result is the first snapshot whose next pass stays
  within the tolerance.
- `distribution.dfy` (`Distribution`): every snapshot of the power method
  is a probability distribution when the links stay inside the corpus.

Ranks are exact `real` numbers. Python's dictionaries are Dafny `map`
values. The copy `old_values = new_value.copy()` is therefore a plain
assignment, and the snapshot a pass reads cannot be changed by that pass.

## Model

| member | source | states |
|---|---|---|
| `Crawl.LinkSets` | pagerank.py:36-37 | each page's link set has exactly the targets of its extracted href list, and the pages are unchanged |
| `Crawl.Normalise` | pagerank.py:37-41 | the normalised graph has the same pages, satisfies `WellFormed` (every link is a page of the corpus and none is a self-link), keeps only links the page had, and keeps every such link to another corpus page |
| `Crawl.NormaliseKeepsWellFormed` | pagerank.py:40-41 | normalising a graph that is already well formed changes nothing |
| `Crawl.NormaliseIdempotent` | pagerank.py:37-41 | normalising twice is the same as normalising once |
| `Crawl.PassesNormalise` | pagerank.py:37-41 | the self-link pass followed by the in-corpus pass is the normalisation |
| `Crawl.FilterLinks` | pagerank.py:37-41 | the crawler's two passes yield the normalised graph of the extracted links: same keys, well formed |
| `Crawl.DropSelfLinks` | pagerank.py:37 | the first pass stores each page's distinct targets minus the page itself |
| `Crawl.KeepCorpusLinks` | pagerank.py:40-41 | rewriting the dictionary entry by entry, each test against its keys, leaves every page with exactly its links that are keys |
| `Dicts.AssignAll` | pagerank.py:59-60 | after `dist[k] = v` for every key, exactly the old keys and the given keys are present; the given keys hold `v` and every other entry is unchanged |
| `Dicts.AddAll` | pagerank.py:68-69 | after `dist[k] += v` for keys already present, the keys are unchanged; the given keys gained `v` and every other entry is unchanged |
| `Transitions.TransitionModel` | pagerank.py:45-75 | the filling loops compute the closed-form distribution `Transition` |
| `Transitions.TransitionAt` | pagerank.py:62-73 | each entry of the closed form: with links, `d/L` on a link plus `(1-d)/N` on a corpus page; without links, `1/N` |
| `Transitions.FilledWithLinks` | pagerank.py:62-69 | for a page with links, assigning `d*(1/L)` on the links and then adding `(1-d)*(1/N)` on every page gives the closed form |
| `Transitions.FilledDangling` | pagerank.py:70-73 | for a page without links, assigning `1/N` on every page gives the closed form |
| `Transitions.TransitionKeys` | pagerank.py:54-73 | the result holds exactly the corpus pages and the page's link targets; exactly the corpus pages when links stay inside the corpus |
| `Transitions.LinkedPageValues` | pagerank.py:62-69 | for a page with links, a linked page gets `d/L + (1-d)/N` and any other corpus page gets `(1-d)/N` |
| `Transitions.DanglingPageValues` | pagerank.py:70-73 | for a dangling page, every corpus page gets exactly `1/N` |
| `Transitions.LinkedValues` | pagerank.py:62-69 | with links inside the corpus, the result is keyed by the corpus and holds the link and jump values on every page |
| `Transitions.LinkedMassIsOne` | pagerank.py:62-69 | `L` entries of `d/L + (1-d)/N` and `N - L` entries of `(1-d)/N` add up to one |
| `Transitions.UniformMassIsOne` | pagerank.py:70-73 | `N` entries of `1/N` add up to one |
| `Transitions.ProbsNonneg` | pagerank.py:65-73 | for `0 <= d <= 1`, the link share, the jump share and the uniform share are non-negative |
| `Transitions.TransitionNonneg` | pagerank.py:62-73 | for `0 <= d <= 1`, every entry is non-negative |
| `Transitions.LinkedTransitionMass` | pagerank.py:62-69 | for a page with links inside the corpus, the entries sum to one |
| `Transitions.DanglingTransitionMass` | pagerank.py:70-73 | for a dangling page, the entries sum to one |
| `Transitions.TransitionIsDistribution` | pagerank.py:45-75 | for `0 <= d <= 1` and links inside the corpus, the result covers exactly the corpus, sums to one, and every entry lies in `[0, 1]` |
| `Sampling.SamplePagerank` | pagerank.py:77-115 | an empty corpus fails at the random start and `n == 0` fails at `1 / n`; otherwise the result is `Estimate`, each page's visit count in the walk times `1/n` |
| `Sampling.NextSample` | pagerank.py:101-113 | one loop round adds one visit for the drawn page and moves on to its transition distribution |
| `Sampling.FirstVisit` | pagerank.py:90-95 | all pages at zero, then the start page at `1/n`, is the estimate of the one-page walk |
| `Sampling.NextVisit` | pagerank.py:109-110 | adding `1/n` to the page drawn in step `i` gives the estimate of the walk one step longer |
| `Sampling.OccurrencesIsMultiplicity` | pagerank.py:101-110 | the visit count of a page is its multiplicity in the walk |
| `Sampling.OccurrencesZeroIff` | pagerank.py:101-110 | a page's visit count is zero exactly when the walk never visits it |
| `Sampling.OccurrencesStep` | pagerank.py:109-110 | one more step adds one visit to the page it reaches and none to any other page |
| `Sampling.VisitsMass` | pagerank.py:91-110 | over pages containing the walk, the visit weights add up to one weight per step |
| `Sampling.AllVisitsWeighOne` | pagerank.py:95-110 | `n` visits at `1/n` add up to one |
| `Sampling.EstimateIsDistribution` | pagerank.py:77-115 | for `n >= 1` and a walk of `n` corpus pages, the estimates cover exactly the corpus, sum to one, and every one lies in `[0, 1]` |
| `Sampling.EstimateZeroIffUnvisited` | pagerank.py:91-110 | for `n >= 1`, a page's estimate is zero exactly when the walk never visits it |
| `Iteration.Abs` | pagerank.py:155 | `abs` is non-negative and equals the argument or its negation |
| `Iteration.PortionIsQuotient` | pagerank.py:142-149 | an equal share `x * (1/k)` is the quotient `x / k` the source divides by |
| `Iteration.PortionsAddUp` | pagerank.py:142-145 | `k` equal shares of `x` add up to `x` |
| `Iteration.InFlowFromIsSum` | pagerank.py:139-145 | the in-flow from a set of pages is the sum of their contributions |
| `Iteration.InFlowLoop` | pagerank.py:138-145 | the inner loop accumulates the in-flow: the sum over all corpus pages of what each hands on to the page |
| `Iteration.AddContribution` | pagerank.py:140-145 | one inner round adds `old/len(links)` when the link points to the page, and `old/N` when the linking page has no links |
| `Iteration.PageRank` | pagerank.py:138-149 | the page's next rank is `d` times its in-flow plus `(1-d)/N` |
| `Iteration.UpdatePass` | pagerank.py:137-152 | one pass writes every corpus page's next rank, computed from the old snapshot only, into `new_value`, and keeps its other entries |
| `Iteration.MaxChange` | pagerank.py:155 | `max` of the changes fails on an empty snapshot; otherwise it bounds every change and equals one of them |
| `Iteration.UniformRanks` | pagerank.py:131-133 | the starting snapshot gives every page `1/N` |
| `Iteration.IteratePagerank` | pagerank.py:117-163 | an empty corpus fails. A returned snapshot is the `k`-th, the first whose next pass moves no rank by `0.001/SAMPLES` or more. If the pass budget runs out, no snapshot so far has stopped the loop |
| `Iteration.PassAndCompare` | pagerank.py:137-159 | the pass over snapshot `k` yields snapshot `k + 1`, and the loop stops there exactly when the largest change is below the tolerance |
| `Iteration.PassOverwrites` | pagerank.py:137-161 | a pass into a dictionary holding only corpus pages yields exactly the next snapshot, which the copy makes the new `old_values` |
| `Iteration.NextSnapshot` | pagerank.py:155-161 | the next snapshot is the pass over the current one, and the stop test is convergence between the two |
| `Iteration.MaxChangeDecides` | pagerank.py:155-158 | every change is below the tolerance exactly when the largest one is |
| `Iteration.NoneSettleStep` | pagerank.py:158-161 | a snapshot that does not stop the loop extends the run of snapshots that did not |
| `Distribution.HandsOnRank` | pagerank.py:139-145 | with links inside the corpus, a page hands on exactly its own rank, split over its links or over all pages |
| `Distribution.InFlowTotal` | pagerank.py:137-145 | with links inside the corpus, the in-flows of all pages add up to the total rank of the snapshot |
| `Distribution.PassRankAt` | pagerank.py:148-152 | a page's rank after the pass is `d` times its in-flow plus `(1-d)/N` |
| `Distribution.PassValues` | pagerank.py:137-152 | over a non-empty corpus, every rank after the pass is that affine image of its in-flow |
| `Distribution.JumpSharesAddUp` | pagerank.py:149 | the `N` jump shares `(1-d)/N` add up to `1 - d` |
| `Distribution.AffineMass` | pagerank.py:148-149 | values that are `d` times some flows plus shares adding up to `1 - d` total `d` times the flows' total plus `1 - d` |
| `Distribution.PassMass` | pagerank.py:122-124 | with links inside a non-empty corpus, a pass turns total rank `m` into `d * m + (1 - d)`, so a total of one stays one |
| `Distribution.PassMassOf` | pagerank.py:148-152 | the mass of a pass, for any in-flows that are the pass's affine preimage and add up to the old total |
| `Distribution.InFlowNonneg` | pagerank.py:139-145 | non-negative ranks give non-negative in-flows |
| `Distribution.DampedNonneg` | pagerank.py:148-149 | for `0 <= d <= 1`, damping a non-negative in-flow gives a non-negative rank |
| `Distribution.PassNonneg` | pagerank.py:137-152 | for `0 <= d <= 1`, a pass over non-negative ranks gives non-negative ranks |
| `Distribution.UniformIsDistribution` | pagerank.py:131-133 | the starting snapshot over a non-empty corpus is a probability distribution |
| `Distribution.PassKeepsDistribution` | pagerank.py:136-161 | for `0 <= d <= 1` and links inside the corpus, a pass keeps a distribution a distribution |
| `Distribution.IterateIsDistribution` | pagerank.py:122-124 | every snapshot of the power method, the returned one included, covers the corpus, is non-negative and sums to one |
| `Distribution.IterateRanksBounded` | pagerank.py:122-124 | every rank of every snapshot lies in `[0, 1]` |

## Left out

- `main` and the module-level entry point (pagerank.py:9-20, 165-166): the
  argument check and the printing are I/O. The constant `DAMPING` is used only
  there. The model takes the damping factor `d` as a parameter.
- Directory listing, file reading and the regular expression that extracts
  hrefs (pagerank.py:31-36): these are I/O and text parsing. Their outcome, each
  page's list of href targets, is the input of `Crawl.FilterLinks`.
- `random.choice` and `random.choices` (pagerank.py:88, 103-107): the draws
  are an input walk. The model only requires that the walk be one the draws can
  produce: it starts in the corpus, and each step is a page of positive
  probability. The probability law of the sampler is not modelled, and neither
  is agreement between the two estimators.
- Floating-point rounding: all arithmetic is exact `real`. The final stop test
  compares exact values. Summation order therefore does not matter, and
  dictionary iteration order becomes an arbitrary choice of the next key.
- `Iteration.IteratePagerank`: `while True` is bounded by a `fuel` number of
  passes, with `Err(NotConverged)` when the budget runs out. Whether the power
  method converges is not proved.
- `Iteration.IteratePagerank`: for an empty corpus the source computes
  `N = 0`, skips the initialisation and the pass, and fails at `max([])`
  (pagerank.py:155). The model fails with `Err(EmptyCorpus)` at once. The
  outcome is the same: no ranks are returned.
- `Transitions.TransitionModel`: a page outside the corpus raises `KeyError`
  at pagerank.py:55. The model makes `page in corpus` a precondition.
- `Sampling.SamplePagerank`: every page of the walk must be in the corpus. In
  the source, a drawn link target outside the corpus would raise `KeyError` at
  pagerank.py:110. The graphs `crawl` produces have no such links.
- `Distribution.PassMass` and the other mass lemmas require that every link
  target is a page of the corpus (`LinksInCorpus`). With links leaving the
  corpus, the source's pass loses the rank sent along them. The transition
  distribution then also has keys outside the corpus; `Transitions.Transition`
  models these keys and `Transitions.TransitionKeys` states them.
