# Spotify poetry: a verified model of the phrasing search

`spotify_poetry.py` turns a line of text into a playlist whose song titles,
read in order, spell out the text. It proceeds in four steps:

1. It enumerates every way of cutting the whitespace-split input into
   contiguous phrases (`gen_possible_poems`).
2. It collects the distinct phrases (`unique`).
3. It looks each phrase up with the search service (`threaded_api`).
4. It evaluates the phrasings in order of song count (`Poem.process_poem`
   inside `build_playlist`).

Evaluation resolves a phrase to the first candidate track whose name equals
it under lower-casing. Resolutions are memoised in a dictionary shared by
all phrasings. The loop keeps the first valid phrasing. It replaces it only
by a strictly better-scoring phrasing that is no longer, and it stops at the
first longer phrasing.

The model is organised in modules:

| module | file | models |
|---|---|---|
| `Text` | `text.dfy` | `str.split()`, `' '.join`, `str.lower()` on byte strings (see "## Left out" on non-ASCII names) |
| `Partitions` | `partitions.dfy` | `gen_possible_poems`, with `itertools.combinations` as a function |
| `PhraseIndex` | `phrase_index.dfy` | `unique` |
| `Fetch` | `fetch.dfy` | the slicing of `threaded_api` and its workers, over a search function |
| `Evaluator` | `evaluator.dfy` | `exact_match`, the first-match rule, `process_poem` and the class `Poem` |
| `Selection` | `selection.dfy` | the selection rule of `build_playlist` as a state machine over counts, validity and scores |
| `Selector` | `selector.dfy` | `build_playlist`: fetching the pages and the selection loop |

Where the script works step by step, the model does too: methods with loops
that append to sequences and update maps. A `Poem` class has the mutable
fields `playlist` and `score`. Each method is proved against a function or
predicate that states what its loop computes. Lemmas then prove what the
script promises about that function.

**The search service.** It is a parameter, `search: string -> seq<Track>`,
which gives the candidate tracks of the page returned for a phrase, in page
order.

**The score.** `rank_score` is a parameter, `rank(scores, songCount)`,
because it is a floating-point product raised to a real power. The list of
scores passed to it is built exactly as the script builds it:
- one entry for a memoised phrase (line 138);
- two entries for a freshly matched phrase (lines 158 and 162).

A phrasing's score therefore depends on which phrases earlier phrasings
memoised. `Selector.ScoreAt` captures this by evaluating phrasing k with
the memo the first k phrasings leave.

**The unsplit phrasing.** The first phrasing is the raw input string,
exactly as line 84 builds it. It is not `' '.join(input.split())`, so extra
or leading whitespace in the input stays in it. The model
follows the code, so `ChosenOn` allows either the raw input or a split of its
words.

## Model

| member | source | states |
|---|---|---|
| Text.Words | spotify_poetry.py:85 | `split()` yields only non-empty tokens free of whitespace |
| Text.WordsOfJoin | spotify_poetry.py:85-89 | splitting `' '.join(ws)` gives back `ws` whenever every element is a whitespace-free token |
| Text.Join | spotify_poetry.py:89 | `sep.join(parts)`: the parts in order with one separator between neighbours (definition; its laws are JoinAppend and WordsOfJoin) |
| Text.JoinAppend | spotify_poetry.py:89 | joining two non-empty lists is joining each, with one separator between |
| Text.Lower | spotify_poetry.py:119 | `str.lower()` keeps the length, turns each of 'A'..'Z' into its letter 'a'..'z', keeps every other character, and so leaves no upper-case letter |
| Text.LowerIdempotent | spotify_poetry.py:118-122 | lower-casing twice is lower-casing once, so `exact_match` compares canonical forms |
| Partitions.Range | spotify_poetry.py:86 | `range(lo, hi)` has `hi - lo` elements and element i is `lo + i` |
| Partitions.Combinations | spotify_poetry.py:88 | `itertools.combinations(pool, n)` in its lexicographic order, tuples taking `pool[0]` first (definition; its laws are CombinationsCount, CombinationsShape and CombinationsComplete) |
| Partitions.CombinationsCount | spotify_poetry.py:88 | `combinations(pool, n)` yields Binom(\|pool\|, n) tuples |
| Partitions.CombinationsShape | spotify_poetry.py:88 | over an increasing pool, every tuple picks n pool elements in increasing order |
| Partitions.CombinationsComplete | spotify_poetry.py:88 | every increasing n-selection from the pool is among the tuples, so no set of cut points is missed |
| Partitions.SubsetCount | spotify_poetry.py:86-90 | the binomials Binom(m, 0..m) add up to 2^m |
| Partitions.Phrases | spotify_poetry.py:89 | the phrases for one tuple of cut points, each the words between consecutive bounds of `(0,) + idxs` and `idxs + (None,)` joined with spaces (definition; its law is PhrasesJoin) |
| Partitions.PhrasesJoin | spotify_poetry.py:89 | valid cut points yield one more phrase than cuts, and the phrases joined with single spaces give `' '.join(words)` |
| Partitions.PhrasingsOfSplits | spotify_poetry.py:88-90 | the phrasings built from n-cut tuples are splits of the words with count n + 1 |
| Partitions.SectionSplits | spotify_poetry.py:88-90 | pass n of the outer loop appends Binom(w-1, n) phrasings, each a split of the words with n + 1 phrases |
| Partitions.SectionsSplits | spotify_poetry.py:87-90 | passes 1..k append SumBinom(w-1, k) - 1 splits of the words with counts 2..k+1, in non-decreasing count order |
| Partitions.PhrasingsProperties | spotify_poetry.py:84-90 | the trivial phrasing followed by the passes: first entry `([s], 1)`, every later entry a split, counts sorted, 2^(w-1) entries over w words |
| Partitions.PossiblePoems | spotify_poetry.py:81-92 | the list `gen_possible_poems(s)` returns: `([s], 1)`, then the passes n = 1..w-1 (definition; its laws are PossiblePoemsProperties and EveryCutSetAppears) |
| Partitions.PossiblePoemsProperties | spotify_poetry.py:81-92 | the list `gen_possible_poems(s)` returns starts with `([s], 1)`, continues with splits of `s.split()` whose count is their length, is sorted by count and has 2^(w-1) entries (one entry for one word or none) |
| Partitions.EveryCutSetAppears | spotify_poetry.py:86-90 | every way of cutting the input at one or more word boundaries is among the phrasings |
| Partitions.AddSection | spotify_poetry.py:88-90 | the inner loop appends one phrasing per n-subset of the boundary positions, in `combinations` order |
| Partitions.AddSplits | spotify_poetry.py:83-91 | the two loops build the trivial phrasing followed by the passes n = 1..w-1 |
| Partitions.GenPossiblePoems | spotify_poetry.py:81-92 | the returned list is the enumeration, with the first-entry, split, sortedness and 2^(w-1) count properties |
| PhraseIndex.PhraseSetMembership | spotify_poetry.py:98-101 | a phrase is seen exactly when some phrasing holds it |
| PhraseIndex.PhraseSetHolds | spotify_poetry.py:98-101 | every phrase of every phrasing is seen |
| PhraseIndex.ListOf | spotify_poetry.py:103 | `list(seen.keys())` has no repetitions and holds exactly the keys |
| PhraseIndex.Unique | spotify_poetry.py:95-103 | the result has no duplicates and holds exactly the phrases occurring in some phrasing (both directions) |
| Fetch.EvenSlices | spotify_poetry.py:62-63 | slices 0..n-2 each hold chunksize items, and together they are the first chunksize * (n-1) items in order |
| Fetch.Chunks | spotify_poetry.py:53-68 | min(nthreads, 300) slices; all but the last hold floor(len / workers) items and the last holds the rest; concatenated they give back the list, so every item lies in exactly one slice |
| Fetch.Worker | spotify_poetry.py:38-51 | afterwards every phrase of the slice maps to its search page; other keys are unchanged |
| Fetch.ThreadedApi | spotify_poetry.py:37-75 | the resulting dictionary has exactly the keys it started with plus the phrases; each phrase maps to its search page, and other entries are unchanged |
| Evaluator.NotFound | spotify_poetry.py:147 | the entry `('', 0.0, False, phrase)` recorded for a phrase without match (definition; Resolve states when it is recorded) |
| Evaluator.ExactMatch | spotify_poetry.py:118-122 | `target.lower() == test.lower()` (definition; its laws are ExactMatchChars and ExactMatchLower) |
| Evaluator.ExactMatchChars | spotify_poetry.py:118-122 | two names match exactly when they have the same length and at every position hold the same byte, or an upper-case letter 'A'..'Z' and its lower-case letter (SameUpToCase); no other character is folded |
| Evaluator.ExactMatchLower | spotify_poetry.py:118-122 | lower-casing the phrase beforehand changes no outcome of exact_match |
| Evaluator.FirstMatch | spotify_poetry.py:154-155 | the position of the first candidate whose name matches under lower-casing, with no match before it |
| Evaluator.Resolve | spotify_poetry.py:153-167 | found exactly when some candidate matches; then it is the first match's (id, popularity, True, phrase), even when a later match is more popular; otherwise `('', 0.0, False, phrase)` |
| Evaluator.Step | spotify_poetry.py:131-167 | one pass of the loop: a memo hit appends its entry and one score, a fresh match is memoised, appended and scored twice, a fresh miss is memoised as not found (definition; its laws are StepExtends and StepConsistent) |
| Evaluator.StepExtends | spotify_poetry.py:131-167 | one pass memoises its phrase and changes no other entry; validity never comes back; the playlist only grows, by at most one entry |
| Evaluator.Process | spotify_poetry.py:131-167 | after process_poem, the memo's keys are the old keys plus every phrase of the poem |
| Evaluator.ProcessExtendsMemo | spotify_poetry.py:133-167 | entries present before are unchanged; each new entry is its phrase's resolution, and its fourth field is its key |
| Evaluator.ProcessKeepsConsistent | spotify_poetry.py:133-167 | a memo of resolutions stays a memo of resolutions, with every fourth field equal to its key |
| Evaluator.StepConsistent | spotify_poetry.py:133-167 | with a consistent memo, a memoised and a fresh phrase affect validity and the playlist identically |
| Evaluator.ProcessValidity | spotify_poetry.py:131-173 | process_poem reports True exactly when every phrase has a matching candidate, whatever was memoised before |
| Evaluator.ProcessValidityMemo | spotify_poetry.py:131-173 | process_poem reports True exactly when the memo afterwards marks every phrase of the poem as found |
| Evaluator.ProcessPlaylist | spotify_poetry.py:131-173 | when valid, the playlist has one entry per phrase, in phrase order, entry i being phrase i's resolution with `entry[3] == phrase` |
| Evaluator.MatchPage | spotify_poetry.py:153-167 | the scan of one page, with its early `break`, records the first-match resolution or the not-found entry |
| Evaluator.Poem.constructor | spotify_poetry.py:110-114 | a Poem starts with its phrases, its count, an empty playlist and score 0 |
| Evaluator.Poem.ProcessLine | spotify_poetry.py:131-167 | one loop pass updates validity, scores, memo and `self.playlist` as one step of the evaluation, leaving the score alone |
| Evaluator.Poem.ProcessPoem | spotify_poetry.py:125-173 | returns the evaluation's verdict and memo, extends `self.playlist` by its entries, and sets the score from the scores list only when valid |
| Selector.CacheStep | spotify_poetry.py:205-210 | evaluating phrasing k with the memo of phrasings 0..k-1 leaves the memo of phrasings 0..k |
| Selector.MemoAfterIsCache | spotify_poetry.py:205-210 | the memo threaded through the loop maps exactly the phrases met so far to their resolutions |
| Selector.EvaluateAt | spotify_poetry.py:209-210 | evaluating phrasing k in turn gives its validity, the next memo, a resolving playlist when valid, and its score |
| Selector.PlaylistAtResolves | spotify_poetry.py:209-210 | a valid phrasing's playlist resolves each of its phrases in order |
| Selector.Evaluate | spotify_poetry.py:209-210 | a fresh Poem processed with the threaded memo has the phrasing's validity, score and playlist, and passes on the next memo |
| Selection.NoneYet | spotify_poetry.py:226-227 | an invalid phrasing leaves "no valid phrasing yet" true |
| Selection.KeptFirst | spotify_poetry.py:212-216 | the first valid phrasing becomes the best, and its count becomes the bound |
| Selection.KeptNext | spotify_poetry.py:208-227 | within the bound, a strictly higher score replaces the best, and anything else keeps it |
| Selection.PickedStops | spotify_poetry.py:205-230 | on a count-sorted list, every phrasing before the loop's stop has no more songs than the kept one, and the phrasing at the stop has more |
| Selection.PickedIsOptimal | spotify_poetry.py:186-230 | on a count-sorted list, the kept phrasing has the fewest songs among valid phrasings and the highest score among valid phrasings of that count, ties going to the earliest |
| Selector.Visit | spotify_poetry.py:205-230 | one pass of the loop for a phrasing within the bound: it is evaluated with the memo of the earlier phrasings, the memo becomes that of the phrasings so far, and the loop state moves on by one |
| Selector.Keep | spotify_poetry.py:212-227 | one update of `best_play` and `best_play_len` after a phrasing within the bound keeps the loop state: the first valid phrasing becomes the best and sets the bound, a strictly higher score replaces it |
| Selector.SelectEnd | spotify_poetry.py:205-232 | where the loop stops, no best means no valid phrasing and the whole list evaluated; otherwise the best is the Picked phrasing with its score and a resolving playlist |
| Selector.SelectBest | spotify_poetry.py:199-230 | no best exactly when no phrasing is valid, and then every phrasing was evaluated; otherwise exactly the phrasings before the stop of Picked were evaluated (the end of the list or the first phrasing longer than the bound), and the best is the phrasing the loop keeps there, with its score and a resolving playlist |
| Selector.CountsOrdered | spotify_poetry.py:80 | a count-sorted list of phrasings has a sorted list of counts |
| Selector.PhrasingShape | spotify_poetry.py:84-90 | any phrasing of the enumeration is the raw input or a split of its words |
| Selector.PickedIsChosenOn | spotify_poetry.py:186-239 | on the enumeration with its fetched pages, the kept phrasing is optimal, is the input or a split of it, and has the playlist of its phrases' resolutions |
| Selector.PickedIsChosen | spotify_poetry.py:186-239 | the same for `gen_possible_poems(s)` and the pages of its phrases |
| Selector.FetchedPages | spotify_poetry.py:193-194 | the dictionary threaded_api returns maps exactly the phrases of the phrasings to their search pages |
| Selector.FetchPages | spotify_poetry.py:193-194 | the fetched pages are the search pages of every phrase of every phrasing |
| Selector.Prepare | spotify_poetry.py:192-194 | enumerate the phrasings, then fetch a page for every phrase they contain |
| Selector.PickedEvaluatedUpTo | spotify_poetry.py:205-230 | on the enumeration, the phrasings evaluated are none longer than the kept one, up to the first that is longer |
| Selector.BuildPlaylist | spotify_poetry.py:190-239 | returns True exactly when some phrasing is valid against the search service; the kept poem is then optimal (fewest songs, best score, earliest tie) and its playlist resolves each phrase; on failure every phrasing was evaluated, on success none longer than the kept poem and only up to the first longer one |

## Left out

- Network access: the `urllib2` request, URL building with `re.sub`, and the "Connection problem" path (lines 39-49) are left out. The search service is a total function, so every phrase gets a page. In the source, a failed request leaves the phrase without a page, and line 140 then raises KeyError.
- Threads: `threading.Thread`, `start` and `join` (lines 59-73) are left out. The workers run one after another. Every slot of `outs` aliases the same dictionary (line 60), so the model threads one dictionary through all workers.
- Key order: the merge at line 75 and `list(seen.keys())` at line 103 depend on dictionary order. `ListOf` picks an arbitrary order, and no later step depends on it.
- The chunk size: line 58 computes it through floats. The model uses integer floor division, which gives the same value for all list lengths that fit a float exactly.
- Fetch.Chunks: requires at least one worker, as ThreadedApi does; zero workers raise ZeroDivisionError at line 58.
- Fetch.ThreadedApi: requires at least one worker. Zero workers raise ZeroDivisionError at line 58, and a negative count is never passed. build_playlist always passes at least one, because the first phrasing holds the input itself.
- Selector.FetchPages: requires a first phrasing with a phrase. This always holds for `gen_possible_poems` output, and it is what keeps line 194 from passing zero workers.
- Evaluator.ExactMatch: names are compared as byte strings, and only 'A'..'Z' are folded. ElementTree returns a non-ASCII name as `unicode`, so line 119 compares the byte-string phrase with a unicode name. A non-ASCII phrase never matches such a name, because decoding the phrase as ASCII fails. An ASCII phrase is decoded and matches a non-ASCII name whenever `unicode.lower()` folds the name into it: 'İstanbul' (U+0130) becomes 'istanbul', and the Kelvin sign U+212A becomes 'k'. The model misses that match, and it also misses the folding of any other letter beyond 'A'..'Z'.
- XML parsing: `ET.parse`, the namespace regex at line 128 and `href.split(':')[2]` (lines 143-157) are left out. A page is already a list of candidates, each with a name, an id and a popularity.
- Parse failures: the failure branch at lines 146-150 continues with a stale or unbound `root`. The model treats a page that cannot be parsed as an empty candidate list, which yields the not-found entry.
- Evaluator.Poem.ProcessPoem: requires that every phrase is memoised or has a page. Otherwise the source raises KeyError at line 140.
- Selector.SelectBest: requires pages for every phrase of every phrasing, although the loop only reads pages for the phrasings it reaches. BuildPlaylist always provides all of them.
- rank_score (line 179): its floating-point product and real exponent are left out. It is the parameter `rank`, applied to the scores list as the source builds it, with the double append for fresh matches.
- The try/except around the score comparison (lines 221-225): comparing two reals cannot fail, so its `continue` path is not modelled.
- The `sys.maxint` sentinel (line 199): modelled as "no best yet". Every phrase count is far below it.
- Unused state: the counter `pos` in `unique` (lines 97 and 102) and `song_base_url` (line 197) affect no result.
- Output: printing the chosen playlist (lines 232-236) is left out. BuildPlaylist returns the kept Poem alongside the boolean.
- The console loop (lines 242-262) is left out: it reads input, lower-cases it and asks whether to retry.
- Python's shared mutable default `in_dict = dict()` (line 37) is left out, because build_playlist always passes a fresh `{}`.
