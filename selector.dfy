/** The driver `build_playlist` (spotify_poetry.py:190-239): enumerate the
    phrasings, fetch a page per distinct phrase, then evaluate phrasings in
    order, keeping the first valid one and replacing it only by a strictly
    better-scoring one no longer than it, and stop at the first phrasing
    longer than the one kept. */
module Selector {
  import opened Text
  import opened Partitions
  import opened PhraseIndex
  import opened Fetch
  import opened Evaluator
  import opened Selection

  /** Every phrase of every phrasing has a page. */
  ghost predicate HasPages(poems: seq<Phrasing>, pages: Pages) {
    forall k, i :: 0 <= k < |poems| && 0 <= i < |poems[k].phrases| ==> poems[k].phrases[i] in pages
  }

  /** The memo `song_data` once the phrasings `poems` have been evaluated:
      every phrase met so far, resolved against its page. */
  ghost function Cache(poems: seq<Phrasing>, pages: Pages): Memo {
    map p | p in PhraseSet(poems) && p in pages :: Resolve(p, pages[p])
  }

  /** The memo as the loop of lines 205-210 threads it through the
      phrasings: each is processed with the memo the earlier ones left. */
  ghost function MemoAfter(poems: seq<Phrasing>, pages: Pages): Memo
    requires HasPages(poems, pages)
    decreases |poems|
  {
    if poems == [] then map[]
    else Process(poems[|poems| - 1].phrases, pages, MemoAfter(poems[..|poems| - 1], pages)).memo
  }

  /** Phrasing k is valid: every phrase has a matching candidate. */
  ghost predicate ValidAt(poems: seq<Phrasing>, pages: Pages, k: nat)
    requires k < |poems|
  {
    AllFound(poems[k].phrases, pages)
  }

  /** The score phrasing k receives when evaluated after all earlier ones:
      rank_score of the scores list process_poem builds with the memo left by
      the earlier phrasings. */
  ghost function ScoreAt(poems: seq<Phrasing>, pages: Pages, rank: (seq<real>, nat) -> real, k: nat): real
    requires HasPages(poems, pages) && k < |poems|
  {
    rank(Process(poems[k].phrases, pages, Cache(poems[..k], pages)).scores, poems[k].count)
  }

  lemma HasPagesPrefix(poems: seq<Phrasing>, pages: Pages, k: nat)
    requires HasPages(poems, pages) && k <= |poems|
    ensures forall p :: p in PhraseSet(poems[..k]) ==> p in pages
  {
    forall p | p in PhraseSet(poems[..k]) ensures p in pages {
      PhraseSetMembership(poems[..k], p);
      var j :| 0 <= j < k && p in poems[..k][j].phrases;
      assert poems[..k][j] == poems[j];
    }
  }

  lemma CacheConsistent(poems: seq<Phrasing>, pages: Pages)
    ensures Consistent(Cache(poems, pages), pages)
  {
  }

  lemma CacheKeysStep(poems: seq<Phrasing>, pages: Pages, k: nat)
    requires HasPages(poems, pages) && k < |poems|
    ensures Cache(poems[..k + 1], pages).Keys == Cache(poems[..k], pages).Keys + SetOf(poems[k].phrases)
  {
    assert poems[..k + 1][..k] == poems[..k];
    assert PhraseSet(poems[..k + 1]) == PhraseSet(poems[..k]) + SetOf(poems[k].phrases);
    HasPagesPrefix(poems, pages, k);
    HasPagesPrefix(poems, pages, k + 1);
  }

  /** Evaluating phrasing k with the memo of the earlier ones leaves the memo
      of the first k + 1 phrasings, and that memo is consistent with the pages. */
  lemma CacheStep(poems: seq<Phrasing>, pages: Pages, k: nat)
    requires HasPages(poems, pages) && k < |poems|
    ensures Consistent(Cache(poems[..k], pages), pages)
    ensures Covered(poems[k].phrases, pages, Cache(poems[..k], pages))
    ensures Process(poems[k].phrases, pages, Cache(poems[..k], pages)).memo == Cache(poems[..k + 1], pages)
  {
    var m := Cache(poems[..k], pages);
    var poem := poems[k].phrases;
    CacheConsistent(poems[..k], pages);
    CacheKeysStep(poems, pages, k);
    var e := Process(poem, pages, m);
    var m' := Cache(poems[..k + 1], pages);
    ProcessExtendsMemo(poem, pages, m);
    forall p | p in e.memo ensures e.memo[p] == m'[p] {
      if p in m {
        assert e.memo[p] == m[p];
      }
    }
  }

  /** The memo the loop threads is exactly the set of phrases met so far,
      each resolved against its page. */
  lemma {:induction false} MemoAfterIsCache(poems: seq<Phrasing>, pages: Pages)
    requires HasPages(poems, pages)
    ensures MemoAfter(poems, pages) == Cache(poems, pages)
    decreases |poems|
  {
    if poems != [] {
      var n := |poems| - 1;
      MemoAfterIsCache(poems[..n], pages);
      CacheStep(poems, pages, n);
      assert poems[..n + 1] == poems;
    }
  }

  /** The song counts of the phrasings, in order. */
  function Counts(poems: seq<Phrasing>): seq<nat> {
    seq(|poems|, k requires 0 <= k < |poems| => poems[k].count)
  }

  /** Which phrasings are valid, in order. */
  ghost function Valids(poems: seq<Phrasing>, pages: Pages): seq<bool> {
    seq(|poems|, k requires 0 <= k < |poems| => ValidAt(poems, pages, k))
  }

  /** The score each phrasing receives when evaluated in turn, in order. */
  ghost function Scores(poems: seq<Phrasing>, pages: Pages, rank: (seq<real>, nat) -> real): seq<real>
    requires HasPages(poems, pages)
  {
    seq(|poems|, k requires 0 <= k < |poems| => ScoreAt(poems, pages, rank, k))
  }

  /** Evaluating phrasing k after the earlier ones: process_poem's verdict
      is ValidAt, its memo is that of phrasings 0..k, and on success its
      playlist resolves every phrase and its score is ScoreAt. */
  lemma EvaluateAt(poems: seq<Phrasing>, pages: Pages, rank: (seq<real>, nat) -> real, k: nat)
    requires HasPages(poems, pages) && k < |poems|
    ensures Covered(poems[k].phrases, pages, Cache(poems[..k], pages))
    ensures var e := Process(poems[k].phrases, pages, Cache(poems[..k], pages));
      && e.memo == Cache(poems[..k + 1], pages)
      && e.valid == Valids(poems, pages)[k]
      && (e.valid ==> PlaylistOf(poems[k].phrases, pages, e.playlist))
      && rank(e.scores, poems[k].count) == Scores(poems, pages, rank)[k]
  {
    CacheStep(poems, pages, k);
    ProcessValidity(poems[k].phrases, pages, Cache(poems[..k], pages));
    ProcessPlaylist(poems[k].phrases, pages, Cache(poems[..k], pages));
  }

  /** The playlist process_poem builds for phrasing k after the earlier ones. */
  ghost function PlaylistAt(poems: seq<Phrasing>, pages: Pages, k: nat): seq<Resolution>
    requires HasPages(poems, pages) && k < |poems|
  {
    Process(poems[k].phrases, pages, Cache(poems[..k], pages)).playlist
  }

  /** A valid phrasing's playlist resolves each of its phrases in order. */
  lemma PlaylistAtResolves(poems: seq<Phrasing>, pages: Pages, k: nat)
    requires HasPages(poems, pages) && k < |poems| && ValidAt(poems, pages, k)
    ensures PlaylistOf(poems[k].phrases, pages, PlaylistAt(poems, pages, k))
  {
    EvaluateAt(poems, pages, (_, _) => 0.0, k);
  }

  /** Lines 209-210: a fresh Poem for phrasing k, processed with the memo
      left by the earlier phrasings. */
  method Evaluate(poems: seq<Phrasing>, pages: Pages, rank: (seq<real>, nat) -> real, k: nat, songData: Memo)
    returns (p: Poem, valid: bool, data: Memo)
    requires HasPages(poems, pages) && k < |poems|
    requires songData == MemoAfter(poems[..k], pages)
    ensures fresh(p) && p.poem == poems[k].phrases && p.songCount == poems[k].count
    ensures valid == Valids(poems, pages)[k]
    ensures data == MemoAfter(poems[..k + 1], pages)
    ensures valid ==> p.score == Scores(poems, pages, rank)[k]
    ensures p.playlist == PlaylistAt(poems, pages, k)
  {
    EvaluateAt(poems, pages, rank, k);
    MemoAfterIsCache(poems[..k], pages);
    MemoAfterIsCache(poems[..k + 1], pages);
    p := new Poem(poems[k]);
    valid, data := p.ProcessPoem(pages, songData, rank);
  }

  /** The state of the loop of lines 205-230 before phrasing k: with no
      best yet, no phrasing so far is valid; otherwise the loop state Kept
      holds, `best_play_len` is the count of the first valid phrasing f, and
      `best_play` is the Poem evaluated for phrasing b, with its score and
      its playlist. */
  ghost predicate LoopState(poems: seq<Phrasing>, pages: Pages, rank: (seq<real>, nat) -> real,
                            best: Poem?, bestLen: nat, f: nat, b: nat, k: nat)
    requires HasPages(poems, pages)
    reads best
  {
    var counts, ok, sc := Counts(poems), Valids(poems, pages), Scores(poems, pages, rank);
    k <= |poems|
    && (best == null ==> forall j :: 0 <= j < k ==> !ok[j])
    && (best != null ==>
          Kept(counts, ok, sc, f, b, k) && bestLen == counts[f]
          && best.poem == poems[b].phrases && best.songCount == poems[b].count
          && best.score == sc[b] && best.playlist == PlaylistAt(poems, pages, b))
  }

  /** Lines 212-227 for the Poem `p` evaluated for phrasing k, which is no
      longer than the bound: the first valid phrasing becomes the best and
      sets the bound; a later valid one replaces the best only with a
      strictly higher score; an invalid one changes nothing. */
  method Keep(poems: seq<Phrasing>, pages: Pages, rank: (seq<real>, nat) -> real, k: nat,
              p: Poem, valid: bool, best0: Poem?, bestLen0: nat, ghost f0: nat, ghost b0: nat)
    returns (best: Poem?, bestLen: nat, ghost f: nat, ghost b: nat)
    requires HasPages(poems, pages) && k < |poems|
    requires LoopState(poems, pages, rank, best0, bestLen0, f0, b0, k)
    requires best0 != null ==> poems[k].count <= bestLen0
    requires p.poem == poems[k].phrases && p.songCount == poems[k].count
    requires valid == Valids(poems, pages)[k]
    requires valid ==> p.score == Scores(poems, pages, rank)[k]
    requires p.playlist == PlaylistAt(poems, pages, k)
    ensures LoopState(poems, pages, rank, best, bestLen, f, b, k + 1)
  {
    ghost var counts, ok, sc := Counts(poems), Valids(poems, pages), Scores(poems, pages, rank);
    best, bestLen, f, b := best0, bestLen0, f0, b0;
    if best == null {
      if valid {
        KeptFirst(counts, ok, sc, k);
      } else {
        NoneYet(ok, k);
      }
    } else {
      KeptNext(counts, ok, sc, f, b, k);
    }
    if valid {
      if best == null {
        best := p;
        bestLen := p.songCount;
        f, b := k, k;
      } else if p.score > best.score {
        best := p;
        b := k;
      }
    }
  }

  /** One pass of the loop of lines 205-230 for phrasing k, which is no
      longer than the bound: phrasing k is evaluated with the memo of the
      earlier phrasings (lines 209-210) and kept or dropped (lines 212-227),
      so the loop state and the memo move on from k to k + 1. */
  method Visit(poems: seq<Phrasing>, pages: Pages, rank: (seq<real>, nat) -> real, k: nat, songData: Memo,
               best0: Poem?, bestLen0: nat, ghost f0: nat, ghost b0: nat)
    returns (best: Poem?, bestLen: nat, ghost f: nat, ghost b: nat, data: Memo)
    requires HasPages(poems, pages) && k < |poems|
    requires songData == MemoAfter(poems[..k], pages)
    requires LoopState(poems, pages, rank, best0, bestLen0, f0, b0, k)
    requires best0 != null ==> poems[k].count <= bestLen0
    ensures data == MemoAfter(poems[..k + 1], pages)
    ensures LoopState(poems, pages, rank, best, bestLen, f, b, k + 1)
  {
    var p, valid;
    p, valid, data := Evaluate(poems, pages, rank, k, songData);
    best, bestLen, f, b := Keep(poems, pages, rank, k, p, valid, best0, bestLen0, f0, b0);
  }

  /** Where the loop stops, at the end of the list or at the first phrasing
      longer than the bound: with no best, no phrasing is valid; otherwise
      the best is phrasing b of Picked, with its score and its playlist. */
  lemma SelectEnd(poems: seq<Phrasing>, pages: Pages, rank: (seq<real>, nat) -> real,
                  best: Poem?, bestLen: nat, f: nat, b: nat, k: nat)
    requires HasPages(poems, pages) && k <= |poems|
    requires LoopState(poems, pages, rank, best, bestLen, f, b, k)
    requires k == |poems| || (best != null && poems[k].count > bestLen)
    ensures best == null <==> forall j :: 0 <= j < |poems| ==> !ValidAt(poems, pages, j)
    ensures best == null ==> k == |poems|
    ensures best != null ==>
              Picked(Counts(poems), Valids(poems, pages), Scores(poems, pages, rank), f, k, b)
                && best.poem == poems[b].phrases && best.songCount == poems[b].count
                && best.score == ScoreAt(poems, pages, rank, b)
                && PlaylistOf(best.poem, pages, best.playlist)
  {
    ghost var counts, ok, sc := Counts(poems), Valids(poems, pages), Scores(poems, pages, rank);
    if best != null {
      assert Picked(counts, ok, sc, f, k, b);
      assert ok[b] == ValidAt(poems, pages, b);
      PlaylistAtResolves(poems, pages, b);
    } else {
      forall j | 0 <= j < |poems| ensures !ValidAt(poems, pages, j) {
        assert !ok[j];
      }
    }
  }

  /** The loop of lines 199-230 over the phrasings, with the pages already
      fetched. `evaluated` counts the phrasings handed to process_poem: all of
      them when none is valid, otherwise exactly those before the stop of
      Picked, so no phrasing after the first one longer than the bound is
      evaluated. The kept Poem holds the phrasing b described by Picked, its
      score, and a playlist with one resolution per phrase. */
  method SelectBest(poems: seq<Phrasing>, pages: Pages, rank: (seq<real>, nat) -> real)
    returns (best: Poem?, ghost evaluated: nat)
    requires HasPages(poems, pages)
    ensures evaluated <= |poems|
    ensures best == null <==> forall k :: 0 <= k < |poems| ==> !ValidAt(poems, pages, k)
    ensures best == null ==> evaluated == |poems|
    ensures best != null ==> exists f: nat, b: nat ::
              (Picked(Counts(poems), Valids(poems, pages), Scores(poems, pages, rank), f, evaluated, b)
                 && best.poem == poems[b].phrases && best.songCount == poems[b].count
                 && best.score == ScoreAt(poems, pages, rank, b))
    ensures best != null ==> PlaylistOf(best.poem, pages, best.playlist)
  {
    var songData: Memo := map[];
    var bestLen: nat := 0;
    best := null;
    ghost var f: nat, b: nat := 0, 0;
    evaluated := 0;
    var k := 0;
    assert poems[..0] == [];
    while k < |poems|
      invariant 0 <= k <= |poems| && evaluated == k
      invariant songData == MemoAfter(poems[..k], pages)
      invariant LoopState(poems, pages, rank, best, bestLen, f, b, k)
    {
      var poem := poems[k];
      if best != null && poem.count > bestLen {
        break;
      }
      best, bestLen, f, b, songData := Visit(poems, pages, rank, k, songData, best, bestLen, f, b);
      evaluated := evaluated + 1;
      k := k + 1;
    }
    SelectEnd(poems, pages, rank, best, bestLen, f, b, k);
    if best != null {
      assert Picked(Counts(poems), Valids(poems, pages), Scores(poems, pages, rank), f, evaluated, b)
        && best.poem == poems[b].phrases && best.songCount == poems[b].count
        && best.score == ScoreAt(poems, pages, rank, b);
    }
  }

  /** The pages threaded_api stores when called with an empty dictionary on
      the distinct phrases of `poems`. */
  ghost function SearchPages(poems: seq<Phrasing>, search: Search): Pages {
    map p | p in PhraseSet(poems) :: search(p)
  }

  /** Some phrasing of the input is valid against the search service. */
  ghost predicate Feasible(phraseSet: string, search: Search) {
    var poems := PossiblePoems(phraseSet);
    exists k :: 0 <= k < |poems| && ValidAt(poems, SearchPages(poems, search), k)
  }

  /** What build_playlist keeps, over the phrasings `poems` of the input
      `phraseSet` with word list `words` and the pages `pages` the search
      service `search` returned: an optimal phrasing b, which is the input
      itself or a split of its words, its score, and a playlist holding each
      phrase's resolution against its search page. */
  ghost predicate ChosenOn(phraseSet: string, words: seq<string>, poems: seq<Phrasing>, pages: Pages,
                           search: Search, rank: (seq<real>, nat) -> real,
                           poem: seq<string>, count: nat, score: real, playlist: seq<Resolution>)
  {
    HasPages(poems, pages)
    && (exists b: nat :: b < |poems|
          && Optimal(Counts(poems), Valids(poems, pages), Scores(poems, pages, rank), b)
          && poem == poems[b].phrases && count == poems[b].count && score == ScoreAt(poems, pages, rank, b))
    && (poem == [phraseSet] || (count == |poem| && Join(" ", poem) == Join(" ", words)))
    && |playlist| == |poem|
    && (forall i :: 0 <= i < |poem| ==> playlist[i] == Resolve(poem[i], search(poem[i])))
  }

  /** ChosenOn for the phrasings gen_possible_poems enumerates and the pages
      threaded_api fetches for them. */
  ghost predicate Chosen(phraseSet: string, search: Search, rank: (seq<real>, nat) -> real,
                         poem: seq<string>, count: nat, score: real, playlist: seq<Resolution>)
  {
    var poems := PossiblePoems(phraseSet);
    ChosenOn(phraseSet, Words(phraseSet), poems, SearchPages(poems, search), search, rank, poem, count, score, playlist)
  }

  lemma CountsOrdered(poems: seq<Phrasing>)
    requires CountsSorted(poems)
    ensures forall i, j :: 0 <= i <= j < |Counts(poems)| ==> Counts(poems)[i] <= Counts(poems)[j]
  {
  }

  /** Phrasing b of a list that starts with the unsplit input and continues
      with splits of `words` is the input itself or a split of its words. */
  lemma PhrasingShape(phraseSet: string, words: seq<string>, poems: seq<Phrasing>, b: nat)
    requires b < |poems| && poems[0] == Phrasing([phraseSet], 1) && SplitsOf(words, poems[1..])
    ensures poems[b].phrases == [phraseSet]
      || (poems[b].count == |poems[b].phrases| && Join(" ", poems[b].phrases) == Join(" ", words))
  {
    if b > 0 {
      assert poems[1..][b - 1] == poems[b];
    }
  }

  /** On a list ordered by song count that starts with the unsplit input and
      continues with splits of its words, the phrasing the selection loop
      keeps is the one ChosenOn describes. */
  lemma PickedIsChosenOn(phraseSet: string, words: seq<string>, poems: seq<Phrasing>, pages: Pages,
                         search: Search, rank: (seq<real>, nat) -> real,
                         f: nat, stop: nat, b: nat, playlist: seq<Resolution>)
    requires |poems| >= 1 && poems[0] == Phrasing([phraseSet], 1)
    requires SplitsOf(words, poems[1..]) && CountsSorted(poems)
    requires HasPages(poems, pages) && forall p :: p in pages ==> pages[p] == search(p)
    requires Picked(Counts(poems), Valids(poems, pages), Scores(poems, pages, rank), f, stop, b)
    requires PlaylistOf(poems[b].phrases, pages, playlist)
    ensures ChosenOn(phraseSet, words, poems, pages, search, rank,
                     poems[b].phrases, poems[b].count, ScoreAt(poems, pages, rank, b), playlist)
  {
    CountsOrdered(poems);
    PickedIsOptimal(Counts(poems), Valids(poems, pages), Scores(poems, pages, rank), f, stop, b);
    PhrasingShape(phraseSet, words, poems, b);
  }

  lemma SearchPagesHold(poems: seq<Phrasing>, search: Search)
    ensures forall p :: p in SearchPages(poems, search) ==> SearchPages(poems, search)[p] == search(p)
  {
  }

  /** The phrasing the selection loop keeps on the enumerated phrasings is
      the one Chosen describes. */
  lemma PickedIsChosen(phraseSet: string, search: Search, rank: (seq<real>, nat) -> real,
                       f: nat, stop: nat, b: nat, playlist: seq<Resolution>)
    requires HasPages(PossiblePoems(phraseSet), SearchPages(PossiblePoems(phraseSet), search))
    requires var poems := PossiblePoems(phraseSet); var pages := SearchPages(poems, search);
      Picked(Counts(poems), Valids(poems, pages), Scores(poems, pages, rank), f, stop, b)
        && PlaylistOf(poems[b].phrases, pages, playlist)
    ensures var poems := PossiblePoems(phraseSet); var pages := SearchPages(poems, search);
      Chosen(phraseSet, search, rank, poems[b].phrases, poems[b].count, ScoreAt(poems, pages, rank, b), playlist)
  {
    var poems := PossiblePoems(phraseSet);
    PossiblePoemsProperties(phraseSet);
    SearchPagesHold(poems, search);
    PickedIsChosenOn(phraseSet, Words(phraseSet), poems, SearchPages(poems, search), search, rank, f, stop, b, playlist);
  }

  /** threaded_api, started with an empty dictionary on the distinct phrases,
      stores a search page for exactly the phrases of the phrasings. */
  lemma FetchedPages(poems: seq<Phrasing>, phrases: seq<string>, pages: Pages, search: Search)
    requires SetOf(phrases) == PhraseSet(poems)
    requires pages.Keys == SetOf(phrases)
    requires forall p :: p in phrases ==> pages[p] == search(p)
    ensures pages == SearchPages(poems, search)
    ensures HasPages(poems, pages)
  {
    PhraseSetHolds(poems);
  }

  /** Lines 193-194: collect the distinct phrases and fetch a page for each,
      one worker per phrase. There is at least one phrase, as threaded_api
      divides by the number of workers. */
  method FetchPages(poems: seq<Phrasing>, search: Search) returns (songPages: Pages)
    requires poems != [] && poems[0].phrases != []
    ensures songPages == SearchPages(poems, search)
    ensures HasPages(poems, songPages)
  {
    var phrases := Unique(poems);
    assert poems[0].phrases[0] in phrases;
    songPages := ThreadedApi(phrases, map[], |phrases|, search);
    FetchedPages(poems, phrases, songPages, search);
  }

  /** Lines 192-194: enumerate the phrasings and fetch their pages. */
  method Prepare(phraseSet: string, search: Search) returns (poems: seq<Phrasing>, songPages: Pages)
    ensures poems == PossiblePoems(phraseSet)
    ensures CountsSorted(poems)
    ensures songPages == SearchPages(poems, search)
    ensures HasPages(poems, songPages)
  {
    poems := GenPossiblePoems(phraseSet);
    songPages := FetchPages(poems, search);
  }

  /** The phrasings 0..evaluated-1 were evaluated; none of them has more
      than `count` songs, and the next one, if any, has more. */
  ghost predicate EvaluatedUpTo(poems: seq<Phrasing>, count: nat, evaluated: nat) {
    evaluated <= |poems|
    && (forall j :: 0 <= j < evaluated ==> poems[j].count <= count)
    && (evaluated < |poems| ==> poems[evaluated].count > count)
  }

  /** The loop's stop, read over the phrasings' counts. */
  lemma PickedEvaluatedUpTo(poems: seq<Phrasing>, ok: seq<bool>, sc: seq<real>, f: nat, stop: nat, b: nat)
    requires CountsSorted(poems)
    requires Picked(Counts(poems), ok, sc, f, stop, b)
    ensures EvaluatedUpTo(poems, poems[b].count, stop)
  {
    CountsOrdered(poems);
    PickedStops(Counts(poems), ok, sc, f, stop, b);
    assert forall j :: 0 <= j < |poems| ==> Counts(poems)[j] == poems[j].count;
  }

  /** build_playlist (lines 190-239): it reports success exactly when some
      phrasing of the input is valid against the search service, and then the
      kept Poem is the one Chosen describes. `evaluated` is the number of
      phrasings handed to process_poem: all of them on failure; on success
      none longer than the kept poem, up to the first one that is longer. */
  method BuildPlaylist(phraseSet: string, search: Search, rank: (seq<real>, nat) -> real)
    returns (found: bool, best: Poem?, ghost evaluated: nat)
    ensures found <==> best != null
    ensures found <==> Feasible(phraseSet, search)
    ensures found ==> Chosen(phraseSet, search, rank, best.poem, best.songCount, best.score, best.playlist)
    ensures !found ==> evaluated == |PossiblePoems(phraseSet)|
    ensures found ==> EvaluatedUpTo(PossiblePoems(phraseSet), best.songCount, evaluated)
  {
    var poems, songPages := Prepare(phraseSet, search);
    best, evaluated := SelectBest(poems, songPages, rank);
    found := best != null;
    if found {
      ghost var f: nat, b: nat :|
        Picked(Counts(poems), Valids(poems, songPages), Scores(poems, songPages, rank), f, evaluated, b)
        && best.poem == poems[b].phrases && best.songCount == poems[b].count
        && best.score == ScoreAt(poems, songPages, rank, b);
      PickedIsChosen(phraseSet, search, rank, f, evaluated, b, best.playlist);
      PickedEvaluatedUpTo(poems, Valids(poems, songPages), Scores(poems, songPages, rank), f, evaluated, b);
    }
  }
}
