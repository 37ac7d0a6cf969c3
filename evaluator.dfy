/** The poem evaluator: `Poem.exact_match` and `Poem.process_poem`
    (spotify_poetry.py:108-173). A phrase is resolved to the first candidate
    of its page whose name equals it under lower-casing; resolutions are
    memoised in the dictionary `phrase_data`, shared by all poems of a run. */
module Evaluator {
  import opened Text
  import opened Partitions
  import opened Fetch

  /** One entry of `phrase_data`: the tuple (track code, popularity, found, phrase). */
  datatype Resolution = Resolution(code: string, score: real, found: bool, phrase: string)

  /** The memo dictionary `phrase_data`. */
  type Memo = map<string, Resolution>

  /** The entry recorded when no candidate matches (lines 147 and 166). */
  function NotFound(phrase: string): Resolution {
    Resolution("", 0.0, false, phrase)
  }

  /** exact_match (lines 118-122): equal after lower-casing both sides. */
  predicate ExactMatch(target: string, test: string) {
    Lower(target) == Lower(test)
  }

  /** Two bytes agree up to the case of an ASCII letter: they are equal, or
      one is a letter 'A'..'Z' and the other its lower-case letter. */
  predicate SameUpToCase(a: char, b: char) {
    a == b
    || ('A' <= a <= 'Z' && b as int == a as int + ('a' as int - 'A' as int))
    || ('A' <= b <= 'Z' && a as int == b as int + ('a' as int - 'A' as int))
  }

  /** exact_match holds exactly when the two names have the same length and
      agree position by position up to the case of 'A'..'Z': names of
      different lengths never match, and no other character is folded. */
  lemma ExactMatchChars(target: string, test: string)
    ensures ExactMatch(target, test) <==>
              |target| == |test| && forall i :: 0 <= i < |target| ==> SameUpToCase(target[i], test[i])
  {
    var lt, lu := Lower(target), Lower(test);
    if |target| == |test| {
      forall i | 0 <= i < |target| ensures lt[i] == lu[i] <==> SameUpToCase(target[i], test[i]) {
      }
      if forall i :: 0 <= i < |target| ==> SameUpToCase(target[i], test[i]) {
        assert lt == lu;
      }
    }
  }

  /** Lower-casing a phrase first (as the console loop does at line 250)
      changes no outcome of exact_match. */
  lemma ExactMatchLower(target: string, test: string)
    ensures ExactMatch(Lower(target), test) <==> ExactMatch(target, test)
  {
    LowerIdempotent(target);
  }

  /** The position of the first candidate whose name matches `line`, or
      |tracks| when none does. */
  function FirstMatch(line: string, tracks: seq<Track>): (i: nat)
    ensures i <= |tracks|
    ensures i < |tracks| ==> ExactMatch(line, tracks[i].name)
    ensures forall j :: 0 <= j < i ==> !ExactMatch(line, tracks[j].name)
  {
    if tracks == [] then 0
    else if ExactMatch(line, tracks[0].name) then 0
    else 1 + FirstMatch(line, tracks[1..])
  }

  /** What lines 153-167 record for a phrase that is not yet memoised: the
      first matching candidate wins, even when a later match is more popular;
      with no match the not-found entry. */
  function Resolve(line: string, tracks: seq<Track>): (r: Resolution)
    ensures r.phrase == line
    ensures r.found <==> exists j :: 0 <= j < |tracks| && ExactMatch(line, tracks[j].name)
    ensures r.found ==> exists i :: (0 <= i < |tracks| && ExactMatch(line, tracks[i].name)
              && (forall j :: 0 <= j < i ==> !ExactMatch(line, tracks[j].name))
              && r == Resolution(tracks[i].id, tracks[i].popularity, true, line))
    ensures !r.found ==> r == NotFound(line)
  {
    var i := FirstMatch(line, tracks);
    if i < |tracks| then Resolution(tracks[i].id, tracks[i].popularity, true, line) else NotFound(line)
  }

  /** The state of process_poem after some of its phrases: the validity
      flag, the entries appended to `self.playlist`, the local list `scores`
      and the memo. */
  datatype Eval = Eval(valid: bool, playlist: seq<Resolution>, scores: seq<real>, memo: Memo)

  /** Every phrase is memoised or has a page; otherwise line 140 raises KeyError. */
  predicate Covered(poem: seq<string>, pages: Pages, memo: Memo) {
    forall i :: 0 <= i < |poem| ==> poem[i] in memo || poem[i] in pages
  }

  /** One pass of the loop of lines 131-167. A memoised entry is appended and
      its score recorded once (lines 133-138); a fresh match is memoised,
      appended and its score recorded twice (lines 158 and 162); a fresh miss
      is memoised as not found and appends nothing. */
  function Step(e: Eval, line: string, pages: Pages): Eval
    requires line in e.memo || line in pages
  {
    if line in e.memo then
      var tup := e.memo[line];
      Eval(e.valid && tup.found, e.playlist + [tup], e.scores + [tup.score], e.memo)
    else
      var tup := Resolve(line, pages[line]);
      if tup.found then
        Eval(e.valid, e.playlist + [tup], e.scores + [tup.score, tup.score], e.memo[line := tup])
      else
        Eval(false, e.playlist, e.scores, e.memo[line := tup])
  }

  /** One pass memoises `line` and leaves every other entry as it was; a
      poem once invalid stays invalid; the playlist only grows, by at most
      one entry. */
  lemma StepExtends(e: Eval, line: string, pages: Pages)
    requires line in e.memo || line in pages
    ensures Step(e, line, pages).memo.Keys == e.memo.Keys + {line}
    ensures forall k :: k in e.memo ==> Step(e, line, pages).memo[k] == e.memo[k]
    ensures Step(e, line, pages).valid ==> e.valid
    ensures |e.playlist| <= |Step(e, line, pages).playlist| <= |e.playlist| + 1
    ensures Step(e, line, pages).playlist[..|e.playlist|] == e.playlist
  {
  }

  /** The loop of lines 131-167 over all phrases of a poem. Its memo gains
      exactly the poem's phrases. */
  function Process(poem: seq<string>, pages: Pages, memo: Memo): (e: Eval)
    requires Covered(poem, pages, memo)
    ensures e.memo.Keys == memo.Keys + SetOf(poem)
    decreases |poem|
  {
    if poem == [] then Eval(true, [], [], memo)
    else
      var init := poem[..|poem| - 1];
      var line := poem[|poem| - 1];
      assert poem == init + [line];
      assert SetOf(poem) == SetOf(init) + {line};
      assert Covered(init, pages, memo) by {
        forall i | 0 <= i < |init| ensures init[i] in memo || init[i] in pages {
          assert init[i] == poem[i];
        }
      }
      Step(Process(init, pages, memo), line, pages)
  }

  /** Every memo entry is what resolving its key against its page gives. */
  ghost predicate Consistent(memo: Memo, pages: Pages) {
    forall k :: k in memo ==> k in pages && memo[k] == Resolve(k, pages[k])
  }

  /** Every phrase has a page whose candidates include a match. */
  ghost predicate AllFound(poem: seq<string>, pages: Pages) {
    forall i :: 0 <= i < |poem| ==> poem[i] in pages && Resolve(poem[i], pages[poem[i]]).found
  }

  lemma ProcessLast(poem: seq<string>, pages: Pages, memo: Memo)
    requires poem != [] && Covered(poem, pages, memo)
    ensures Covered(poem[..|poem| - 1], pages, memo)
    ensures Process(poem, pages, memo) == Step(Process(poem[..|poem| - 1], pages, memo), poem[|poem| - 1], pages)
  {
    var init := poem[..|poem| - 1];
    forall i | 0 <= i < |init| ensures init[i] in memo || init[i] in pages {
      assert init[i] == poem[i];
    }
  }

  /** Processing one more phrase of a poem is one more step. */
  lemma ProcessPrefix(poem: seq<string>, pages: Pages, memo: Memo, i: nat)
    requires Covered(poem, pages, memo) && i < |poem|
    ensures Covered(poem[..i], pages, memo) && Covered(poem[..i + 1], pages, memo)
    ensures poem[i] in Process(poem[..i], pages, memo).memo || poem[i] in pages
    ensures Process(poem[..i + 1], pages, memo) == Step(Process(poem[..i], pages, memo), poem[i], pages)
  {
    assert poem[..i + 1][..i] == poem[..i];
    ProcessLast(poem[..i + 1], pages, memo);
  }

  /** The memo is only extended: entries present before are unchanged, and
      each new key is a phrase of the poem (Process's own ensures) resolved
      against its page, so it is stored under its own phrase. */
  lemma {:induction false} ProcessExtendsMemo(poem: seq<string>, pages: Pages, memo: Memo)
    requires Covered(poem, pages, memo)
    ensures forall k :: k in memo ==> Process(poem, pages, memo).memo[k] == memo[k]
    ensures forall k :: k in Process(poem, pages, memo).memo && k !in memo ==>
              k in pages && Process(poem, pages, memo).memo[k] == Resolve(k, pages[k])
                && Process(poem, pages, memo).memo[k].phrase == k
    decreases |poem|
  {
    if poem != [] {
      ProcessLast(poem, pages, memo);
      ProcessExtendsMemo(poem[..|poem| - 1], pages, memo);
    }
  }

  /** Processing keeps the memo consistent: every entry stays the resolution of
      its key, whose fourth field is the key itself. */
  lemma ProcessKeepsConsistent(poem: seq<string>, pages: Pages, memo: Memo)
    requires Covered(poem, pages, memo) && Consistent(memo, pages)
    ensures Consistent(Process(poem, pages, memo).memo, pages)
    ensures forall k :: k in Process(poem, pages, memo).memo ==> Process(poem, pages, memo).memo[k].phrase == k
  {
    ProcessExtendsMemo(poem, pages, memo);
  }

  /** With a consistent memo, one step resolves `line` the same way whether
      it was memoised or not: the poem stays valid exactly when the phrase is
      found, and the playlist grows by its resolution exactly then. */
  lemma StepConsistent(e: Eval, line: string, pages: Pages)
    requires Consistent(e.memo, pages) && (line in e.memo || line in pages)
    ensures line in pages
    ensures Step(e, line, pages).valid == (e.valid && Resolve(line, pages[line]).found)
    ensures Step(e, line, pages).valid ==> Step(e, line, pages).playlist == e.playlist + [Resolve(line, pages[line])]
  {
  }

  lemma AllFoundLast(poem: seq<string>, pages: Pages)
    requires poem != []
    ensures AllFound(poem, pages) <==>
              AllFound(poem[..|poem| - 1], pages) && poem[|poem| - 1] in pages
                && Resolve(poem[|poem| - 1], pages[poem[|poem| - 1]]).found
  {
    var init := poem[..|poem| - 1];
    assert forall i :: 0 <= i < |init| ==> init[i] == poem[i];
  }

  /** process_poem reports a valid poem exactly when every phrase resolves to
      a found entry, whatever was memoised before (as long as the memo came
      from the same pages). */
  lemma {:induction false} ProcessValidity(poem: seq<string>, pages: Pages, memo: Memo)
    requires Covered(poem, pages, memo) && Consistent(memo, pages)
    ensures Process(poem, pages, memo).valid <==> AllFound(poem, pages)
    decreases |poem|
  {
    if poem != [] {
      var init := poem[..|poem| - 1];
      var line := poem[|poem| - 1];
      ProcessLast(poem, pages, memo);
      ProcessValidity(init, pages, memo);
      ProcessKeepsConsistent(init, pages, memo);
      StepConsistent(Process(init, pages, memo), line, pages);
      AllFoundLast(poem, pages);
    }
  }

  /** The same, read off the memo afterwards: the poem is valid exactly when
      the memo marks all of its phrases as found. */
  lemma ProcessValidityMemo(poem: seq<string>, pages: Pages, memo: Memo)
    requires Covered(poem, pages, memo) && Consistent(memo, pages)
    ensures Process(poem, pages, memo).valid <==>
              forall i :: 0 <= i < |poem| ==> Process(poem, pages, memo).memo[poem[i]].found
  {
    ProcessValidity(poem, pages, memo);
    ProcessKeepsConsistent(poem, pages, memo);
  }

  /** `playlist` holds, in order, the resolution of each phrase of `poem`
      against its page, so entry i names phrase i in its fourth field. */
  ghost predicate PlaylistOf(poem: seq<string>, pages: Pages, playlist: seq<Resolution>) {
    |playlist| == |poem|
    && forall i :: 0 <= i < |poem| ==>
         poem[i] in pages && playlist[i] == Resolve(poem[i], pages[poem[i]]) && playlist[i].phrase == poem[i]
  }

  /** A valid poem's playlist has one entry per phrase, in phrase order, and
      entry i is phrase i's resolution, carrying phrase i as its fourth field. */
  lemma {:induction false} ProcessPlaylist(poem: seq<string>, pages: Pages, memo: Memo)
    requires Covered(poem, pages, memo) && Consistent(memo, pages)
    ensures Process(poem, pages, memo).valid ==> PlaylistOf(poem, pages, Process(poem, pages, memo).playlist)
    decreases |poem|
  {
    if poem != [] {
      var init := poem[..|poem| - 1];
      var line := poem[|poem| - 1];
      ProcessLast(poem, pages, memo);
      ProcessPlaylist(init, pages, memo);
      ProcessKeepsConsistent(init, pages, memo);
      var e0 := Process(init, pages, memo);
      var e := Process(poem, pages, memo);
      StepConsistent(e0, line, pages);
      if e.valid {
        assert e0.valid;
        assert e.playlist == e0.playlist + [Resolve(line, pages[line])];
        forall i | 0 <= i < |poem|
          ensures poem[i] in pages && e.playlist[i] == Resolve(poem[i], pages[poem[i]])
        {
          if i < |init| {
            assert init[i] == poem[i];
          }
        }
      }
    }
  }

  /** The search of lines 153-163 through one page: the first candidate
      whose name matches, as the entry to memoise, or the not-found entry once
      the page is exhausted. */
  method MatchPage(line: string, tracks: seq<Track>) returns (tup: Resolution)
    ensures tup == Resolve(line, tracks)
  {
    tup := NotFound(line);
    var j := 0;
    while j < |tracks|
      invariant 0 <= j <= |tracks|
      invariant forall k :: 0 <= k < j ==> !ExactMatch(line, tracks[k].name)
    {
      if ExactMatch(line, tracks[j].name) {
        tup := Resolution(tracks[j].id, tracks[j].popularity, true, line);
        assert FirstMatch(line, tracks) == j;
        return;
      }
      j := j + 1;
    }
    assert FirstMatch(line, tracks) == |tracks|;
  }

  /** A candidate poem (class Poem, lines 108-179). */
  class Poem {
    const poem: seq<string>
    const songCount: nat
    var playlist: seq<Resolution>
    var score: real

    /** __init__ (lines 110-114). */
    constructor (p: Phrasing)
      ensures poem == p.phrases && songCount == p.count
      ensures playlist == [] && score == 0.0
    {
      poem := p.phrases;
      songCount := p.count;
      playlist := [];
      score := 0.0;
    }

    /** One pass of the loop of lines 131-167 for the phrase `line`: a
        memoised entry is appended and its score recorded (lines 133-138);
        otherwise the page is searched, a match memoised, appended and its
        score recorded twice (lines 153-163), a miss memoised as not found
        (lines 165-167). `base` and `added0` say what `self.playlist` held
        before the poem and what this poem appended so far. */
    method ProcessLine(line: string, phrasePages: Pages, valid0: bool, scores0: seq<real>, data0: Memo,
                       ghost base: seq<Resolution>, ghost added0: seq<Resolution>)
      returns (valid: bool, scores: seq<real>, data: Memo, ghost added: seq<Resolution>)
      requires line in data0 || line in phrasePages
      requires playlist == base + added0
      modifies this
      ensures Eval(valid, added, scores, data) == Step(Eval(valid0, added0, scores0, data0), line, phrasePages)
      ensures playlist == base + added && score == old(score)
    {
      valid, scores, data, added := valid0, scores0, data0, added0;
      if line in data {
        AppendAssoc(base, added, [data[line]]);
        playlist := playlist + [data[line]];
        added := added + [data[line]];
        var tup := data[line];
        if !tup.found {
          valid := false;
        }
        scores := scores + [tup.score];
      } else {
        var tup := MatchPage(line, phrasePages[line]);
        if tup.found {
          scores := scores + [tup.score];
          data := data[line := tup];
          AppendAssoc(base, added, [tup]);
          playlist := playlist + [data[line]];
          added := added + [tup];
          scores := scores + [tup.score];
        } else {
          data := data[line := tup];
          valid := false;
        }
      }
    }

    /** process_poem (lines 125-173). `rank` stands for rank_score (line 179),
        which sets `score` from the recorded scores when the poem is valid. */
    method ProcessPoem(phrasePages: Pages, phraseData: Memo, rank: (seq<real>, nat) -> real)
      returns (valid: bool, data: Memo)
      requires Covered(poem, phrasePages, phraseData)
      modifies this
      ensures var e := Process(poem, phrasePages, phraseData);
        valid == e.valid && data == e.memo && playlist == old(playlist) + e.playlist
          && score == if e.valid then rank(e.scores, songCount) else old(score)
    {
      var scores: seq<real> := [];
      valid := true;
      data := phraseData;
      ghost var added: seq<Resolution> := [];
      var i := 0;
      while i < |poem|
        invariant 0 <= i <= |poem|
        invariant Covered(poem[..i], phrasePages, phraseData)
        invariant Eval(valid, added, scores, data) == Process(poem[..i], phrasePages, phraseData)
        invariant playlist == old(playlist) + added
        invariant score == old(score)
      {
        ProcessPrefix(poem, phrasePages, phraseData, i);
        valid, scores, data, added := ProcessLine(poem[i], phrasePages, valid, scores, data, old(playlist), added);
        i := i + 1;
      }
      assert poem[..i] == poem;
      if valid {
        score := rank(scores, songCount);
      }
    }
  }
}
