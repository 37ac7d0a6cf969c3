/** The deduplicator `unique` (spotify_poetry.py:95-103): the distinct
    phrases of all phrasings, each to be looked up once. */
module PhraseIndex {
  import opened Text
  import opened Partitions

  /** The phrases that occur in some phrasing of `poems`. */
  function PhraseSet(poems: seq<Phrasing>): set<string> {
    if poems == [] then {}
    else PhraseSet(poems[..|poems| - 1]) + SetOf(poems[|poems| - 1].phrases)
  }

  predicate NoDuplicates(s: seq<string>) {
    forall i, j :: 0 <= i < j < |s| ==> s[i] != s[j]
  }

  /** A phrase is in PhraseSet(poems) exactly when some phrasing holds it. */
  lemma {:induction false} PhraseSetMembership(poems: seq<Phrasing>, p: string)
    ensures p in PhraseSet(poems) <==> exists k :: 0 <= k < |poems| && p in poems[k].phrases
    decreases |poems|
  {
    if poems != [] {
      var init := poems[..|poems| - 1];
      PhraseSetMembership(init, p);
      if exists k :: 0 <= k < |init| && p in init[k].phrases {
        var k :| 0 <= k < |init| && p in init[k].phrases;
        assert poems[k] == init[k];
      }
      if exists k :: 0 <= k < |poems| && p in poems[k].phrases {
        var k :| 0 <= k < |poems| && p in poems[k].phrases;
        if k < |init| {
          assert init[k] == poems[k];
        }
      }
    }
  }

  /** Every phrase of every phrasing is in PhraseSet(poems). */
  lemma PhraseSetHolds(poems: seq<Phrasing>)
    ensures forall k, i :: 0 <= k < |poems| && 0 <= i < |poems[k].phrases| ==> poems[k].phrases[i] in PhraseSet(poems)
  {
    forall k, i | 0 <= k < |poems| && 0 <= i < |poems[k].phrases|
      ensures poems[k].phrases[i] in PhraseSet(poems)
    {
      PhraseSetMembership(poems, poems[k].phrases[i]);
    }
  }

  /** Python's `list(d.keys())`: the keys in an order the dictionary chooses. */
  method ListOf(keys: set<string>) returns (list: seq<string>)
    ensures NoDuplicates(list) && SetOf(list) == keys
  {
    list := [];
    var rest := keys;
    while rest != {}
      invariant NoDuplicates(list)
      invariant SetOf(list) !! rest && SetOf(list) + rest == keys
      decreases |rest|
    {
      var x :| x in rest;
      list := list + [x];
      rest := rest - {x};
    }
  }

  /** unique (lines 95-103): the distinct phrases of all phrasings, with no
      repetitions, in the dictionary's key order. */
  method Unique(possPoems: seq<Phrasing>) returns (phrases: seq<string>)
    ensures NoDuplicates(phrases)
    ensures SetOf(phrases) == PhraseSet(possPoems)
    ensures forall p :: p in phrases <==> exists k :: 0 <= k < |possPoems| && p in possPoems[k].phrases
  {
    var seen: set<string> := {};
    var i := 0;
    while i < |possPoems|
      invariant 0 <= i <= |possPoems|
      invariant seen == PhraseSet(possPoems[..i])
    {
      var poem := possPoems[i].phrases;
      var j := 0;
      while j < |poem|
        invariant 0 <= j <= |poem|
        invariant seen == PhraseSet(possPoems[..i]) + SetOf(poem[..j])
      {
        if poem[j] !in seen {
          seen := seen + {poem[j]};
        }
        assert SetOf(poem[..j + 1]) == SetOf(poem[..j]) + {poem[j]} by {
          assert poem[..j + 1] == poem[..j] + [poem[j]];
        }
        j := j + 1;
      }
      assert poem[..j] == poem;
      assert possPoems[..i + 1][..i] == possPoems[..i];
      i := i + 1;
    }
    assert possPoems[..i] == possPoems;
    phrases := ListOf(seen);
    forall p ensures p in phrases <==> exists k :: 0 <= k < |possPoems| && p in possPoems[k].phrases {
      PhraseSetMembership(possPoems, p);
    }
  }
}
