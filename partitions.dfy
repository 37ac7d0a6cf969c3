/** The partition generator `gen_possible_poems` (spotify_poetry.py:81-92):
    every way of cutting the whitespace-split input into contiguous phrases,
    the unsplit input first, then by increasing number of cuts. */
module Partitions {
  import opened Text

  /** One candidate poem: its phrases and the phrase count recorded beside
      them (the script's pair `(list of phrases, len)`). */
  datatype Phrasing = Phrasing(phrases: seq<string>, count: nat)

  /** Python's `range(lo, hi)`. */
  function Range(lo: nat, hi: nat): (r: seq<nat>)
    ensures |r| == if lo < hi then hi - lo else 0
    ensures forall i :: 0 <= i < |r| ==> r[i] == lo + i
    decreases hi - lo
  {
    if lo < hi then [lo] + Range(lo + 1, hi) else []
  }

  predicate Increasing(s: seq<nat>) {
    forall i, j :: 0 <= i < j < |s| ==> s[i] < s[j]
  }

  function Prefixed(x: nat, cs: seq<seq<nat>>): seq<seq<nat>> {
    seq(|cs|, i requires 0 <= i < |cs| => [x] + cs[i])
  }

  /** `itertools.combinations(pool, n)`: every choice of `n` elements of
      `pool`, each kept in pool order, listed in lexicographic order of
      positions (those taking `pool[0]` first). */
  function Combinations(pool: seq<nat>, n: nat): seq<seq<nat>>
    decreases |pool|
  {
    if n == 0 then [[]]
    else if pool == [] then []
    else Prefixed(pool[0], Combinations(pool[1..], n - 1)) + Combinations(pool[1..], n)
  }

  /** The binomial coefficient, by Pascal's rule. */
  function Binom(m: nat, n: nat): nat {
    if n == 0 then 1 else if m == 0 then 0 else Binom(m - 1, n - 1) + Binom(m - 1, n)
  }

  /** Binom(m, 0) + ... + Binom(m, k). */
  function SumBinom(m: nat, k: nat): nat {
    if k == 0 then 1 else SumBinom(m, k - 1) + Binom(m, k)
  }

  function Pow2(e: nat): nat {
    if e == 0 then 1 else 2 * Pow2(e - 1)
  }

  lemma CombinationsUnfold(pool: seq<nat>, n: nat)
    requires n > 0 && pool != []
    ensures Combinations(pool, n) == Prefixed(pool[0], Combinations(pool[1..], n - 1)) + Combinations(pool[1..], n)
  {
  }

  /** `combinations(pool, n)` yields Binom(|pool|, n) tuples. */
  lemma {:induction false} CombinationsCount(pool: seq<nat>, n: nat)
    ensures |Combinations(pool, n)| == Binom(|pool|, n)
    decreases |pool|
  {
    if n > 0 && pool != [] {
      CombinationsCount(pool[1..], n - 1);
      CombinationsCount(pool[1..], n);
      CombinationsUnfold(pool, n);
    }
  }

  /** `c` picks `n` elements of `pool`, in increasing order. */
  ghost predicate Selection(c: seq<nat>, pool: seq<nat>, n: nat) {
    |c| == n && Increasing(c) && forall k :: 0 <= k < |c| ==> c[k] in pool
  }

  /** Every list in `cs` picks `n` elements of `pool`, in increasing order. */
  ghost predicate AllSelections(cs: seq<seq<nat>>, pool: seq<nat>, n: nat) {
    forall c :: c in cs ==> Selection(c, pool, n)
  }

  lemma IncreasingTail(pool: seq<nat>)
    requires Increasing(pool) && pool != []
    ensures Increasing(pool[1..])
  {
  }

  lemma SelectionFromRest(c: seq<nat>, pool: seq<nat>, n: nat)
    requires pool != [] && Selection(c, pool[1..], n)
    ensures Selection(c, pool, n)
  {
    forall k | 0 <= k < |c| ensures c[k] in pool {
      var i :| 0 <= i < |pool[1..]| && pool[1..][i] == c[k];
      assert pool[i + 1] == c[k];
    }
  }

  lemma SelectionCons(t: seq<nat>, pool: seq<nat>, n: nat)
    requires Increasing(pool) && pool != [] && n > 0 && Selection(t, pool[1..], n - 1)
    ensures Selection([pool[0]] + t, pool, n)
  {
    var c := [pool[0]] + t;
    forall k | 0 <= k < |t| ensures pool[0] < t[k] && t[k] in pool {
      var i :| 0 <= i < |pool[1..]| && pool[1..][i] == t[k];
      assert pool[i + 1] == t[k];
    }
    forall i, j | 0 <= i < j < |c| ensures c[i] < c[j] {
      assert c[j] == t[j - 1];
      if i > 0 {
        assert c[i] == t[i - 1];
      }
    }
  }

  lemma PrefixedMember(x: nat, cs: seq<seq<nat>>, c: seq<nat>)
    requires c in Prefixed(x, cs)
    ensures c != [] && c[0] == x && c[1..] in cs
  {
    var i :| 0 <= i < |cs| && Prefixed(x, cs)[i] == c;
    assert c == [x] + cs[i];
    assert c[1..] == cs[i];
  }

  /** A combination of a non-empty pool either takes the first element and
      continues with a combination of the rest, or is a combination of the rest. */
  lemma ShapeStep(pool: seq<nat>, n: nat, c: seq<nat>)
    requires Increasing(pool) && n > 0 && pool != [] && c in Combinations(pool, n)
    requires AllSelections(Combinations(pool[1..], n - 1), pool[1..], n - 1)
    requires AllSelections(Combinations(pool[1..], n), pool[1..], n)
    ensures Selection(c, pool, n)
  {
    CombinationsUnfold(pool, n);
    if c in Combinations(pool[1..], n) {
      SelectionFromRest(c, pool, n);
    } else {
      PrefixedMember(pool[0], Combinations(pool[1..], n - 1), c);
      SelectionCons(c[1..], pool, n);
      assert [pool[0]] + c[1..] == c;
    }
  }

  /** Over an increasing pool, every combination picks `n` elements of the
      pool, in increasing order. */
  lemma {:induction false} CombinationsShape(pool: seq<nat>, n: nat)
    requires Increasing(pool)
    ensures AllSelections(Combinations(pool, n), pool, n)
    decreases |pool|
  {
    if n > 0 && pool != [] {
      IncreasingTail(pool);
      CombinationsShape(pool[1..], n - 1);
      CombinationsShape(pool[1..], n);
      forall c | c in Combinations(pool, n) ensures Selection(c, pool, n) {
        ShapeStep(pool, n, c);
      }
    }
  }

  /** A selection that takes the pool's first element: the rest of it selects from the rest of the pool. */
  lemma SelectionTail(pool: seq<nat>, c: seq<nat>)
    requires Increasing(pool) && Selection(c, pool, |c|) && c != [] && pool != [] && c[0] == pool[0]
    ensures Selection(c[1..], pool[1..], |c| - 1)
  {
    var t, rest := c[1..], pool[1..];
    forall j | 0 <= j < |t| ensures t[j] in rest {
      assert t[j] == c[j + 1];
      var k :| 0 <= k < |pool| && pool[k] == t[j];
      assert c[0] < c[j + 1];
      assert k != 0;
      assert rest[k - 1] == t[j];
    }
  }

  /** A selection that does not take the pool's first element selects from the rest of the pool. */
  lemma SelectionSkip(pool: seq<nat>, c: seq<nat>)
    requires Increasing(pool) && Selection(c, pool, |c|) && c != [] && pool != [] && c[0] != pool[0]
    ensures Selection(c, pool[1..], |c|)
  {
    var rest := pool[1..];
    forall j | 0 <= j < |c| ensures c[j] in rest {
      var k :| 0 <= k < |pool| && pool[k] == c[j];
      if k == 0 {
        assert false;
      }
      assert rest[k - 1] == c[j];
    }
  }

  lemma PrefixedAt(x: nat, cs: seq<seq<nat>>, i: nat, c: seq<nat>)
    requires i < |cs| && c != [] && c[0] == x && c[1..] == cs[i]
    ensures c in Prefixed(x, cs)
  {
    assert Prefixed(x, cs)[i] == [x] + cs[i];
    assert [x] + c[1..] == c;
  }

  lemma CombinationsTaking(pool: seq<nat>, c: seq<nat>)
    requires pool != [] && c != [] && c[0] == pool[0] && c[1..] in Combinations(pool[1..], |c| - 1)
    ensures c in Combinations(pool, |c|)
  {
    var a := Combinations(pool[1..], |c| - 1);
    CombinationsUnfold(pool, |c|);
    var i :| 0 <= i < |a| && a[i] == c[1..];
    PrefixedAt(pool[0], a, i, c);
  }

  lemma CombinationsSkipping(pool: seq<nat>, c: seq<nat>)
    requires pool != [] && c != [] && c in Combinations(pool[1..], |c|)
    ensures c in Combinations(pool, |c|)
  {
  }

  /** Every increasing selection from an increasing pool is listed by
      `combinations`: the enumeration misses no set of cut points. */
  lemma {:induction false} CombinationsComplete(pool: seq<nat>, c: seq<nat>)
    requires Increasing(pool) && Selection(c, pool, |c|)
    ensures c in Combinations(pool, |c|)
    decreases |pool|
  {
    if c != [] {
      assert c[0] in pool;
      if c[0] == pool[0] {
        SelectionTail(pool, c);
        CombinationsComplete(pool[1..], c[1..]);
        CombinationsTaking(pool, c);
      } else {
        SelectionSkip(pool, c);
        CombinationsComplete(pool[1..], c);
        CombinationsSkipping(pool, c);
      }
    }
  }

  lemma {:induction false} BinomAbove(m: nat, n: nat)
    requires n > m
    ensures Binom(m, n) == 0
  {
    if m > 0 {
      BinomAbove(m - 1, n - 1);
      BinomAbove(m - 1, n);
    }
  }

  lemma {:induction false} SumBinomPascal(m: nat, k: nat)
    ensures SumBinom(m + 1, k + 1) == SumBinom(m, k + 1) + SumBinom(m, k)
  {
    assert Binom(m + 1, k + 1) == Binom(m, k) + Binom(m, k + 1);
    if k > 0 {
      SumBinomPascal(m, k - 1);
      assert SumBinom(m + 1, k) == SumBinom(m, k) + SumBinom(m, k - 1);
    }
  }

  /** A set of m elements has 2^m subsets: Binom(m, 0) + ... + Binom(m, m) == 2^m. */
  lemma {:induction false} SubsetCount(m: nat)
    ensures SumBinom(m, m) == Pow2(m)
  {
    if m > 0 {
      SubsetCount(m - 1);
      SumBinomPascal(m - 1, m - 1);
      BinomAbove(m - 1, m);
    }
  }

  /** Python's `s[i:j]` for non-negative bounds, clamped to the sequence. */
  function Slice(s: seq<string>, i: nat, j: nat): seq<string> {
    var lo := if i < |s| then i else |s|;
    var hi := if j < lo then lo else if j < |s| then j else |s|;
    s[lo..hi]
  }

  /** Line 89: the phrases cut out by the split points `idxs`, pairing the
      bounds `(0,) + idxs` with `idxs + (None,)` and joining each run of
      words with single spaces. */
  function Phrases(words: seq<string>, idxs: seq<nat>): seq<string> {
    var starts := [0] + idxs;
    var ends := idxs + [|words|];
    seq(|idxs| + 1, k requires 0 <= k <= |idxs| => Join(" ", Slice(words, starts[k], ends[k])))
  }

  /** Split points that lie strictly inside the word list, in increasing order. */
  predicate ValidCuts(idxs: seq<nat>, w: nat) {
    Increasing(idxs) && forall i :: 0 <= i < |idxs| ==> 0 < idxs[i] < w
  }

  /** Phrase k is the run of words between the (k-1)-th and k-th bounds, so
      joining one more phrase joins one more run of words. */
  lemma PhrasesPrefixJoinStep(words: seq<string>, idxs: seq<nat>, k: nat)
    requires ValidCuts(idxs, |words|) && 0 < k <= |idxs|
    requires Join(" ", Phrases(words, idxs)[..k]) == Join(" ", words[..(idxs + [|words|])[k - 1]])
    ensures Join(" ", Phrases(words, idxs)[..k + 1]) == Join(" ", words[..(idxs + [|words|])[k]])
  {
    var ps := Phrases(words, idxs);
    var ends := idxs + [|words|];
    var e0, e1 := ends[k - 1], ends[k];
    assert 0 < e0 < e1 <= |words|;
    assert ps[k] == Join(" ", words[e0..e1]);
    assert ps[..k + 1] == ps[..k] + [ps[k]];
    JoinAppend(" ", ps[..k], [ps[k]]);
    assert words[..e1] == words[..e0] + words[e0..e1];
    JoinAppend(" ", words[..e0], words[e0..e1]);
  }

  lemma {:induction false} PhrasesPrefixJoin(words: seq<string>, idxs: seq<nat>, k: nat)
    requires ValidCuts(idxs, |words|) && k <= |idxs|
    ensures Join(" ", Phrases(words, idxs)[..k + 1]) == Join(" ", words[..(idxs + [|words|])[k]])
  {
    if k == 0 {
      assert Phrases(words, idxs)[..1] == [Phrases(words, idxs)[0]];
    } else {
      PhrasesPrefixJoin(words, idxs, k - 1);
      PhrasesPrefixJoinStep(words, idxs, k);
    }
  }

  /** The phrases cut by valid split points number one more than the cuts,
      and joined with single spaces they give back `' '.join(words)`. */
  lemma PhrasesJoin(words: seq<string>, idxs: seq<nat>)
    requires ValidCuts(idxs, |words|)
    ensures |Phrases(words, idxs)| == |idxs| + 1
    ensures Join(" ", Phrases(words, idxs)) == Join(" ", words)
  {
    PhrasesPrefixJoin(words, idxs, |idxs|);
    assert Phrases(words, idxs)[..|idxs| + 1] == Phrases(words, idxs);
    assert words[..|words|] == words;
  }

  /** Line 90: the pair appended for one set of split points. */
  function ToPhrasing(words: seq<string>, idxs: seq<nat>): Phrasing {
    var ps := Phrases(words, idxs);
    Phrasing(ps, |ps|)
  }

  /** The phrasings for a list of split-point sets, in list order. */
  function PhrasingsOf(words: seq<string>, combos: seq<seq<nat>>): seq<Phrasing>
  {
    if combos == [] then []
    else PhrasingsOf(words, combos[..|combos| - 1]) + [ToPhrasing(words, combos[|combos| - 1])]
  }

  /** What one pass of the inner loop (lines 88-90) appends: one phrasing per
      n-subset of the boundary positions `range(1, len(words))`. */
  function Section(words: seq<string>, n: nat): seq<Phrasing> {
    PhrasingsOf(words, Combinations(Range(1, |words|), n))
  }

  /** What the outer loop (lines 87-90) appends for n = 1..k. */
  function Sections(words: seq<string>, k: nat): seq<Phrasing> {
    if k == 0 then [] else Sections(words, k - 1) + Section(words, k)
  }

  /** The list `gen_possible_poems(s)` returns. */
  function PossiblePoems(s: string): seq<Phrasing> {
    var words := Words(s);
    [Phrasing([s], 1)] + Sections(words, if |words| == 0 then 0 else |words| - 1)
  }

  /** Every phrasing is a split of `words`: its count is its number of
      phrases and its phrases, joined with single spaces, give `' '.join(words)`. */
  ghost predicate SplitsOf(words: seq<string>, poems: seq<Phrasing>) {
    forall i :: 0 <= i < |poems| ==>
      poems[i].count == |poems[i].phrases| && Join(" ", poems[i].phrases) == Join(" ", words)
  }

  ghost predicate CountsSorted(poems: seq<Phrasing>) {
    forall i, j :: 0 <= i <= j < |poems| ==> poems[i].count <= poems[j].count
  }

  lemma {:induction false} PhrasingsOfAt(words: seq<string>, combos: seq<seq<nat>>)
    ensures |PhrasingsOf(words, combos)| == |combos|
    ensures forall i :: 0 <= i < |combos| ==> PhrasingsOf(words, combos)[i] == ToPhrasing(words, combos[i])
    decreases |combos|
  {
    if combos != [] {
      PhrasingsOfAt(words, combos[..|combos| - 1]);
    }
  }

  lemma PhrasingsOfSplits(words: seq<string>, combos: seq<seq<nat>>, n: nat)
    requires forall i :: 0 <= i < |combos| ==> |combos[i]| == n && ValidCuts(combos[i], |words|)
    ensures |PhrasingsOf(words, combos)| == |combos|
    ensures SplitsOf(words, PhrasingsOf(words, combos))
    ensures forall i :: 0 <= i < |combos| ==> PhrasingsOf(words, combos)[i].count == n + 1
  {
    PhrasingsOfAt(words, combos);
    forall i | 0 <= i < |combos|
      ensures PhrasingsOf(words, combos)[i].count == n + 1
      ensures Join(" ", PhrasingsOf(words, combos)[i].phrases) == Join(" ", words)
    {
      PhrasesJoin(words, combos[i]);
    }
  }

  lemma SectionSplits(words: seq<string>, n: nat)
    requires 1 <= n < |words|
    ensures |Section(words, n)| == Binom(|words| - 1, n)
    ensures SplitsOf(words, Section(words, n))
    ensures forall i :: 0 <= i < |Section(words, n)| ==> Section(words, n)[i].count == n + 1
  {
    var pool := Range(1, |words|);
    CombinationsShape(pool, n);
    CombinationsCount(pool, n);
    var combos := Combinations(pool, n);
    forall i | 0 <= i < |combos| ensures |combos[i]| == n && ValidCuts(combos[i], |words|) {
      assert combos[i] in combos;
    }
    PhrasingsOfSplits(words, Combinations(pool, n), n);
  }

  /** Appending phrasings of k + 1 phrases to sorted phrasings of 2..k phrases keeps the list sorted. */
  lemma SplitsAppend(words: seq<string>, all: seq<Phrasing>, a: seq<Phrasing>, b: seq<Phrasing>, k: nat)
    requires all == a + b
    requires SplitsOf(words, a) && SplitsOf(words, b) && CountsSorted(a)
    requires forall i :: 0 <= i < |a| ==> 2 <= a[i].count <= k
    requires forall i :: 0 <= i < |b| ==> b[i].count == k + 1
    requires k >= 1
    ensures SplitsOf(words, all)
    ensures forall i :: 0 <= i < |all| ==> 2 <= all[i].count <= k + 1
    ensures CountsSorted(all)
  {
    forall i | 0 <= i < |all| ensures all[i] == if i < |a| then a[i] else b[i - |a|] {}
  }

  lemma {:induction false} SectionsSplits(words: seq<string>, k: nat)
    requires k < |words|
    ensures 1 + |Sections(words, k)| == SumBinom(|words| - 1, k)
    ensures SplitsOf(words, Sections(words, k))
    ensures forall i :: 0 <= i < |Sections(words, k)| ==> 2 <= Sections(words, k)[i].count <= k + 1
    ensures CountsSorted(Sections(words, k))
  {
    if k > 0 {
      SectionsSplits(words, k - 1);
      SectionSplits(words, k);
      SplitsAppend(words, Sections(words, k), Sections(words, k - 1), Section(words, k), k);
    }
  }

  /** A phrasing whose count is at most every count of a sorted list keeps it sorted when put first. */
  lemma CountsSortedCons(all: seq<Phrasing>, p: Phrasing, rest: seq<Phrasing>)
    requires all == [p] + rest && CountsSorted(rest)
    requires forall i :: 0 <= i < |rest| ==> p.count <= rest[i].count
    ensures CountsSorted(all)
  {
    forall i, j | 0 <= i <= j < |all| ensures all[i].count <= all[j].count {
      if i > 0 {
        assert all[i] == rest[i - 1] && all[j] == rest[j - 1];
      } else if j > 0 {
        assert all[j] == rest[j - 1];
      }
    }
  }

  /** The list built from the trivial phrasing and the sections for `words`. */
  lemma PhrasingsProperties(s: string, words: seq<string>, all: seq<Phrasing>)
    requires all == [Phrasing([s], 1)] + Sections(words, if |words| == 0 then 0 else |words| - 1)
    ensures |all| >= 1 && all[0] == Phrasing([s], 1)
    ensures SplitsOf(words, all[1..])
    ensures CountsSorted(all)
    ensures |all| == Pow2(if |words| == 0 then 0 else |words| - 1)
  {
    var k := if |words| == 0 then 0 else |words| - 1;
    var rest := Sections(words, k);
    assert all[1..] == rest;
    if |words| > 0 {
      SectionsSplits(words, k);
      SubsetCount(k);
    }
    CountsSortedCons(all, Phrasing([s], 1), rest);
  }

  lemma PossiblePoemsDef(s: string, words: seq<string>, all: seq<Phrasing>)
    requires words == Words(s)
    requires all == [Phrasing([s], 1)] + Sections(words, if |words| == 0 then 0 else |words| - 1)
    ensures all == PossiblePoems(s)
  {
  }

  /** The properties of the generated list: the unsplit input comes first;
      every later phrasing is a split of `input.split()` whose recorded
      count is its length; counts never decrease; a w-word input yields
      exactly 2^(w-1) phrasings, so one word (or none) yields only the
      trivial one. */
  lemma PossiblePoemsProperties(s: string)
    ensures |PossiblePoems(s)| >= 1 && PossiblePoems(s)[0] == Phrasing([s], 1)
    ensures SplitsOf(Words(s), PossiblePoems(s)[1..])
    ensures CountsSorted(PossiblePoems(s))
    ensures |PossiblePoems(s)| == Pow2(if |Words(s)| == 0 then 0 else |Words(s)| - 1)
  {
    PhrasingsProperties(s, Words(s), PossiblePoems(s));
  }

  lemma {:induction false} PhrasingsOfContains(words: seq<string>, combos: seq<seq<nat>>, c: seq<nat>)
    requires c in combos
    ensures ToPhrasing(words, c) in PhrasingsOf(words, combos)
    decreases |combos|
  {
    if c != combos[|combos| - 1] {
      assert c in combos[..|combos| - 1];
      PhrasingsOfContains(words, combos[..|combos| - 1], c);
    }
  }

  lemma {:induction false} SectionsContain(words: seq<string>, k: nat, n: nat)
    requires 1 <= n <= k
    ensures forall p :: p in Section(words, n) ==> p in Sections(words, k)
  {
    if n < k {
      SectionsContain(words, k - 1, n);
    }
  }

  /** Every way of cutting the input at one or more word boundaries is
      among the generated phrasings. */
  lemma EveryCutSetAppears(s: string, idxs: seq<nat>)
    requires idxs != [] && ValidCuts(idxs, |Words(s)|)
    ensures ToPhrasing(Words(s), idxs) in PossiblePoems(s)
  {
    var words := Words(s);
    var pool := Range(1, |words|);
    forall i | 0 <= i < |idxs| ensures idxs[i] in pool {
      assert pool[idxs[i] - 1] == idxs[i];
    }
    CombinationsComplete(pool, idxs);
    PhrasingsOfContains(words, Combinations(pool, |idxs|), idxs);
    CombinationsShape(pool, |idxs|);
    assert |idxs| <= |pool| by {
      if |idxs| > |pool| {
        CombinationsCount(pool, |idxs|);
        BinomAbove(|pool|, |idxs|);
        assert false;
      }
    }
    SectionsContain(words, |words| - 1, |idxs|);
  }

  lemma PhrasingsOfSnoc(words: seq<string>, combos: seq<seq<nat>>, j: nat)
    requires j < |combos|
    ensures PhrasingsOf(words, combos[..j + 1]) == PhrasingsOf(words, combos[..j]) + [ToPhrasing(words, combos[j])]
  {
    assert combos[..j + 1][..j] == combos[..j];
  }

  lemma AppendAssoc<T>(a: seq<T>, b: seq<T>, c: seq<T>)
    ensures a + (b + c) == (a + b) + c
  {
  }

  /** The inner loop of lines 88-90: one phrasing appended per n-subset of
      the boundary positions, in `itertools.combinations` order. */
  method AddSection(words: seq<string>, n: nat, poems: seq<Phrasing>) returns (out: seq<Phrasing>)
    ensures out == poems + Section(words, n)
  {
    var combos := Combinations(Range(1, |words|), n);
    out := poems;
    for j := 0 to |combos|
      invariant out == poems + PhrasingsOf(words, combos[..j])
    {
      var phrase := Phrases(words, combos[j]);
      PhrasingsOfSnoc(words, combos, j);
      AppendAssoc(poems, PhrasingsOf(words, combos[..j]), [ToPhrasing(words, combos[j])]);
      out := out + [Phrasing(phrase, |phrase|)];
    }
    assert combos[..|combos|] == combos;
  }

  /** The loops of lines 86-91 over the word list `words`: after the
      trivial phrasing, for each n in 1..w-1, the phrasings with n cuts. */
  method AddSplits(phraseSet: string, words: seq<string>) returns (poems: seq<Phrasing>)
    ensures poems == [Phrasing([phraseSet], 1)] + Sections(words, if |words| == 0 then 0 else |words| - 1)
  {
    poems := [Phrasing([phraseSet], 1)];
    var n := 1;
    while n < |words|
      invariant 1 <= n <= if |words| == 0 then 1 else |words|
      invariant poems == [Phrasing([phraseSet], 1)] + Sections(words, n - 1)
    {
      AppendAssoc([Phrasing([phraseSet], 1)], Sections(words, n - 1), Section(words, n));
      poems := AddSection(words, n, poems);
      n := n + 1;
    }
  }

  /** gen_possible_poems (lines 81-92): the trivial phrasing, then every
      split of `s.split()` at one or more word boundaries, by increasing
      number of cuts; the list has the properties of PossiblePoemsProperties. */
  method GenPossiblePoems(phraseSet: string) returns (poems: seq<Phrasing>)
    ensures poems == PossiblePoems(phraseSet)
    ensures poems[0] == Phrasing([phraseSet], 1)
    ensures SplitsOf(Words(phraseSet), poems[1..])
    ensures CountsSorted(poems)
    ensures |poems| == Pow2(if |Words(phraseSet)| == 0 then 0 else |Words(phraseSet)| - 1)
  {
    var words := Words(phraseSet);
    poems := AddSplits(phraseSet, words);
    PossiblePoemsDef(phraseSet, words, poems);
    PhrasingsProperties(phraseSet, words, poems);
  }
}
