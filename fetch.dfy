/** The fan-out of `threaded_api` (spotify_poetry.py:37-75): the phrase
    list is cut into one slice per worker and every phrase's search page is
    stored in the shared page dictionary. The search service itself is a
    parameter, and the workers run one after another. */
module Fetch {
  import opened Text

  /** One candidate returned by the search service: its name, its track
      code and its popularity. */
  datatype Track = Track(name: string, id: string, popularity: real)

  /** The search service: the candidate tracks of the page it returns for a
      phrase, in page order. */
  type Search = string -> seq<Track>

  /** The page dictionary: phrase to the candidates of its page. */
  type Pages = map<string, seq<Track>>

  /** The cap on the number of workers (lines 54-55). */
  const MaxThreads := 300

  function Concat<T>(ss: seq<seq<T>>): seq<T> {
    if ss == [] then [] else Concat(ss[..|ss| - 1]) + ss[|ss| - 1]
  }

  lemma ConcatSnoc<T>(ss: seq<seq<T>>, x: seq<T>)
    ensures Concat(ss + [x]) == Concat(ss) + x
  {
    assert (ss + [x])[..|ss|] == ss;
  }

  /** Concatenating one more slice of a list of slices. */
  lemma ConcatPrefix<T>(ss: seq<seq<T>>, t: nat)
    requires t < |ss|
    ensures Concat(ss[..t + 1]) == Concat(ss[..t]) + ss[t]
  {
    assert ss[..t + 1] == ss[..t] + [ss[t]];
    ConcatSnoc(ss[..t], ss[t]);
  }

  lemma {:induction false} MulMono(c: nat, a: nat, b: nat)
    requires a <= b
    ensures c * a <= c * b
    decreases b - a
  {
    if a < b {
      MulMono(c, a, b - 1);
    }
  }

  /** The bounds of slice i: it starts where slice i-1 stops and lies within the list. */
  lemma ChunkBounds(len: nat, n: nat, i: nat)
    requires 1 <= n && i < n
    ensures (len / n) * (i + 1) == (len / n) * i + len / n
    ensures (len / n) * (i + 1) <= len
    ensures (n - 1) * (len / n) == (len / n) * (n - 1)
  {
    MulMono(len / n, i + 1, n);
  }

  lemma PrefixSplit<T>(items: seq<T>, lo: nat, hi: nat)
    requires lo <= hi <= |items|
    ensures items[..hi] == items[..lo] + items[lo..hi]
  {
  }

  /** The loop of lines 61-64: slices 0..count-1, each of `chunksize`
      consecutive items, slice i starting at item chunksize * i. */
  method EvenSlices<T>(items: seq<T>, count: nat, chunksize: nat) returns (slices: seq<seq<T>>)
    requires chunksize * count <= |items|
    ensures |slices| == count
    ensures forall k :: 0 <= k < count ==> |slices[k]| == chunksize
    ensures Concat(slices) == items[..chunksize * count]
  {
    slices := [];
    var i := 0;
    while i < count
      invariant 0 <= i <= count
      invariant |slices| == i
      invariant forall k :: 0 <= k < i ==> |slices[k]| == chunksize
      invariant chunksize * i <= |items|
      invariant Concat(slices) == items[..chunksize * i]
    {
      MulMono(chunksize, i + 1, count);
      var lo, hi := chunksize * i, chunksize * (i + 1);
      var part := items[lo..hi];
      PrefixSplit(items, lo, hi);
      ConcatSnoc(slices, part);
      slices := slices + [part];
      i := i + 1;
    }
  }

  /** The slicing of lines 54-68: min(nthreads, 300) slices; every slice but
      the last holds floor(len / workers) consecutive items, the last holds the
      rest; read in order, the slices give back the list, so every item is in
      exactly one slice. */
  method Chunks<T>(items: seq<T>, nthreads: int) returns (slices: seq<seq<T>>)
    requires nthreads >= 1
    ensures |slices| == if nthreads > MaxThreads then MaxThreads else nthreads
    ensures forall i :: 0 <= i < |slices| - 1 ==> |slices[i]| == |items| / |slices|
    ensures |slices[|slices| - 1]| == |items| - (|slices| - 1) * (|items| / |slices|)
    ensures Concat(slices) == items
  {
    var n := nthreads;
    if n > MaxThreads {
      n := MaxThreads;
    }
    var chunksize := |items| / n;
    ChunkBounds(|items|, n, n - 1);
    slices := EvenSlices(items, n - 1, chunksize);
    var start := (n - 1) * chunksize;
    var last := items[start..];
    PrefixSplit(items, start, |items|);
    ConcatSnoc(slices, last);
    slices := slices + [last];
  }

  lemma SetOfAppend(a: seq<string>, b: seq<string>)
    ensures SetOf(a + b) == SetOf(a) + SetOf(b)
  {
  }

  /** The worker of lines 38-50: for every phrase of its slice, in order,
      it stores the page the service returns. */
  method Worker(part: seq<string>, outDict: Pages, search: Search) returns (out: Pages)
    ensures out.Keys == outDict.Keys + SetOf(part)
    ensures forall p :: p in part ==> out[p] == search(p)
    ensures forall k :: k in outDict && k !in part ==> out[k] == outDict[k]
  {
    out := outDict;
    for i := 0 to |part|
      invariant out.Keys == outDict.Keys + SetOf(part[..i])
      invariant forall p :: p in part[..i] ==> out[p] == search(p)
      invariant forall k :: k in outDict && k !in part[..i] ==> out[k] == outDict[k]
    {
      assert part[..i + 1] == part[..i] + [part[i]];
      out := out[part[i] := search(part[i])];
    }
    assert part[..|part|] == part;
  }

  /** threaded_api (lines 37-75): each worker stores, for every phrase of its
      slice, the page the service returns. Afterwards the dictionary holds the
      entries it started with, overwritten by a page for every phrase. */
  method ThreadedApi(phrases: seq<string>, inDict: Pages, nthreads: int, search: Search)
    returns (pages: Pages)
    requires nthreads >= 1
    ensures pages.Keys == inDict.Keys + SetOf(phrases)
    ensures forall p :: p in phrases ==> pages[p] == search(p)
    ensures forall k :: k in inDict && k !in phrases ==> pages[k] == inDict[k]
  {
    var slices := Chunks(phrases, nthreads);
    pages := inDict;
    ghost var done: seq<string> := [];
    for t := 0 to |slices|
      invariant done == Concat(slices[..t])
      invariant pages.Keys == inDict.Keys + SetOf(done)
      invariant forall p :: p in done ==> pages[p] == search(p)
      invariant forall k :: k in inDict && k !in done ==> pages[k] == inDict[k]
    {
      ConcatPrefix(slices, t);
      SetOfAppend(done, slices[t]);
      pages := Worker(slices[t], pages, search);
      done := done + slices[t];
    }
    assert slices[..|slices|] == slices;
  }
}
