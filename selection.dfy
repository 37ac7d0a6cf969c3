/** The selection rule of `build_playlist` (spotify_poetry.py:199-230) as
    a state machine over three lists indexed by phrasing: the song counts,
    which phrasings are valid, and their scores. */
module Selection {

  /** The state of the loop of lines 205-230 after evaluating phrasings
      0..k-1 once a valid one has been met, over the phrasings' song counts,
      validity and scores: f is the first valid phrasing, whose length became
      the bound; no phrasing after f so far is longer; and b is the first of
      the valid phrasings in f..k-1 with the highest score. */
  predicate Kept(counts: seq<nat>, ok: seq<bool>, sc: seq<real>, f: nat, b: nat, k: nat) {
    |ok| == |counts| && |sc| == |counts|
    && f <= b < k <= |counts|
    && ok[f] && (forall j :: 0 <= j < f ==> !ok[j])
    && (forall j :: f < j < k ==> counts[j] <= counts[f])
    && ok[b]
    && (forall j :: f <= j < k && ok[j] ==> sc[j] <= sc[b])
    && (forall j :: f <= j < b && ok[j] ==> sc[j] < sc[b])
  }

  /** The phrasing the loop keeps when it stops at `stop`: the loop state
      there, where `stop` is the end of the list or the first phrasing longer
      than f. */
  predicate Picked(counts: seq<nat>, ok: seq<bool>, sc: seq<real>, f: nat, stop: nat, b: nat) {
    Kept(counts, ok, sc, f, b, stop)
    && (stop < |counts| ==> counts[stop] > counts[f])
  }

  /** No valid phrasing in 0..k-1 and phrasing k invalid: none in 0..k. */
  lemma NoneYet(ok: seq<bool>, k: nat)
    requires k < |ok| && (forall j :: 0 <= j < k ==> !ok[j]) && !ok[k]
    ensures forall j :: 0 <= j < k + 1 ==> !ok[j]
  {
  }

  /** The first valid phrasing is kept (lines 214-216). */
  lemma KeptFirst(counts: seq<nat>, ok: seq<bool>, sc: seq<real>, k: nat)
    requires |ok| == |counts| && |sc| == |counts| && k < |counts|
    requires (forall j :: 0 <= j < k ==> !ok[j]) && ok[k]
    ensures Kept(counts, ok, sc, k, k, k + 1)
  {
  }

  /** Within the bound, an invalid phrasing or a valid one scoring no higher
      leaves the kept phrasing as it was (lines 222 and 226-227), and one
      scoring strictly higher replaces it (line 223). */
  lemma KeptNext(counts: seq<nat>, ok: seq<bool>, sc: seq<real>, f: nat, b: nat, k: nat)
    requires Kept(counts, ok, sc, f, b, k) && k < |counts| && counts[k] <= counts[f]
    ensures ok[k] && sc[k] > sc[b] ==> Kept(counts, ok, sc, f, k, k + 1)
    ensures !(ok[k] && sc[k] > sc[b]) ==> Kept(counts, ok, sc, f, b, k + 1)
  {
  }

  /** What the comment of lines 186-188 promises: among the valid phrasings,
      b has the fewest songs, and among valid phrasings of that length b has
      the highest score, ties going to the earliest. */
  predicate Optimal(counts: seq<nat>, ok: seq<bool>, sc: seq<real>, b: nat) {
    |ok| == |counts| && |sc| == |counts|
    && b < |counts| && ok[b]
    && (forall k :: 0 <= k < |counts| && ok[k] ==> counts[b] <= counts[k])
    && (forall k :: 0 <= k < |counts| && ok[k] && counts[k] == counts[b] ==> sc[k] <= sc[b])
    && (forall k :: 0 <= k < b && ok[k] && counts[k] == counts[b] ==> sc[k] < sc[b])
  }

  /** On a list ordered by song count, which gen_possible_poems produces, the
      early stop misses nothing: the kept phrasing is optimal. */
  lemma PickedIsOptimal(counts: seq<nat>, ok: seq<bool>, sc: seq<real>, f: nat, stop: nat, b: nat)
    requires forall i, j :: 0 <= i <= j < |counts| ==> counts[i] <= counts[j]
    requires Picked(counts, ok, sc, f, stop, b)
    ensures Optimal(counts, ok, sc, b)
  {
    assert counts[b] == counts[f];
    forall k | 0 <= k < |counts| && ok[k] && counts[k] == counts[b]
      ensures k < stop
    {
      if stop <= k {
        assert false;
      }
    }
  }

  /** On a count-sorted list, the stop of Picked is the first phrasing
      longer than the kept one, and every phrasing before it is no longer. */
  lemma PickedStops(counts: seq<nat>, ok: seq<bool>, sc: seq<real>, f: nat, stop: nat, b: nat)
    requires forall i, j :: 0 <= i <= j < |counts| ==> counts[i] <= counts[j]
    requires Picked(counts, ok, sc, f, stop, b)
    ensures forall j :: 0 <= j < stop ==> counts[j] <= counts[b]
    ensures stop < |counts| ==> counts[stop] > counts[b]
  {
    assert counts[b] == counts[f];
    forall j | 0 <= j < stop ensures counts[j] <= counts[b] {
      if j <= f {
        assert counts[j] <= counts[f];
      }
    }
  }
}
