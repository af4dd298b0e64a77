/** Sequences put together from chunks, as loops that append to a list put them together. */
module Chunks {

  /** The chunks from the `j`-th on, one after another. */
  function Flat<T>(chunks: seq<seq<T>>, j: nat): seq<T>
    requires j <= |chunks|
    decreases |chunks| - j
  {
    if j == |chunks| then [] else chunks[j] + Flat(chunks, j + 1)
  }

  /** A loop that appends has come to the `j`-th chunk. */
  ghost predicate Gathered<T>(done: seq<T>, chunks: seq<seq<T>>, start: seq<T>, j: nat) {
    j <= |chunks| && done + Flat(chunks, j) == start + Flat(chunks, 0)
  }

  lemma GatherNone<T>(chunks: seq<seq<T>>, start: seq<T>)
    ensures Gathered(start, chunks, start, 0)
  {
  }

  lemma GatherOne<T>(done: seq<T>, chunks: seq<seq<T>>, start: seq<T>, j: nat)
    requires j < |chunks| && Gathered(done, chunks, start, j)
    ensures Gathered(done + chunks[j], chunks, start, j + 1)
  {
    assert done + (chunks[j] + Flat(chunks, j + 1)) == done + chunks[j] + Flat(chunks, j + 1);
  }

  lemma GatheredAll<T>(done: seq<T>, chunks: seq<seq<T>>, start: seq<T>)
    requires Gathered(done, chunks, start, |chunks|)
    ensures done == start + Flat(chunks, 0)
  {
    assert done + [] == done;
  }

  /** What is in some chunk is what is in the whole. */
  lemma {:induction false} InFlat<T>(chunks: seq<seq<T>>, j: nat, x: T)
    requires j <= |chunks|
    ensures x in Flat(chunks, j) <==> exists n :: j <= n < |chunks| && x in chunks[n]
    decreases |chunks| - j
  {
    if j < |chunks| {
      InFlat(chunks, j + 1, x);
      assert x in Flat(chunks, j) <==> x in chunks[j] || x in Flat(chunks, j + 1);
    }
  }

  // ----- where the chunks stand in a sequence that begins with something else

  /** Where the `j`-th chunk starts when the first starts at `base`. */
  function Start<T>(chunks: seq<seq<T>>, base: nat, j: nat): (start: nat)
    requires j <= |chunks|
  {
    if j == 0 then base else Start(chunks, base, j - 1) + |chunks[j - 1]|
  }

  function Starts<T>(chunks: seq<seq<T>>, base: nat): (starts: seq<nat>)
    ensures |starts| == |chunks| + 1 && forall j :: 0 <= j <= |chunks| ==> starts[j] == Start(chunks, base, j)
  {
    seq(|chunks| + 1, j requires 0 <= j <= |chunks| => Start(chunks, base, j))
  }

  ghost predicate RestIs<T>(whole: seq<T>, i: nat, rest: seq<T>) {
    i <= |whole| && whole[i..] == rest
  }

  lemma AfterFirst<T>(whole: seq<T>, i: nat, chunk: seq<T>, rest: seq<T>)
    requires RestIs(whole, i, chunk + rest)
    ensures i + |chunk| <= |whole| && whole[i..i + |chunk|] == chunk && RestIs(whole, i + |chunk|, rest)
  {
    assert whole[i..i + |chunk|] == whole[i..][..|chunk|] && whole[i + |chunk|..] == whole[i..][|chunk|..];
  }

  lemma {:induction false} RestStands<T>(whole: seq<T>, base: nat, chunks: seq<seq<T>>, j: nat)
    requires RestIs(whole, base, Flat(chunks, 0)) && j <= |chunks|
    ensures RestIs(whole, Start(chunks, base, j), Flat(chunks, j))
  {
    if j > 0 {
      RestStands(whole, base, chunks, j - 1);
      AfterFirst(whole, Start(chunks, base, j - 1), chunks[j - 1], Flat(chunks, j));
    }
  }

  lemma LastChunkEndsTheWhole<T>(whole: seq<T>, base: nat, chunks: seq<seq<T>>)
    requires RestIs(whole, base, Flat(chunks, 0))
    ensures Start(chunks, base, |chunks|) == |whole|
  {
    RestStands(whole, base, chunks, |chunks|);
    assert |whole[Start(chunks, base, |chunks|)..]| == 0;
  }
}
