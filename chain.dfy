/** Offset-chained entries, the layout shared by the QUERY_DIRECTORY
    buffer and the CREATE response contexts: every entry but the last
    carries its own size as the offset of the next entry, and the last
    carries 0. */
module Chain {

  function Sum(s: seq<nat>): nat {
    if s == [] then 0 else Sum(s[..|s| - 1]) + s[|s| - 1]
  }

  /** The next-entry offsets written into a chain of entries of the given sizes. */
  function NextOffsets(sizes: seq<nat>): seq<nat> {
    seq(|sizes|, k requires 0 <= k < |sizes| => if k == |sizes| - 1 then 0 else sizes[k])
  }

  /** Where each entry starts: the sizes of the entries before it, added up. */
  function Starts(sizes: seq<nat>): seq<nat> {
    seq(|sizes|, k requires 0 <= k < |sizes| => Sum(sizes[..k]))
  }

  /** What a reader of the chain does: entry k begins at `pos`; a zero
      offset ends the chain, any other offset leads to the next entry. */
  function Walk(offsets: seq<nat>, k: nat, pos: nat): seq<nat>
    decreases |offsets| - k
  {
    if k >= |offsets| then []
    else if offsets[k] == 0 then [pos]
    else [pos] + Walk(offsets, k + 1, pos + offsets[k])
  }

  lemma SumSnoc(s: seq<nat>, x: nat)
    ensures Sum(s + [x]) == Sum(s) + x
  {
    assert (s + [x])[..|s|] == s;
  }

  lemma {:induction false} WalkFrom(sizes: seq<nat>, k: nat)
    requires forall j :: 0 <= j < |sizes| ==> sizes[j] > 0
    requires k <= |sizes|
    ensures Walk(NextOffsets(sizes), k, Sum(sizes[..k])) == Starts(sizes)[k..]
    decreases |sizes| - k
  {
    var offs := NextOffsets(sizes);
    if k < |sizes| - 1 {
      WalkFrom(sizes, k + 1);
      assert sizes[..k + 1] == sizes[..k] + [sizes[k]];
      SumSnoc(sizes[..k], sizes[k]);
      assert Starts(sizes)[k..] == [Starts(sizes)[k]] + Starts(sizes)[k + 1..];
    } else if k == |sizes| - 1 {
      assert Starts(sizes)[k..] == [Sum(sizes[..k])];
    }
  }

  /** Following the offsets from the first entry visits every entry, in
      order, at the position where it was laid out, and stops after the
      last one (which ends where the whole chain ends). */
  lemma WalkVisitsEveryEntry(sizes: seq<nat>)
    requires forall j :: 0 <= j < |sizes| ==> sizes[j] > 0
    ensures Walk(NextOffsets(sizes), 0, 0) == Starts(sizes)
    ensures |sizes| > 0 ==> Starts(sizes)[|sizes| - 1] + sizes[|sizes| - 1] == Sum(sizes)
  {
    WalkFrom(sizes, 0);
    assert sizes[..0] == [];
    if |sizes| > 0 {
      assert sizes[..|sizes|] == sizes;
    }
  }

  /** When every size is a multiple of 8, every entry starts on an 8-byte
      boundary and the chain's total length is a multiple of 8 too. */
  lemma {:induction false} AlignedSums(sizes: seq<nat>)
    requires forall j :: 0 <= j < |sizes| ==> sizes[j] % 8 == 0
    ensures Sum(sizes) % 8 == 0
    ensures forall k :: 0 <= k < |sizes| ==> Starts(sizes)[k] % 8 == 0
  {
    if sizes != [] {
      var init := sizes[..|sizes| - 1];
      AlignedSums(init);
      forall k | 0 <= k < |sizes|
        ensures Starts(sizes)[k] % 8 == 0
      {
        if k < |sizes| - 1 {
          assert sizes[..k] == init[..k];
          assert Starts(init)[k] == Sum(init[..k]);
        } else {
          assert sizes[..k] == init;
        }
      }
    }
  }
}
