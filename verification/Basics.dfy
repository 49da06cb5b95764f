/**
  What several parts share: optional values, the page size with the roundings of
  kernel/mm/mem.h, and sequences without repetition.
 */
module Basics {
  datatype Option<T> = None | Some(value: T)

  // ----- pages

  const PAGE: nat := 4096      // PAGE_SIZE

  /** ALIGN_UP */
  function AlignUp(x: int): (r: int)
    ensures x <= r < x + PAGE && r % PAGE == 0
  {
    (x + PAGE - 1) / PAGE * PAGE
  }

  /** ALIGN_UP of a byte count, as a number of pages. */
  function PagesFor(bytes: nat): nat {
    (bytes + PAGE - 1) / PAGE
  }

  // ----- sequences

  predicate NoDuplicates(l: seq<nat>) {
    forall i, j :: 0 <= i < j < |l| ==> l[i] != l[j]
  }

  lemma PushProperties(l: seq<nat>, x: nat)
    requires NoDuplicates(l) && x !in l
    ensures NoDuplicates([x] + l)
    ensures forall y :: y in [x] + l <==> y == x || y in l
  {
  }

  lemma PopProperties(l: seq<nat>)
    requires NoDuplicates(l) && l != []
    ensures NoDuplicates(l[1..])
    ensures forall y :: y in l[1..] <==> y in l && y != l[0]
  {
    assert l == [l[0]] + l[1..];
  }
}
