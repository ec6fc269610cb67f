/**
 * Removal of duplicate scan codes, as done by the closure `getScanCodesNoDup`
 * inside `NewKeyObserver`: the first occurrence of every code is kept, in
 * input order, and every later occurrence is dropped.
 */
module NoDup {
  import opened DIK

  /** No code occurs twice in `s`. */
  ghost predicate Distinct(s: seq<uint8>)
  {
    forall i, j :: 0 <= i < j < |s| ==> s[i] != s[j]
  }

  /**
   * The deduplicated sequence, defined by the last step of the loop: the last
   * element is appended exactly when it did not occur earlier in the input.
   */
  ghost function NoDup(s: seq<uint8>): seq<uint8>
    decreases |s|
  {
    if s == [] then []
    else
      var init, last := s[..|s| - 1], s[|s| - 1];
      if last in init then NoDup(init) else NoDup(init) + [last]
  }

  /** The index of the first occurrence of `x` in `s`. */
  ghost function FirstIndex(s: seq<uint8>, x: uint8): (k: nat)
    requires x in s
    ensures k < |s| && s[k] == x && x !in s[..k]
    decreases |s|
  {
    if s[0] == x then 0
    else
      var k := 1 + FirstIndex(s[1..], x);
      assert s[..k] == [s[0]] + s[1..][..k - 1];
      k
  }

  /** The first occurrence is the only index with the property of FirstIndex. */
  lemma FirstIndexUnique(s: seq<uint8>, x: uint8, k: nat)
    requires k < |s| && s[k] == x && x !in s[..k]
    ensures FirstIndex(s, x) == k
  {
  }

  /** Appending an element leaves the first occurrences of earlier codes alone. */
  lemma FirstIndexAppend(s: seq<uint8>, last: uint8, x: uint8)
    requires x in s
    ensures FirstIndex(s + [last], x) == FirstIndex(s, x)
  {
    var k := FirstIndex(s, x);
    assert (s + [last])[..k] == s[..k];
    FirstIndexUnique(s + [last], x, k);
  }

  /** Deduplication keeps exactly the codes of its input. */
  lemma {:induction false} NoDupSameElements(s: seq<uint8>)
    ensures forall x :: x in NoDup(s) <==> x in s
    decreases |s|
  {
    if s != [] {
      var init, last := s[..|s| - 1], s[|s| - 1];
      assert s == init + [last];
      NoDupSameElements(init);
    }
  }

  /** Deduplication leaves no code twice. */
  lemma {:induction false} NoDupDistinct(s: seq<uint8>)
    ensures Distinct(NoDup(s))
    decreases |s|
  {
    if s != [] {
      var init, last := s[..|s| - 1], s[|s| - 1];
      NoDupDistinct(init);
      NoDupSameElements(init);
    }
  }

  /** Deduplication keeps codes in the order of their first occurrence. */
  lemma {:induction false} NoDupFirstOccurrenceOrder(s: seq<uint8>)
    ensures forall x :: x in NoDup(s) ==> x in s
    ensures forall i, j :: 0 <= i < j < |NoDup(s)| ==>
              FirstIndex(s, NoDup(s)[i]) < FirstIndex(s, NoDup(s)[j])
    decreases |s|
  {
    NoDupSameElements(s);
    if s != [] {
      var init, last := s[..|s| - 1], s[|s| - 1];
      assert s == init + [last];
      NoDupFirstOccurrenceOrder(init);
      NoDupSameElements(init);
      var r, p := NoDup(s), NoDup(init);
      forall i, j | 0 <= i < j < |r|
        ensures FirstIndex(s, r[i]) < FirstIndex(s, r[j])
      {
        FirstIndexAppend(init, last, r[i]);
        if j < |p| {
          FirstIndexAppend(init, last, r[j]);
        } else {
          FirstIndexUnique(s, last, |init|);
        }
      }
    }
  }

  /** A sequence without repetitions has as many elements as its set of codes. */
  lemma {:induction false} DistinctCardinality(s: seq<uint8>)
    requires Distinct(s)
    ensures |set x | x in s| == |s|
    decreases |s|
  {
    if s != [] {
      var init, last := s[..|s| - 1], s[|s| - 1];
      assert s == init + [last];
      DistinctCardinality(init);
      assert (set x | x in s) == (set x | x in init) + {last};
    }
  }

  /** Deduplication yields one element per distinct code of the input. */
  lemma NoDupLength(s: seq<uint8>)
    ensures |NoDup(s)| == |set x | x in s|
  {
    NoDupDistinct(s);
    NoDupSameElements(s);
    DistinctCardinality(NoDup(s));
    assert (set x | x in NoDup(s)) == (set x | x in s);
  }

  /**
   * The loop of `getScanCodesNoDup`: an `encountered` map records every code
   * seen so far, and a code is appended to the result only on its first visit.
   * A code missing from `encountered` reads as `false`, Go's zero value.
   */
  method ScanCodesNoDup(elements: seq<uint8>) returns (result: seq<uint8>)
    ensures result == NoDup(elements)
    ensures Distinct(result)
    ensures forall x :: x in result <==> x in elements
  {
    var encountered: map<uint8, bool> := map[];
    result := [];
    for v := 0 to |elements|
      invariant result == NoDup(elements[..v])
      invariant forall x :: x in encountered <==> x in elements[..v]
      invariant forall x :: x in encountered ==> encountered[x]
    {
      var e := elements[v];
      assert elements[..v + 1] == elements[..v] + [e];
      if e in encountered && encountered[e] == true {
        // Do not add a duplicate.
      } else {
        encountered := encountered[e := true];
        result := result + [e];
      }
    }
    assert elements[..|elements|] == elements;
    NoDupDistinct(elements);
    NoDupSameElements(elements);
  }
}
