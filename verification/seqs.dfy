/** Sequence operations shared by the server and the client code. */
module Seqs {

  /** The blocks laid end to end (`flat()` of an array of arrays). */
  function Concat<T>(blocks: seq<seq<T>>): seq<T> {
    if blocks == [] then [] else blocks[0] + Concat(blocks[1..])
  }

  lemma {:induction false} ConcatAppend<T>(a: seq<seq<T>>, b: seq<seq<T>>)
    ensures Concat(a + b) == Concat(a) + Concat(b)
  {
    if a == [] {
      assert a + b == b;
    } else {
      calc {
        Concat(a + b);
        { assert (a + b)[0] == a[0] && (a + b)[1..] == a[1..] + b; }
        a[0] + Concat(a[1..] + b);
        { ConcatAppend(a[1..], b); }
        a[0] + (Concat(a[1..]) + Concat(b));
        (a[0] + Concat(a[1..])) + Concat(b);
      }
    }
  }

  /**
   * Block `i` sits in the concatenation right after the blocks before it:
   * the layout every line-oriented or stop-oriented output relies on.
   */
  lemma {:induction false} ConcatBlock<T>(blocks: seq<seq<T>>, i: nat)
    requires i < |blocks|
    ensures |Concat(blocks[..i])| + |blocks[i]| <= |Concat(blocks)|
    ensures Concat(blocks)[|Concat(blocks[..i])|..|Concat(blocks[..i])| + |blocks[i]|] == blocks[i]
  {
    assert blocks == blocks[..i] + blocks[i..];
    ConcatAppend(blocks[..i], blocks[i..]);
    assert Concat(blocks[i..]) == blocks[i] + Concat(blocks[i + 1..]) by {
      assert blocks[i..][1..] == blocks[i + 1..];
    }
  }

  /** Blocks of at most one element each concatenate to no more elements than there are blocks. */
  lemma {:induction false} ConcatOfSingletons<T>(blocks: seq<seq<T>>)
    requires forall i :: 0 <= i < |blocks| ==> |blocks[i]| <= 1
    ensures |Concat(blocks)| <= |blocks|
  {
    if blocks != [] {
      ConcatOfSingletons(blocks[1..]);
    }
  }

  /** Every element of a concatenation comes from some block. */
  lemma {:induction false} ConcatElement<T>(blocks: seq<seq<T>>, k: nat)
    requires k < |Concat(blocks)|
    ensures exists i, j :: 0 <= i < |blocks| && 0 <= j < |blocks[i]| && Concat(blocks)[k] == blocks[i][j]
  {
    if k < |blocks[0]| {
      assert Concat(blocks)[k] == blocks[0][k];
    } else {
      ConcatElement(blocks[1..], k - |blocks[0]|);
      var i, j :| 0 <= i < |blocks[1..]| && 0 <= j < |blocks[1..][i]| && Concat(blocks[1..])[k - |blocks[0]|] == blocks[1..][i][j];
      assert blocks[i + 1] == blocks[1..][i];
    }
  }

  /** A slice of the middle part of `a + mid + b`, read through the whole. */
  lemma SliceOfMiddle<T>(a: seq<T>, mid: seq<T>, b: seq<T>, off: nat, n: nat)
    requires off + n <= |mid|
    ensures (a + mid + b)[|a| + off..|a| + off + n] == mid[off..off + n]
  {
    assert (a + mid + b)[|a|..|a| + |mid|] == mid;
  }

  /** A slice of the tail part of `a + rest`, read through the whole. */
  lemma SliceAfter<T>(a: seq<T>, rest: seq<T>, off: nat, n: nat)
    requires off + n <= |rest|
    ensures (a + rest)[|a| + off..|a| + off + n] == rest[off..off + n]
  {
    assert (a + rest)[|a|..] == rest;
  }

  /** `part` occurs in `whole` starting at position `start`. */
  predicate SliceIs<T(==)>(whole: seq<T>, start: int, part: seq<T>) {
    0 <= start && start + |part| <= |whole| && whole[start..start + |part|] == part
  }

  /** Block `i` of a concatenation that follows a header `head`. */
  lemma BlockAfterHead<T>(head: seq<T>, blocks: seq<seq<T>>, i: nat)
    requires i < |blocks|
    ensures SliceIs(head + Concat(blocks), |head| + |Concat(blocks[..i])|, blocks[i])
  {
    ConcatBlock(blocks, i);
    SliceAfter(head, Concat(blocks), |Concat(blocks[..i])|, |blocks[i]|);
  }

  /** A one-element block `[x]` puts `x` right after the blocks before it. */
  lemma SingletonBlock<T>(blocks: seq<seq<T>>, i: nat, x: T)
    requires i < |blocks| && blocks[i] == [x]
    ensures |Concat(blocks[..i])| < |Concat(blocks)| && Concat(blocks)[|Concat(blocks[..i])|] == x
  {
    ConcatBlock(blocks, i);
    var at := |Concat(blocks[..i])|;
    assert Concat(blocks)[at..at + 1][0] == x;
  }

  /** Block `i` of a concatenation framed by a header `head` and a trailer `tail`. */
  lemma BlockInFrame<T>(head: seq<T>, blocks: seq<seq<T>>, tail: seq<T>, i: nat)
    requires i < |blocks|
    ensures SliceIs(head + Concat(blocks) + tail, |head| + |Concat(blocks[..i])|, blocks[i])
  {
    BlockAfterHead(head, blocks, i);
    var start := |head| + |Concat(blocks[..i])|;
    var whole := head + Concat(blocks);
    assert (whole + tail)[start..start + |blocks[i]|] == whole[start..start + |blocks[i]|];
  }

  lemma {:induction false} InConcat<T>(blocks: seq<seq<T>>, x: T)
    ensures x in Concat(blocks) <==> exists i :: 0 <= i < |blocks| && x in blocks[i]
  {
    if blocks != [] {
      InConcat(blocks[1..], x);
      if x in Concat(blocks[1..]) {
        var i :| 0 <= i < |blocks[1..]| && x in blocks[1..][i];
        assert x in blocks[i + 1];
      }
      if exists i :: 0 <= i < |blocks| && x in blocks[i] {
        var i :| 0 <= i < |blocks| && x in blocks[i];
        if i > 0 {
          assert x in blocks[1..][i - 1];
        }
      }
    }
  }

  /** No element occurs twice. */
  predicate Distinct<T(==)>(xs: seq<T>) {
    forall i, j :: 0 <= i < j < |xs| ==> xs[i] != xs[j]
  }

  /** Position of the first occurrence of `x` in `xs`. */
  function FirstIndex<T(==)>(xs: seq<T>, x: T): (k: nat)
    requires x in xs
    ensures k < |xs| && xs[k] == x
    ensures forall j :: 0 <= j < k ==> xs[j] != x
  {
    if xs[0] == x then 0 else 1 + FirstIndex(xs[1..], x)
  }

  /** A position holding a value not met before it is that value's first index. */
  lemma FirstIndexAt<T>(xs: seq<T>, k: nat)
    requires k < |xs| && forall j :: 0 <= j < k ==> xs[j] != xs[k]
    ensures FirstIndex(xs, xs[k]) == k
  {
  }

  lemma FirstIndexPrefix<T>(xs: seq<T>, n: nat, x: T)
    requires n <= |xs| && x in xs[..n]
    ensures FirstIndex(xs[..n], x) == FirstIndex(xs, x)
  {
    var k := FirstIndex(xs[..n], x);
    assert xs[k] == x;
    assert forall j :: 0 <= j < k ==> xs[j] != x by {
      forall j | 0 <= j < k ensures xs[j] != x {
        assert xs[..n][j] != x;
      }
    }
  }

  /**
   * `[...new Set(xs)]`: each element once, in order of first appearance.
   * A value joins the result when it is met for the first time.
   */
  function Dedup<T(==)>(xs: seq<T>): (r: seq<T>)
    ensures Distinct(r)
    ensures forall i :: 0 <= i < |r| ==> r[i] in xs
    ensures forall i :: 0 <= i < |xs| ==> xs[i] in r
  {
    if xs == [] then []
    else
      var init := xs[..|xs| - 1];
      var last := xs[|xs| - 1];
      var r0 := Dedup(init);
      assert xs == init + [last];
      if last in r0 then r0 else r0 + [last]
  }

  /** Every element of `r` occurs in `xs`, and `r` lists them in the order they first appear there. */
  predicate InFirstOrder<T(==)>(xs: seq<T>, r: seq<T>) {
    && (forall i :: 0 <= i < |r| ==> r[i] in xs)
    && (forall i, j :: 0 <= i < j < |r| ==> FirstIndex(xs, r[i]) < FirstIndex(xs, r[j]))
  }

  /** The result of `Dedup` lists the elements in the order they first appear. */
  lemma {:induction false} DedupOrder<T>(xs: seq<T>)
    ensures InFirstOrder(xs, Dedup(xs))
  {
    if xs != [] {
      var init := xs[..|xs| - 1];
      var last := xs[|xs| - 1];
      var r0 := Dedup(init);
      DedupOrder(init);
      assert xs == init + [last];
      FirstOrderExtend(init, last, r0);
      if last !in r0 {
        assert last !in init;
        FirstIndexAt(xs, |xs| - 1);
        forall i | 0 <= i < |r0| ensures FirstIndex(xs, r0[i]) < FirstIndex(xs, last) {
          assert r0[i] in init;
          FirstIndexPrefix(xs, |xs| - 1, r0[i]);
        }
        FirstOrderAppendNew(xs, r0, last);
      }
    }
  }

  /** Appending an element after a prefix does not move the first occurrences in it. */
  lemma FirstOrderExtend<T>(init: seq<T>, last: T, r: seq<T>)
    requires InFirstOrder(init, r)
    ensures InFirstOrder(init + [last], r)
  {
    var xs := init + [last];
    assert xs[..|init|] == init;
    forall i | 0 <= i < |r|
      ensures r[i] in xs && FirstIndex(xs, r[i]) == FirstIndex(init, r[i])
    {
      FirstIndexPrefix(xs, |init|, r[i]);
    }
  }

  /** An element that first appears after all those of `r` may follow them. */
  lemma FirstOrderAppendNew<T>(xs: seq<T>, r: seq<T>, last: T)
    requires InFirstOrder(xs, r) && last in xs
    requires forall i :: 0 <= i < |r| ==> r[i] in xs && FirstIndex(xs, r[i]) < FirstIndex(xs, last)
    ensures InFirstOrder(xs, r + [last])
  {
    var r1 := r + [last];
    assert forall i :: 0 <= i < |r1| ==> r1[i] in xs;
    forall i, j | 0 <= i < j < |r1|
      ensures FirstIndex(xs, r1[i]) < FirstIndex(xs, r1[j])
    {
      assert r1[i] == r[i];
      if j < |r| {
        assert r1[j] == r[j];
      }
    }
  }

  /** Deduplicating a sequence without repetitions changes nothing. */
  lemma {:induction false} DedupDistinct<T>(xs: seq<T>)
    requires Distinct(xs)
    ensures Dedup(xs) == xs
  {
    if xs != [] {
      var init := xs[..|xs| - 1];
      DedupDistinct(init);
      assert xs == init + [xs[|xs| - 1]];
    }
  }
}
