/** Generic facts about sequences used by every part of the orchestrator model. */
module Seqs {

  /** `a` is an order-preserving subsequence of `b` (some elements of `b` dropped, none reordered). */
  predicate IsSubseq<T(==)>(a: seq<T>, b: seq<T>)
    decreases |b|
  {
    if a == [] then true
    else if b == [] then false
    else if a[0] == b[0] then IsSubseq(a[1..], b[1..])
    else IsSubseq(a, b[1..])
  }

  lemma {:induction false} SubseqCons<T>(x: T, a: seq<T>, b: seq<T>)
    requires IsSubseq(a, b)
    ensures IsSubseq([x] + a, [x] + b)
  {
    assert ([x] + a)[1..] == a;
    assert ([x] + b)[1..] == b;
  }

  lemma {:induction false} SubseqSkip<T>(x: T, a: seq<T>, b: seq<T>)
    requires IsSubseq(a, b)
    ensures IsSubseq(a, [x] + b)
    decreases |a| + |b|, 1
  {
    assert ([x] + b)[1..] == b;
    if a != [] && a[0] == x {
      SubseqDropHead(a, b);
    }
  }

  /** Dropping the first element of the shorter sequence keeps it a subsequence. */
  lemma {:induction false} SubseqDropHead<T>(a: seq<T>, b: seq<T>)
    requires a != [] && IsSubseq(a, b)
    ensures IsSubseq(a[1..], b)
    decreases |a| + |b|, 0
  {
    if a[0] == b[0] {
      SubseqSkip(b[0], a[1..], b[1..]);
      assert [b[0]] + b[1..] == b;
    } else {
      SubseqDropHead(a, b[1..]);
      SubseqSkip(b[0], a[1..], b[1..]);
      assert [b[0]] + b[1..] == b;
    }
  }

  lemma {:induction false} SubseqTrans<T>(a: seq<T>, b: seq<T>, c: seq<T>)
    requires IsSubseq(a, b) && IsSubseq(b, c)
    ensures IsSubseq(a, c)
    decreases |c|
  {
    if a == [] {
    } else if b[0] == c[0] {
      if a[0] == b[0] {
        SubseqTrans(a[1..], b[1..], c[1..]);
      } else {
        SubseqTrans(a, b[1..], c[1..]);
      }
    } else {
      SubseqTrans(a, b, c[1..]);
      if a[0] == c[0] { SubseqDropHead(a, c[1..]); }
    }
  }

  /** Every element of a subsequence occurs in the sequence it was taken from. */
  lemma {:induction false} SubseqMembers<T>(a: seq<T>, b: seq<T>, x: T)
    requires IsSubseq(a, b) && x in a
    ensures x in b
    decreases |b|
  {
    if a[0] == b[0] {
      if x != a[0] { SubseqMembers(a[1..], b[1..], x); }
    } else {
      SubseqMembers(a, b[1..], x);
    }
  }

  /** Concatenation of a sequence of sequences. */
  function Flatten<T>(ss: seq<seq<T>>): (r: seq<T>)
  {
    if ss == [] then [] else ss[0] + Flatten(ss[1..])
  }

  /** How a concatenation splits into its first element and the rest. */
  lemma AppendParts<T>(a: seq<T>, b: seq<T>)
    ensures a == [] ==> a + b == b
    ensures a != [] ==> (a + b)[0] == a[0] && (a + b)[1..] == a[1..] + b
  {
  }

  lemma EmptyAppend<T>(s: seq<T>)
    ensures [] + s == s
  {
  }

  lemma AppendEmpty<T>(s: seq<T>)
    ensures s + [] == s
  {
  }

  lemma AppendAssoc<T>(a: seq<T>, b: seq<T>, c: seq<T>)
    ensures (a + b) + c == a + (b + c)
  {
  }

  lemma SwapWhenOneEmpty<T>(x: seq<T>, y: seq<T>, tail: seq<T>)
    requires x == [] || y == []
    ensures y + (x + tail) == x + (y + tail)
  {
  }

  lemma DropCommonPrefix<T>(h: seq<T>, s: seq<T>, t: seq<T>)
    requires h + s == h + t
    ensures s == t
  {
    assert s == (h + s)[|h|..];
    assert t == (h + t)[|h|..];
  }

  lemma ConsShift<T>(done: seq<T>, x: T, tail: seq<T>)
    ensures (done + [x]) + tail == done + ([x] + tail)
  {
  }

  /** After removing `rest[0]`, the element that slid into its slot joins the examined part `done`. */
  lemma SlideIntoSlot<T>(done: seq<T>, rest: seq<T>)
    requires |rest| > 1
    ensures done + rest[1..] == (done + [rest[1]]) + rest[2..]
  {
    assert rest[1..] == [rest[1]] + rest[2..];
  }

  /** The list `done + rest` seen at index `|done|`, and what removing the element there leaves of it. */
  lemma RemoveAtSplits<T>(done: seq<T>, rest: seq<T>)
    requires rest != []
    ensures (done + rest)[|done|] == rest[0]
    ensures (done + rest)[..|done|] + (done + rest)[|done| + 1..] == done + rest[1..]
    ensures done + rest == (done + [rest[0]]) + rest[1..]
  {
    assert (done + rest)[..|done|] == done;
    assert (done + rest)[|done| + 1..] == rest[1..];
  }

  lemma AppendPair<T>(s: seq<T>, x: T, y: T)
    ensures s + [x, y] == (s + [x]) + [y]
  {
  }

  /** An element absent from a sequence is absent from each of its suffixes. */
  lemma SuffixFree<T>(s: seq<T>, prefix: seq<T>, rest: seq<T>, c: T)
    requires s == prefix + rest && c !in s
    ensures c !in rest
  {
    forall k | 0 <= k < |rest| ensures rest[k] != c {
      assert rest[k] == s[|prefix| + k];
    }
  }

  lemma LastTwo<T>(s: seq<T>)
    requires |s| >= 2
    ensures s == s[..|s| - 2] + [s[|s| - 2], s[|s| - 1]]
  {
  }
}
