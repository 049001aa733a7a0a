/** Order-preserving selection from a sequence, used to say that the
    descriptions of a quote come from its text, in order, each word at most
    once. */
module Subsequences {

  /** `a` is `b` with some elements left out. */
  ghost predicate IsSubseq<T>(a: seq<T>, b: seq<T>)
    decreases |b|
  {
    a == [] || (b != [] && ((a[0] == b[0] && IsSubseq(a[1..], b[1..])) || IsSubseq(a, b[1..])))
  }

  lemma {:induction false} SubseqOfPrefix<T>(a: seq<T>, b: seq<T>)
    ensures IsSubseq(a, a + b)
    decreases |a|
  {
    if a != [] {
      assert (a + b)[1..] == a[1..] + b;
      SubseqOfPrefix(a[1..], b);
    }
  }

  lemma {:induction false} SubseqPadLeft<T>(a: seq<T>, pre: seq<T>, b: seq<T>)
    requires IsSubseq(a, b)
    ensures IsSubseq(a, pre + b)
    decreases |pre|
  {
    if pre == [] {
      assert pre + b == b;
    } else if a != [] {
      assert (pre + b)[1..] == pre[1..] + b;
      SubseqPadLeft(a, pre[1..], b);
    }
  }

  /** Selections from two pieces combine into a selection from their
      concatenation. */
  lemma {:induction false} SubseqAppend<T>(a: seq<T>, b: seq<T>, c: seq<T>, d: seq<T>)
    requires IsSubseq(a, b) && IsSubseq(c, d)
    ensures IsSubseq(a + c, b + d)
    decreases |b|
  {
    if a == [] {
      assert a + c == c;
      SubseqPadLeft(c, b, d);
    } else {
      assert b != [];
      assert (b + d)[1..] == b[1..] + d;
      if a[0] == b[0] && IsSubseq(a[1..], b[1..]) {
        SubseqAppend(a[1..], b[1..], c, d);
        assert (a + c)[1..] == a[1..] + c;
      } else {
        SubseqAppend(a, b[1..], c, d);
      }
    }
  }

  /** A step that may select some of `pw + ws` in front of a selection
      `later` from `rw`. */
  lemma ConsSubseq<T>(all: seq<T>, head: seq<T>, later: seq<T>, pw: seq<T>, ws: seq<T>, rw: seq<T>)
    requires IsSubseq(head, pw + ws) && IsSubseq(later, rw)
    requires all == head + later || all == later
    ensures IsSubseq(all, pw + (ws + rw))
  {
    assert pw + ws + rw == pw + (ws + rw);
    if all == head + later {
      SubseqAppend(head, pw + ws, later, rw);
    } else {
      SubseqPadLeft(later, pw + ws, rw);
    }
  }

  lemma SubseqRegroup<T>(a: seq<T>, pw: seq<T>, ws: seq<T>, rw: seq<T>)
    requires IsSubseq(a, pw + ws + rw)
    ensures IsSubseq(a, pw + (ws + rw))
  {
    assert pw + ws + rw == pw + (ws + rw);
  }
}
