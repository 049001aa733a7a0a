/** The article totals of an analysis: a `Map` from description to total
    quantity, which keeps its keys in insertion order.  It is modelled as a
    list of entries with distinct articles. */
module Aggregate {

  datatype Entry = Entry(article: string, qty: real)

  function Articles(es: seq<Entry>): (ks: seq<string>)
    ensures |ks| == |es|
  {
    if es == [] then [] else [es[0].article] + Articles(es[1..])
  }

  ghost predicate DistinctArticles(es: seq<Entry>) {
    forall i, j :: 0 <= i < j < |es| ==> es[i].article != es[j].article
  }

  /** `map.get(k) || 0`: the stored total, or 0 for an unknown article. */
  function Get(es: seq<Entry>, k: string): real {
    if es == [] then 0.0
    else if es[0].article == k then es[0].qty
    else Get(es[1..], k)
  }

  /** `map.set(k, v)`: an existing article keeps its place, a new one goes
      last. */
  function Put(es: seq<Entry>, k: string, v: real): (r: seq<Entry>)
    ensures |r| == |es| || |r| == |es| + 1
  {
    if es == [] then [Entry(k, v)]
    else if es[0].article == k then [Entry(k, v)] + es[1..]
    else [es[0]] + Put(es[1..], k, v)
  }

  // ---------------------------------------------------------------------------
  // Lemmas

  lemma {:induction false} ArticlesAt(es: seq<Entry>)
    ensures forall i :: 0 <= i < |es| ==> Articles(es)[i] == es[i].article
    decreases |es|
  {
    if es != [] {
      ArticlesAt(es[1..]);
    }
  }

  /** Reading back what was just written; other articles are untouched. */
  lemma {:induction false} PutGet(es: seq<Entry>, k: string, v: real, k2: string)
    ensures Get(Put(es, k, v), k) == v
    ensures k2 != k ==> Get(Put(es, k, v), k2) == Get(es, k2)
    decreases |es|
  {
    if es != [] && es[0].article != k {
      PutGet(es[1..], k, v, k2);
    }
  }

  /** An article already present keeps its place; a new one is appended. */
  lemma {:induction false} PutArticles(es: seq<Entry>, k: string, v: real)
    ensures k in Articles(es) ==> Articles(Put(es, k, v)) == Articles(es)
    ensures k !in Articles(es) ==> Articles(Put(es, k, v)) == Articles(es) + [k]
    decreases |es|
  {
    if es != [] {
      PutArticles(es[1..], k, v);
      if es[0].article != k {
        assert Articles(es) == [es[0].article] + Articles(es[1..]);
        assert k in Articles(es) <==> k in Articles(es[1..]);
        if k !in Articles(es) {
          assert [es[0].article] + (Articles(es[1..]) + [k]) == Articles(es) + [k];
        }
      }
    }
  }

  lemma {:induction false} DistinctByArticles(es: seq<Entry>)
    ensures DistinctArticles(es) <==> forall i, j :: 0 <= i < j < |es| ==> Articles(es)[i] != Articles(es)[j]
  {
    ArticlesAt(es);
    if DistinctArticles(es) {
      forall i, j | 0 <= i < j < |es|
        ensures Articles(es)[i] != Articles(es)[j]
      {
        assert es[i].article != es[j].article;
      }
    } else {
      var i, j :| 0 <= i < j < |es| && es[i].article == es[j].article;
      assert Articles(es)[i] == Articles(es)[j];
    }
  }

  /** Writing keeps the articles distinct. */
  lemma PutDistinct(es: seq<Entry>, k: string, v: real)
    requires DistinctArticles(es)
    ensures DistinctArticles(Put(es, k, v))
  {
    var r := Put(es, k, v);
    PutArticles(es, k, v);
    DistinctByArticles(es);
    DistinctByArticles(r);
    if k !in Articles(es) {
      var ks := Articles(es);
      forall i, j | 0 <= i < j < |ks + [k]|
        ensures (ks + [k])[i] != (ks + [k])[j]
      {
        if j == |ks| {
          assert (ks + [k])[i] == ks[i];
        } else {
          assert (ks + [k])[i] == ks[i] && (ks + [k])[j] == ks[j];
        }
      }
    }
  }

  /** The stored total of an article listed at index `i`. */
  lemma {:induction false} GetAt(es: seq<Entry>, i: nat)
    requires DistinctArticles(es) && i < |es|
    ensures Get(es, es[i].article) == es[i].qty
    decreases |es|
  {
    if i > 0 {
      assert es[0].article != es[i].article;
      GetAt(es[1..], i - 1);
    }
  }

  lemma {:induction false} GetAbsent(es: seq<Entry>, k: string)
    requires k !in Articles(es)
    ensures Get(es, k) == 0.0
    decreases |es|
  {
    if es != [] {
      GetAbsent(es[1..], k);
    }
  }

  /** Lists with distinct articles holding the same totals for the same
      articles hold the same entries, whatever their order. */
  lemma SameTotalsSameEntries(a: seq<Entry>, b: seq<Entry>)
    requires DistinctArticles(a) && DistinctArticles(b)
    requires forall k :: k in Articles(a) <==> k in Articles(b)
    requires forall k :: Get(a, k) == Get(b, k)
    ensures forall e :: e in a <==> e in b
  {
    ArticlesAt(a);
    ArticlesAt(b);
    forall e | e in a
      ensures e in b
    {
      var i :| 0 <= i < |a| && a[i] == e;
      GetAt(a, i);
      assert Articles(a)[i] == e.article;
      assert e.article in Articles(b);
      var j :| 0 <= j < |b| && Articles(b)[j] == e.article;
      GetAt(b, j);
    }
    forall e | e in b
      ensures e in a
    {
      var j :| 0 <= j < |b| && b[j] == e;
      GetAt(b, j);
      assert Articles(b)[j] == e.article;
      assert e.article in Articles(a);
      var i :| 0 <= i < |a| && Articles(a)[i] == e.article;
      GetAt(a, i);
    }
  }
}
