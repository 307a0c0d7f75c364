/**
 * `dict(collections.Counter(tokens))`, as used by
 * `TokenEncoder.compute_word_frequency` and by the duplicate checker's
 * `_to_vector`: each distinct token with its number of occurrences.  A Python
 * dict keeps insertion order, so the counts are modelled as an association
 * list in first-occurrence order.
 */
module Counter {

  datatype Entry = Entry(key: string, count: nat)

  type Counts = seq<Entry>

  function Keys(c: Counts): (ks: seq<string>)
    ensures |ks| == |c|
    ensures forall i :: 0 <= i < |c| ==> ks[i] == c[i].key
  {
    if c == [] then [] else [c[0].key] + Keys(c[1..])
  }

  /** No key is listed twice (a dict's keys are unique). */
  predicate DistinctKeys(c: Counts) {
    c == [] || (c[0].key !in Keys(c[1..]) && DistinctKeys(c[1..]))
  }

  predicate AllPositive(c: Counts) {
    forall i :: 0 <= i < |c| ==> c[i].count >= 1
  }

  /** `d.get(k, 0)`. */
  function Get(c: Counts, k: string): nat {
    if c == [] then 0 else if c[0].key == k then c[0].count else Get(c[1..], k)
  }

  /** Sum of all counts. */
  function Total(c: Counts): nat {
    if c == [] then 0 else c[0].count + Total(c[1..])
  }

  lemma {:induction false} GetAbsent(c: Counts, k: string)
    requires k !in Keys(c)
    ensures Get(c, k) == 0
  {
    if c != [] {
      assert Keys(c[1..]) == Keys(c)[1..];
      GetAbsent(c[1..], k);
    }
  }

  /** One more occurrence of `w`: its count goes up, or it is appended with count 1. */
  function Bump(c: Counts, w: string): (r: Counts)
    ensures forall v :: Get(r, v) == Get(c, v) + (if v == w then 1 else 0)
    ensures w in Keys(c) ==> Keys(r) == Keys(c)
    ensures w !in Keys(c) ==> Keys(r) == Keys(c) + [w]
  {
    if c == [] then [Entry(w, 1)]
    else if c[0].key == w then [Entry(w, c[0].count + 1)] + c[1..]
    else
      var rest := Bump(c[1..], w);
      assert Keys(c) == [c[0].key] + Keys(c[1..]);
      assert Keys([c[0]] + rest) == [c[0].key] + Keys(rest);
      [c[0]] + rest
  }

  lemma {:induction false} BumpTotal(c: Counts, w: string)
    ensures Total(Bump(c, w)) == Total(c) + 1
  {
    if c != [] && c[0].key != w {
      BumpTotal(c[1..], w);
    }
  }

  lemma {:induction false} BumpPositive(c: Counts, w: string)
    requires AllPositive(c)
    ensures AllPositive(Bump(c, w))
  {
    if c != [] && c[0].key != w {
      BumpPositive(c[1..], w);
    }
  }

  lemma {:induction false} BumpDistinct(c: Counts, w: string)
    requires DistinctKeys(c)
    ensures DistinctKeys(Bump(c, w))
  {
    if c != [] && c[0].key != w {
      BumpDistinct(c[1..], w);
      assert Bump(c, w)[1..] == Bump(c[1..], w);
    } else if c != [] {
      assert Bump(c, w)[1..] == c[1..];
    }
  }

  /** `dict(Counter(tokens))`: the tokens are counted left to right. */
  function Of(tokens: seq<string>): (c: Counts)
    ensures DistinctKeys(c) && AllPositive(c)
    ensures forall w :: Get(c, w) == multiset(tokens)[w]
    ensures forall w :: w in Keys(c) <==> w in tokens
    ensures Total(c) == |tokens|
  {
    if tokens == [] then []
    else
      var init := tokens[..|tokens| - 1];
      var last := tokens[|tokens| - 1];
      assert tokens == init + [last];
      BumpTotal(Of(init), last);
      BumpPositive(Of(init), last);
      BumpDistinct(Of(init), last);
      Bump(Of(init), last)
  }
}
