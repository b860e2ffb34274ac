/** Sequence helpers shared by the bandit and the item extractor. */
module Seqs {

  /** No element occurs twice. */
  predicate NoDup<T(==)>(s: seq<T>) {
    forall i, j :: 0 <= i < j < |s| ==> s[i] != s[j]
  }

  /** Position of the first occurrence of `x` in `s`. */
  function IndexOf<T(==)>(s: seq<T>, x: T): (i: nat)
    requires x in s
    ensures i < |s| && s[i] == x
    ensures forall j :: 0 <= j < i ==> s[j] != x
  {
    if s[0] == x then 0 else 1 + IndexOf(s[1..], x)
  }

  /** The two facts IndexOf promises pin the index down. */
  lemma IndexOfUnique<T>(s: seq<T>, x: T, i: nat)
    requires i < |s| && s[i] == x
    requires forall j :: 0 <= j < i ==> s[j] != x
    ensures IndexOf(s, x) == i
  {
  }

  /** Position of the last occurrence of `x` in `s`. */
  function LastIndexOf<T(==)>(s: seq<T>, x: T): (i: nat)
    requires x in s
    ensures i < |s| && s[i] == x
    ensures forall j :: i < j < |s| ==> s[j] != x
  {
    if s[|s| - 1] == x then |s| - 1 else LastIndexOf(s[..|s| - 1], x)
  }

  /** Appending does not move the first occurrence of an element already present. */
  lemma IndexOfSnoc<T>(s: seq<T>, y: T, x: T)
    requires x in s
    ensures x in s + [y] && IndexOf(s + [y], x) == IndexOf(s, x)
  {
    var i := IndexOf(s, x);
    assert (s + [y])[i] == x;
    forall j | 0 <= j < i ensures (s + [y])[j] != x {
      assert (s + [y])[j] == s[j];
    }
    IndexOfUnique(s + [y], x, i);
  }

  /**
   * The distinct elements of `s` in the order of their first occurrence:
   * the key order of a dictionary filled from `s`, and the rows a
   * "seen"-set filter lets through. Its properties are the lemmas below.
   */
  function Dedup<T(==)>(s: seq<T>): (r: seq<T>)
    ensures |r| <= |s|
  {
    if s == [] then []
    else
      var p := Dedup(s[..|s| - 1]);
      var last := s[|s| - 1];
      if last in p then p else p + [last]
  }

  /** Unfolding Dedup at the end of its input. */
  lemma DedupUnfold<T>(s: seq<T>, x: T)
    ensures Dedup(s + [x]) == if x in Dedup(s) then Dedup(s) else Dedup(s) + [x]
  {
    assert (s + [x])[..|s|] == s;
  }

  /** Dedup keeps exactly the elements of its input. */
  lemma {:induction false} DedupMembers<T>(s: seq<T>)
    ensures forall i :: 0 <= i < |Dedup(s)| ==> Dedup(s)[i] in s
    ensures forall i :: 0 <= i < |s| ==> s[i] in Dedup(s)
  {
    if s != [] {
      var init, last := s[..|s| - 1], s[|s| - 1];
      assert s == init + [last];
      DedupMembers(init);
      DedupUnfold(init, last);
    }
  }

  /** Appending `x`: Dedup keeps it only when it is new. */
  lemma DedupSnoc<T>(s: seq<T>, x: T)
    ensures Dedup(s + [x]) == if x in s then Dedup(s) else Dedup(s) + [x]
  {
    DedupUnfold(s, x);
    DedupMembers(s);
    if x in s {
      assert s[IndexOf(s, x)] in Dedup(s);
    }
    if x in Dedup(s) {
      assert Dedup(s)[IndexOf(Dedup(s), x)] in s;
    }
  }

  /** Nothing is kept twice. */
  lemma {:induction false} DedupNoDup<T>(s: seq<T>)
    ensures NoDup(Dedup(s))
  {
    if s != [] {
      var init, last := s[..|s| - 1], s[|s| - 1];
      assert s == init + [last];
      DedupNoDup(init);
      DedupUnfold(init, last);
    }
  }

  /** What is kept appears in the order of its first occurrence in the input. */
  lemma {:induction false} DedupOrder<T>(s: seq<T>, i: nat, j: nat)
    requires i < j < |Dedup(s)|
    ensures Dedup(s)[i] in s && Dedup(s)[j] in s && IndexOf(s, Dedup(s)[i]) < IndexOf(s, Dedup(s)[j])
  {
    var init, last := s[..|s| - 1], s[|s| - 1];
    assert s == init + [last];
    DedupSnoc(init, last);
    DedupMembers(init);
    var p := Dedup(init);
    assert p[i] in init;
    IndexOfSnoc(init, last, p[i]);
    if j < |p| {
      DedupOrder(init, i, j);
      IndexOfSnoc(init, last, p[j]);
    } else {
      IndexOfUnique(s, last, |s| - 1);
    }
  }

  /** Dedup of a longer input only appends: what a prefix kept stays in front. */
  lemma {:induction false} DedupPrefix<T>(s: seq<T>, n: nat)
    requires n <= |s|
    ensures |Dedup(s[..n])| <= |Dedup(s)|
    ensures Dedup(s[..n]) == Dedup(s)[..|Dedup(s[..n])|]
  {
    if n < |s| {
      var init, last := s[..|s| - 1], s[|s| - 1];
      assert s == init + [last];
      assert s[..n] == init[..n];
      DedupPrefix(init, n);
      DedupUnfold(init, last);
    } else {
      assert s[..n] == s;
    }
  }

  /** Number of occurrences of `x` in `s`. */
  function Count<T(==)>(s: seq<T>, x: T): nat {
    if s == [] then 0 else Count(s[..|s| - 1], x) + (if s[|s| - 1] == x then 1 else 0)
  }

  lemma {:induction false} CountConcat<T>(s: seq<T>, t: seq<T>, x: T)
    ensures Count(s + t, x) == Count(s, x) + Count(t, x)
  {
    if t != [] {
      var u := t[..|t| - 1];
      assert (s + t)[..|s + t| - 1] == s + u;
      CountConcat(s, u, x);
    } else {
      assert s + t == s;
    }
  }

  lemma {:induction false} CountZero<T>(s: seq<T>, x: T)
    ensures Count(s, x) == 0 <==> x !in s
  {
    if s != [] {
      var u := s[..|s| - 1];
      assert s == u + [s[|s| - 1]];
      CountZero(u, x);
    }
  }

  /** In a sequence without duplicates an element occurs exactly once. */
  lemma {:induction false} NoDupCount<T>(s: seq<T>, x: T)
    requires NoDup(s)
    ensures Count(s, x) == if x in s then 1 else 0
  {
    if s != [] {
      var u := s[..|s| - 1];
      var last := s[|s| - 1];
      assert s == u + [last];
      assert NoDup(u);
      NoDupCount(u, x);
      CountZero(u, x);
    }
  }
}
