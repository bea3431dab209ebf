/** Sequence helpers shared by the handlers: distinctness and first-seen de-duplication. */
module Collections {
  predicate Distinct<T(==)>(s: seq<T>)
  {
    forall i, j :: 0 <= i < j < |s| ==> s[i] != s[j]
  }

  /** Two different positions of a sequence without repeats hold different elements. */
  lemma {:induction false} DistinctAt<T>(s: seq<T>, i: nat, j: nat)
    requires Distinct(s) && i < |s| && j < |s| && i != j
    ensures s[i] != s[j]
  {
    if j < i {
      assert s[j] != s[i];
    }
  }

  /** The elements of `s` in first-seen order, each once: what a loop with a `seen` set appends. */
  function Dedup<T(==)>(s: seq<T>): (r: seq<T>)
    ensures Distinct(r)
    ensures forall i :: 0 <= i < |s| ==> s[i] in r
    ensures forall i :: 0 <= i < |r| ==> r[i] in s
    decreases |s|
  {
    if |s| == 0 then []
    else
      var d := Dedup(s[..|s| - 1]);
      assert forall i :: 0 <= i < |s| - 1 ==> s[i] == s[..|s| - 1][i];
      if s[|s| - 1] in d then d else d + [s[|s| - 1]]
  }

  /** One more element: appended when it is new, dropped when already seen. */
  lemma {:induction false} DedupSnoc<T>(s: seq<T>, x: T)
    ensures Dedup(s + [x]) == if x in Dedup(s) then Dedup(s) else Dedup(s) + [x]
  {
    assert (s + [x])[..|s|] == s;
  }

  /** The position of the first occurrence of `x` in `s`. */
  function FirstIndex<T(==)>(s: seq<T>, x: T): (i: nat)
    requires x in s
    ensures i < |s| && s[i] == x && x !in s[..i]
    decreases |s|
  {
    if s[0] == x then 0 else 1 + FirstIndex(s[1..], x)
  }

  lemma {:induction false} FirstIndexPrefix<T>(s: seq<T>, k: nat, x: T)
    requires k <= |s| && x in s[..k]
    ensures x in s && FirstIndex(s, x) == FirstIndex(s[..k], x)
  {
    var i := FirstIndex(s[..k], x);
    assert s[..k][..i] == s[..i];
    FirstIndexUnique(s, x, i);
  }

  lemma {:induction false} FirstIndexUnique<T>(s: seq<T>, x: T, i: nat)
    requires i < |s| && s[i] == x && x !in s[..i]
    ensures FirstIndex(s, x) == i
  {
  }

  /** De-duplication keeps the order in which elements are first seen. */
  lemma {:induction false} DedupFirstSeenOrder<T>(s: seq<T>)
    ensures forall i, j :: 0 <= i < j < |Dedup(s)| ==> FirstIndex(s, Dedup(s)[i]) < FirstIndex(s, Dedup(s)[j])
    decreases |s|
  {
    if |s| > 0 {
      var p := s[..|s| - 1];
      var last := s[|s| - 1];
      var d := Dedup(p);
      DedupFirstSeenOrder(p);
      forall x | x in p ensures FirstIndex(s, x) == FirstIndex(p, x) {
        FirstIndexPrefix(s, |s| - 1, x);
      }
      if last !in d {
        assert last !in p;
        assert s[..|s| - 1] == p;
        FirstIndexUnique(s, last, |s| - 1);
        forall i, j | 0 <= i < j < |Dedup(s)| ensures FirstIndex(s, Dedup(s)[i]) < FirstIndex(s, Dedup(s)[j]) {
          assert Dedup(s) == d + [last];
          if j < |d| {
            assert Dedup(s)[i] == d[i] && Dedup(s)[j] == d[j];
          } else {
            assert Dedup(s)[i] == d[i] && Dedup(s)[j] == last;
            assert d[i] in p;
          }
        }
      }
    }
  }

  /** A sequence without repeats is its own de-duplication. */
  lemma {:induction false} DedupDistinct<T>(s: seq<T>)
    requires Distinct(s)
    ensures Dedup(s) == s
    decreases |s|
  {
    if |s| > 0 {
      var p := s[..|s| - 1];
      DedupDistinct(p);
      assert s[|s| - 1] !in p;
      assert p + [s[|s| - 1]] == s;
    }
  }

  /** What is appended after `a` only sees `a` through its de-duplication. */
  lemma {:induction false} DedupCongruence<T>(a: seq<T>, b: seq<T>, rest: seq<T>)
    requires Dedup(a) == Dedup(b)
    ensures Dedup(a + rest) == Dedup(b + rest)
    decreases |rest|
  {
    if |rest| == 0 {
      assert a + rest == a && b + rest == b;
    } else {
      var q := rest[..|rest| - 1];
      var x := rest[|rest| - 1];
      DedupCongruence(a, b, q);
      SnocCongruence(a + q, b + q, x);
      LastSplit(rest);
      AppendAssoc(a, q, [x]);
      AppendAssoc(b, q, [x]);
    }
  }

  lemma {:induction false} LastSplit<T>(s: seq<T>)
    requires |s| > 0
    ensures s == s[..|s| - 1] + [s[|s| - 1]]
  {
  }

  /** Slices of a prefix are slices of the whole. */
  lemma {:induction false} SlicesOfPrefix<T>(s: seq<T>, i: nat, k: nat)
    requires i < k <= |s|
    ensures s[..k][..i] == s[..i] && s[..k][i + 1..] == s[i + 1..k]
  {
  }

  lemma {:induction false} WholePrefix<T>(s: seq<T>)
    ensures s[..|s|] == s
  {
  }

  lemma {:induction false} ConsShift<T>(x: T, ys: seq<T>)
    ensures ([x] + ys)[0] == x && forall k :: 1 <= k < |[x] + ys| ==> ([x] + ys)[k] == ys[k - 1]
  {
  }

  lemma {:induction false} AppendAssoc<T>(a: seq<T>, b: seq<T>, c: seq<T>)
    ensures a + (b + c) == (a + b) + c
  {
  }

  lemma {:induction false} SnocCongruence<T>(u: seq<T>, v: seq<T>, x: T)
    requires Dedup(u) == Dedup(v)
    ensures Dedup(u + [x]) == Dedup(v + [x])
  {
    DedupSnoc(u, x);
    DedupSnoc(v, x);
  }

  /** De-duplicating `a + rest` starts with the de-duplication of `a`. */
  lemma {:induction false} DedupPrefix<T>(a: seq<T>, rest: seq<T>)
    ensures |Dedup(a)| <= |Dedup(a + rest)| && Dedup(a + rest)[..|Dedup(a)|] == Dedup(a)
    decreases |rest|
  {
    if |rest| == 0 {
      assert a + rest == a;
    } else {
      var q := rest[..|rest| - 1];
      var x := rest[|rest| - 1];
      DedupPrefix(a, q);
      LastSplit(rest);
      AppendAssoc(a, q, [x]);
      SnocPrefix(a + q, x);
    }
  }

  lemma {:induction false} SnocPrefix<T>(u: seq<T>, x: T)
    ensures |Dedup(u)| <= |Dedup(u + [x])| && Dedup(u + [x])[..|Dedup(u)|] == Dedup(u)
  {
    DedupSnoc(u, x);
  }

  function Elements<T>(s: seq<T>): set<T>
  {
    set x | x in s
  }

  lemma {:induction false} DistinctCard<T>(s: seq<T>)
    requires Distinct(s)
    ensures |Elements(s)| == |s|
    decreases |s|
  {
    if |s| > 0 {
      var p := s[..|s| - 1];
      DistinctCard(p);
      assert Elements(s) == Elements(p) + {s[|s| - 1]};
      assert s[|s| - 1] !in p;
    }
  }

  lemma {:induction false} SubsetCard<T>(a: set<T>, b: set<T>)
    requires a <= b
    ensures |a| <= |b|
    decreases |a|
  {
    if a != {} {
      var x :| x in a;
      SubsetCard(a - {x}, b - {x});
    }
  }

  /** A de-duplication that contains every element of a repeat-free `t` is at least as long as `t`. */
  lemma {:induction false} DedupCovers<T>(s: seq<T>, t: seq<T>)
    requires Distinct(t) && forall i :: 0 <= i < |t| ==> t[i] in s
    ensures |Dedup(s)| >= |t|
  {
    DistinctCard(t);
    DistinctCard(Dedup(s));
    SubsetCard(Elements(t), Elements(Dedup(s)));
  }

  /** The elements of `s` that satisfy `p`, in order: what a list comprehension with a condition builds. */
  function FilterSeq<T>(s: seq<T>, p: T -> bool): seq<T>
    decreases |s|
  {
    if |s| == 0 then []
    else FilterSeq(s[..|s| - 1], p) + (if p(s[|s| - 1]) then [s[|s| - 1]] else [])
  }

  /** An element is kept exactly when it occurs in `s` and satisfies `p`. */
  lemma {:induction false} FilterSeqMembers<T>(s: seq<T>, p: T -> bool)
    ensures forall x :: x in FilterSeq(s, p) <==> x in s && p(x)
    decreases |s|
  {
    if |s| > 0 {
      LastSplit(s);
      FilterSeqMembers(s[..|s| - 1], p);
    }
  }

  /** Filtering a concatenation filters each side, keeping the order. */
  lemma {:induction false} FilterSeqAppend<T>(a: seq<T>, b: seq<T>, p: T -> bool)
    ensures FilterSeq(a + b, p) == FilterSeq(a, p) + FilterSeq(b, p)
    decreases |b|
  {
    if |b| == 0 {
      assert a + b == a;
    } else {
      var b' := b[..|b| - 1];
      assert (a + b)[..|a + b| - 1] == a + b';
      FilterSeqAppend(a, b', p);
    }
  }

  /** A sequence whose elements all satisfy `p` is its own filter. */
  lemma {:induction false} FilterSeqAll<T>(s: seq<T>, p: T -> bool)
    requires forall i :: 0 <= i < |s| ==> p(s[i])
    ensures FilterSeq(s, p) == s
    decreases |s|
  {
    if |s| > 0 {
      FilterSeqAll(s[..|s| - 1], p);
      LastSplit(s);
    }
  }

  /** A sequence none of whose elements satisfies `p` filters to nothing. */
  lemma {:induction false} FilterSeqNone<T>(s: seq<T>, p: T -> bool)
    requires forall i :: 0 <= i < |s| ==> !p(s[i])
    ensures FilterSeq(s, p) == []
    decreases |s|
  {
    if |s| > 0 {
      FilterSeqNone(s[..|s| - 1], p);
    }
  }

  /** Every element of a filter satisfies `p`. */
  lemma {:induction false} FilterSeqSatisfies<T>(s: seq<T>, p: T -> bool)
    ensures forall i :: 0 <= i < |FilterSeq(s, p)| ==> p(FilterSeq(s, p)[i])
    decreases |s|
  {
    if |s| > 0 {
      FilterSeqSatisfies(s[..|s| - 1], p);
    }
  }

  /** Filtering again changes nothing. */
  lemma {:induction false} FilterSeqTwice<T>(s: seq<T>, p: T -> bool)
    ensures FilterSeq(FilterSeq(s, p), p) == FilterSeq(s, p)
  {
    FilterSeqSatisfies(s, p);
    FilterSeqAll(FilterSeq(s, p), p);
  }

  /** A relation holding between ordered elements of `b` holds between them within `a + b`. */
  lemma {:induction false} OrderedAfter<T>(a: seq<T>, b: seq<T>, r: (T, T) -> bool)
    requires forall i, j :: 0 <= i < j < |b| ==> r(b[i], b[j])
    ensures forall i, j :: |a| <= i < j < |a + b| ==> r((a + b)[i], (a + b)[j])
  {
    forall i, j | |a| <= i < j < |a + b| ensures r((a + b)[i], (a + b)[j]) {
      assert (a + b)[i] == b[i - |a|] && (a + b)[j] == b[j - |a|];
    }
  }
}
