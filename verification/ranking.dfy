/** Ordering of scored entries. Python's `sorted(entries, key=score,
    reverse=True)` is a stable sort: entries with equal scores keep their input
    order. `SortDesc` is that sort, written as an insertion sort over pairs
    (payload, score); the lemmas below are what the rankers rely on. */
module Ranking {
  import opened Common

  /** Non-increasing in the score component. */
  ghost predicate SortedDesc<T>(s: seq<(T, real)>)
  {
    forall i, j :: 0 <= i < j < |s| ==> s[i].1 >= s[j].1
  }

  /** Puts `x` in front of the first entry whose score is not higher than its
      own: entries that tie with `x` stay behind it. */
  function Insert<T>(x: (T, real), l: seq<(T, real)>): (r: seq<(T, real)>)
    ensures |r| == |l| + 1
    ensures multiset(r) == multiset(l) + multiset{x}
    ensures r[0] == x || (|l| > 0 && r[0] == l[0])
  {
    if |l| == 0 then [x]
    else if x.1 >= l[0].1 then [x] + l
    else
      assert l == [l[0]] + l[1..];
      [l[0]] + Insert(x, l[1..])
  }

  lemma {:induction false} InsertSorted<T>(x: (T, real), l: seq<(T, real)>)
    requires SortedDesc(l)
    ensures SortedDesc(Insert(x, l))
  {
    if |l| > 0 && x.1 < l[0].1 {
      var rest := Insert(x, l[1..]);
      InsertSorted(x, l[1..]);
      assert rest[0].1 <= l[0].1;
      assert Insert(x, l) == [l[0]] + rest;
    }
  }

  /** Stable sort by descending score. */
  function SortDesc<T>(s: seq<(T, real)>): (r: seq<(T, real)>)
    ensures |r| == |s|
    ensures multiset(r) == multiset(s)
    ensures SortedDesc(r)
  {
    if |s| == 0 then []
    else
      assert s == [s[0]] + s[1..];
      InsertSorted(s[0], SortDesc(s[1..]));
      Insert(s[0], SortDesc(s[1..]))
  }

  /** The entries of `s` whose score is `v`, in their order in `s`. */
  function WithScore<T>(s: seq<(T, real)>, v: real): seq<(T, real)>
  {
    if |s| == 0 then []
    else if s[0].1 == v then [s[0]] + WithScore(s[1..], v)
    else WithScore(s[1..], v)
  }

  lemma WithScoreCons<T>(a: (T, real), t: seq<(T, real)>, v: real)
    ensures WithScore([a] + t, v) == if a.1 == v then [a] + WithScore(t, v) else WithScore(t, v)
  {
    assert ([a] + t)[0] == a && ([a] + t)[1..] == t;
  }

  /** Inserting `x` adds it to the entries of its own score, in front of
      them, and changes no other score's entries. */
  lemma {:induction false} InsertWithScore<T>(x: (T, real), l: seq<(T, real)>, v: real)
    ensures WithScore(Insert(x, l), v) == if x.1 == v then [x] + WithScore(l, v) else WithScore(l, v)
  {
    if |l| == 0 {
      assert l == [];
      assert Insert(x, l) == [x] + l;
      WithScoreCons(x, l, v);
    } else if x.1 >= l[0].1 {
      WithScoreCons(x, l, v);
    } else {
      var rest := Insert(x, l[1..]);
      InsertWithScore(x, l[1..], v);
      assert Insert(x, l) == [l[0]] + rest;
      WithScoreCons(l[0], rest, v);
    }
  }

  /** Stability: for every score value, the entries with that score appear in
      the output in the same order as in the input. */
  lemma {:induction false} SortDescStable<T>(s: seq<(T, real)>, v: real)
    ensures WithScore(SortDesc(s), v) == WithScore(s, v)
  {
    if |s| > 0 {
      SortDescStable(s[1..], v);
      InsertWithScore(s[0], SortDesc(s[1..]), v);
    }
  }

  /** Input that is already in non-increasing order comes out unchanged. */
  lemma {:induction false} SortDescOfSorted<T>(s: seq<(T, real)>)
    requires SortedDesc(s)
    ensures SortDesc(s) == s
  {
    if |s| > 0 {
      var t := s[1..];
      assert SortedDesc(t) by {
        forall i, j | 0 <= i < j < |t| ensures t[i].1 >= t[j].1 {
          assert t[i] == s[i + 1] && t[j] == s[j + 1];
        }
      }
      SortDescOfSorted(t);
      assert SortDesc(s) == Insert(s[0], t);
      assert Insert(s[0], t) == [s[0]] + t by {
        if |t| > 0 {
          assert t[0] == s[1];
        }
      }
      assert s == [s[0]] + t;
    }
  }

  /** The first output entry carries the highest score of the whole input. */
  lemma SortDescFirstIsMax<T>(s: seq<(T, real)>, i: nat)
    requires i < |s|
    ensures SortDesc(s)[0].1 >= s[i].1
  {
    var r := SortDesc(s);
    assert s[i] in multiset(s);
    assert s[i] in multiset(r);
    var j :| 0 <= j < |r| && r[j] == s[i];
  }

  /** The payloads of scored entries, in order. */
  function Keys<T>(s: seq<(T, real)>): (r: seq<T>)
    ensures |r| == |s| && forall i :: 0 <= i < |s| ==> r[i] == s[i].0
  {
    seq(|s|, i requires 0 <= i < |s| => s[i].0)
  }

  /** Every sorted entry is an entry of the input. */
  lemma SortDescMember<T>(s: seq<(T, real)>, i: nat)
    requires i < |s|
    ensures SortDesc(s)[i] in s
  {
    var r := SortDesc(s);
    assert r[i] in multiset(r);
  }

  /** Sorting keeps payloads unique when they were unique. */
  lemma SortDescKeysDistinct<T>(s: seq<(T, real)>)
    requires Distinct(Keys(s))
    ensures Distinct(Keys(SortDesc(s)))
  {
    var r := SortDesc(s);
    assert Distinct(s);
    PermutationKeepsDistinct(s, r);
    forall i, j | 0 <= i < j < |r| ensures r[i].0 != r[j].0 {
      SortDescMember(s, i);
      SortDescMember(s, j);
      var a :| 0 <= a < |s| && s[a] == r[i];
      var b :| 0 <= b < |s| && s[b] == r[j];
      assert a != b;
      assert Keys(s)[a] != Keys(s)[b];
    }
  }

  /** Every input entry appears in the sorted output. */
  lemma SortDescCovers<T>(s: seq<(T, real)>, i: nat)
    requires i < |s|
    ensures s[i] in SortDesc(s)
  {
    assert s[i] in multiset(s);
  }

  /** Filtering by score keeps prefixes: the entries with score `v` of a
      prefix are a prefix of those of the whole. */
  lemma {:induction false} WithScorePrefix<T>(a: seq<(T, real)>, b: seq<(T, real)>, v: real)
    requires a <= b
    ensures WithScore(a, v) <= WithScore(b, v)
  {
    if a != [] {
      assert a[1..] <= b[1..];
      WithScorePrefix(a[1..], b[1..], v);
    }
  }
}
