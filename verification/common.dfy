/** Shared vocabulary of the retrieval model: optional values, Python string
    primitives (substring test, lower(), whitespace, slicing, str() of a
    non-negative integer) and first-occurrence deduplication. */
module Common {

  datatype Option<+T> = None | Some(value: T)

  /** A value of a metadata dictionary as stored in the vector store:
      a string, an integer, a list of strings or Python's None. */
  datatype MetaValue = Str(s: string) | Int(i: int) | StrList(items: seq<string>) | Null

  type Metadata = map<string, MetaValue>

  /** `d.get(key, default)`. */
  function GetOr(d: Metadata, key: string, default: MetaValue): MetaValue
  {
    if key in d then d[key] else default
  }

  function Min(a: int, b: int): int { if a <= b then a else b }
  function Max(a: int, b: int): int { if a >= b then a else b }

  /** No element occurs twice. */
  ghost predicate Distinct<T>(s: seq<T>)
  {
    forall i, j :: 0 <= i < j < |s| ==> s[i] != s[j]
  }

  // ---------------------------------------------------------------------------
  // Substring containment (Python `sub in s`)
  // ---------------------------------------------------------------------------

  /** `sub` occurs in `s` starting at index `i`. */
  ghost predicate OccursAt(sub: string, s: string, i: int)
  {
    0 <= i && i + |sub| <= |s| && s[i..i + |sub|] == sub
  }

  /** Python's `sub in s`, computed by scanning the start positions. */
  predicate IsSubstring(sub: string, s: string)
    decreases |s|
  {
    sub <= s || (|s| > 0 && IsSubstring(sub, s[1..]))
  }

  /** An occurrence at any position is found by the scan. */
  lemma {:induction false} OccursAtIsSubstring(sub: string, s: string, i: int)
    requires OccursAt(sub, s, i)
    ensures IsSubstring(sub, s)
    decreases i
  {
    if i > 0 {
      assert s[1..][i - 1..i - 1 + |sub|] == s[i..i + |sub|];
      OccursAtIsSubstring(sub, s[1..], i - 1);
    }
  }

  /** The scan agrees with the positional definition, in both directions. */
  lemma {:induction false} IsSubstringIff(sub: string, s: string)
    ensures IsSubstring(sub, s) <==> exists i :: OccursAt(sub, s, i)
    decreases |s|
  {
    if sub <= s {
      assert OccursAt(sub, s, 0);
    } else if |s| > 0 {
      IsSubstringIff(sub, s[1..]);
      if IsSubstring(sub, s[1..]) {
        var i :| OccursAt(sub, s[1..], i);
        assert s[1..][i..i + |sub|] == s[i + 1..i + 1 + |sub|];
        assert OccursAt(sub, s, i + 1);
      }
    }
    if exists i :: OccursAt(sub, s, i) {
      var i :| OccursAt(sub, s, i);
      OccursAtIsSubstring(sub, s, i);
    }
  }

  /** The empty string occurs in every string. */
  lemma EmptyIsSubstring(s: string)
    ensures IsSubstring("", s)
  {
  }

  // ---------------------------------------------------------------------------
  // str.lower()
  // ---------------------------------------------------------------------------

  /** Upper-case letters that `lower()` maps one-to-one within Latin-1:
      A-Z and U+00C0..U+00DE except the multiplication sign U+00D7. */
  predicate IsUpperLatin1(c: char)
  {
    ('A' <= c <= 'Z') || ('À' <= c <= 'Þ' && c != '×')
  }

  function LowerChar(c: char): (r: char)
    ensures !IsUpperLatin1(r)
    ensures !IsUpperLatin1(c) ==> r == c
  {
    if IsUpperLatin1(c) then (c as int + 32) as char else c
  }

  /** `s.lower()` over the Latin-1 letters. */
  function Lower(s: string): (r: string)
    ensures |r| == |s|
    ensures forall i :: 0 <= i < |s| ==> r[i] == LowerChar(s[i])
  {
    seq(|s|, i requires 0 <= i < |s| => LowerChar(s[i]))
  }

  /** Lower-casing twice changes nothing more. */
  lemma LowerIdempotent(s: string)
    ensures Lower(Lower(s)) == Lower(s)
  {
  }

  /** Lower-casing keeps every occurrence: if `sub` occurs in `s`, then
      `sub.lower()` occurs in `s.lower()`. */
  lemma LowerKeepsSubstring(sub: string, s: string)
    requires IsSubstring(sub, s)
    ensures IsSubstring(Lower(sub), Lower(s))
  {
    IsSubstringIff(sub, s);
    var i :| OccursAt(sub, s, i);
    assert Lower(s)[i..i + |sub|] == Lower(sub);
    assert OccursAt(Lower(sub), Lower(s), i);
    IsSubstringIff(Lower(sub), Lower(s));
  }

  // ---------------------------------------------------------------------------
  // Whitespace (str.isspace, and `\s` of Python's `re` on str)
  // ---------------------------------------------------------------------------

  predicate IsSpace(c: char)
  {
    var n := c as int;
    (0x09 <= n <= 0x0D) || (0x1C <= n <= 0x20) || n == 0x85 || n == 0xA0
    || n == 0x1680 || (0x2000 <= n <= 0x200A) || n == 0x2028 || n == 0x2029
    || n == 0x202F || n == 0x205F || n == 0x3000
  }

  // ---------------------------------------------------------------------------
  // Python slicing `s[:n]`
  // ---------------------------------------------------------------------------

  /** `s[:n]`: the first `n` elements for `n >= 0`, and all but the last `-n`
      elements for negative `n`. */
  function SliceTo<T>(s: seq<T>, n: int): (r: seq<T>)
    ensures r <= s
    ensures |r| == if n >= 0 then Min(n, |s|) else Max(0, |s| + n)
  {
    if n >= 0 then (if n <= |s| then s[..n] else s)
    else if |s| + n >= 0 then s[..|s| + n] else []
  }

  /** Dividing by the same positive count keeps the order, and a part of
      the count divided by it is at most 1. */
  lemma RatioBounds(a: real, b: real, n: real)
    requires 0.0 <= a <= b <= n && n > 0.0
    ensures 0.0 <= a / n <= b / n <= 1.0
  {
    var inv := 1.0 / n;
    assert inv * n == 1.0;
    assert inv > 0.0;
    assert a / n == a * inv && b / n == b * inv;
    assert (b - a) * inv >= 0.0;
    assert (n - b) * inv >= 0.0;
  }

  /** A positive count divides to 1 exactly itself. */
  lemma RatioIsOne(c: real, n: real)
    requires n > 0.0
    ensures c / n == 1.0 <==> c == n
  {
    assert c / n * n == c;
  }

  lemma ConcatAssoc<T>(a: seq<T>, b: seq<T>, c: seq<T>)
    ensures a + (b + c) == a + b + c
  {
  }

  /** A larger non-negative bound cuts a longer prefix. (Across zero this
      fails: `s[:-1]` is longer than `s[:0]`.) */
  lemma SliceToMonotone<T>(s: seq<T>, n1: int, n2: int)
    requires 0 <= n1 <= n2
    ensures SliceTo(s, n1) <= SliceTo(s, n2)
  {
    var a := SliceTo(s, n1);
    var b := SliceTo(s, n2);
    assert |a| <= |b|;
    assert a == s[..|a|] && b == s[..|b|];
    assert a == b[..|a|];
  }

  /** A Python slice bound resolved against a length `n`: negative bounds
      count from the end, and every bound is clamped to `0..n`. */
  function PyIndex(i: int, n: nat): (r: nat)
    ensures r <= n
    ensures 0 <= i ==> r == Min(i, n)
  {
    if i < 0 then Max(0, n + i) else Min(i, n)
  }

  /** `s[lo:hi]`, empty when the resolved bounds cross. */
  function PySlice<T>(s: seq<T>, lo: int, hi: int): (r: seq<T>)
    ensures |r| == Max(0, PyIndex(hi, |s|) - PyIndex(lo, |s|))
    ensures forall k :: 0 <= k < |r| ==> r[k] == s[PyIndex(lo, |s|) + k]
  {
    var a := PyIndex(lo, |s|);
    var b := PyIndex(hi, |s|);
    if a < b then s[a..b] else []
  }

  /** `sep.join(parts)`. */
  function Join(parts: seq<string>, sep: string): (r: string)
    ensures parts == [] ==> r == ""
    ensures |parts| == 1 ==> r == parts[0]
  {
    if parts == [] then ""
    else if |parts| == 1 then parts[0]
    else Join(parts[..|parts| - 1], sep) + sep + parts[|parts| - 1]
  }

  /** Joining with one more part in front. */
  lemma {:induction false} JoinCons(w: string, ws: seq<string>, sep: string)
    ensures Join([w] + ws, sep) == if |ws| == 0 then w else w + sep + Join(ws, sep)
    decreases |ws|
  {
    if |ws| == 1 {
      assert ([w] + ws)[..1] == [w];
    } else if |ws| > 1 {
      var init := ws[..|ws| - 1];
      var last := ws[|ws| - 1];
      JoinCons(w, init, sep);
      assert ([w] + ws)[..|ws|] == [w] + init;
      assert Join([w] + ws, sep) == w + sep + Join(init, sep) + sep + last;
      assert Join(ws, sep) == Join(init, sep) + sep + last;
    } else {
      assert [w] + ws == [w];
    }
  }

  /** `"".join` with one more part in front is that part followed by the
      join of the others. */
  lemma ConcatCons(w: string, ws: seq<string>)
    ensures Join([w] + ws, "") == w + Join(ws, "")
  {
    JoinCons(w, ws, "");
    if |ws| == 0 {
      assert w + Join(ws, "") == w;
    } else {
      assert w + "" == w;
    }
  }

  // ---------------------------------------------------------------------------
  // First-occurrence deduplication (the key order of a Python dict or of
  // `dict.fromkeys`)
  // ---------------------------------------------------------------------------

  /** The distinct elements of `s`, each at the place it first occurs. */
  function Dedup<T(==)>(s: seq<T>): (r: seq<T>)
    ensures forall i :: 0 <= i < |s| ==> s[i] in r
    ensures forall i :: 0 <= i < |r| ==> r[i] in s
    ensures Distinct(r)
  {
    if s == [] then []
    else
      var d := Dedup(s[..|s| - 1]);
      if s[|s| - 1] in d then d else d + [s[|s| - 1]]
  }

  lemma DedupMember<T>(s: seq<T>, x: T)
    ensures x in Dedup(s) <==> x in s
  {
    if x in s {
      var i :| 0 <= i < |s| && s[i] == x;
    }
  }

  /** Index of the first occurrence of `x` in `s`. */
  function FirstIndex<T(==)>(s: seq<T>, x: T): (i: nat)
    requires x in s
    ensures i < |s| && s[i] == x
  {
    var p := s[..|s| - 1];
    if x in p then FirstIndex(p, x) else |s| - 1
  }

  /** No earlier position holds `x`. */
  lemma {:induction false} FirstIndexIsFirst<T>(s: seq<T>, x: T, j: nat)
    requires x in s && j < FirstIndex(s, x)
    ensures s[j] != x
  {
    var p := s[..|s| - 1];
    if x in p {
      FirstIndexIsFirst(p, x, j);
      assert s[j] == p[j];
    } else {
      assert s[j] == p[j];
    }
  }

  lemma {:induction false} FirstIndexOfPrefix<T>(s: seq<T>, n: nat, x: T)
    requires n <= |s| && x in s[..n]
    ensures FirstIndex(s, x) == FirstIndex(s[..n], x)
    decreases |s| - n
  {
    if n < |s| {
      var p := s[..|s| - 1];
      assert p[..n] == s[..n];
      assert x in p by {
        var k :| 0 <= k < n && s[..n][k] == x;
        assert p[k] == x;
      }
      FirstIndexOfPrefix(p, n, x);
    } else {
      assert s[..n] == s;
    }
  }

  /** A sequence without repetitions is its own deduplication. */
  lemma {:induction false} DedupOfDistinct<T>(s: seq<T>)
    requires Distinct(s)
    ensures Dedup(s) == s
  {
    if s != [] {
      var p := s[..|s| - 1];
      assert Distinct(p);
      DedupOfDistinct(p);
      assert s[|s| - 1] !in p;
      assert p + [s[|s| - 1]] == s;
    }
  }

  lemma FirstIndexOfFresh<T>(s: seq<T>)
    requires |s| > 0 && s[|s| - 1] !in s[..|s| - 1]
    ensures FirstIndex(s, s[|s| - 1]) == |s| - 1
  {
  }

  /** An element first seen before the last position comes before the last
      element when that one is new. */
  lemma FirstIndexBeforeFresh<T>(s: seq<T>, x: T)
    requires |s| > 0 && s[|s| - 1] !in s[..|s| - 1] && x in s[..|s| - 1]
    ensures FirstIndex(s, x) < FirstIndex(s, s[|s| - 1])
  {
    var p := s[..|s| - 1];
    FirstIndexOfPrefix(s, |s| - 1, x);
    assert FirstIndex(s, x) == FirstIndex(p, x) < |p|;
    FirstIndexOfFresh(s);
  }

  /** Deduplication lists the elements in the order of their first
      occurrence in `s`. */
  lemma {:induction false} DedupFirstOccurrenceOrder<T>(s: seq<T>, i: nat, j: nat)
    requires i < j < |Dedup(s)|
    ensures FirstIndex(s, Dedup(s)[i]) < FirstIndex(s, Dedup(s)[j])
  {
    assert s != [];
    var p := s[..|s| - 1];
    var d := Dedup(p);
    var r := Dedup(s);
    assert r == if s[|s| - 1] in d then d else d + [s[|s| - 1]];
    if j < |d| {
      var x, y := d[i], d[j];
      assert r[i] == x && r[j] == y;
      DedupFirstOccurrenceOrder(p, i, j);
      assert FirstIndex(p, x) < FirstIndex(p, y);
      FirstIndexOfPrefix(s, |s| - 1, x);
      FirstIndexOfPrefix(s, |s| - 1, y);
    } else {
      assert r[j] == s[|s| - 1] && r[j] !in p;
      assert r[i] == d[i] && d[i] in p;
      FirstIndexBeforeFresh(s, r[i]);
      assert FirstIndex(s, r[i]) < FirstIndex(s, r[j]);
    }
  }

  /** In a sequence without repetitions every element occurs at most once. */
  lemma {:induction false} DistinctCount<T>(s: seq<T>, x: T)
    requires Distinct(s)
    ensures multiset(s)[x] <= 1
  {
    if s != [] {
      assert s == [s[0]] + s[1..];
      DistinctCount(s[1..], x);
      assert x == s[0] ==> x !in s[1..];
    }
  }

  /** A rearrangement of a sequence without repetitions has none either. */
  lemma PermutationKeepsDistinct<T>(s: seq<T>, r: seq<T>)
    requires multiset(r) == multiset(s) && Distinct(s)
    ensures Distinct(r)
  {
    forall i, j | 0 <= i < j < |r| ensures r[i] != r[j] {
      var x := r[i];
      assert r == r[..j] + r[j..];
      assert r[..j][i] == x;
      assert multiset(r)[x] == multiset(r[..j])[x] + multiset(r[j..])[x];
      DistinctCount(s, x);
      assert multiset(r[j..])[x] == 0;
      assert r[j..][0] == r[j];
      assert r[j] in multiset(r[j..]);
    }
  }

  // ---------------------------------------------------------------------------
  // str() of a non-negative int
  // ---------------------------------------------------------------------------

  function DigitChar(d: nat): (c: char)
    requires d < 10
    ensures '0' <= c <= '9'
  {
    ('0' as int + d) as char
  }

  /** Decimal notation of `n`, without leading zeros. */
  function NatToString(n: nat): (r: string)
    ensures |r| > 0
    ensures forall c :: c in r ==> '0' <= c <= '9'
    decreases n
  {
    if n < 10 then [DigitChar(n)] else NatToString(n / 10) + [DigitChar(n % 10)]
  }

  lemma NatToStringLength(n: nat)
    ensures n >= 10 ==> |NatToString(n)| >= 2
  {
    if n >= 10 {
      assert |NatToString(n / 10)| > 0;
    }
  }

  /** Different numbers are written differently. */
  lemma {:induction false} NatToStringInjective(a: nat, b: nat)
    requires NatToString(a) == NatToString(b)
    ensures a == b
    decreases a
  {
    NatToStringLength(a);
    NatToStringLength(b);
    var s := NatToString(a);
    if a < 10 && b < 10 {
      assert s[0] == DigitChar(a) && s[0] == DigitChar(b);
    } else if a >= 10 && b >= 10 {
      assert s[|s| - 1] == DigitChar(a % 10) && s[|s| - 1] == DigitChar(b % 10);
      assert NatToString(a / 10) == s[..|s| - 1] == NatToString(b / 10);
      NatToStringInjective(a / 10, b / 10);
    }
  }
}
