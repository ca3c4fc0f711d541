/** The lexical normaliser whose output BM25 tokenises (`limpiar_texto_basico`),
    `str.split()`, and the joining of page text with extracted tables
    (`combinar_texto_y_tablas`). */
module TextUtils {
  import opened Common

  predicate IsDigit(c: char) { '0' <= c <= '9' }

  /** The accented lower-case letters of the class: á é í ó ú ñ ü. */
  predicate IsAccented(c: char)
  {
    c == 'á' || c == 'é' || c == 'í' || c == 'ó' || c == 'ú' || c == 'ñ' || c == 'ü'
  }

  /** The character class `[a-záéíóúñü\s0-9]` kept by the symbol filter. */
  predicate IsKept(c: char)
  {
    ('a' <= c <= 'z') || IsAccented(c) || IsSpace(c) || IsDigit(c)
  }

  /** Characters of a normalised string: ASCII lower-case letters, digits and
      the plain space. */
  predicate IsPlain(c: char)
  {
    ('a' <= c <= 'z') || IsDigit(c) || c == ' '
  }

  // ---------------------------------------------------------------------------
  // The characters a text keeps
  // ---------------------------------------------------------------------------

  /** The characters of `s` that satisfy `keep`, in order. */
  function Filter(s: string, keep: char -> bool): (r: string)
    ensures |r| <= |s|
    ensures forall i :: 0 <= i < |r| ==> keep(r[i])
  {
    if |s| == 0 then []
    else if keep(s[0]) then [s[0]] + Filter(s[1..], keep)
    else Filter(s[1..], keep)
  }

  lemma {:induction false} FilterAppend(a: string, b: string, keep: char -> bool)
    ensures Filter(a + b, keep) == Filter(a, keep) + Filter(b, keep)
  {
    if |a| > 0 {
      assert (a + b)[0] == a[0] && (a + b)[1..] == a[1..] + b;
      FilterAppend(a[1..], b, keep);
      if keep(a[0]) {
        assert Filter(a + b, keep) == [a[0]] + (Filter(a[1..], keep) + Filter(b, keep));
      }
    } else {
      assert a + b == b;
    }
  }

  /** Text whose every character is kept is its own filter. */
  lemma {:induction false} FilterAll(s: string, keep: char -> bool)
    requires forall i :: 0 <= i < |s| ==> keep(s[i])
    ensures Filter(s, keep) == s
  {
    if |s| > 0 {
      FilterAll(s[1..], keep);
      assert s == [s[0]] + s[1..];
    }
  }

  /** Two tests that agree on every character keep the same characters. */
  lemma {:induction false} FilterSame(s: string, keep1: char -> bool, keep2: char -> bool)
    requires forall c :: keep1(c) == keep2(c)
    ensures Filter(s, keep1) == Filter(s, keep2)
  {
    if |s| > 0 {
      FilterSame(s[1..], keep1, keep2);
    }
  }

  /** The characters that survive a substitution of the class `p`: those
      outside the class, other than the space the substitution writes. */
  function Outside(p: char -> bool): char -> bool
  {
    c => !p(c) && c != ' '
  }

  // ---------------------------------------------------------------------------
  // Regular-expression substitutions
  // ---------------------------------------------------------------------------

  function DropWhile(s: string, p: char -> bool): (r: string)
    ensures |r| <= |s| && r == s[|s| - |r|..]
    ensures |r| == 0 || !p(r[0])
  {
    if |s| > 0 && p(s[0]) then DropWhile(s[1..], p) else s
  }

  /** `re.sub(P+, ' ', s)`: every maximal run of characters satisfying `p`
      becomes one space; every other character is kept. */
  function ReplaceRuns(s: string, p: char -> bool): (r: string)
    ensures forall i :: 0 <= i < |r| ==> !p(r[i]) || r[i] == ' '
    decreases |s|
  {
    if |s| == 0 then []
    else if p(s[0]) then [' '] + ReplaceRuns(DropWhile(s[1..], p), p)
    else [s[0]] + ReplaceRuns(s[1..], p)
  }

  /** The characters outside the class, other than the space, survive the
      substitution, all of them and in order. */
  lemma {:induction false} ReplaceRunsOutside(s: string, p: char -> bool)
    ensures Filter(ReplaceRuns(s, p), Outside(p)) == Filter(s, Outside(p))
    decreases |s|
  {
    if |s| > 0 {
      if p(s[0]) {
        var d := DropWhile(s[1..], p);
        DropWhileFilter(s[1..], p);
        ReplaceRunsOutside(d, p);
        var r := ReplaceRuns(d, p);
        assert ([' '] + r)[0] == ' ' && ([' '] + r)[1..] == r;
      } else {
        ReplaceRunsOutside(s[1..], p);
        var r := ReplaceRuns(s[1..], p);
        assert ([s[0]] + r)[0] == s[0] && ([s[0]] + r)[1..] == r;
      }
    }
  }

  /** Dropping a run of the class loses no character outside it. */
  lemma {:induction false} DropWhileFilter(s: string, p: char -> bool)
    ensures Filter(DropWhile(s, p), Outside(p)) == Filter(s, Outside(p))
  {
    if |s| > 0 && p(s[0]) {
      DropWhileFilter(s[1..], p);
    }
  }

  /** A run of the class is dropped whole, up to what follows it. */
  lemma {:induction false} DropWhileRun(run: string, b: string, p: char -> bool)
    requires forall i :: 0 <= i < |run| ==> p(run[i])
    requires |b| == 0 || !p(b[0])
    ensures DropWhile(run + b, p) == b
  {
    if |run| > 0 {
      assert (run + b)[1..] == run[1..] + b;
      DropWhileRun(run[1..], b, p);
    } else {
      assert run + b == b;
    }
  }

  /** Dropping stops inside `a` when `a` has a character outside the class. */
  lemma {:induction false} DropWhileAppend(a: string, b: string, p: char -> bool)
    requires |DropWhile(a, p)| > 0
    ensures DropWhile(a + b, p) == DropWhile(a, p) + b
  {
    if p(a[0]) {
      assert (a + b)[1..] == a[1..] + b;
      DropWhileAppend(a[1..], b, p);
    } else {
      assert (a + b)[0] == a[0];
    }
  }

  /** One step of the substitution on a text that starts with the class. */
  lemma ReplaceRunsAtRun(s: string, p: char -> bool)
    requires |s| > 0 && p(s[0])
    ensures ReplaceRuns(s, p) == [' '] + ReplaceRuns(DropWhile(s[1..], p), p)
  {
  }

  /** One step of the substitution on a text that starts outside the class. */
  lemma ReplaceRunsAtOther(s: string, p: char -> bool)
    requires |s| > 0 && !p(s[0])
    ensures ReplaceRuns(s, p) == [s[0]] + ReplaceRuns(s[1..], p)
  {
  }

  /** Each maximal run of the class becomes exactly one space: the text
      before the run and the text after it are substituted on their own.
      With `ReplaceRunsFixed`, which leaves text without the class unchanged,
      this determines the substitution. */
  lemma ReplaceRunsRun(a: string, run: string, b: string, p: char -> bool)
    requires |a| == 0 || !p(a[|a| - 1])
    requires |run| > 0 && forall i :: 0 <= i < |run| ==> p(run[i])
    requires |b| == 0 || !p(b[0])
    ensures ReplaceRuns(a + run + b, p) == ReplaceRuns(a, p) + [' '] + ReplaceRuns(b, p)
  {
    var c := run + b;
    assert |c| > 0 && p(c[0]);
    ReplaceRunsBoundary(a, c, p);
    RunThenRest(run, b, p);
    ConcatAssoc(a, run, b);
    ConcatAssoc(ReplaceRuns(a, p), [' '], ReplaceRuns(b, p));
  }

  /** Where `a` ends outside the class and `c` starts inside it, the two are
      substituted on their own. */
  lemma {:induction false} ReplaceRunsBoundary(a: string, c: string, p: char -> bool)
    requires |a| == 0 || !p(a[|a| - 1])
    requires |c| > 0 && p(c[0])
    ensures ReplaceRuns(a + c, p) == ReplaceRuns(a, p) + ReplaceRuns(c, p)
    decreases |a|
  {
    if |a| == 0 {
      assert a + c == c;
    } else if p(a[0]) {
      var d := DropWhile(a[1..], p);
      DropWhileKeepsLast(a[1..], p);
      ReplaceRunsBoundary(d, c, p);
      RunStep(a, c, d, p);
    } else {
      var t := a[1..];
      assert |t| == 0 || t[|t| - 1] == a[|a| - 1];
      ReplaceRunsBoundary(t, c, p);
      OtherStep(a, c, p);
    }
  }

  /** Dropping a run stops before a last character outside the class. */
  lemma DropWhileKeepsLast(x: string, p: char -> bool)
    requires |x| > 0 && !p(x[|x| - 1])
    ensures var d := DropWhile(x, p); |d| > 0 && d[|d| - 1] == x[|x| - 1]
  {
    DropWhileDrops(x, p);
    if |DropWhile(x, p)| == 0 {
      assert false;
    }
  }

  /** The step for a text `a` that starts with the class: its leading run is
      dropped inside `a`. */
  lemma RunStep(a: string, c: string, d: string, p: char -> bool)
    requires |a| > 0 && p(a[0]) && d == DropWhile(a[1..], p) && |d| > 0
    requires ReplaceRuns(d + c, p) == ReplaceRuns(d, p) + ReplaceRuns(c, p)
    ensures ReplaceRuns(a + c, p) == ReplaceRuns(a, p) + ReplaceRuns(c, p)
  {
    LeadingRun(a, c, p);
    ReplaceRunsAtRun(a + c, p);
    ReplaceRunsAtRun(a, p);
    ConcatAssoc([' '], ReplaceRuns(d, p), ReplaceRuns(c, p));
  }


  /** The step for a text `a` that starts outside the class. */
  lemma OtherStep(a: string, c: string, p: char -> bool)
    requires |a| > 0 && !p(a[0])
    requires ReplaceRuns(a[1..] + c, p) == ReplaceRuns(a[1..], p) + ReplaceRuns(c, p)
    ensures ReplaceRuns(a + c, p) == ReplaceRuns(a, p) + ReplaceRuns(c, p)
  {
    var s := a + c;
    assert s[0] == a[0] && s[1..] == a[1..] + c;
    ReplaceRunsAtOther(s, p);
    ReplaceRunsAtOther(a, p);
    ConcatAssoc([a[0]], ReplaceRuns(a[1..], p), ReplaceRuns(c, p));
  }



  /** A run followed by text outside the class becomes one space and that
      text's substitution. */
  lemma RunThenRest(run: string, b: string, p: char -> bool)
    requires |run| > 0 && forall i :: 0 <= i < |run| ==> p(run[i])
    requires |b| == 0 || !p(b[0])
    ensures ReplaceRuns(run + b, p) == [' '] + ReplaceRuns(b, p)
  {
    var s := run + b;
    assert s[0] == run[0] && s[1..] == run[1..] + b;
    DropWhileRun(run[1..], b, p);
    ReplaceRunsAtRun(s, p);
  }

  /** A leading run of `a`, which ends outside the class, is dropped inside
      `a`. */
  lemma LeadingRun(a: string, c: string, p: char -> bool)
    requires |a| > 0 && p(a[0]) && |DropWhile(a[1..], p)| > 0
    ensures var s := a + c;
      |s| > 0 && p(s[0]) && DropWhile(s[1..], p) == DropWhile(a[1..], p) + c
  {
    var s := a + c;
    assert s[0] == a[0] && s[1..] == a[1..] + c;
    DropWhileAppend(a[1..], c, p);
  }

  /** A property that holds of the space and of every character of `s`
      holds of every output character. */
  lemma {:induction false} ReplaceRunsKeeps(s: string, p: char -> bool, P: char -> bool)
    requires P(' ') && forall i :: 0 <= i < |s| ==> P(s[i])
    ensures forall i :: 0 <= i < |ReplaceRuns(s, p)| ==> P(ReplaceRuns(s, p)[i])
    decreases |s|
  {
    if |s| > 0 {
      var t := if p(s[0]) then DropWhile(s[1..], p) else s[1..];
      SuffixKeeps(s, t, P);
      ReplaceRunsKeeps(t, p, P);
      var head := if p(s[0]) then ' ' else s[0];
      ConsKeeps(head, ReplaceRuns(t, p), P);
    }
  }

  /** A property of every character of `s` holds of every character of a
      suffix of `s`. */
  lemma SuffixKeeps(s: string, t: string, P: char -> bool)
    requires |t| <= |s| && t == s[|s| - |t|..]
    requires forall i :: 0 <= i < |s| ==> P(s[i])
    ensures forall j :: 0 <= j < |t| ==> P(t[j])
  {
    forall j | 0 <= j < |t| ensures P(t[j]) {
      assert t[j] == s[|s| - |t| + j];
    }
  }

  /** A property of `c` and of every character of `t` holds of every
      character of `[c] + t`. */
  lemma ConsKeeps(c: char, t: string, P: char -> bool)
    requires P(c) && forall j :: 0 <= j < |t| ==> P(t[j])
    ensures forall i :: 0 <= i < |[c] + t| ==> P(([c] + t)[i])
  {
  }

  /** A leading character outside the class is kept as the first output
      character. */
  lemma ReplaceRunsHead(s: string, p: char -> bool)
    requires |s| > 0 && !p(s[0])
    ensures |ReplaceRuns(s, p)| > 0 && ReplaceRuns(s, p)[0] == s[0]
  {
  }

  /** No two adjacent plain spaces. */
  ghost predicate NoDoubleSpace(s: string)
  {
    forall i :: 0 <= i < |s| - 1 ==> !(s[i] == ' ' && s[i + 1] == ' ')
  }

  /** When the space itself belongs to the class, the output never holds two
      spaces in a row. */
  lemma {:induction false} ReplaceRunsNoDoubleSpace(s: string, p: char -> bool)
    requires p(' ')
    ensures NoDoubleSpace(ReplaceRuns(s, p))
    decreases |s|
  {
    if |s| > 0 {
      if p(s[0]) {
        var d := DropWhile(s[1..], p);
        ReplaceRunsNoDoubleSpace(d, p);
        if |d| > 0 {
          ReplaceRunsHead(d, p);
        }
      } else {
        ReplaceRunsNoDoubleSpace(s[1..], p);
      }
    }
  }

  /** `re.sub(r'[^a-záéíóúñü\s0-9]', ' ', s)`: every character outside the
      class becomes a space, one for one. */
  function ReplaceSymbols(s: string): (r: string)
    ensures |r| == |s|
    ensures forall i :: 0 <= i < |s| ==> r[i] == (if IsKept(s[i]) then s[i] else ' ')
    ensures forall i :: 0 <= i < |r| ==> IsKept(r[i])
  {
    seq(|s|, i requires 0 <= i < |s| => if IsKept(s[i]) then s[i] else ' ')
  }

  function LStrip(s: string): (r: string)
    ensures |r| <= |s| && r == s[|s| - |r|..]
    ensures |r| == 0 || !IsSpace(r[0])
  {
    if |s| > 0 && IsSpace(s[0]) then LStrip(s[1..]) else s
  }

  function RStrip(s: string): (r: string)
    ensures |r| <= |s| && r == s[..|r|]
    ensures |r| == 0 || !IsSpace(r[|r| - 1])
  {
    if |s| > 0 && IsSpace(s[|s| - 1]) then RStrip(s[..|s| - 1]) else s
  }

  /** A text that reads `s` from position `a` on keeps `s` free of double
      spaces. */
  lemma InfixNoDoubleSpace(s: string, a: nat, r: string)
    requires a + |r| <= |s|
    requires forall i :: 0 <= i < |r| ==> r[i] == s[a + i]
    ensures NoDoubleSpace(s) ==> NoDoubleSpace(r)
  {
    if NoDoubleSpace(s) {
      forall i | 0 <= i < |r| - 1 ensures !(r[i] == ' ' && r[i + 1] == ' ') {
        assert r[i] == s[a + i] && r[i + 1] == s[a + i + 1];
      }
    }
  }

  /** `r` is the slice of `s` that starts at `a`. */
  predicate SliceAt(r: string, s: string, a: int)
  {
    0 <= a <= |s| - |r| && r == s[a..a + |r|]
  }

  /** `s.strip()`: `s` without surrounding whitespace. The result is a slice
      of `s` holding all of its non-whitespace characters, in order, so only
      whitespace at the two ends is removed. */
  function Strip(s: string): (r: string)
    ensures |r| == 0 || (!IsSpace(r[0]) && !IsSpace(r[|r| - 1]))
    ensures NoDoubleSpace(s) ==> NoDoubleSpace(r)
    ensures exists a :: SliceAt(r, s, a)
    ensures Filter(r, NotSpace) == Filter(s, NotSpace)
  {
    StripInfix(s, LStrip(s));
    LStripFilter(s);
    RStripFilter(LStrip(s));
    RStrip(LStrip(s))
  }

  /** Stripping the start loses no non-whitespace character. */
  lemma {:induction false} LStripFilter(s: string)
    ensures Filter(LStrip(s), NotSpace) == Filter(s, NotSpace)
  {
    if |s| > 0 && IsSpace(s[0]) {
      LStripFilter(s[1..]);
    }
  }

  /** Stripping the end loses no non-whitespace character. */
  lemma {:induction false} RStripFilter(s: string)
    ensures Filter(RStrip(s), NotSpace) == Filter(s, NotSpace)
  {
    if |s| > 0 && IsSpace(s[|s| - 1]) {
      var init := s[..|s| - 1];
      var last := [s[|s| - 1]];
      RStripFilter(init);
      assert s == init + last;
      FilterAppend(init, last, NotSpace);
      assert last[1..] == [];
      assert Filter(last, NotSpace) == [];
    }
  }

  /** A text without any non-whitespace character strips to nothing, and
      only such a text does. */
  lemma {:induction false} LStripEmpty(s: string)
    ensures |LStrip(s)| == 0 <==> forall i :: 0 <= i < |s| ==> IsSpace(s[i])
  {
    if |s| > 0 && IsSpace(s[0]) {
      LStripEmpty(s[1..]);
      assert forall i :: 1 <= i < |s| ==> s[i] == s[1..][i - 1];
    }
  }

  /** Stripping the end of a suffix of `s` leaves an infix of `s`. */
  lemma StripInfix(s: string, l: string)
    requires |l| <= |s| && l == s[|s| - |l|..]
    ensures |RStrip(l)| <= |l|
    ensures forall i :: 0 <= i < |RStrip(l)| ==> RStrip(l)[i] == s[|s| - |l| + i]
    ensures NoDoubleSpace(s) ==> NoDoubleSpace(RStrip(l))
    ensures SliceAt(RStrip(l), s, |s| - |l|)
  {
    var r := RStrip(l);
    var a := |s| - |l|;
    forall i | 0 <= i < |r| ensures r[i] == s[a + i] {
      assert r[i] == l[i];
    }
    InfixNoDoubleSpace(s, a, r);
  }

  /** A property of every character of `s` holds of every character of
      `s.strip()`. */
  lemma StripKeeps(s: string, P: char -> bool)
    requires forall i :: 0 <= i < |s| ==> P(s[i])
    ensures forall i :: 0 <= i < |Strip(s)| ==> P(Strip(s)[i])
  {
    StripInfix(s, LStrip(s));
  }

  /** The only whitespace a character may be is the plain space. */
  predicate PlainSpace(c: char) { IsSpace(c) ==> c == ' ' }

  /** `re.sub(r'\s+', ' ', s).strip()`: no whitespace at either end, the
      plain space as the only whitespace, and never two spaces in a row.
      Only whitespace changes: the non-whitespace characters are those of
      `s`, in order. */
  function Collapse(s: string): (r: string)
    ensures |r| == 0 || (!IsSpace(r[0]) && !IsSpace(r[|r| - 1]))
    ensures forall i :: 0 <= i < |r| ==> PlainSpace(r[i])
    ensures NoDoubleSpace(r)
    ensures Filter(r, NotSpace) == Filter(s, NotSpace)
  {
    CollapseSpaces(s, ReplaceRuns(s, IsSpace));
    CollapseText(s);
    Strip(ReplaceRuns(s, IsSpace))
  }

  /** The whitespace substitution keeps every non-whitespace character. */
  lemma CollapseText(s: string)
    ensures Filter(ReplaceRuns(s, IsSpace), NotSpace) == Filter(s, NotSpace)
  {
    ReplaceRunsOutside(s, IsSpace);
    assert forall c :: Outside(IsSpace)(c) == NotSpace(c) by {
      assert IsSpace(' ');
    }
    FilterSame(ReplaceRuns(s, IsSpace), Outside(IsSpace), NotSpace);
    FilterSame(s, Outside(IsSpace), NotSpace);
  }

  lemma CollapseSpaces(s: string, c: string)
    requires c == ReplaceRuns(s, IsSpace)
    ensures forall i :: 0 <= i < |Strip(c)| ==> PlainSpace(Strip(c)[i])
    ensures NoDoubleSpace(Strip(c))
  {
    assert forall i :: 0 <= i < |c| ==> PlainSpace(c[i]);
    StripKeeps(c, PlainSpace);
    assert IsSpace(' ');
    ReplaceRunsNoDoubleSpace(s, IsSpace);
  }

  /** Collapsing introduces no character but the space: a property of the
      space and of every character of `s` holds of every output character. */
  lemma CollapseKeeps(s: string, P: char -> bool)
    requires P(' ') && forall i :: 0 <= i < |s| ==> P(s[i])
    ensures forall i :: 0 <= i < |Collapse(s)| ==> P(Collapse(s)[i])
  {
    ReplaceRunsKeeps(s, IsSpace, P);
    StripKeeps(ReplaceRuns(s, IsSpace), P);
  }

  // ---------------------------------------------------------------------------
  // Accent removal: NFD decomposition followed by dropping combining marks
  // ---------------------------------------------------------------------------

  /** Combining diacritical marks (Unicode category Mn, U+0300..U+036F). */
  predicate IsCombiningMark(c: char)
  {
    0x300 <= c as int <= 0x36F
  }

  /** The base letter NFD leaves for a precomposed Latin-1 letter. */
  function BaseLetter(c: char): (b: char)
    ensures (b == ' ') == (c == ' ')
    ensures IsDigit(b) == IsDigit(c)
    ensures 'a' <= c <= 'z' ==> b == c
    ensures IsAccented(c) ==> 'a' <= b <= 'z'
  {
    var n := c as int;
    if 0xC0 <= n <= 0xC5 then 'A'
    else if n == 0xC7 then 'C'
    else if 0xC8 <= n <= 0xCB then 'E'
    else if 0xCC <= n <= 0xCF then 'I'
    else if n == 0xD1 then 'N'
    else if 0xD2 <= n <= 0xD6 then 'O'
    else if 0xD9 <= n <= 0xDC then 'U'
    else if n == 0xDD then 'Y'
    else if 0xE0 <= n <= 0xE5 then 'a'
    else if n == 0xE7 then 'c'
    else if 0xE8 <= n <= 0xEB then 'e'
    else if 0xEC <= n <= 0xEF then 'i'
    else if n == 0xF1 then 'n'
    else if 0xF2 <= n <= 0xF6 then 'o'
    else if 0xF9 <= n <= 0xFC then 'u'
    else if n == 0xFD || n == 0xFF then 'y'
    else c
  }

  predicate NotMark(c: char) { !IsCombiningMark(c) }

  /** `''.join(c for c in normalize('NFD', s) if category(c) != 'Mn')`: the
      combining marks are dropped, and every other character becomes its
      base letter, in order. */
  function StripAccents(s: string): (r: string)
    ensures var u := Filter(s, NotMark);
      |r| == |u| && forall i :: 0 <= i < |u| ==> r[i] == BaseLetter(u[i])
    ensures (forall i :: 0 <= i < |s| ==> !IsCombiningMark(s[i])) ==>
              |r| == |s| && forall i :: 0 <= i < |s| ==> r[i] == BaseLetter(s[i])
  {
    if |s| == 0 then []
    else
      var rest := StripAccents(s[1..]);
      if IsCombiningMark(s[0]) then rest else [BaseLetter(s[0])] + rest
  }

  // ---------------------------------------------------------------------------
  // limpiar_texto_basico
  // ---------------------------------------------------------------------------

  /** The stages of the normaliser, in order: lower-case, digit runs to a
      space, symbols to spaces, whitespace runs to one space and strip, then
      accents removed. */
  function CleanBasic(texto: string, minusculas: bool, quitarNumeros: bool, quitarSimbolos: bool): string
  {
    var t2 := LowerAndDigits(texto, minusculas, quitarNumeros);
    var t3 := if quitarSimbolos then ReplaceSymbols(t2) else t2;
    StripAccents(Collapse(t3))
  }

  /** The first two stages: optional lower-casing, then optional digit runs
      to a space. */
  function LowerAndDigits(texto: string, minusculas: bool, quitarNumeros: bool): string
  {
    var t1 := if minusculas then Lower(texto) else texto;
    if quitarNumeros then ReplaceRuns(t1, IsDigit) else t1
  }

  /** The normaliser with its default flags, as BM25 calls it. */
  function CleanDefault(texto: string): string
  {
    CleanBasic(texto, true, false, true)
  }

  /** Kept characters, with plain spaces as the only whitespace. */
  ghost predicate KeptAndSpaced(s: string)
  {
    forall i :: 0 <= i < |s| ==> IsKept(s[i]) && PlainSpace(s[i])
  }

  /** Collapsing kept characters leaves kept characters, spaced by plain
      spaces only. */
  lemma CollapseKept(s: string)
    requires forall i :: 0 <= i < |s| ==> IsKept(s[i])
    ensures KeptAndSpaced(Collapse(s))
  {
    assert IsKept(' ');
    CollapseKeeps(s, IsKept);
  }

  /** A kept character spaced plainly loses its accent and becomes plain. */
  lemma BaseLetterPlain(c: char)
    requires IsKept(c) && (IsSpace(c) ==> c == ' ')
    ensures IsPlain(BaseLetter(c))
  {
  }

  lemma StripAccentsPlain(t: string)
    requires KeptAndSpaced(t) && NoDoubleSpace(t)
    requires |t| == 0 || (!IsSpace(t[0]) && !IsSpace(t[|t| - 1]))
    ensures var r := StripAccents(t);
      && (forall i :: 0 <= i < |r| ==> IsPlain(r[i]))
      && (|r| == 0 || (r[0] != ' ' && r[|r| - 1] != ' '))
      && NoDoubleSpace(r)
  {
    KeptHasNoMarks(t);
    BaseLettersPlain(t, StripAccents(t));
  }

  /** Kept characters are never combining marks. */
  lemma KeptHasNoMarks(t: string)
    requires KeptAndSpaced(t)
    ensures forall i :: 0 <= i < |t| ==> !IsCombiningMark(t[i])
  {
    forall i | 0 <= i < |t| ensures !IsCombiningMark(t[i]) {
      assert IsKept(t[i]);
    }
  }

  /** The base letters of kept, plainly spaced text are plain, and spaces
      stay where they were. */
  lemma BaseLettersPlain(t: string, r: string)
    requires KeptAndSpaced(t) && NoDoubleSpace(t)
    requires |t| == 0 || (!IsSpace(t[0]) && !IsSpace(t[|t| - 1]))
    requires |r| == |t| && forall i :: 0 <= i < |t| ==> r[i] == BaseLetter(t[i])
    ensures forall i :: 0 <= i < |r| ==> IsPlain(r[i])
    ensures |r| == 0 || (r[0] != ' ' && r[|r| - 1] != ' ')
    ensures NoDoubleSpace(r)
  {
    forall i | 0 <= i < |r| ensures IsPlain(r[i]) {
      BaseLetterPlain(t[i]);
    }
  }

  /** With the symbol filter on, the output is a sequence of words over
      a-z and 0-9 separated by single spaces, with no space at either end. */
  lemma CleanBasicNormalForm(texto: string, minusculas: bool, quitarNumeros: bool)
    ensures var r := CleanBasic(texto, minusculas, quitarNumeros, true);
      && (forall i :: 0 <= i < |r| ==> IsPlain(r[i]))
      && (|r| == 0 || (r[0] != ' ' && r[|r| - 1] != ' '))
      && NoDoubleSpace(r)
  {
    var t3 := ReplaceSymbols(LowerAndDigits(texto, minusculas, quitarNumeros));
    var t4 := Collapse(t3);
    assert CleanBasic(texto, minusculas, quitarNumeros, true) == StripAccents(t4);
    CollapseKept(t3);
    StripAccentsPlain(t4);
  }

  predicate NotDigit(c: char) { !IsDigit(c) }

  /** With the digit filter on, no ASCII digit survives. */
  lemma CleanBasicNoDigits(texto: string, minusculas: bool, quitarSimbolos: bool)
    ensures forall c :: c in CleanBasic(texto, minusculas, true, quitarSimbolos) ==> !IsDigit(c)
  {
    var t2 := LowerAndDigits(texto, minusculas, true);
    assert forall i :: 0 <= i < |t2| ==> NotDigit(t2[i]);
    var t3 := if quitarSimbolos then ReplaceSymbols(t2) else t2;
    assert forall i :: 0 <= i < |t3| ==> NotDigit(t3[i]);
    assert NotDigit(' ');
    CollapseKeeps(t3, NotDigit);
    StripAccentsNoDigits(Collapse(t3));
  }

  lemma {:induction false} StripAccentsNoDigits(s: string)
    requires forall i :: 0 <= i < |s| ==> NotDigit(s[i])
    ensures forall c :: c in StripAccents(s) ==> !IsDigit(c)
  {
    if |s| > 0 {
      StripAccentsNoDigits(s[1..]);
    }
  }

  // ---------------------------------------------------------------------------
  // Normalised text is a fixed point; the documented example
  // ---------------------------------------------------------------------------

  /** Every `p` character of `s` is a space standing alone. */
  predicate LoneRuns(s: string, p: char -> bool)
  {
    forall i :: 0 <= i < |s| && p(s[i]) ==> s[i] == ' ' && (i + 1 == |s| || !p(s[i + 1]))
  }

  lemma LoneRunsTail(s: string, p: char -> bool)
    requires |s| > 0 && LoneRuns(s, p)
    ensures LoneRuns(s[1..], p)
  {
    var t := s[1..];
    forall i | 0 <= i < |t| && p(t[i]) ensures t[i] == ' ' && (i + 1 == |t| || !p(t[i + 1])) {
      assert t[i] == s[i + 1];
      if i + 1 < |t| {
        assert t[i + 1] == s[i + 2];
      }
    }
  }

  /** Text whose runs are lone spaces is its own substitution. */
  lemma {:induction false} ReplaceRunsFixed(s: string, p: char -> bool)
    requires LoneRuns(s, p)
    ensures ReplaceRuns(s, p) == s
  {
    if |s| > 0 {
      var t := s[1..];
      assert ReplaceRuns(t, p) == t by {
        LoneRunsTail(s, p);
        ReplaceRunsFixed(t, p);
      }
      if p(s[0]) {
        assert DropWhile(t, p) == t by {
          assert |t| == 0 || !p(t[0]);
        }
        assert ReplaceRuns(s, p) == [' '] + ReplaceRuns(t, p);
      } else {
        assert ReplaceRuns(s, p) == [s[0]] + ReplaceRuns(t, p);
      }
      assert s == [s[0]] + t;
    }
  }

  /** Such text followed by a run becomes the text and one space. */
  lemma {:induction false} ReplaceRunsTrailingRun(a: string, tail: string, p: char -> bool)
    requires LoneRuns(a, p) && (|a| == 0 || !p(a[|a| - 1]))
    requires |tail| > 0 && forall i :: 0 <= i < |tail| ==> p(tail[i])
    ensures ReplaceRuns(a + tail, p) == a + [' ']
  {
    var s := a + tail;
    if |a| == 0 {
      assert s == tail;
      var d := DropWhile(tail[1..], p);
      assert d == tail[|tail| - |d|..];
      SuffixKeeps(tail, d, p);
    } else {
      var t := a[1..];
      assert ReplaceRuns(t + tail, p) == t + [' '] by {
        LoneRunsTail(a, p);
        ReplaceRunsTrailingRun(t, tail, p);
      }
      assert s[1..] == t + tail;
      if p(a[0]) {
        assert DropWhile(t + tail, p) == t + tail by {
          assert |t| > 0 && !p(t[0]);
        }
        assert ReplaceRuns(s, p) == [' '] + ReplaceRuns(t + tail, p);
      } else {
        assert ReplaceRuns(s, p) == [a[0]] + ReplaceRuns(t + tail, p);
      }
      assert a + [' '] == [a[0]] + (t + [' ']);
    }
  }

  lemma BaseLetterAscii(c: char)
    requires c as int < 0xC0
    ensures BaseLetter(c) == c
  {
  }

  /** Text below U+00C0 has no accents to remove. */
  lemma StripAccentsAscii(s: string)
    requires forall i :: 0 <= i < |s| ==> s[i] as int < 0xC0
    ensures StripAccents(s) == s
  {
    forall i | 0 <= i < |s| ensures !IsCombiningMark(s[i]) {}
    var r := StripAccents(s);
    forall i | 0 <= i < |s| ensures r[i] == s[i] {
      BaseLetterAscii(s[i]);
    }
  }

  /** Plain text is already lower-case. */
  lemma LowerPlainFixed(s: string)
    requires forall i :: 0 <= i < |s| ==> IsPlain(s[i])
    ensures Lower(s) == s
  {
    forall i | 0 <= i < |s| ensures LowerChar(s[i]) == s[i] {
      assert IsPlain(s[i]);
    }
  }

  /** Plain text holds no symbol to replace. */
  lemma SymbolsPlainFixed(s: string)
    requires forall i :: 0 <= i < |s| ==> IsPlain(s[i])
    ensures ReplaceSymbols(s) == s
  {
    forall i | 0 <= i < |s| ensures IsKept(s[i]) {
      assert IsPlain(s[i]);
    }
  }

  /** Plain text with single inner spaces and none at the ends has nothing to
      collapse or strip. */
  lemma CollapseNormalFixed(s: string)
    requires forall i :: 0 <= i < |s| ==> IsPlain(s[i])
    requires NoDoubleSpace(s) && (|s| == 0 || (s[0] != ' ' && s[|s| - 1] != ' '))
    ensures Collapse(s) == s
  {
    assert LoneRuns(s, IsSpace) by {
      forall i | 0 <= i < |s| && IsSpace(s[i]) ensures s[i] == ' ' && (i + 1 == |s| || !IsSpace(s[i + 1])) {
        assert IsPlain(s[i]);
        if i + 1 < |s| {
          assert IsPlain(s[i + 1]);
          assert !(s[i] == ' ' && s[i + 1] == ' ');
        }
      }
    }
    ReplaceRunsFixed(s, IsSpace);
    assert LStrip(s) == s;
    assert RStrip(s) == s;
  }

  /** Plain text carries no accent. */
  lemma AccentsPlainFixed(s: string)
    requires forall i :: 0 <= i < |s| ==> IsPlain(s[i])
    ensures StripAccents(s) == s
  {
    forall i | 0 <= i < |s| ensures s[i] as int < 0xC0 {
      assert IsPlain(s[i]);
    }
    StripAccentsAscii(s);
  }

  /** Text in normal form (plain characters, single inner spaces, none at
      the ends) comes out of the default normaliser unchanged. */
  lemma NormalFormIsFixed(s: string)
    requires forall i :: 0 <= i < |s| ==> IsPlain(s[i])
    requires NoDoubleSpace(s) && (|s| == 0 || (s[0] != ' ' && s[|s| - 1] != ' '))
    ensures CleanDefault(s) == s
  {
    LowerPlainFixed(s);
    assert LowerAndDigits(s, true, false) == s;
    SymbolsPlainFixed(s);
    CollapseNormalFixed(s);
    AccentsPlainFixed(s);
  }

  /** Idempotence: normalising normalised text changes nothing, so BM25
      tokenises a document and its normalised form alike. */
  lemma CleanDefaultIdempotent(texto: string)
    ensures CleanDefault(CleanDefault(texto)) == CleanDefault(texto)
  {
    CleanBasicNormalForm(texto, true, false);
    NormalFormIsFixed(CleanDefault(texto));
  }

  /** Words of printable ASCII separated by single spaces, after one leading
      space and before a run of two, collapse to the words alone. */
  lemma CollapseSpacedWords(a: string)
    requires |a| >= 2 && a[0] == ' ' && a[1] != ' ' && a[|a| - 1] != ' '
    requires forall i :: 0 <= i < |a| ==> a[i] == ' ' || 0x21 <= a[i] as int < 0x7F
    requires forall i :: 0 <= i < |a| - 1 && a[i] == ' ' ==> a[i + 1] != ' '
    ensures Collapse(a + "  ") == a[1..]
  {
    assert ReplaceRuns(a + "  ", IsSpace) == a + [' '] by {
      assert LoneRuns(a, IsSpace) by {
        forall i | 0 <= i < |a| && IsSpace(a[i]) ensures a[i] == ' ' && (i + 1 == |a| || !IsSpace(a[i + 1])) {
          if i + 1 < |a| {
            assert a[i + 1] == ' ' || 0x21 <= a[i + 1] as int < 0x7F;
          }
        }
      }
      ReplaceRunsTrailingRun(a, "  ", IsSpace);
    }
    assert Strip(a + [' ']) == a[1..] by {
      var c := a + [' '];
      assert c[1..] == a[1..] + [' '];
      assert LStrip(c) == c[1..];
      assert RStrip(c[1..]) == a[1..];
    }
  }

  // The stages of the documented example, one lemma each.

  lemma ExampleLowered()
    ensures Lower("¡Python 3.12 es GENIAL! ") == "¡python 3.12 es genial! "
  {
  }

  lemma ExampleSymbols()
    ensures ReplaceSymbols("¡python 3.12 es genial! ") == " python 3 12 es genial  "
  {
  }

  lemma ExampleWordsPrintable()
    ensures var a := " python 3 12 es genial";
      forall i :: 0 <= i < |a| ==> a[i] == ' ' || 0x21 <= a[i] as int < 0x7F
  {
  }

  lemma ExampleWordsSingleSpaced()
    ensures var a := " python 3 12 es genial";
      forall i :: 0 <= i < |a| - 1 && a[i] == ' ' ==> a[i + 1] != ' '
  {
  }

  lemma ExampleCollapsed()
    ensures Collapse(" python 3 12 es genial  ") == "python 3 12 es genial"
  {
    var a := " python 3 12 es genial";
    ExampleWordsPrintable();
    ExampleWordsSingleSpaced();
    CollapseSpacedWords(a);
    assert a + "  " == " python 3 12 es genial  ";
  }

  lemma ExampleUnaccented()
    ensures StripAccents("python 3 12 es genial") == "python 3 12 es genial"
  {
    var s := "python 3 12 es genial";
    assert forall i :: 0 <= i < |s| ==> s[i] as int < 0xC0;
    StripAccentsAscii(s);
  }

  /** The example of the normaliser's documentation. */
  lemma DocumentedExample()
    ensures CleanDefault("¡Python 3.12 es GENIAL! ") == "python 3 12 es genial"
  {
    ExampleLowered();
    ExampleSymbols();
    ExampleCollapsed();
    ExampleUnaccented();
    assert LowerAndDigits("¡Python 3.12 es GENIAL! ", true, false) == "¡python 3.12 es genial! ";
  }

  // ---------------------------------------------------------------------------
  // str.split()
  // ---------------------------------------------------------------------------

  predicate NotSpace(c: char) { !IsSpace(c) }

  /** The characters `DropWhile` drops all satisfy `p`. */
  lemma {:induction false} DropWhileDrops(s: string, p: char -> bool)
    ensures forall i :: 0 <= i < |s| - |DropWhile(s, p)| ==> p(s[i])
  {
    if |s| > 0 && p(s[0]) {
      DropWhileDrops(s[1..], p);
      assert forall i :: 1 <= i < |s| - |DropWhile(s, p)| ==> s[i] == s[1..][i - 1];
    }
  }

  /** A token of `split()`: non-empty, without whitespace. */
  predicate IsToken(w: string)
  {
    |w| > 0 && forall j :: 0 <= j < |w| ==> !IsSpace(w[j])
  }

  /** The longest prefix of `s` whose characters satisfy `p`. */
  function TakeWhile(s: string, p: char -> bool): (r: string)
    ensures forall i :: 0 <= i < |r| ==> p(r[i])
  {
    if |s| > 0 && p(s[0]) then [s[0]] + TakeWhile(s[1..], p) else []
  }

  /** The prefix `TakeWhile` keeps and the rest `DropWhile` leaves make up
      the text. */
  lemma {:induction false} TakeDropWhile(s: string, p: char -> bool)
    ensures TakeWhile(s, p) + DropWhile(s, p) == s
  {
    if |s| > 0 && p(s[0]) {
      TakeDropWhile(s[1..], p);
      ConcatAssoc([s[0]], TakeWhile(s[1..], p), DropWhile(s[1..], p));
      assert s == [s[0]] + s[1..];
    }
  }

  /** `s.split()`: the maximal runs of non-whitespace characters, in
      order. */
  function Split(s: string): seq<string>
    decreases |s|
  {
    var t := LStrip(s);
    if |t| == 0 then []
    else
      assert NotSpace(t[0]);
      [TakeWhile(t, NotSpace)] + Split(DropWhile(t, NotSpace))
  }

  /** Every piece of `split()` is a token: non-empty, without whitespace. */
  lemma {:induction false} SplitTokens(s: string)
    ensures forall i :: 0 <= i < |Split(s)| ==> IsToken(Split(s)[i])
    decreases |s|
  {
    var t := LStrip(s);
    if |t| > 0 {
      var rest := DropWhile(t, NotSpace);
      LeadingToken(t);
      SplitTokens(rest);
      ConsTokens(TakeWhile(t, NotSpace), Split(rest));
    }
  }

  /** A text that starts with a non-space leads with a token and leaves a
      shorter rest. */
  lemma LeadingToken(t: string)
    requires |t| > 0 && !IsSpace(t[0])
    ensures IsToken(TakeWhile(t, NotSpace)) && |DropWhile(t, NotSpace)| < |t|
  {
    assert NotSpace(t[0]);
  }

  /** A token in front of tokens gives tokens. */
  lemma ConsTokens(w: string, ws: seq<string>)
    requires IsToken(w) && forall i :: 0 <= i < |ws| ==> IsToken(ws[i])
    ensures forall i :: 0 <= i < |[w] + ws| ==> IsToken(([w] + ws)[i])
  {
  }

  /** `split()` finds no piece exactly when the text is all whitespace. */
  lemma SplitEmptyIff(s: string)
    ensures Split(s) == [] <==> forall i :: 0 <= i < |s| ==> IsSpace(s[i])
  {
    LStripEmpty(s);
  }

  /** The pieces, put back together, are the non-whitespace characters of
      `s` in order: splitting loses nothing but whitespace. */
  lemma {:induction false} SplitKeepsText(s: string)
    ensures Join(Split(s), "") == Filter(s, NotSpace)
    decreases |s|
  {
    LStripFilter(s);
    var t := LStrip(s);
    if |t| > 0 {
      var rest := DropWhile(t, NotSpace);
      assert NotSpace(t[0]);
      ConcatCons(TakeWhile(t, NotSpace), Split(rest));
      TokenText(t);
      SplitKeepsText(rest);
    }
  }

  /** The non-whitespace characters of a text: its leading token, then
      those of the rest. */
  lemma TokenText(t: string)
    ensures Filter(t, NotSpace) == TakeWhile(t, NotSpace) + Filter(DropWhile(t, NotSpace), NotSpace)
  {
    var w := TakeWhile(t, NotSpace);
    TakeDropWhile(t, NotSpace);
    FilterAppend(w, DropWhile(t, NotSpace), NotSpace);
    FilterAll(w, NotSpace);
  }

  /** The tokens BM25 sees for one text. */
  function Tokens(texto: string): seq<string>
  {
    Split(CleanDefault(texto))
  }

  // ---------------------------------------------------------------------------
  // combinar_texto_y_tablas
  // ---------------------------------------------------------------------------

  const TablesHeader: string := "\n\n=== DATOS TABULARES ===\n"

  function GetOrEmpty(m: map<string, string>, key: string): string
  {
    if key in m then m[key] else ""
  }

  /** The page text, followed by the tables under a fixed header when there
      are any. */
  function CombineTextAndTables(resultadoPdf: map<string, string>): (r: string)
    ensures var texto := GetOrEmpty(resultadoPdf, "texto");
      var tablas := GetOrEmpty(resultadoPdf, "tablas_como_texto");
      && |texto| <= |r| && r[..|texto|] == texto
      && (tablas == "" ==> r == texto)
      && (tablas != "" ==>
            && |r| == |texto| + |TablesHeader| + |tablas|
            && r[|texto|..|texto| + |TablesHeader|] == TablesHeader
            && r[|r| - |tablas|..] == tablas)
  {
    var texto := GetOrEmpty(resultadoPdf, "texto");
    var tablas := GetOrEmpty(resultadoPdf, "tablas_como_texto");
    if tablas != "" then texto + TablesHeader + tablas else texto
  }
}
