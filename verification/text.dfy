/** The character classes and string operations the heading engine uses:
    Python's `str.strip`, `str.split`, `str.lower`, `str.isupper`, `str.istitle`,
    `in` on strings and `re.sub(r'\s+', ' ', s)`, with Python's whitespace set and ASCII
    letters and digits. */
module Text {

  /** `str.isspace`, which `\s`, `str.split()` and `str.strip()` share: the ASCII controls
      tab to carriage return and file to unit separator, space, next line, no-break space,
      and the Unicode space separators, line separator and paragraph separator. */
  predicate IsSpace(c: char) {
    if c <= ' ' then '\t' <= c <= '\r' || '\U{1C}' <= c else IsWideSpace(c)
  }

  /** The whitespace characters above the ASCII range. */
  predicate IsWideSpace(c: char) {
    || c == '\U{85}' || c == '\U{A0}' || c == '\U{1680}'
    || '\U{2000}' <= c <= '\U{200A}'
    || c == '\U{2028}' || c == '\U{2029}' || c == '\U{202F}' || c == '\U{205F}' || c == '\U{3000}'
  }

  predicate NotSpace(c: char) {
    !IsSpace(c)
  }

  /** `\d` */
  predicate IsDigit(c: char) {
    '0' <= c <= '9'
  }

  predicate IsLower(c: char) {
    'a' <= c <= 'z'
  }

  predicate IsUpper(c: char) {
    'A' <= c <= 'Z'
  }

  predicate IsLetter(c: char) {
    IsLower(c) || IsUpper(c)
  }

  function ToLower(c: char): (d: char)
    ensures !IsUpper(d)
    ensures IsLetter(c) <==> IsLetter(d)
    ensures !IsLetter(c) ==> d == c
    ensures IsUpper(c) ==> IsLower(d) && d as int - 'a' as int == c as int - 'A' as int
  {
    if IsUpper(c) then (c as int + 32) as char else c
  }

  /** `str.lower()` */
  function Lower(s: string): (r: string)
    ensures |r| == |s|
    ensures forall i :: 0 <= i < |s| ==> r[i] == ToLower(s[i])
  {
    seq(|s|, i requires 0 <= i < |s| => ToLower(s[i]))
  }

  /** Lower-casing twice is lower-casing once. */
  lemma LowerIdempotent(s: string)
    ensures Lower(Lower(s)) == Lower(s)
  {
  }

  /** Text without capitals is its own lower-casing. */
  lemma LowerFixes(s: string)
    requires forall i :: 0 <= i < |s| ==> !IsUpper(s[i])
    ensures Lower(s) == s
  {
  }

  /** Lower-casing works character by character, so it commutes with slicing. */
  lemma LowerSlices(s: string, k: nat)
    requires k <= |s|
    ensures Lower(s)[..k] == Lower(s[..k])
    ensures Lower(s)[k..] == Lower(s[k..])
  {
    assert forall i :: 0 <= i < k ==> Lower(s)[..k][i] == Lower(s[..k])[i];
    assert forall i :: 0 <= i < |s| - k ==> Lower(s)[k..][i] == Lower(s[k..])[i];
  }

  /** Length of the longest prefix of `s` whose characters all satisfy `p`. */
  function PrefixRun(s: string, p: char -> bool): (k: nat)
    ensures k <= |s|
    ensures forall i :: 0 <= i < k ==> p(s[i])
    ensures k < |s| ==> !p(s[k])
  {
    if |s| > 0 && p(s[0]) then 1 + PrefixRun(s[1..], p) else 0
  }

  /** Length of the longest suffix of `s` whose characters all satisfy `p`. */
  function SuffixRun(s: string, p: char -> bool): (k: nat)
    ensures k <= |s|
    ensures forall i :: |s| - k <= i < |s| ==> p(s[i])
    ensures k < |s| ==> !p(s[|s| - k - 1])
  {
    if |s| > 0 && p(s[|s| - 1]) then 1 + SuffixRun(s[..|s| - 1], p) else 0
  }

  /** Digits have no case: a run of leading digits is as long after lower-casing. */
  lemma {:induction false} LowerKeepsDigitRun(s: string)
    ensures PrefixRun(Lower(s), IsDigit) == PrefixRun(s, IsDigit)
    decreases |s|
  {
    if |s| > 0 {
      LowerSlices(s, 1);
      LowerKeepsDigitRun(s[1..]);
    }
  }

  /** Whitespace has no case: a run of leading whitespace is as long after lower-casing. */
  lemma {:induction false} LowerKeepsSpaceRun(s: string)
    ensures PrefixRun(Lower(s), IsSpace) == PrefixRun(s, IsSpace)
    decreases |s|
  {
    if |s| > 0 {
      LowerSlices(s, 1);
      LowerKeepsSpaceRun(s[1..]);
    }
  }

  /** `str.strip()` with no argument. */
  function Trim(s: string): (r: string)
    ensures |r| <= |s|
    ensures |r| > 0 ==> !IsSpace(r[0]) && !IsSpace(r[|r| - 1])
    ensures |r| == 0 <==> forall i :: 0 <= i < |s| ==> IsSpace(s[i])
    ensures PrefixRun(s, IsSpace) + |r| <= |s|
    ensures r == s[PrefixRun(s, IsSpace)..PrefixRun(s, IsSpace) + |r|]
    ensures forall i :: PrefixRun(s, IsSpace) + |r| <= i < |s| ==> IsSpace(s[i])
    ensures (|s| == 0 || (!IsSpace(s[0]) && !IsSpace(s[|s| - 1]))) ==> r == s
  {
    var a := PrefixRun(s, IsSpace);
    var t := s[a..];
    var r := t[..|t| - SuffixRun(t, IsSpace)];
    assert a < |s| ==> t[0] == s[a] && !IsSpace(t[0]);
    forall i | a + |r| <= i < |s| ensures IsSpace(s[i]) {
      assert s[i] == t[i - a];
    }
    r
  }

  /** `str.split()` with no argument: the maximal runs of non-whitespace, in order. */
  function Words(s: string): seq<string>
    decreases |s|
  {
    var a := PrefixRun(s, IsSpace);
    var t := s[a..];
    if |t| == 0 then []
    else
      var w := PrefixRun(t, NotSpace);
      [t[..w]] + Words(t[w..])
  }

  /** A word of `str.split()`: non-empty and free of whitespace. */
  predicate IsWord(w: string) {
    |w| > 0 && forall i :: 0 <= i < |w| ==> !IsSpace(w[i])
  }

  /** Every word is non-empty and free of whitespace. */
  lemma {:induction false} WordsShape(s: string)
    ensures forall k :: 0 <= k < |Words(s)| ==> IsWord(Words(s)[k])
    decreases |s|
  {
    var a := PrefixRun(s, IsSpace);
    var t := s[a..];
    if |t| > 0 {
      assert NotSpace(t[0]);
      var w := PrefixRun(t, NotSpace);
      var rest := Words(t[w..]);
      WordsShape(t[w..]);
      var ws := [t[..w]] + rest;
      assert Words(s) == ws;
      assert IsWord(t[..w]);
      forall k | 0 <= k < |ws| ensures IsWord(ws[k]) {
        if k > 0 {
          assert ws[k] == rest[k - 1];
        }
      }
    }
  }

  /** A leading whitespace character does not change the words. */
  lemma WordsSpaceCons(c: char, x: string)
    requires IsSpace(c)
    ensures Words([c] + x) == Words(x)
  {
    var s := [c] + x;
    assert s[1..] == x;
    assert PrefixRun(s, IsSpace) == 1 + PrefixRun(x, IsSpace);
    assert s[PrefixRun(s, IsSpace)..] == x[PrefixRun(x, IsSpace)..];
  }

  /** A leading non-space character joins the first word when `x` starts with one, and
      is a word of its own otherwise. */
  lemma WordsCons(c: char, x: string)
    requires !IsSpace(c)
    ensures |x| > 0 && !IsSpace(x[0]) ==>
      |Words(x)| > 0 && Words([c] + x) == [[c] + Words(x)[0]] + Words(x)[1..]
    ensures (|x| == 0 || IsSpace(x[0])) ==> Words([c] + x) == [[c]] + Words(x)
  {
    var s := [c] + x;
    assert s[1..] == x;
    assert PrefixRun(s, IsSpace) == 0;
    assert s[0..] == s;
    var w := PrefixRun(x, NotSpace);
    assert PrefixRun(s, NotSpace) == 1 + w;
    assert s[..1 + w] == [c] + x[..w];
    assert s[1 + w..] == x[w..];
    if |x| > 0 && !IsSpace(x[0]) {
      assert PrefixRun(x, IsSpace) == 0;
      assert x[0..] == x;
    }
  }

  /** Leading whitespace does not change the words. */
  lemma {:induction false} WordsSkip(s: string, k: nat)
    requires k <= |s|
    requires forall i :: 0 <= i < k ==> IsSpace(s[i])
    ensures Words(s[k..]) == Words(s)
    decreases k
  {
    if k > 0 {
      assert s == [s[0]] + s[1..];
      WordsSpaceCons(s[0], s[1..]);
      assert s[1..][k - 1..] == s[k..];
      WordsSkip(s[1..], k - 1);
    }
  }

  /** Trailing whitespace does not change the words. */
  lemma {:induction false} WordsTrailing(x: string, sp: string)
    requires forall i :: 0 <= i < |sp| ==> IsSpace(sp[i])
    ensures Words(x + sp) == Words(x)
    decreases |x|
  {
    if |x| == 0 {
      assert x + sp == sp;
      assert PrefixRun(sp, IsSpace) == |sp|;
    } else {
      var c := x[0];
      var y := x[1..];
      assert x == [c] + y;
      assert x + sp == [c] + (y + sp);
      WordsTrailing(y, sp);
      if IsSpace(c) {
        WordsSpaceCons(c, y + sp);
        WordsSpaceCons(c, y);
      } else {
        WordsCons(c, y + sp);
        WordsCons(c, y);
        if |y| == 0 {
          assert y + sp == sp;
        } else {
          assert (y + sp)[0] == y[0];
        }
      }
    }
  }

  /** Stripping keeps the words. */
  lemma TrimKeepsWords(s: string)
    ensures Words(Trim(s)) == Words(s)
  {
    PaddingKeepsWords(s, PrefixRun(s, IsSpace), Trim(s));
  }

  /** Words are unchanged by whitespace on either side of `r`. */
  lemma PaddingKeepsWords(s: string, a: nat, r: string)
    requires a + |r| <= |s| && r == s[a..a + |r|]
    requires forall i :: 0 <= i < a ==> IsSpace(s[i])
    requires forall i :: a + |r| <= i < |s| ==> IsSpace(s[i])
    ensures Words(r) == Words(s)
  {
    var m := a + |r|;
    calc {
      Words(s);
    == { WordsSkip(s, a); }
      Words(s[a..]);
    == { SliceConcat(s, a, m); assert s[a..] == r + s[m..]; }
      Words(r + s[m..]);
    == { SuffixSpaces(s, m); WordsTrailing(r, s[m..]); }
      Words(r);
    }
  }

  lemma SliceConcat(s: string, a: nat, m: nat)
    requires a <= m <= |s|
    ensures s[a..] == s[a..m] + s[m..]
  {
  }

  lemma SuffixSpaces(s: string, m: nat)
    requires m <= |s|
    requires forall i :: m <= i < |s| ==> IsSpace(s[i])
    ensures forall i :: 0 <= i < |s[m..]| ==> IsSpace(s[m..][i])
  {
    forall i | 0 <= i < |s[m..]| ensures IsSpace(s[m..][i]) {
      assert s[m..][i] == s[m + i];
    }
  }

  /** Every whitespace character is a plain space and no two whitespace characters
      are adjacent: the shape `re.sub(r'\s+', ' ', s)` leaves. */
  ghost predicate Collapsed(s: string) {
    && (forall i :: 0 <= i < |s| && IsSpace(s[i]) ==> s[i] == ' ')
    && (forall i :: 0 <= i < |s| - 1 ==> !IsSpace(s[i]) || !IsSpace(s[i + 1]))
  }

  /** The shape `re.sub(r'\s+', ' ', s)` gives its result `r`: no longer than `s`, empty
      only when `s` is, starting and ending with whitespace exactly when `s` does, and
      collapsed. */
  ghost predicate CollapsedFrom(s: string, r: string) {
    && |r| <= |s|
    && (|r| == 0 <==> |s| == 0)
    && (|s| > 0 ==> (IsSpace(r[0]) <==> IsSpace(s[0])))
    && (|s| > 0 ==> (IsSpace(r[|r| - 1]) <==> IsSpace(s[|s| - 1])))
    && Collapsed(r)
  }

  /** `re.sub(r'\s+', ' ', s)`: every maximal run of whitespace becomes one space. */
  function Collapse(s: string): (r: string)
    ensures CollapsedFrom(s, r)
    decreases |s|, 1
  {
    if |s| == 0 then []
    else if IsSpace(s[0]) then
      CollapseSpaceStep(s);
      [' '] + Collapse(s[PrefixRun(s, IsSpace)..])
    else
      CollapseCharStep(s);
      [s[0]] + Collapse(s[1..])
  }

  /** A run of leading whitespace becomes one space before the collapsed rest. */
  lemma CollapseSpaceStep(s: string)
    requires |s| > 0 && IsSpace(s[0])
    ensures CollapsedFrom(s, [' '] + Collapse(s[PrefixRun(s, IsSpace)..]))
    decreases |s|, 0
  {
    var k := PrefixRun(s, IsSpace);
    SpaceStepFacts(s, k, s[k..], Collapse(s[k..]));
  }

  /** A leading non-space character is kept before the collapsed rest. */
  lemma CollapseCharStep(s: string)
    requires |s| > 0 && !IsSpace(s[0])
    ensures CollapsedFrom(s, [s[0]] + Collapse(s[1..]))
    decreases |s|, 0
  {
    CharStepFacts(s, s[1..], Collapse(s[1..]));
  }

  /** The space step, for any `c` that already collapses the rest `t`. */
  lemma SpaceStepFacts(s: string, k: nat, t: string, c: string)
    requires 0 < k <= |s| && t == s[k..]
    requires forall i :: 0 <= i < k ==> IsSpace(s[i])
    requires k < |s| ==> !IsSpace(s[k])
    requires CollapsedFrom(t, c)
    ensures CollapsedFrom(s, [' '] + c)
  {
    if k < |s| {
      assert t[0] == s[k] && t[|t| - 1] == s[|s| - 1];
    }
    ConsCollapsed(' ', c);
  }

  /** The character step, for any `c` that already collapses the rest `t`. */
  lemma CharStepFacts(s: string, t: string, c: string)
    requires |s| > 0 && !IsSpace(s[0]) && t == s[1..]
    requires CollapsedFrom(t, c)
    ensures CollapsedFrom(s, [s[0]] + c)
  {
    if |t| > 0 {
      assert t[0] == s[1] && t[|t| - 1] == s[|s| - 1];
    }
    ConsCollapsed(s[0], c);
  }

  /** Collapsing keeps the words, in order: `re.sub(r'\s+', ' ', s).split() == s.split()`. */
  lemma {:induction false} CollapseKeepsWords(s: string)
    ensures Words(Collapse(s)) == Words(s)
    decreases |s|
  {
    if |s| > 0 {
      if IsSpace(s[0]) {
        var k := PrefixRun(s, IsSpace);
        var c := Collapse(s[k..]);
        CollapseKeepsWords(s[k..]);
        assert Collapse(s) == [' '] + c;
        WordsSpaceCons(' ', c);
        WordsSkip(s, k);
      } else {
        var x := s[1..];
        var c := Collapse(x);
        CollapseKeepsWords(x);
        assert Collapse(s) == [s[0]] + c;
        if |x| > 0 {
          assert x[0] == s[1];
        }
        CharStepWords(s, c);
      }
    }
  }

  lemma CharStepWords(s: string, c: string)
    requires |s| > 0 && !IsSpace(s[0])
    requires |c| == 0 <==> |s| == 1
    requires |s| > 1 ==> (IsSpace(c[0]) <==> IsSpace(s[1]))
    requires Words(c) == Words(s[1..])
    ensures Words([s[0]] + c) == Words(s)
  {
    var x := s[1..];
    assert s == [s[0]] + x;
    if |x| > 0 {
      assert x[0] == s[1];
    }
    WordsCons(s[0], c);
    WordsCons(s[0], x);
  }

  /** Putting a non-space character, or a plain space before a non-space one, in front of
      a collapsed string keeps it collapsed. */
  lemma ConsCollapsed(x: char, c: string)
    requires Collapsed(c)
    requires !IsSpace(x) || (x == ' ' && (|c| == 0 || !IsSpace(c[0])))
    ensures Collapsed([x] + c)
  {
    var r := [x] + c;
    forall i | 0 <= i < |r| - 1 ensures !IsSpace(r[i]) || !IsSpace(r[i + 1]) {
      assert r[i + 1] == c[i];
      if i > 0 {
        assert r[i] == c[i - 1];
      }
    }
    forall i | 0 <= i < |r| && IsSpace(r[i]) ensures r[i] == ' ' {
      if i > 0 {
        assert r[i] == c[i - 1];
      }
    }
  }

  /** A collapsed string is left unchanged by collapsing. */
  lemma {:induction false} CollapseFixesCollapsed(s: string)
    requires Collapsed(s)
    ensures Collapse(s) == s
    decreases |s|
  {
    if |s| > 0 {
      var x := s[1..];
      assert s == [s[0]] + x;
      CollapsedSlice(s, 1, |s|);
      CollapseFixesCollapsed(x);
      if IsSpace(s[0]) {
        assert s[0] == ' ';
        assert PrefixRun(s, IsSpace) == 1 by {
          if |s| > 1 {
            assert !IsSpace(s[1]);
          }
        }
        assert Collapse(s) == [' '] + Collapse(x);
      } else {
        assert Collapse(s) == [s[0]] + Collapse(x);
      }
    }
  }

  /** Any contiguous piece of a collapsed string is collapsed. */
  lemma CollapsedSlice(s: string, a: nat, b: nat)
    requires Collapsed(s) && a <= b <= |s|
    ensures Collapsed(s[a..b])
  {
    var t := s[a..b];
    forall i | 0 <= i < |t| - 1 ensures !IsSpace(t[i]) || !IsSpace(t[i + 1]) {
      assert t[i] == s[a + i] && t[i + 1] == s[a + i + 1];
    }
  }

  /** `re.sub(r'\s+', ' ', s).strip()`: whitespace-normalised text. */
  function Normalize(s: string): (r: string)
    ensures Collapsed(r)
    ensures |r| > 0 ==> !IsSpace(r[0]) && !IsSpace(r[|r| - 1])
    ensures |r| == 0 <==> forall i :: 0 <= i < |s| ==> IsSpace(s[i])
  {
    NormalizeShape(s);
    Trim(Collapse(s))
  }

  /** Normalising keeps the words, in order. */
  lemma NormalizeKeepsWords(s: string)
    ensures Words(Normalize(s)) == Words(s)
  {
    CollapseKeepsWords(s);
    TrimKeepsWords(Collapse(s));
  }

  /** Trimming a collapsed string leaves it collapsed, and empty only when the original
      held nothing but whitespace. */
  lemma NormalizeShape(s: string)
    ensures Collapsed(Trim(Collapse(s)))
    ensures |Trim(Collapse(s))| == 0 <==> forall i :: 0 <= i < |s| ==> IsSpace(s[i])
  {
    TrimCollapsed(Collapse(s));
    NormalizeEmpty(s, Collapse(s));
  }

  /** A word is collapsed. */
  lemma WordCollapsed(w: string)
    requires IsWord(w)
    ensures Collapsed(w)
  {
  }

  /** Two words joined by one space are collapsed. */
  lemma SpacedWordsCollapsed(a: string, b: string)
    requires IsWord(a) && IsWord(b)
    ensures Collapsed(a + [' '] + b)
  {
    var s := a + [' '] + b;
    forall i | 0 <= i < |s| && i != |a| ensures !IsSpace(s[i]) {
      if i < |a| { assert s[i] == a[i]; } else { assert s[i] == b[i - |a| - 1]; }
    }
    forall i | 0 <= i < |s| - 1 ensures !IsSpace(s[i]) || !IsSpace(s[i + 1]) {
      if i < |a| { assert s[i] == a[i]; } else { assert s[i + 1] == b[i - |a|]; }
    }
  }

  lemma TrimCollapsed(c: string)
    requires Collapsed(c)
    ensures Collapsed(Trim(c))
  {
    var a := PrefixRun(c, IsSpace);
    CollapsedSlice(c, a, a + |Trim(c)|);
  }

  lemma NormalizeEmpty(s: string, c: string)
    requires c == Collapse(s)
    ensures |Trim(c)| == 0 <==> forall i :: 0 <= i < |s| ==> IsSpace(s[i])
  {
    CollapseKeepsWords(s);
    WordCountCountsWords(s);
    WordCountCountsWords(c);
  }

  /** Normalising is idempotent. */
  lemma NormalizeIdempotent(s: string)
    ensures Normalize(Normalize(s)) == Normalize(s)
  {
    var n := Normalize(s);
    CollapseFixesCollapsed(n);
    assert Trim(n) == n;
  }

  /** `len(s.split())`: the number of maximal runs of non-whitespace. */
  function WordCount(s: string): (n: nat)
    ensures n == 0 <==> forall i :: 0 <= i < |s| ==> IsSpace(s[i])
    ensures n <= |s|
    decreases |s|
  {
    var a := PrefixRun(s, IsSpace);
    var t := s[a..];
    if |t| == 0 then 0
    else
      var w := PrefixRun(t, NotSpace);
      assert !IsSpace(s[a]);
      1 + WordCount(t[w..])
  }

  /** The count is the number of words `str.split()` returns. */
  lemma {:induction false} WordCountCountsWords(s: string)
    ensures WordCount(s) == |Words(s)|
    decreases |s|
  {
    var a := PrefixRun(s, IsSpace);
    var t := s[a..];
    if |t| > 0 {
      WordCountCountsWords(t[PrefixRun(t, NotSpace)..]);
    }
  }

  /** A non-empty string without whitespace is one word. */
  lemma OneWord(s: string)
    requires |s| > 0 && forall i :: 0 <= i < |s| ==> !IsSpace(s[i])
    ensures WordCount(s) == 1
  {
    assert PrefixRun(s, IsSpace) == 0;
    assert PrefixRun(s, NotSpace) == |s|;
  }

  /** `sub in s` for strings. */
  predicate Contains(s: string, sub: string)
    decreases |s|
  {
    |sub| <= |s| && (s[..|sub|] == sub || Contains(s[1..], sub))
  }

  /** `sub` occurs in `s` starting at position `i`. */
  predicate OccursAt(s: string, sub: string, i: nat) {
    i + |sub| <= |s| && s[i..i + |sub|] == sub
  }

  /** `sub in s` holds exactly when `sub` occurs at some position of `s`. */
  lemma {:induction false} ContainsMeaning(s: string, sub: string)
    ensures Contains(s, sub) <==> exists i: nat :: OccursAt(s, sub, i)
    decreases |s|
  {
    if |sub| <= |s| && s[..|sub|] == sub {
      assert OccursAt(s, sub, 0);
    } else if |sub| <= |s| && |s| > 0 {
      ContainsMeaning(s[1..], sub);
      if exists i: nat :: OccursAt(s, sub, i) {
        var i: nat :| OccursAt(s, sub, i);
        OccursLater(s, sub, i);
      }
      if exists i: nat :: OccursAt(s[1..], sub, i) {
        var i: nat :| OccursAt(s[1..], sub, i);
        OccursInTail(s, sub, i);
      }
    }
  }

  lemma OccursLater(s: string, sub: string, i: nat)
    requires OccursAt(s, sub, i) && i > 0
    ensures OccursAt(s[1..], sub, i - 1)
  {
    assert s[1..][i - 1..i - 1 + |sub|] == s[i..i + |sub|];
  }

  lemma OccursInTail(s: string, sub: string, i: nat)
    requires |s| > 0 && OccursAt(s[1..], sub, i)
    ensures OccursAt(s, sub, i + 1)
  {
    assert s[i + 1..i + 1 + |sub|] == s[1..][i..i + |sub|];
  }

  /** `str.isupper()`: at least one cased character and no lower-case one. */
  predicate IsUpperText(s: string) {
    && (exists i :: 0 <= i < |s| && IsLetter(s[i]))
    && (forall i :: 0 <= i < |s| ==> !IsLower(s[i]))
  }

  /** The scan behind `str.istitle()`: an upper-case letter may only follow an uncased
      character, a lower-case letter only a cased one, and some letter must occur. */
  predicate TitleScan(s: string, previousCased: bool, sawCased: bool)
    decreases |s|
  {
    if |s| == 0 then sawCased
    else if IsUpper(s[0]) then !previousCased && TitleScan(s[1..], true, true)
    else if IsLower(s[0]) then previousCased && TitleScan(s[1..], true, true)
    else TitleScan(s[1..], false, sawCased)
  }

  /** `str.istitle()` */
  predicate IsTitleText(s: string) {
    TitleScan(s, false, false)
  }

  /** In an `istitle()` text the first cased letter is upper-case. */
  lemma TitleStartsUpper(s: string, i: nat)
    requires IsTitleText(s)
    requires i < |s| && IsLetter(s[i])
    requires forall j :: 0 <= j < i ==> !IsLetter(s[j])
    ensures IsUpper(s[i])
  {
    FirstLetterUpper(s, i, false);
  }

  lemma {:induction false} FirstLetterUpper(s: string, i: nat, sawCased: bool)
    requires TitleScan(s, false, sawCased)
    requires i < |s| && IsLetter(s[i])
    requires forall j :: 0 <= j < i ==> !IsLetter(s[j])
    ensures IsUpper(s[i])
    decreases i
  {
    if i > 0 {
      assert !IsLetter(s[0]);
      var t := s[1..];
      assert t[i - 1] == s[i];
      assert forall j :: 0 <= j < i - 1 ==> t[j] == s[j + 1];
      FirstLetterUpper(t, i - 1, sawCased);
    }
  }

  /** An `isupper()` text with two letters side by side is never `istitle()`: the second
      capital follows a cased character. */
  lemma ShoutingIsNotTitle(s: string, i: nat)
    requires IsUpperText(s)
    requires i + 1 < |s| && IsLetter(s[i]) && IsLetter(s[i + 1])
    ensures !IsTitleText(s)
  {
    AdjacentCapitals(s, i, false, false);
  }

  lemma {:induction false} AdjacentCapitals(s: string, i: nat, previousCased: bool, sawCased: bool)
    requires forall j :: 0 <= j < |s| ==> !IsLower(s[j])
    requires i + 1 < |s| && IsLetter(s[i]) && IsLetter(s[i + 1])
    ensures !TitleScan(s, previousCased, sawCased)
    decreases i
  {
    var t := s[1..];
    assert forall j :: 0 <= j < |t| ==> t[j] == s[j + 1];
    if i == 0 {
      assert IsUpper(t[0]);
    } else {
      assert t[i - 1] == s[i] && t[i] == s[i + 1];
      AdjacentCapitals(t, i - 1, IsUpper(s[0]), sawCased || IsUpper(s[0]));
      AdjacentCapitals(t, i - 1, false, sawCased);
    }
  }
}
