/**
 * `normalize` and `calc_hash` (check_pass.py:78-86): the fingerprint text of
 * a calendar page, with whitespace runs collapsed and clock times and dates
 * removed, so that a page that only shows a live clock or today's date keeps
 * its fingerprint.
 */
module Fingerprint {
  import opened Chars

  // ---------------------------------------------------------------------------
  // Whitespace: `re.sub(r"\s+", " ", t)` and `t.strip()`

  /** The text after its leading whitespace run (also the left half of `strip`). */
  function DropSpaces(s: string): (r: string)
    ensures |r| <= |s| && r == s[|s| - |r|..]
    ensures AllSpace(s[..|s| - |r|])
    ensures r == [] || !IsSpace(r[0])
  {
    if s != [] && IsSpace(s[0]) then
      var r := DropSpaces(s[1..]);
      DropSpacesStep(s, r);
      r
    else
      assert s[..0] == [];
      s
  }

  lemma DropSpacesStep(s: string, r: string)
    requires s != [] && IsSpace(s[0])
    requires |r| < |s| && r == s[1..][|s| - 1 - |r|..] && AllSpace(s[1..][..|s| - 1 - |r|])
    ensures r == s[|s| - |r|..] && AllSpace(s[..|s| - |r|])
  {
    var k := |s| - |r|;
    assert s[1..][k - 1..] == s[k..];
    forall i | 0 <= i < k
      ensures IsSpace(s[..k][i])
    {
      if i > 0 {
        assert s[..k][i] == s[1..][..k - 1][i - 1];
      }
    }
  }

  /** The start of the whitespace run that ends at `j`, looking no further back than `lo`. */
  function TrailStart(s: string, lo: nat, j: nat): (m: nat)
    requires lo <= j <= |s|
    ensures lo <= m <= j && (forall k :: m <= k < j ==> IsSpace(s[k])) && (m == lo || !IsSpace(s[m - 1]))
    decreases j
  {
    if lo < j && IsSpace(s[j - 1]) then TrailStart(s, lo, j - 1) else j
  }

  /** Neither end of `s` is whitespace. */
  predicate NoEdgeSpace(s: string) {
    s == [] || (!IsSpace(s[0]) && !IsSpace(s[|s| - 1]))
  }

  /** `s.strip()`: the text between its leading and its trailing whitespace runs. */
  function Strip(s: string): (r: string)
    ensures NoEdgeSpace(r)
    ensures exists a :: 0 <= a <= |s| - |r| && r == s[a..a + |r|] && AllSpace(s[..a]) && AllSpace(s[a + |r|..])
  {
    var a := SkipSpaces(s, 0);
    var m := TrailStart(s, a, |s|);
    assert AllSpace(s[..a]) && AllSpace(s[m..]);
    s[a..m]
  }

  /** Every whitespace character of `s` is a plain space, and none is followed by another. */
  predicate SingleSpaced(s: string) {
    forall i :: 0 <= i < |s| && IsSpace(s[i]) ==> s[i] == ' ' && (i + 1 < |s| ==> !IsSpace(s[i + 1]))
  }

  /** The characters of `s` that are not whitespace, in order. */
  function NonSpace(s: string): string {
    if s == [] then [] else (if IsSpace(s[0]) then [] else [s[0]]) + NonSpace(s[1..])
  }

  /** `re.sub(r"\s+", " ", s)`: every maximal whitespace run becomes one space. */
  function Collapse(s: string): (r: string)
    ensures r == [] <==> s == []
    ensures s != [] ==> (IsSpace(r[0]) <==> IsSpace(s[0]))
    ensures s != [] ==> (IsSpace(r[|r| - 1]) <==> IsSpace(s[|s| - 1]))
    decreases |s|
  {
    if s == [] then []
    else if IsSpace(s[0]) then
      var rest := DropSpaces(s);
      assert |rest| < |s|;
      [' '] + Collapse(rest)
    else
      [s[0]] + Collapse(s[1..])
  }

  lemma SingleSpacedCons(c: char, t: string)
    requires SingleSpaced(t)
    requires IsSpace(c) ==> c == ' ' && (t == [] || !IsSpace(t[0]))
    ensures SingleSpaced([c] + t)
  {
    var r := [c] + t;
    forall i | 0 <= i < |r| && IsSpace(r[i])
      ensures r[i] == ' ' && (i + 1 < |r| ==> !IsSpace(r[i + 1]))
    {
      if i > 0 {
        assert r[i] == t[i - 1];
      }
      if i + 1 < |r| {
        assert r[i + 1] == t[i];
      }
    }
  }

  /** Collapsing leaves no whitespace but single plain spaces. */
  lemma {:induction false} CollapseSingleSpaced(s: string)
    ensures SingleSpaced(Collapse(s))
    decreases |s|
  {
    if s != [] {
      if IsSpace(s[0]) {
        var rest := DropSpaces(s);
        CollapseSingleSpaced(rest);
        SingleSpacedCons(' ', Collapse(rest));
      } else {
        CollapseSingleSpaced(s[1..]);
        SingleSpacedCons(s[0], Collapse(s[1..]));
      }
    }
  }

  lemma {:induction false} DropSpacesNonSpace(s: string)
    ensures NonSpace(DropSpaces(s)) == NonSpace(s)
  {
    if s != [] && IsSpace(s[0]) {
      DropSpacesNonSpace(s[1..]);
    }
  }

  /** Collapsing keeps every character that is not whitespace, in order. */
  lemma {:induction false} CollapseKeepsText(s: string)
    ensures NonSpace(Collapse(s)) == NonSpace(s)
    decreases |s|
  {
    if s != [] {
      if IsSpace(s[0]) {
        var rest := DropSpaces(s);
        CollapseKeepsText(rest);
        DropSpacesNonSpace(s);
        assert ([' '] + Collapse(rest))[1..] == Collapse(rest);
      } else {
        CollapseKeepsText(s[1..]);
        assert ([s[0]] + Collapse(s[1..]))[1..] == Collapse(s[1..]);
      }
    }
  }

  lemma {:induction false} DropSpacesAppend(a: string, b: string)
    ensures DropSpaces(a) != [] ==> DropSpaces(a + b) == DropSpaces(a) + b
    ensures DropSpaces(a) == [] ==> DropSpaces(a + b) == DropSpaces(b)
  {
    if a == [] {
      assert a + b == b;
    } else if IsSpace(a[0]) {
      assert (a + b)[1..] == a[1..] + b;
      DropSpacesAppend(a[1..], b);
    }
  }

  /** Collapsing distributes over a concatenation whose two sides do not both have whitespace at the seam. */
  lemma {:induction false} CollapseAppend(a: string, b: string)
    requires a == [] || b == [] || !IsSpace(a[|a| - 1]) || !IsSpace(b[0])
    ensures Collapse(a + b) == Collapse(a) + Collapse(b)
    decreases |a|, 1
  {
    if a == [] {
      assert a + b == b;
    } else if !IsSpace(a[0]) {
      CollapseAppendWord(a, b);
    } else {
      CollapseAppendSpace(a, b);
    }
  }

  lemma {:induction false} CollapseAppendWord(a: string, b: string)
    requires a != [] && !IsSpace(a[0])
    requires b == [] || !IsSpace(a[|a| - 1]) || !IsSpace(b[0])
    ensures Collapse(a + b) == Collapse(a) + Collapse(b)
    decreases |a|, 0
  {
    CollapseWordHead(a + b);
    CollapseWordHead(a);
    assert (a + b)[0] == a[0] && (a + b)[1..] == a[1..] + b;
    CollapseAppend(a[1..], b);
    ConsAppend(a[0], Collapse(a[1..]), Collapse(b));
  }

  lemma CollapseWordHead(s: string)
    requires s != [] && !IsSpace(s[0])
    ensures Collapse(s) == [s[0]] + Collapse(s[1..])
  {
  }

  lemma {:induction false} CollapseAppendSpace(a: string, b: string)
    requires a != [] && IsSpace(a[0])
    requires b == [] || !IsSpace(a[|a| - 1]) || !IsSpace(b[0])
    ensures Collapse(a + b) == Collapse(a) + Collapse(b)
    decreases |a|, 0
  {
    var d := DropSpaces(a);
    DropSpacesAppend(a, b);
    CollapseSpaceHead(a, b);
    CollapseSpaceRun(a);
    if d == [] {
      CollapseAllSpaceAppend(a, b);
    } else {
      assert d[|d| - 1] == a[|a| - 1];
      CollapseAppend(d, b);
      SpaceThenAppend(Collapse(a + b), Collapse(a), Collapse(d), Collapse(b));
    }
  }

  lemma CollapseAllSpaceAppend(a: string, b: string)
    requires a != [] && IsSpace(a[0])
    requires b == [] || !IsSpace(a[|a| - 1]) || !IsSpace(b[0])
    requires DropSpaces(a) == []
    ensures Collapse(a + b) == Collapse(a) + Collapse(b)
  {
    DropSpacesAppend(a, b);
    LastIsSpace(a);
    DropSpacesNone(b);
    CollapseAllSpace(a);
    CollapseSpaceHeadRest(a, b);
  }

  lemma CollapseAllSpace(a: string)
    requires a != [] && IsSpace(a[0]) && DropSpaces(a) == []
    ensures Collapse(a) == [' ']
  {
  }

  lemma CollapseSpaceHeadRest(a: string, b: string)
    requires a != [] && IsSpace(a[0])
    requires DropSpaces(a + b) == b
    ensures Collapse(a + b) == [' '] + Collapse(b)
  {
    CollapseSpaceHead(a, b);
  }

  /** A text that starts with whitespace collapses to one space and the collapse of what follows the run. */
  lemma CollapseSpaceRun(a: string)
    requires a != [] && IsSpace(a[0])
    ensures Collapse(a) == [' '] + Collapse(DropSpaces(a))
  {
  }

  lemma CollapseSpaceHead(a: string, b: string)
    requires a != [] && IsSpace(a[0])
    ensures Collapse(a + b) == [' '] + Collapse(DropSpaces(a + b))
  {
    assert (a + b)[0] == a[0];
  }

  /** Regrouping a concatenation, kept apart from `Collapse` so that the solver does not unfold it while regrouping. */
  lemma SpaceThenAppend(ab: string, a: string, d: string, b: string)
    requires ab == [' '] + (d + b) && a == [' '] + d
    ensures ab == a + b
  {
  }

  lemma DropSpacesNone(b: string)
    requires b == [] || !IsSpace(b[0])
    ensures DropSpaces(b) == b
  {
  }

  lemma {:induction false} LastIsSpace(a: string)
    requires a != [] && DropSpaces(a) == []
    ensures IsSpace(a[|a| - 1])
  {
    assert IsSpace(a[0]);
    if |a| > 1 {
      LastIsSpace(a[1..]);
      assert a[1..][|a| - 2] == a[|a| - 1];
    }
  }

  /** A text without whitespace is left as it is. */
  lemma {:induction false} CollapseNoSpace(x: string)
    requires forall i :: 0 <= i < |x| ==> !IsSpace(x[i])
    ensures Collapse(x) == x
  {
    if x != [] {
      CollapseNoSpace(x[1..]);
    }
  }

  // ---------------------------------------------------------------------------
  // Volatile tokens: the three `re.sub(pattern, "", t)` passes

  /** The three patterns, in the order `normalize` applies them. */
  datatype Pattern =
    | Time       // \b\d{1,2}[:.]\d{2}(:\d{2})?\b
    | IsoDate    // \b\d{4}-\d{2}-\d{2}\b
    | SlashDate  // \b\d{1,2}[/-]\d{1,2}[/-]\d{2,4}\b

  /** A `\b` after a match whose last character is a digit: the text ends or a non-word character follows. */
  predicate BoundaryAt(s: string, e: nat) {
    e >= |s| || !IsWord(s[e])
  }

  predicate IsTimeSep(c: char) { c == ':' || c == '.' }

  predicate IsDateSep(c: char) { c == '/' || c == '-' }

  /** The number of consecutive digits from `i` on, counting no further than `cap`. */
  function DigitRun(s: string, i: nat, cap: nat): (n: nat)
    requires i <= |s|
    ensures n <= cap && i + n <= |s|
    ensures forall j :: i <= j < i + n ==> IsDigit(s[j])
    ensures n == cap || i + n == |s| || !IsDigit(s[i + n])
    decreases cap
  {
    if cap > 0 && i < |s| && IsDigit(s[i]) then 1 + DigitRun(s, i + 1, cap - 1) else 0
  }

  /**
   * The length of the time match at the start of `s`, which starts with a
   * digit after a `\b`; 0 when there is none. `\d{1,2}` gives back its
   * second digit only when that digit would have to be the separator, so
   * the hour has two digits exactly when the second character is a digit;
   * the optional seconds are tried first and dropped when the closing `\b`
   * fails after them.
   */
  function TimeLen(s: string): nat
    requires s != [] && IsDigit(s[0])
  {
    var h := if |s| > 1 && IsDigit(s[1]) then 2 else 1;
    if h + 3 <= |s| && IsTimeSep(s[h]) && IsDigit(s[h + 1]) && IsDigit(s[h + 2]) then
      var m := h + 3;
      if m + 3 <= |s| && s[m] == ':' && IsDigit(s[m + 1]) && IsDigit(s[m + 2]) && BoundaryAt(s, m + 3) then m + 3
      else if BoundaryAt(s, m) then m
      else 0
    else 0
  }

  /** The length of the ISO date match at the start of `s`; 0 when there is none. */
  function IsoLen(s: string): nat
    requires s != [] && IsDigit(s[0])
  {
    if && 10 <= |s| && IsDigit(s[1]) && IsDigit(s[2]) && IsDigit(s[3]) && s[4] == '-'
       && IsDigit(s[5]) && IsDigit(s[6]) && s[7] == '-' && IsDigit(s[8]) && IsDigit(s[9])
       && BoundaryAt(s, 10)
    then 10 else 0
  }

  /**
   * The length of the day/month/year match at the start of `s`; 0 when there
   * is none. Day and month take two digits exactly when two are there (as
   * for the hour); the year matches only when its whole run of digits is 2
   * to 4 long, since any shorter choice leaves a digit before the `\b`.
   */
  function SlashLen(s: string): nat
    requires s != [] && IsDigit(s[0])
  {
    var d := FieldLen(s, 0);
    if d + 2 <= |s| && IsDateSep(s[d]) && IsDigit(s[d + 1]) then YearEnd(s, d + 1 + FieldLen(s, d + 1))
    else 0
  }

  /** The width, 1 or 2, that `\d{1,2}` keeps for a field starting at `i` with a digit. */
  function FieldLen(s: string, i: nat): nat {
    if i + 1 < |s| && IsDigit(s[i + 1]) then 2 else 1
  }

  /** The end of a `[/-]\d{2,4}\b` match starting at `p`; 0 when there is none. */
  function YearEnd(s: string, p: nat): nat {
    if p < |s| && IsDateSep(s[p]) then
      var y := DigitRun(s, p + 1, 5);
      if 2 <= y <= 4 && BoundaryAt(s, p + 1 + y) then p + 1 + y else 0
    else 0
  }

  /**
   * The length of the match of `pat` at the start of `s`, 0 when there is
   * none; `afterWord` says whether the character before `s` in the whole
   * text is a word character, which decides the opening `\b`.
   */
  function MatchLen(pat: Pattern, afterWord: bool, s: string): (n: nat)
    ensures n <= |s|
    ensures n > 0 ==> !afterWord && IsDigit(s[0]) && IsDigit(s[n - 1]) && BoundaryAt(s, n)
  {
    if afterWord || s == [] || !IsDigit(s[0]) then 0
    else match pat
      case Time => TimeLen(s)
      case IsoDate => IsoLen(s)
      case SlashDate => SlashLen(s)
  }

  /**
   * `re.sub(pat, "", s)`, continued from some point of the text: the
   * leftmost match is removed and the scan resumes after it; a character
   * where no match starts is kept.
   */
  function Remove(pat: Pattern, afterWord: bool, s: string): (r: string)
    ensures |r| <= |s|
    decreases |s|
  {
    if s == [] then []
    else
      var n := MatchLen(pat, afterWord, s);
      if n > 0 then Remove(pat, IsWord(s[n - 1]), s[n..])
      else [s[0]] + Remove(pat, IsWord(s[0]), s[1..])
  }

  /** The three removal passes, on the collapsed text. */
  function RemoveVolatile(s: string): string {
    RemoveDates(Remove(Time, false, s))
  }

  /** The two date passes. */
  function RemoveDates(s: string): string {
    Remove(SlashDate, false, Remove(IsoDate, false, s))
  }

  /** `normalize(text)` */
  function Normalize(text: string): (r: string)
    ensures NoEdgeSpace(r)
  {
    Strip(RemoveVolatile(Collapse(text)))
  }

  /** `calc_hash(text)`: a digest of the normalized text; the digest itself (SHA-256, hex) is a parameter. */
  function CalcHash(digest: string -> string, text: string): string {
    digest(Normalize(text))
  }

  // ---------------------------------------------------------------------------
  // The strings each pattern matches as a whole

  predicate Digits(x: string, i: int, j: int) {
    0 <= i <= j <= |x| && forall k :: i <= k < j ==> IsDigit(x[k])
  }

  /** `H:MM` or `H:MM:SS` with an `h`-digit hour and `:` or `.` after it. */
  predicate TimeShape(x: string, h: int) {
    && 1 <= h <= 2 && (|x| == h + 3 || |x| == h + 6)
    && Digits(x, 0, h) && IsTimeSep(x[h]) && Digits(x, h + 1, h + 3)
    && (|x| == h + 6 ==> x[h + 3] == ':' && Digits(x, h + 4, h + 6))
  }

  predicate TimeToken(x: string) { TimeShape(x, 1) || TimeShape(x, 2) }

  /** `YYYY-MM-DD` */
  predicate IsoToken(x: string) {
    |x| == 10 && Digits(x, 0, 4) && x[4] == '-' && Digits(x, 5, 7) && x[7] == '-' && Digits(x, 8, 10)
  }

  /** `D/M/YY[YY]` with a `d`-digit day, an `e`-digit month and `/` or `-` as either separator. */
  predicate SlashShape(x: string, d: int, e: int) {
    && 1 <= d <= 2 && 1 <= e <= 2 && d + e + 4 <= |x| <= d + e + 6
    && Digits(x, 0, d) && IsDateSep(x[d]) && Digits(x, d + 1, d + 1 + e)
    && IsDateSep(x[d + 1 + e]) && Digits(x, d + e + 2, |x|)
  }

  predicate SlashToken(x: string) {
    SlashShape(x, 1, 1) || SlashShape(x, 1, 2) || SlashShape(x, 2, 1) || SlashShape(x, 2, 2)
  }

  predicate Token(pat: Pattern, x: string) {
    match pat
      case Time => TimeToken(x)
      case IsoDate => IsoToken(x)
      case SlashDate => SlashToken(x)
  }

  /** A time or date token that `normalize` treats as noise. */
  predicate Volatile(x: string) { TimeToken(x) || IsoToken(x) || SlashToken(x) }

  /** Empty, or ending in whitespace. */
  predicate SpaceEnded(s: string) { s == [] || IsSpace(s[|s| - 1]) }

  /** Empty, or starting with whitespace. */
  predicate SpaceLed(s: string) { s == [] || IsSpace(s[0]) }

  // ---------------------------------------------------------------------------
  // Locality: a match never reaches past whitespace

  lemma {:induction false} DigitRunLocal(a: string, b: string, i: nat, cap: nat)
    requires a != [] && IsSpace(a[|a| - 1]) && i < |a|
    ensures DigitRun(a + b, i, cap) == DigitRun(a, i, cap)
    decreases cap
  {
    if cap > 0 && IsDigit(a[i]) {
      assert i + 1 < |a|;
      DigitRunLocal(a, b, i + 1, cap - 1);
    }
  }

  lemma TimeLocal(a: string, b: string)
    requires a != [] && IsSpace(a[|a| - 1]) && IsDigit(a[0])
    ensures TimeLen(a + b) == TimeLen(a)
  {
  }

  lemma IsoLocal(a: string, b: string)
    requires a != [] && IsSpace(a[|a| - 1]) && IsDigit(a[0])
    ensures IsoLen(a + b) == IsoLen(a)
  {
  }

  lemma YearLocal(a: string, b: string, p: nat)
    requires a != [] && IsSpace(a[|a| - 1]) && p < |a|
    ensures YearEnd(a + b, p) == YearEnd(a, p)
  {
    if IsDateSep(a[p]) {
      DigitRunLocal(a, b, p + 1, 5);
    }
  }

  lemma SlashLocal(a: string, b: string)
    requires a != [] && IsSpace(a[|a| - 1]) && IsDigit(a[0])
    ensures SlashLen(a + b) == SlashLen(a)
  {
    var s := a + b;
    var d := FieldLen(a, 0);
    assert FieldLen(s, 0) == d;
    if d + 2 <= |a| && IsDateSep(a[d]) && IsDigit(a[d + 1]) {
      var e := FieldLen(a, d + 1);
      assert FieldLen(s, d + 1) == e;
      YearLocal(a, b, d + 1 + e);
    }
  }

  lemma MatchLocal(pat: Pattern, w: bool, a: string, b: string)
    requires a != [] && IsSpace(a[|a| - 1])
    ensures MatchLen(pat, w, a + b) == MatchLen(pat, w, a) < |a|
  {
    if !w && IsDigit(a[0]) {
      match pat
      case Time => TimeLocal(a, b);
      case IsoDate => IsoLocal(a, b);
      case SlashDate => SlashLocal(a, b);
    }
  }

  // ---------------------------------------------------------------------------
  // How one removal pass treats whitespace-separated pieces

  lemma RemoveKeep(pat: Pattern, w: bool, s: string)
    requires s != [] && MatchLen(pat, w, s) == 0
    ensures Remove(pat, w, s) == [s[0]] + Remove(pat, IsWord(s[0]), s[1..])
  {
  }

  lemma RemoveDrop(pat: Pattern, w: bool, s: string)
    requires s != [] && MatchLen(pat, w, s) > 0
    ensures var n := MatchLen(pat, w, s); Remove(pat, w, s) == Remove(pat, IsWord(s[n - 1]), s[n..])
  {
  }

  /** Whitespace ends every match, so a pass over `a + b` is a pass over `a` and then one over `b`. */
  lemma {:induction false} RemoveSplit(pat: Pattern, w: bool, a: string, b: string)
    requires a != [] && IsSpace(a[|a| - 1])
    ensures Remove(pat, w, a + b) == Remove(pat, w, a) + Remove(pat, false, b)
    decreases |a|, 1
  {
    MatchLocal(pat, w, a, b);
    if MatchLen(pat, w, a) > 0 {
      RemoveSplitDrop(pat, w, a, b);
    } else {
      RemoveSplitKeep(pat, w, a, b);
    }
  }

  lemma {:induction false} RemoveSplitDrop(pat: Pattern, w: bool, a: string, b: string)
    requires a != [] && IsSpace(a[|a| - 1])
    requires MatchLen(pat, w, a + b) == MatchLen(pat, w, a) > 0
    ensures Remove(pat, w, a + b) == Remove(pat, w, a) + Remove(pat, false, b)
    decreases |a|, 0
  {
    var s := a + b;
    var n := MatchLen(pat, w, a);
    assert n < |a|;
    assert s[n - 1] == a[n - 1];
    assert s[n..] == a[n..] + b;
    RemoveDrop(pat, w, s);
    RemoveDrop(pat, w, a);
    RemoveSplit(pat, IsWord(a[n - 1]), a[n..], b);
  }

  lemma {:induction false} RemoveSplitKeep(pat: Pattern, w: bool, a: string, b: string)
    requires a != [] && IsSpace(a[|a| - 1])
    requires MatchLen(pat, w, a + b) == MatchLen(pat, w, a) == 0
    ensures Remove(pat, w, a + b) == Remove(pat, w, a) + Remove(pat, false, b)
    decreases |a|, 0
  {
    RemoveKeepHead(pat, w, a, b);
    RemoveKeep(pat, w, a);
    if |a| == 1 {
      RemoveKeepLast(pat, w, a, b);
    } else {
      RemoveSplit(pat, IsWord(a[0]), a[1..], b);
      RemoveSplitJoin(pat, w, a, b);
    }
  }

  lemma RemoveSplitJoin(pat: Pattern, w: bool, a: string, b: string)
    requires |a| > 1
    requires Remove(pat, w, a + b) == [a[0]] + Remove(pat, IsWord(a[0]), a[1..] + b)
    requires Remove(pat, w, a) == [a[0]] + Remove(pat, IsWord(a[0]), a[1..])
    requires Remove(pat, IsWord(a[0]), a[1..] + b) == Remove(pat, IsWord(a[0]), a[1..]) + Remove(pat, false, b)
    ensures Remove(pat, w, a + b) == Remove(pat, w, a) + Remove(pat, false, b)
  {
    ConsJoin(Remove(pat, w, a + b), Remove(pat, w, a), a[0],
      Remove(pat, IsWord(a[0]), a[1..] + b), Remove(pat, IsWord(a[0]), a[1..]), Remove(pat, false, b));
  }

  /** Regrouping a concatenation, kept apart from `Remove` so that the solver does not unfold it while regrouping. */
  lemma ConsJoin(x: string, ra: string, c: char, y: string, z: string, rb: string)
    requires x == [c] + y && ra == [c] + z && y == z + rb
    ensures x == ra + rb
  {
  }

  /** A single whitespace character is kept and leaves the flag clear. */
  lemma RemoveKeepLast(pat: Pattern, w: bool, a: string, b: string)
    requires |a| == 1 && IsSpace(a[0])
    ensures Remove(pat, IsWord(a[0]), a[1..] + b) == Remove(pat, false, b)
    ensures Remove(pat, IsWord(a[0]), a[1..]) == []
  {
    assert !IsWord(a[0]);
    assert a[1..] == [];
    assert a[1..] + b == b;
  }

  /** Regrouping a concatenation, kept apart from `Collapse` so that the solver does not unfold it while regrouping. */
  lemma ConsAppend(c: char, t: string, u: string)
    ensures [c] + (t + u) == ([c] + t) + u
  {
  }

  lemma RemoveSplitAny(pat: Pattern, a: string, b: string)
    requires SpaceEnded(a)
    ensures Remove(pat, false, a + b) == Remove(pat, false, a) + Remove(pat, false, b)
  {
    if a == [] {
      RemoveEmptyLeft(pat, a, b);
    } else {
      RemoveSplit(pat, false, a, b);
    }
  }

  lemma RemoveEmptyLeft(pat: Pattern, a: string, b: string)
    requires a == []
    ensures Remove(pat, false, a + b) == Remove(pat, false, a) + Remove(pat, false, b)
  {
    assert a + b == b;
    assert Remove(pat, false, a) == [];
  }

  /** Before whitespace or the end of the text, the word flag makes no difference. */
  lemma FlagIrrelevant(pat: Pattern, w: bool, b: string)
    requires SpaceLed(b)
    ensures Remove(pat, w, b) == Remove(pat, false, b)
  {
  }

  /** A pass keeps trailing whitespace. */
  lemma {:induction false} RemoveSpaceEnded(pat: Pattern, w: bool, a: string)
    requires a != [] && IsSpace(a[|a| - 1])
    ensures SpaceEnded(Remove(pat, w, a)) && Remove(pat, w, a) != []
    decreases |a|, 1
  {
    if MatchLen(pat, w, a) > 0 {
      RemoveSpaceEndedDrop(pat, w, a);
    } else {
      RemoveSpaceEndedKeep(pat, w, a);
    }
  }

  lemma {:induction false} RemoveSpaceEndedDrop(pat: Pattern, w: bool, a: string)
    requires a != [] && IsSpace(a[|a| - 1]) && MatchLen(pat, w, a) > 0
    ensures SpaceEnded(Remove(pat, w, a)) && Remove(pat, w, a) != []
    decreases |a|, 0
  {
    var n := MatchLen(pat, w, a);
    RemoveDrop(pat, w, a);
    var rest := a[n..];
    assert rest[|rest| - 1] == a[|a| - 1];
    RemoveSpaceEnded(pat, IsWord(a[n - 1]), rest);
  }

  lemma {:induction false} RemoveSpaceEndedKeep(pat: Pattern, w: bool, a: string)
    requires a != [] && IsSpace(a[|a| - 1]) && MatchLen(pat, w, a) == 0
    ensures SpaceEnded(Remove(pat, w, a)) && Remove(pat, w, a) != []
    decreases |a|, 0
  {
    RemoveKeep(pat, w, a);
    var rest := a[1..];
    if rest != [] {
      assert rest[|rest| - 1] == a[|a| - 1];
      RemoveSpaceEnded(pat, IsWord(a[0]), rest);
      ConsSpaceEnded(a[0], Remove(pat, IsWord(a[0]), rest));
    }
  }

  lemma ConsSpaceEnded(c: char, t: string)
    requires t != [] && SpaceEnded(t)
    ensures SpaceEnded([c] + t)
  {
    assert ([c] + t)[|t|] == t[|t| - 1];
  }

  lemma RemoveSpaceEndedAny(pat: Pattern, a: string)
    requires SpaceEnded(a)
    ensures SpaceEnded(Remove(pat, false, a))
  {
    if a != [] {
      RemoveSpaceEnded(pat, false, a);
    }
  }

  /** A pass keeps leading whitespace. */
  lemma RemoveSpaceLed(pat: Pattern, w: bool, b: string)
    requires SpaceLed(b)
    ensures SpaceLed(Remove(pat, w, b))
  {
  }

  /** A whole token of the pass's own kind, followed by whitespace or the end, is removed. */
  lemma RemoveToken(pat: Pattern, x: string, b: string)
    requires Token(pat, x) && SpaceLed(b)
    ensures Remove(pat, false, x + b) == Remove(pat, false, b)
  {
    var s := x + b;
    TokenMatches(pat, x, b);
    assert s[|x|..] == b;
    FlagIrrelevant(pat, IsWord(x[|x| - 1]), b);
  }

  lemma TokenMatches(pat: Pattern, x: string, b: string)
    requires Token(pat, x) && SpaceLed(b)
    ensures x != [] && IsDigit(x[|x| - 1])
    ensures MatchLen(pat, false, x + b) == |x|
  {
    match pat
    case Time => TimeMatches(x, b);
    case IsoDate => IsoMatches(x, b);
    case SlashDate => SlashMatches(x, b);
  }

  lemma TimeMatches(x: string, b: string)
    requires TimeToken(x) && SpaceLed(b)
    ensures x != [] && IsDigit(x[|x| - 1])
    ensures IsDigit((x + b)[0]) && TimeLen(x + b) == |x|
  {
    var s := x + b;
    var h := if TimeShape(x, 1) then 1 else 2;
    assert s[h] == x[h] && s[h + 1] == x[h + 1] && s[h + 2] == x[h + 2];
    if |x| == h + 6 {
      assert s[h + 3] == x[h + 3] && s[h + 4] == x[h + 4] && s[h + 5] == x[h + 5];
    }
  }

  lemma IsoMatches(x: string, b: string)
    requires IsoToken(x) && SpaceLed(b)
    ensures x != [] && IsDigit(x[|x| - 1])
    ensures IsDigit((x + b)[0]) && IsoLen(x + b) == |x|
  {
  }

  /** Conversely, what a pass deletes is always a whole time or date token of its pattern. */
  lemma MatchIsToken(pat: Pattern, w: bool, s: string)
    ensures var n := MatchLen(pat, w, s); n > 0 ==> Token(pat, s[..n])
  {
    if MatchLen(pat, w, s) > 0 {
      match pat
      case Time => TimeLenToken(s);
      case IsoDate => IsoLenToken(s);
      case SlashDate => SlashLenToken(s);
    }
  }

  lemma TimeLenToken(s: string)
    requires s != [] && IsDigit(s[0]) && TimeLen(s) > 0
    ensures TimeToken(s[..TimeLen(s)])
  {
    var h := if |s| > 1 && IsDigit(s[1]) then 2 else 1;
    assert TimeShape(s[..TimeLen(s)], h);
  }

  lemma IsoLenToken(s: string)
    requires s != [] && IsDigit(s[0]) && IsoLen(s) > 0
    ensures IsoToken(s[..IsoLen(s)])
  {
  }

  lemma SlashLenToken(s: string)
    requires s != [] && IsDigit(s[0]) && SlashLen(s) > 0
    ensures SlashToken(s[..SlashLen(s)])
  {
    var d := FieldLen(s, 0);
    var e := FieldLen(s, d + 1);
    var n := SlashLen(s);
    var x := s[..n];
    assert n == YearEnd(s, d + 1 + e);
    assert SlashShape(x, d, e);
  }

  lemma {:induction false} DigitRunExact(s: string, i: nat, y: nat, cap: nat)
    requires Digits(s, i, i + y) && y <= cap && (i + y == |s| || !IsDigit(s[i + y]))
    ensures DigitRun(s, i, cap) == y
    decreases y
  {
    if y > 0 {
      DigitRunExact(s, i + 1, y - 1, cap - 1);
    }
  }

  lemma SlashMatches(x: string, b: string)
    requires SlashToken(x) && SpaceLed(b)
    ensures x != [] && IsDigit(x[|x| - 1])
    ensures IsDigit((x + b)[0]) && SlashLen(x + b) == |x|
  {
    if SlashShape(x, 1, 1) {
      SlashShapeMatches(x, b, 1, 1);
    } else if SlashShape(x, 1, 2) {
      SlashShapeMatches(x, b, 1, 2);
    } else if SlashShape(x, 2, 1) {
      SlashShapeMatches(x, b, 2, 1);
    } else {
      SlashShapeMatches(x, b, 2, 2);
    }
  }

  lemma SlashShapeMatches(x: string, b: string, d: int, e: int)
    requires SlashShape(x, d, e) && SpaceLed(b)
    ensures x != [] && IsDigit(x[|x| - 1])
    ensures IsDigit((x + b)[0]) && SlashLen(x + b) == |x|
  {
    SlashFields(x, b, d, e);
    SlashYear(x, b, d + 1 + e);
  }

  lemma SlashFields(x: string, b: string, d: int, e: int)
    requires SlashShape(x, d, e)
    ensures IsDigit((x + b)[0]) && SlashLen(x + b) == YearEnd(x + b, d + 1 + e)
  {
    var s := x + b;
    assert s[1] == x[1] && s[d] == x[d] && s[d + 1] == x[d + 1] && s[d + 2] == x[d + 2];
    assert FieldLen(s, 0) == d;
    assert FieldLen(s, d + 1) == e;
  }

  lemma SlashYear(x: string, b: string, p: int)
    requires 3 <= p <= 5 && p + 3 <= |x| <= p + 5
    requires IsDateSep(x[p]) && Digits(x, p + 1, |x|) && SpaceLed(b)
    ensures x != [] && IsDigit(x[|x| - 1])
    ensures YearEnd(x + b, p) == |x|
  {
    var s := x + b;
    assert s[p] == x[p];
    DigitRunExact(s, p + 1, |x| - p - 1, 5);
  }

  /** The word flag a scan over `x` carries at position `i`, having entered with `w`. */
  function FlagAt(w: bool, x: string, i: nat): bool
    requires i <= |x|
  {
    if i == 0 then w else IsWord(x[i - 1])
  }

  /** No match of `pat` starts anywhere inside `x` when `x` is followed by `b`. */
  predicate NoMatchIn(pat: Pattern, w: bool, x: string, b: string)
    decreases |x|
  {
    x == [] || (MatchLen(pat, w, x + b) == 0 && NoMatchIn(pat, IsWord(x[0]), x[1..], b))
  }

  /** `NoMatchIn` from the absence of a match at each position, from position `k` on. */
  lemma {:induction false} NoMatchSuffix(pat: Pattern, w: bool, x: string, b: string, k: nat)
    requires k <= |x|
    requires forall i :: k <= i < |x| ==> MatchLen(pat, FlagAt(w, x, i), x[i..] + b) == 0
    ensures NoMatchIn(pat, FlagAt(w, x, k), x[k..], b)
    decreases |x| - k
  {
    if k < |x| {
      NoMatchSuffix(pat, w, x, b, k + 1);
      assert x[k..][1..] == x[k + 1..];
    }
  }

  lemma NoMatchAll(pat: Pattern, w: bool, x: string, b: string)
    requires forall i :: 0 <= i < |x| ==> MatchLen(pat, FlagAt(w, x, i), x[i..] + b) == 0
    ensures NoMatchIn(pat, w, x, b)
  {
    NoMatchSuffix(pat, w, x, b, 0);
    assert x[0..] == x;
  }

  lemma RemoveKeepHead(pat: Pattern, w: bool, x: string, b: string)
    requires x != [] && MatchLen(pat, w, x + b) == 0
    ensures Remove(pat, w, x + b) == [x[0]] + Remove(pat, IsWord(x[0]), x[1..] + b)
  {
    RemoveKeep(pat, w, x + b);
    assert (x + b)[1..] == x[1..] + b;
  }

  /** Where no match starts, a pass keeps the text as it is. */
  lemma {:induction false} RemovePass(pat: Pattern, w: bool, x: string, b: string)
    requires NoMatchIn(pat, w, x, b)
    ensures Remove(pat, w, x + b) == x + Remove(pat, FlagAt(w, x, |x|), b)
    decreases |x|, 1
  {
    if x != [] {
      RemovePassCons(pat, w, x, b);
    } else {
      assert x + b == b;
    }
  }

  lemma {:induction false} RemovePassCons(pat: Pattern, w: bool, x: string, b: string)
    requires x != [] && NoMatchIn(pat, w, x, b)
    ensures Remove(pat, w, x + b) == x + Remove(pat, FlagAt(w, x, |x|), b)
    decreases |x|, 0
  {
    var f := FlagAt(w, x, |x|);
    RemoveKeepHead(pat, w, x, b);
    RemovePass(pat, IsWord(x[0]), x[1..], b);
    FlagAtTail(w, x);
    ConsTail(x, Remove(pat, f, b));
  }

  lemma FlagAtTail(w: bool, x: string)
    requires x != []
    ensures FlagAt(IsWord(x[0]), x[1..], |x| - 1) == FlagAt(w, x, |x|)
  {
    if |x| > 1 {
      assert x[1..][|x| - 2] == x[|x| - 1];
    }
  }

  lemma ConsTail(x: string, u: string)
    requires x != []
    ensures [x[0]] + (x[1..] + u) == x + u
  {
    assert x == [x[0]] + x[1..];
  }

  lemma TimeSkipsIso(x: string, b: string)
    requires IsoToken(x) && SpaceLed(b)
    ensures NoMatchIn(Time, false, x, b)
  {
    forall i | 0 <= i < |x|
      ensures MatchLen(Time, FlagAt(false, x, i), x[i..] + b) == 0
    {
      var t := x[i..] + b;
      if i == 0 || i == 5 || i == 8 {
        assert t[0] == x[i] && t[1] == x[i + 1];
        if i < 8 {
          assert t[2] == x[i + 2];
        }
      }
    }
    NoMatchAll(Time, false, x, b);
  }

  lemma TimeSkipsSlash(x: string, b: string, d: int, e: int)
    requires SlashShape(x, d, e) && SpaceLed(b)
    ensures NoMatchIn(Time, false, x, b)
  {
    var p := d + 1 + e;
    forall i | 0 <= i < |x|
      ensures MatchLen(Time, FlagAt(false, x, i), x[i..] + b) == 0
    {
      var t := x[i..] + b;
      if i == 0 || i == d + 1 {
        assert t[0] == x[i] && t[1] == x[i + 1] && t[2] == x[i + 2];
      } else if i == p + 1 {
        assert t[0] == x[i] && t[1] == x[i + 1];
        if i + 2 < |x| {
          assert t[2] == x[i + 2];
        }
      }
    }
    NoMatchAll(Time, false, x, b);
  }

  lemma IsoSkipsSlash(x: string, b: string, d: int, e: int)
    requires SlashShape(x, d, e) && SpaceLed(b)
    ensures NoMatchIn(IsoDate, false, x, b)
  {
    var p := d + 1 + e;
    forall i | 0 <= i < |x|
      ensures MatchLen(IsoDate, FlagAt(false, x, i), x[i..] + b) == 0
    {
      var t := x[i..] + b;
      if i == 0 || i == d + 1 {
        assert t[1] == x[i + 1] && t[2] == x[i + 2];
      } else if i == p + 1 {
        assert t[1] == x[i + 1];
        if i + 2 < |x| {
          assert t[2] == x[i + 2];
        }
        if b != [] {
          assert t[|x| - i] == b[0];
        }
      }
    }
    NoMatchAll(IsoDate, false, x, b);
  }

  lemma SlashShapeOf(x: string) returns (d: int, e: int)
    requires SlashToken(x)
    ensures SlashShape(x, d, e)
  {
    d := if SlashShape(x, 1, 1) || SlashShape(x, 1, 2) then 1 else 2;
    e := if SlashShape(x, 1, 1) || SlashShape(x, 2, 1) then 1 else 2;
  }

  /** A date token, followed by whitespace or the end, survives the time pass. */
  lemma TimeKeepsDate(x: string, b: string)
    requires (IsoToken(x) || SlashToken(x)) && SpaceLed(b)
    ensures Remove(Time, false, x + b) == x + Remove(Time, false, b)
  {
    if IsoToken(x) {
      TimeSkipsIso(x, b);
    } else {
      var d, e := SlashShapeOf(x);
      TimeSkipsSlash(x, b, d, e);
    }
    RemovePass(Time, false, x, b);
    FlagIrrelevant(Time, FlagAt(false, x, |x|), b);
  }

  /** A day/month/year token survives the ISO date pass. */
  lemma IsoKeepsSlash(x: string, b: string)
    requires SlashToken(x) && SpaceLed(b)
    ensures Remove(IsoDate, false, x + b) == x + Remove(IsoDate, false, b)
  {
    var d, e := SlashShapeOf(x);
    IsoSkipsSlash(x, b, d, e);
    RemovePass(IsoDate, false, x, b);
    FlagIrrelevant(IsoDate, FlagAt(false, x, |x|), b);
  }

  lemma RemoveDatesSplit(u: string, v: string)
    requires SpaceEnded(u)
    ensures RemoveDates(u + v) == RemoveDates(u) + RemoveDates(v)
  {
    RemoveSplitAny(IsoDate, u, v);
    RemoveSpaceEndedAny(IsoDate, u);
    RemoveSplitAny(SlashDate, Remove(IsoDate, false, u), Remove(IsoDate, false, v));
  }

  lemma RemoveDatesToken(x: string, v: string)
    requires (IsoToken(x) || SlashToken(x)) && SpaceLed(v)
    ensures RemoveDates(x + v) == RemoveDates(v)
  {
    if IsoToken(x) {
      RemoveToken(IsoDate, x, v);
    } else {
      IsoKeepsSlash(x, v);
      RemoveSpaceLed(IsoDate, false, v);
      RemoveToken(SlashDate, x, Remove(IsoDate, false, v));
    }
  }

  /** A whitespace-separated time or date token leaves no trace after the three passes. */
  lemma TokenVanishes(a: string, x: string, b: string)
    requires SpaceEnded(a) && Volatile(x) && SpaceLed(b)
    ensures RemoveVolatile(a + x + b) == RemoveVolatile(a) + RemoveVolatile(b)
  {
    var ta, tb := Remove(Time, false, a), Remove(Time, false, b);
    assert a + x + b == a + (x + b);
    RemoveSplitAny(Time, a, x + b);
    RemoveSpaceEndedAny(Time, a);
    RemoveSpaceLed(Time, false, b);
    if TimeToken(x) {
      RemoveToken(Time, x, b);
      RemoveDatesSplit(ta, tb);
    } else {
      TimeKeepsDate(x, b);
      RemoveDatesSplit(ta, x + tb);
      RemoveDatesToken(x, tb);
    }
  }

  lemma VolatileHasNoSpace(x: string)
    requires Volatile(x)
    ensures x != [] && !IsSpace(x[0]) && !IsSpace(x[|x| - 1])
    ensures forall i :: 0 <= i < |x| ==> !IsSpace(x[i])
  {
  }

  lemma CollapseWordThen(x: string, b: string)
    requires x != [] && forall i :: 0 <= i < |x| ==> !IsSpace(x[i])
    ensures Collapse(x + b) == x + Collapse(b)
  {
    CollapseAppend(x, b);
    CollapseNoSpace(x);
  }

  lemma CollapseThenWord(a: string, xb: string)
    requires SpaceEnded(a) && xb != [] && !IsSpace(xb[0])
    ensures Collapse(a + xb) == Collapse(a) + Collapse(xb)
  {
    CollapseAppend(a, xb);
  }

  lemma CollapseEnds(a: string, b: string)
    requires SpaceEnded(a) && SpaceLed(b)
    ensures SpaceEnded(Collapse(a)) && SpaceLed(Collapse(b))
  {
  }

  /** Collapsing whitespace leaves a word between whitespace where it was. */
  lemma CollapseAround(a: string, x: string, b: string)
    requires SpaceEnded(a) && SpaceLed(b)
    requires x != [] && forall i :: 0 <= i < |x| ==> !IsSpace(x[i])
    ensures Collapse(a + x + b) == Collapse(a) + x + Collapse(b)
    ensures SpaceEnded(Collapse(a)) && SpaceLed(Collapse(b))
  {
    var xb := x + b;
    Associative(a, x, b);
    assert xb[0] == x[0];
    CollapseThenWord(a, xb);
    CollapseWordThen(x, b);
    Associative(Collapse(a), x, Collapse(b));
    CollapseEnds(a, b);
  }

  /** Regrouping a concatenation, kept apart from `Collapse` so that the solver does not unfold it while regrouping. */
  lemma Associative(a: string, x: string, b: string)
    ensures a + x + b == a + (x + b)
  {
  }

  /**
   * Texts that differ only in one time or date token standing between
   * whitespace (or at either end) normalize equally.
   */
  lemma NormalizeIgnoresToken(a: string, x: string, y: string, b: string)
    requires SpaceEnded(a) && SpaceLed(b)
    requires Volatile(x) && Volatile(y)
    ensures Normalize(a + x + b) == Normalize(a + y + b)
  {
    VolatileHasNoSpace(x);
    VolatileHasNoSpace(y);
    CollapseAround(a, x, b);
    CollapseAround(a, y, b);
    TokenVanishes(Collapse(a), x, Collapse(b));
    TokenVanishes(Collapse(a), y, Collapse(b));
  }

  /** So their hashes are equal too, whatever the digest. */
  lemma CalcHashIgnoresToken(digest: string -> string, a: string, x: string, y: string, b: string)
    requires SpaceEnded(a) && SpaceLed(b)
    requires Volatile(x) && Volatile(y)
    ensures CalcHash(digest, a + x + b) == CalcHash(digest, a + y + b)
  {
    NormalizeIgnoresToken(a, x, y, b);
  }

  // ---------------------------------------------------------------------------
  // Worked examples

  /** `strip()` leaves a text without outer whitespace as it is. */
  lemma StripTrimmed(s: string)
    requires s == [] || (!IsSpace(s[0]) && !IsSpace(s[|s| - 1]))
    ensures Strip(s) == s
  {
    assert SkipSpaces(s, 0) == 0;
    assert TrailStart(s, 0, |s|) == |s|;
  }

  /** A pass over text without digits changes nothing. */
  lemma {:induction false} RemoveNoDigits(pat: Pattern, w: bool, s: string)
    requires forall i :: 0 <= i < |s| ==> !IsDigit(s[i])
    ensures Remove(pat, w, s) == s
    decreases |s|
  {
    if s != [] {
      RemoveKeep(pat, w, s);
      RemoveNoDigits(pat, IsWord(s[0]), s[1..]);
    }
  }

  lemma RemoveVolatileNoDigits(s: string)
    requires forall i :: 0 <= i < |s| ==> !IsDigit(s[i])
    ensures RemoveVolatile(s) == s
  {
    RemoveNoDigits(Time, false, s);
    RemoveNoDigits(IsoDate, false, s);
    RemoveNoDigits(SlashDate, false, s);
  }

  lemma CollapseOneSpace()
    ensures Collapse(" ") == " "
  {
  }

  /** A word followed by one space collapses to itself. */
  lemma CollapseWordSpace(x: string)
    requires x != [] && forall i :: 0 <= i < |x| ==> !IsSpace(x[i])
    ensures Collapse(x + " ") == x + " "
  {
    CollapseWordThen(x, " ");
    CollapseOneSpace();
  }

  /** One space followed by a word collapses to itself. */
  lemma CollapseSpaceWord(x: string)
    requires x != [] && forall i :: 0 <= i < |x| ==> !IsSpace(x[i])
    ensures Collapse(" " + x) == " " + x
  {
    CollapseSpaceHead(" ", x);
    DropSpacesNone(x);
    CollapseNoSpace(x);
  }

  lemma CollapseSpacesWord(y: string)
    requires y != [] && forall i :: 0 <= i < |y| ==> !IsSpace(y[i])
    ensures Collapse("  " + y) == " " + y
  {
    CollapseSpaceRun("  " + y);
    DropSpacesAppend("  ", y);
    DropSpacesNone(y);
    CollapseNoSpace(y);
  }

  /** Two spaces collapse to one. */
  lemma CollapseTwoSpaces(x: string, y: string)
    requires x != [] && forall i :: 0 <= i < |x| ==> !IsSpace(x[i])
    requires y != [] && forall i :: 0 <= i < |y| ==> !IsSpace(y[i])
    ensures Collapse(x + "  " + y) == x + " " + y
  {
    Associative(x, "  ", y);
    CollapseWordThen(x, "  " + y);
    CollapseSpacesWord(y);
    Associative(x, " ", y);
  }

  /** A word without digits, then a token: only the word is left. */
  lemma NormalizeWordToken(w: string, x: string)
    requires w != [] && forall i :: 0 <= i < |w| ==> !IsSpace(w[i]) && !IsDigit(w[i])
    requires Volatile(x)
    ensures Normalize(w + " " + x) == w
  {
    var a := w + " ";
    VolatileHasNoSpace(x);
    CollapseWordSpace(w);
    CollapseAround(a, x, []);
    assert a + x + [] == w + " " + x;
    TokenVanishes(a, x, []);
    RemoveVolatileNoDigits(a);
    RemoveVolatileNoDigits([]);
    assert a + [] == a;
    StripWordSpace(w);
  }

  lemma StripWordSpace(w: string)
    requires w != [] && forall i :: 0 <= i < |w| ==> !IsSpace(w[i])
    ensures Strip(w + " ") == w
  {
    var s := w + " ";
    assert SkipSpaces(s, 0) == 0;
    assert TrailStart(s, 0, |w|) == |w|;
    assert TrailStart(s, 0, |s|) == |w|;
    assert s[0..|w|] == w;
  }

  lemma CollapseWordsAround(v: string, x: string, w: string)
    requires v != [] && forall i :: 0 <= i < |v| ==> !IsSpace(v[i])
    requires w != [] && forall i :: 0 <= i < |w| ==> !IsSpace(w[i])
    requires x != [] && forall i :: 0 <= i < |x| ==> !IsSpace(x[i])
    ensures Collapse((v + " ") + x + (" " + w)) == (v + " ") + x + (" " + w)
  {
    CollapseWordSpace(v);
    CollapseSpaceWord(w);
    CollapseAround(v + " ", x, " " + w);
  }

  lemma VanishBetweenWords(v: string, x: string, w: string)
    requires v != [] && forall i :: 0 <= i < |v| ==> !IsDigit(v[i])
    requires w != [] && forall i :: 0 <= i < |w| ==> !IsDigit(w[i])
    requires Volatile(x)
    ensures RemoveVolatile((v + " ") + x + (" " + w)) == v + "  " + w
  {
    var a, b := v + " ", " " + w;
    TokenVanishes(a, x, b);
    RemoveVolatileNoDigits(a);
    RemoveVolatileNoDigits(b);
    assert a + b == v + "  " + w;
  }

  /** Two words around a token: both spaces stay. */
  lemma NormalizeAroundToken(v: string, x: string, w: string)
    requires v != [] && forall i :: 0 <= i < |v| ==> !IsSpace(v[i]) && !IsDigit(v[i])
    requires w != [] && forall i :: 0 <= i < |w| ==> !IsSpace(w[i]) && !IsDigit(w[i])
    requires Volatile(x)
    ensures Normalize(v + " " + x + " " + w) == v + "  " + w
  {
    var t := (v + " ") + x + (" " + w);
    assert t == v + " " + x + " " + w;
    VolatileHasNoSpace(x);
    CollapseWordsAround(v, x, w);
    VanishBetweenWords(v, x, w);
    StripTrimmed(v + "  " + w);
    assert Normalize(t) == Strip(RemoveVolatile(Collapse(t)));
  }

  /** Two words with two spaces between them: one space is left. */
  lemma NormalizeTwoSpaces(v: string, w: string)
    requires v != [] && forall i :: 0 <= i < |v| ==> !IsSpace(v[i]) && !IsDigit(v[i])
    requires w != [] && forall i :: 0 <= i < |w| ==> !IsSpace(w[i]) && !IsDigit(w[i])
    ensures Normalize(v + "  " + w) == v + " " + w
  {
    CollapseTwoSpaces(v, w);
    RemoveVolatileNoDigits(v + " " + w);
    StripTrimmed(v + " " + w);
  }

  /** The live clock in `"Available 14:32"` is dropped. */
  lemma NormalizeDropsClock(w: string, x: string)
    requires w == "Available" && x == "14:32"
    ensures Normalize(w + " " + x) == w
  {
    assert TimeShape(x, 2);
    NormalizeWordToken(w, x);
  }

  /** `"Available 14:32"` and `"Available 09:05"` have the same fingerprint. */
  lemma ClockDoesNotChangeHash(digest: string -> string, a: string, x: string, y: string)
    requires a == "Available " && x == "14:32" && y == "09:05"
    ensures CalcHash(digest, a + x) == CalcHash(digest, a + y)
  {
    assert TimeShape(x, 2) && TimeShape(y, 2);
    assert a + x + [] == a + x && a + y + [] == a + y;
    CalcHashIgnoresToken(digest, a, x, y, []);
  }

  /**
   * `normalize` is not idempotent: for `"a 1:00 b"` the space before and the
   * space after the removed token both stay, and only a second pass
   * collapses them.
   */
  lemma NormalizeNotIdempotent(v: string, x: string, w: string)
    requires v == "a" && x == "1:00" && w == "b"
    ensures Normalize(v + " " + x + " " + w) == v + "  " + w
    ensures Normalize(Normalize(v + " " + x + " " + w)) == v + " " + w
  {
    assert TimeShape(x, 1);
    NormalizeAroundToken(v, x, w);
    NormalizeTwoSpaces(v, w);
  }

  /**
   * A token that is only word-bounded, not whitespace-separated, can change
   * the fingerprint: after `"5."` the time pass swallows `"12:30"` together
   * with the `"5."` (as `5.12` followed by `:30`), but keeps the `"5."`
   * before `"9:05"`.
   */
  lemma TokenNeedsWhitespace(a: string, x: string, y: string)
    requires a == "5." && x == "12:30" && y == "9:05"
    ensures TimeToken(x) && TimeToken(y)
    ensures Normalize(a + x) == [] && Normalize(a + y) == a
  {
    assert TimeShape(x, 2) && TimeShape(y, 1);
    SwallowedAfterDot(a, x);
    KeptAfterDot(a, y);
  }

  lemma SwallowedAfterDot(a: string, x: string)
    requires a == "5." && x == "12:30"
    ensures Normalize(a + x) == []
  {
    var s := a + x;
    assert s[0] == '5' && s[1] == '.' && s[2] == '1' && s[3] == '2' && s[4] == ':' && s[5] == '3' && s[6] == '0' && |s| == 7;
    CollapseNoSpace(s);
    assert TimeLen(s) == 7;
    RemoveDrop(Time, false, s);
    assert s[7..] == [];
  }

  lemma KeptAfterDot(a: string, y: string)
    requires a == "5." && y == "9:05"
    ensures Normalize(a + y) == a
  {
    var t := a + y;
    assert forall i :: 0 <= i < |t| ==> !IsSpace(t[i]);
    CollapseNoSpace(t);
    TimePassKeepsDot(a, y);
    RemoveTimeDot(a);
    StripTrimmed(a);
  }

  /** In `"5.9:05"` the time pass finds no time at the `5`, keeps the `.`, and removes `9:05`. */
  lemma TimePassKeepsDot(a: string, y: string)
    requires a == "5." && y == "9:05"
    ensures Remove(Time, false, a + y) == a
  {
    var t := a + y;
    assert t[0] == '5' && t[1] == '.' && t[2] == '9' && t[3] == ':';
    assert TimeLen(t) == 0;
    RemoveKeep(Time, false, t);
    var u := t[1..];
    assert u[0] == '.' && u[1..] == y;
    RemoveKeep(Time, true, u);
    ClockVanishes(y);
  }

  lemma ClockVanishes(y: string)
    requires y == "9:05"
    ensures Remove(Time, false, y) == []
  {
    assert TimeLen(y) == 4;
    RemoveDrop(Time, false, y);
    assert y[4..] == [];
  }

  lemma RemoveTimeDot(a: string)
    requires a == "5."
    ensures RemoveDates(a) == a
  {
    RemoveNoDigitsAfter(IsoDate, a);
    RemoveNoDigitsAfter(SlashDate, a);
  }

  /** A digit followed by a non-digit that ends the text matches no date pattern. */
  lemma RemoveNoDigitsAfter(pat: Pattern, a: string)
    requires a == "5." && pat != Time
    ensures Remove(pat, false, a) == a
  {
    RemoveKeep(pat, false, a);
    assert a[1..] == ".";
    RemoveNoDigits(pat, true, a[1..]);
  }
}
