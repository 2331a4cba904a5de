/**
 * `has_availability` (check_pass.py:33-39): the calendar shows bookable days
 * unless its text carries one of the "no days" phrases, matched without
 * regard to case and with any run of whitespace between the words.
 */
module Availability {
  import opened Chars

  /** One alternative of the pattern, as its three lower-case words. */
  datatype Phrase = Phrase(w1: string, w2: string, w3: string)

  /** `geen\s+dagen\s+gevonden|geen\s+dagen\s+beschikbaar|no\s+days\s+found` */
  const NoDaysPhrases: seq<Phrase> := [
    Phrase("geen", "dagen", "gevonden"),
    Phrase("geen", "dagen", "beschikbaar"),
    Phrase("no", "days", "found")
  ]

  /** `t[i..]` starts with `w`, ignoring the case of `t`. */
  predicate StartsWithCI(t: string, i: nat, w: string) {
    i + |w| <= |t| && forall k :: 0 <= k < |w| ==> Lower(t[i + k]) == w[k]
  }

  /**
   * The alternative `p` matches at `i`. Each `\s+` is greedy and the word
   * after it starts with a letter, so the run it takes is the whole run of
   * whitespace: no backtracking can help.
   */
  predicate PhraseAt(t: string, i: nat, p: Phrase)
    requires i <= |t|
  {
    && StartsWithCI(t, i, p.w1)
    && var a := i + |p.w1|;
    && a < |t| && IsSpace(t[a])
    && var b := SkipSpaces(t, a);
    && StartsWithCI(t, b, p.w2)
    && var c := b + |p.w2|;
    && c < |t| && IsSpace(t[c])
    && StartsWithCI(t, SkipSpaces(t, c), p.w3)
  }

  /** Some alternative among `ps` matches at `i`. */
  predicate AnyPhraseAt(t: string, i: nat, ps: seq<Phrase>)
    requires i <= |t|
  {
    exists p {:trigger PhraseAt(t, i, p)} | p in ps :: PhraseAt(t, i, p)
  }

  /** `re.search` from index `i` on: some alternative among `ps` matches at some position `>= i`. */
  predicate SearchFrom(t: string, i: nat, ps: seq<Phrase>)
    requires i <= |t|
    decreases |t| - i
  {
    AnyPhraseAt(t, i, ps) || (i < |t| && SearchFrom(t, i + 1, ps))
  }

  /** `has_availability(text)` */
  predicate HasAvailability(text: string) {
    !SearchFrom(text, 0, NoDaysPhrases)
  }

  // ---------------------------------------------------------------------------
  // The phrase, stated without the matcher: three words at fixed positions,
  // separated by non-empty all-whitespace slices.

  ghost predicate Occurrence(t: string, p: Phrase, a: int, b: int, c: int) {
    && 0 <= a && a + |p.w1| < b && b + |p.w2| < c && c + |p.w3| <= |t|
    && LowerStr(t[a..a + |p.w1|]) == p.w1
    && AllSpace(t[a + |p.w1|..b])
    && LowerStr(t[b..b + |p.w2|]) == p.w2
    && AllSpace(t[b + |p.w2|..c])
    && LowerStr(t[c..c + |p.w3|]) == p.w3
  }

  /** The text says, in Dutch or English, that no days were found or are available. */
  ghost predicate MentionsNoDays(t: string) {
    exists p, a, b, c :: p in NoDaysPhrases && Occurrence(t, p, a, b, c)
  }

  /** Every word of the pattern is non-empty lower-case ASCII. */
  predicate LowerWord(w: string) {
    |w| > 0 && forall k :: 0 <= k < |w| ==> 'a' <= w[k] <= 'z'
  }

  lemma PatternWordsAreLower(p: Phrase)
    requires p in NoDaysPhrases
    ensures LowerWord(p.w1) && LowerWord(p.w2) && LowerWord(p.w3)
  {
  }

  lemma StartsWithCIIff(t: string, i: nat, w: string)
    requires i + |w| <= |t|
    ensures StartsWithCI(t, i, w) <==> LowerStr(t[i..i + |w|]) == w
  {
    if StartsWithCI(t, i, w) {
      assert LowerStr(t[i..i + |w|]) == w;
    }
  }

  /** A whitespace run that ends where a word begins is exactly the run `SkipSpaces` takes. */
  lemma SkipSpacesExact(t: string, j: nat, b: nat, w: string)
    requires j <= b && b + |w| <= |t|
    requires AllSpace(t[j..b])
    requires LowerWord(w) && StartsWithCI(t, b, w)
    ensures SkipSpaces(t, j) == b
  {
    assert !IsSpace(t[b]) by {
      assert Lower(t[b + 0]) == w[0];
    }
  }

  /** The run `SkipSpaces` takes is all whitespace, and non-empty when it starts on whitespace. */
  lemma SkipSpacesRun(t: string, j: nat)
    requires j <= |t|
    ensures AllSpace(t[j..SkipSpaces(t, j)])
    ensures j < |t| && IsSpace(t[j]) ==> SkipSpaces(t, j) > j
  {
    var r := SkipSpaces(t, j);
    forall k | 0 <= k < r - j
      ensures IsSpace(t[j..r][k])
    {
      assert t[j..r][k] == t[j + k];
    }
  }

  /** A match of `p` at `i` is an occurrence, with the two whitespace runs the matcher takes. */
  lemma PhraseAtOccurs(t: string, i: nat, p: Phrase) returns (b: nat, c: nat)
    requires i <= |t| && PhraseAt(t, i, p)
    ensures Occurrence(t, p, i, b, c)
  {
    var a' := i + |p.w1|;
    b := SkipSpaces(t, a');
    var c' := b + |p.w2|;
    c := SkipSpaces(t, c');
    SkipSpacesRun(t, a');
    SkipSpacesRun(t, c');
    OccurrenceFromStarts(t, p, i, b, c);
  }

  /** The three words where they start, and whitespace runs between them, make an occurrence. */
  lemma OccurrenceFromStarts(t: string, p: Phrase, a: nat, b: nat, c: nat)
    requires StartsWithCI(t, c, p.w3) && StartsWithCI(t, b, p.w2) && StartsWithCI(t, a, p.w1)
    requires a + |p.w1| < b && AllSpace(t[a + |p.w1|..b])
    requires b + |p.w2| < c && AllSpace(t[b + |p.w2|..c])
    ensures Occurrence(t, p, a, b, c)
  {
    WordOccurs(t, a, p.w1);
    WordOccurs(t, b, p.w2);
    WordOccurs(t, c, p.w3);
    OccurrenceIntro(t, p, a, b, c);
  }

  lemma OccurrenceIntro(t: string, p: Phrase, a: int, b: int, c: int)
    requires 0 <= a && a + |p.w1| < b && b + |p.w2| < c && c + |p.w3| <= |t|
    requires LowerStr(t[a..a + |p.w1|]) == p.w1
    requires AllSpace(t[a + |p.w1|..b])
    requires LowerStr(t[b..b + |p.w2|]) == p.w2
    requires AllSpace(t[b + |p.w2|..c])
    requires LowerStr(t[c..c + |p.w3|]) == p.w3
    ensures Occurrence(t, p, a, b, c)
  {
  }

  lemma WordOccurs(t: string, i: nat, w: string)
    requires StartsWithCI(t, i, w)
    ensures i + |w| <= |t| && LowerStr(t[i..i + |w|]) == w
  {
    StartsWithCIIff(t, i, w);
  }

  /** A non-empty all-whitespace slice starts with whitespace. */
  lemma SpaceRunStart(t: string, j: nat, k: nat)
    requires j < k <= |t| && AllSpace(t[j..k])
    ensures IsSpace(t[j])
  {
    assert t[j..k][0] == t[j];
  }

  lemma OccurrenceIsPhraseAt(t: string, p: Phrase, a: nat, b: nat, c: nat)
    requires LowerWord(p.w2) && LowerWord(p.w3)
    requires Occurrence(t, p, a, b, c)
    ensures PhraseAt(t, a, p)
  {
    var a' := a + |p.w1|;
    var c' := b + |p.w2|;
    StartsWithCIIff(t, a, p.w1);
    StartsWithCIIff(t, b, p.w2);
    StartsWithCIIff(t, c, p.w3);
    SpaceRunStart(t, a', b);
    SkipSpacesExact(t, a', b, p.w2);
    SpaceRunStart(t, c', c);
    SkipSpacesExact(t, c', c, p.w3);
    PhraseAtIntro(t, a, p, b, c);
  }

  lemma {:induction false} SearchFromIff(t: string, i: nat, ps: seq<Phrase>)
    requires i <= |t|
    ensures SearchFrom(t, i, ps) <==> exists j :: i <= j <= |t| && AnyPhraseAt(t, j, ps)
  {
    if SearchFrom(t, i, ps) {
      var j := SearchFound(t, i, ps);
    }
    if j :| i <= j <= |t| && AnyPhraseAt(t, j, ps) {
      SearchFinds(t, i, ps, j);
    }
  }

  /** A successful search has a position where a phrase matches. */
  lemma {:induction false} SearchFound(t: string, i: nat, ps: seq<Phrase>) returns (j: nat)
    requires i <= |t| && SearchFrom(t, i, ps)
    ensures i <= j <= |t| && AnyPhraseAt(t, j, ps)
    decreases |t| - i
  {
    if AnyPhraseAt(t, i, ps) {
      j := i;
    } else {
      j := SearchFound(t, i + 1, ps);
    }
  }

  /** The search finds every position where a phrase matches. */
  lemma {:induction false} SearchFinds(t: string, i: nat, ps: seq<Phrase>, j: nat)
    requires i <= j <= |t| && AnyPhraseAt(t, j, ps)
    ensures SearchFrom(t, i, ps)
    decreases j - i
  {
    if i < j {
      SearchFinds(t, i + 1, ps, j);
    }
  }

  /** `has_availability(text)` is false exactly when the text mentions one of the "no days" phrases. */
  lemma {:induction false} HasAvailabilityIff(t: string)
    ensures HasAvailability(t) <==> !MentionsNoDays(t)
  {
    if MentionsNoDays(t) {
      MentionHides(t);
    }
    if !HasAvailability(t) {
      MatchMentions(t);
    }
  }

  /** A mention of a "no days" phrase is found by the search. */
  lemma MentionHides(t: string)
    requires MentionsNoDays(t)
    ensures !HasAvailability(t)
  {
    var p, a, b, c :| p in NoDaysPhrases && Occurrence(t, p, a, b, c);
    PatternWordsAreLower(p);
    OccurrenceIsPhraseAt(t, p, a, b, c);
    assert AnyPhraseAt(t, a, NoDaysPhrases);
    SearchFinds(t, 0, NoDaysPhrases, a);
  }

  /** What the search finds is a mention of a "no days" phrase. */
  lemma MatchMentions(t: string)
    requires !HasAvailability(t)
    ensures MentionsNoDays(t)
  {
    var j := SearchFound(t, 0, NoDaysPhrases);
    var p, b, c := MatchOccurs(t, j, NoDaysPhrases);
  }

  /** A phrase that matches at `j` occurs there. */
  lemma MatchOccurs(t: string, j: nat, ps: seq<Phrase>) returns (p: Phrase, b: int, c: int)
    requires j <= |t| && AnyPhraseAt(t, j, ps)
    ensures p in ps && Occurrence(t, p, j, b, c)
  {
    p :| p in ps && PhraseAt(t, j, p);
    b, c := PhraseAtOccurs(t, j, p);
  }

  /** Builds a match of `p` at `i` from its three words and the two runs between them. */
  lemma PhraseAtIntro(t: string, i: nat, p: Phrase, b: nat, c: nat)
    requires StartsWithCI(t, i, p.w1) && i + |p.w1| < |t| && IsSpace(t[i + |p.w1|])
    requires SkipSpaces(t, i + |p.w1|) == b && StartsWithCI(t, b, p.w2)
    requires b + |p.w2| < |t| && IsSpace(t[b + |p.w2|])
    requires SkipSpaces(t, b + |p.w2|) == c && StartsWithCI(t, c, p.w3)
    ensures PhraseAt(t, i, p)
  {
  }

  lemma PhraseAtStartHidesDays(t: string, k: nat)
    requires k < |NoDaysPhrases| && PhraseAt(t, 0, NoDaysPhrases[k])
    ensures !HasAvailability(t)
  {
    assert AnyPhraseAt(t, 0, NoDaysPhrases);
  }

  lemma NoDaysWords(t: string)
    requires t == "Geen dagen gevonden."
    ensures StartsWithCI(t, 0, "geen") && StartsWithCI(t, 5, "dagen") && StartsWithCI(t, 11, "gevonden")
  {
  }

  lemma NoDaysSpaces(t: string)
    requires t == "Geen dagen gevonden."
    ensures IsSpace(t[4]) && IsSpace(t[10])
    ensures SkipSpaces(t, 4) == 5 && SkipSpaces(t, 10) == 11
  {
    assert !IsSpace(t[5]) && !IsSpace(t[11]);
  }

  /** A calendar page that says no days were found. */
  lemma NoDaysExample(t: string)
    requires t == "Geen dagen gevonden."
    ensures !HasAvailability(t)
  {
    NoDaysWords(t);
    NoDaysSpaces(t);
    PhraseAtIntro(t, 0, NoDaysPhrases[0], 5, 11);
    PhraseAtStartHidesDays(t, 0);
  }

  /** A page listing open slots shows availability. */
  lemma SlotsExample(t: string)
    requires t == "3 slots open"
    ensures HasAvailability(t)
  {
    HasAvailabilityIff(t);
  }
}
