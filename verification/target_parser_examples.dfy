/**
 * Worked inputs for the target parser, each derived from the regex
 * semantics in `TargetParser` (leftmost match, alternatives tried in the
 * listed order, greedy repetition) rather than by running the scanners.
 * They pin down the behaviours users of the app actually see, including
 * the surprising ones: "lose weight" asks for eight units and a bare
 * "seventeen" reads as seven units of "teen".
 *
 * Each example takes its text as a parameter `s` with `requires s == "…"`
 * rather than writing the literal into the `ensures`: with a literal there,
 * the solver unfolds `Parse` and its scanners on it eagerly and runs out of
 * resources, while a parameter lets the proof go through the rule lemmas.
 */
module TargetParserExamples {
  import opened TargetParser

  /** The first three letters of `s` from `i`, upper-cased. */
  function Head(s: string, i: nat): string
    requires i + 3 <= |s|
  {
    [AsciiUpper(s[i]), AsciiUpper(s[i + 1]), AsciiUpper(s[i + 2])]
  }

  const Heads: set<string> := {"ONE", "TWO", "THR", "FOU", "FIV", "SIX", "SEV", "EIG", "NIN",
                               "TEN", "ELE", "TWE", "THI", "FIF", "FOR", "HUN"}

  lemma AlternationHeads()
    ensures forall a | 0 <= a < |Alternation| :: |Alternation[a]| >= 3 && Head(Alternation[a], 0) in Heads
  {
  }

  lemma HeadOfMatch(s: string, i: nat, w: string)
    requires WordAt(s, i, w) && |w| >= 3
    ensures i + 3 <= |s| && Head(s, i) == Head(w, 0)
  {
    assert SameIgnoringCase(s[i], w[0]);
    assert SameIgnoringCase(s[i + 1], w[1]);
    assert SameIgnoringCase(s[i + 2], w[2]);
  }

  lemma DigitChosenWhenFirst(s: string, i: nat, j: nat, k: nat)
    requires DigitMatch(s, i, j, k)
    requires forall n | 0 <= n < i :: !IsDigit(s[n])
    requires j == DigitRunEnd(s, i)
    ensures DigitChosen(s, i, j, k)
  {
    DigitMatchIsBounded(s, i, j, k);
    forall i': nat, j': nat, k': nat | DigitMatch(s, i', j', k')
      ensures i < i' || (i == i' && (j' < j || (j' == j && k' <= k)))
    {
      DigitMatchIsBounded(s, i', j', k');
    }
  }

  lemma NoDigitMatch(s: string)
    requires forall n | 0 <= n < |s| :: !IsDigit(s[n])
    ensures forall i: nat, j: nat, k: nat :: !DigitMatch(s, i, j, k)
  {
    forall i: nat, j: nat, k: nat ensures !DigitMatch(s, i, j, k) {
      assert i < j <= |s| ==> s[i..j][0] == s[i];
    }
  }

  /** Every alternative that matches at `i` starts with one of the known heads. */
  lemma MatchHasHead(s: string, i: nat, a: nat)
    requires a < |Alternation|
    ensures WordAt(s, i, Alternation[a]) ==> i + 3 <= |s| && Head(s, i) == Head(Alternation[a], 0) && Head(s, i) in Heads
  {
    AlternationHeads();
    if WordAt(s, i, Alternation[a]) {
      HeadOfMatch(s, i, Alternation[a]);
    }
  }

  lemma WordChosenWhenFirst(s: string, i: nat, a: nat, k: nat)
    requires WordMatch(Alternation, s, i, a, k)
    requires forall i' | 0 <= i' < i && i' + 3 <= |s| :: Head(s, i') !in Heads
    requires forall a', k' | 0 <= a' < a :: !WordMatch(Alternation, s, i, a', k')
    ensures WordChosen(Alternation, s, i, a, k)
  {
    forall i': nat, a': nat, k': nat | WordMatch(Alternation, s, i', a', k')
      ensures i < i' || (i == i' && (a < a' || (a == a' && k' <= k)))
    {
      MatchHasHead(s, i', a');
      if i' == i && a' == a {
        TailIsUnique(s, i + |Alternation[a]|, k);
        TailIsUnique(s, i + |Alternation[a]|, k');
      }
    }
  }

  lemma NoWordMatch(s: string)
    requires forall i | 0 <= i && i + 3 <= |s| :: Head(s, i) !in Heads
    ensures forall i: nat, a: nat, k: nat :: !WordMatch(Alternation, s, i, a, k)
  {
    forall i: nat, a: nat, k: nat ensures !WordMatch(Alternation, s, i, a, k) {
      if a < |Alternation| {
        MatchHasHead(s, i, a);
      }
    }
  }

  // ---- digit rule ----

  lemma ReadTenBooksChosen(s: string)
    requires s == "read 10 books"
    ensures DigitChosen(s, 5, 7, 8)
  {
    assert DigitRunEnd(s, 7) == 7;
    assert DigitRunEnd(s, 5) == 7;
    assert AllWordChars(s[8..]);
    DigitChosenWhenFirst(s, 5, 7, 8);
  }

  /** A number and a unit: "read 10 books" asks for 10 books. */
  lemma ReadTenBooks(s: string)
    requires s == "read 10 books"
    ensures Parse(s) == Target(10, "books")
  {
    ReadTenBooksChosen(s);
    DigitRule(s, 5, 7, 8);
    assert s[5..7] == "10" && DigitsValue("10") == 10 * DigitsValue("1") + 0;
    assert s[8..] == "books";
  }

  lemma RunFiveChosen(s: string)
    requires s == "run 5"
    ensures DigitChosen(s, 4, 5, 5)
  {
    assert DigitRunEnd(s, 5) == 5;
    assert DigitRunEnd(s, 4) == 5;
    assert AllWordChars(s[5..]);
    DigitChosenWhenFirst(s, 4, 5, 5);
  }

  /** A number at the very end: no unit. */
  lemma RunFive(s: string)
    requires s == "run 5"
    ensures Parse(s) == Target(5, "")
  {
    RunFiveChosen(s);
    DigitRule(s, 4, 5, 5);
    assert s[4..5] == "5" && DigitsValue("5") == 10 * DigitsValue("") + 5;
    assert s[5..] == "";
  }

  lemma ReadZeroBooksChosen(s: string)
    requires s == "read 0 books"
    ensures DigitChosen(s, 5, 6, 7)
  {
    assert DigitRunEnd(s, 6) == 6;
    assert DigitRunEnd(s, 5) == 6;
    assert AllWordChars(s[7..]);
    DigitChosenWhenFirst(s, 5, 6, 7);
  }

  /** A zero passes through unchanged: the fallback to 1 applies only to words. */
  lemma ReadZeroBooks(s: string)
    requires s == "read 0 books"
    ensures Parse(s) == Target(0, "books")
  {
    ReadZeroBooksChosen(s);
    DigitRule(s, 5, 6, 7);
    assert s[5..6] == "0";
    assert s[7..] == "books";
  }

  lemma FirstOfTwoNumbersChosen(s: string)
    requires s == "abc 12 34"
    ensures DigitChosen(s, 4, 6, 7)
  {
    assert DigitRunEnd(s, 6) == 6;
    assert DigitRunEnd(s, 4) == 6;
    assert AllWordChars(s[7..]);
    DigitChosenWhenFirst(s, 4, 6, 7);
  }

  /** The leftmost number wins and a trailing number becomes the unit. */
  lemma FirstOfTwoNumbers(s: string)
    requires s == "abc 12 34"
    ensures Parse(s) == Target(12, "34")
  {
    FirstOfTwoNumbersChosen(s);
    DigitRule(s, 4, 6, 7);
    assert s[4..6] == "12" && DigitsValue("12") == 10 * DigitsValue("1") + 2;
    assert s[7..] == "34";
  }

  // ---- default ----

  /** No number at all: one unit with no name. */
  lemma Meditate(s: string)
    requires s == "meditate"
    ensures Parse(s) == Target(1, "")
  {
    NoDigitMatch(s);
    NoWordMatch(s);
    DefaultRule(s);
  }

  /** Punctuation after the unit defeats both rules. */
  lemma TrailingPunctuation(s: string)
    requires s == "read 10 books!"
    ensures Parse(s) == Target(1, "")
  {
    assert forall i | 0 <= i < |s| && IsDigit(s[i]) :: i == 5 || i == 6;
    assert DigitRunEnd(s, 7) == 7 && DigitRunEnd(s, 6) == 7 && DigitRunEnd(s, 5) == 7;
    assert SkipSpaces(s, 8) == 8 && SkipSpaces(s, 7) == 8;
    assert !IsWordChar(s[8..][5]);
    forall i: nat, j: nat, k: nat ensures !DigitMatch(s, i, j, k) {
      if i < |s| {
        DigitMatchesAt(s, i);
      }
    }
    NoWordMatch(s);
    DefaultRule(s);
  }

  // ---- word rule ----

  lemma LoseWeightNoDigits()
    ensures forall i: nat, j: nat, k: nat :: !DigitMatch("lose weight", i, j, k)
  {
    NoDigitMatch("lose weight");
  }

  lemma LoseWeightChosen()
    ensures WordChosen(Alternation, "lose weight", 6, 7, 11)
  {
    var s := "lose weight";
    AlternationHeads();
    forall a', k' | 0 <= a' < 7 ensures !WordMatch(Alternation, s, 6, a', k') {
      if WordAt(s, 6, Alternation[a']) {
        HeadOfMatch(s, 6, Alternation[a']);
      }
    }
    WordChosenWhenFirst(s, 6, 7, 11);
  }

  /** The table entries the examples below land on. */
  lemma WordValues()
    ensures NumberWords[Alternation[6]] == 7 && NumberWords[Alternation[7]] == 8
    ensures NumberWords[Alternation[9]] == 10 && NumberWords[Alternation[16]] == 17
  {
  }

  lemma LoseWeightByRule(s: string)
    requires s == "lose weight"
    ensures Parse(s) == Target(NumberWords[Alternation[7]], s[11..])
  {
    LoseWeightNoDigits();
    LoseWeightChosen();
    WordRule(s, 6, 7, 11);
  }

  /** "weight" contains "eight", so the goal is eight units with no name. */
  lemma LoseWeight(s: string)
    requires s == "lose weight"
    ensures Parse(s) == Target(8, "")
  {
    LoseWeightByRule(s);
    WordValues();
    assert s[11..] == "";
  }

  lemma ReadTenWordChosen(s: string)
    requires s == "read ten books"
    ensures WordChosen(Alternation, s, 5, 9, 9)
  {
    AlternationHeads();
    forall a', k' | 0 <= a' < 9 ensures !WordMatch(Alternation, s, 5, a', k') {
      MatchHasHead(s, 5, a');
    }
    assert AllWordChars(s[9..]);
    assert WordAt(s, 5, Alternation[9]);
    WordChosenWhenFirst(s, 5, 9, 9);
  }

  lemma ReadTenWordByRule(s: string)
    requires s == "read ten books"
    ensures Parse(s) == Target(NumberWords[Alternation[9]], s[9..])
  {
    NoDigitMatch(s);
    ReadTenWordChosen(s);
    WordRule(s, 5, 9, 9);
  }

  /** A number word and a unit. */
  lemma ReadTenWord(s: string)
    requires s == "read ten books"
    ensures Parse(s) == Target(10, "books")
  {
    ReadTenWordByRule(s);
    WordValues();
    assert s[9..] == "books";
  }

  lemma ShoutedTenChosen(s: string)
    requires s == "READ Ten Books"
    ensures WordChosen(Alternation, s, 5, 9, 9)
  {
    forall a', k' | 0 <= a' < 9 ensures !WordMatch(Alternation, s, 5, a', k') {
      MatchHasHead(s, 5, a');
    }
    assert AllWordChars(s[9..]);
    assert WordAt(s, 5, Alternation[9]);
    WordChosenWhenFirst(s, 5, 9, 9);
  }

  lemma ShoutedTenByRule(s: string)
    requires s == "READ Ten Books"
    ensures Parse(s) == Target(NumberWords[Alternation[9]], s[9..])
  {
    NoDigitMatch(s);
    ShoutedTenChosen(s);
    WordRule(s, 5, 9, 9);
  }

  /** Number words match in any case, and the unit keeps the case it was
      typed in. */
  lemma ShoutedTen(s: string)
    requires s == "READ Ten Books"
    ensures Parse(s) == Target(10, "Books")
  {
    ShoutedTenByRule(s);
    WordValues();
    assert s[9..] == "Books";
  }

  lemma SeventeenAloneChosen(s: string)
    requires s == "read seventeen"
    ensures WordChosen(Alternation, s, 5, 6, 10)
  {
    AlternationHeads();
    forall a', k' | 0 <= a' < 6 ensures !WordMatch(Alternation, s, 5, a', k') {
      MatchHasHead(s, 5, a');
    }
    assert AllWordChars(s[10..]);
    assert WordAt(s, 5, Alternation[6]);
    WordChosenWhenFirst(s, 5, 6, 10);
  }

  lemma SeventeenAloneByRule(s: string)
    requires s == "read seventeen"
    ensures Parse(s) == Target(NumberWords[Alternation[6]], s[10..])
  {
    NoDigitMatch(s);
    SeventeenAloneChosen(s);
    WordRule(s, 5, 6, 10);
  }

  /** "seven" is listed before "seventeen" and its tail "teen" is a word,
      so a bare "seventeen" reads as seven units of "teen". */
  lemma SeventeenAlone(s: string)
    requires s == "read seventeen"
    ensures Parse(s) == Target(7, "teen")
  {
    SeventeenAloneByRule(s);
    WordValues();
    assert s[10..] == "teen";
  }

  lemma SeventeenBooksNotSeven(s: string)
    requires s == "read seventeen books"
    ensures forall k' :: !WordMatch(Alternation, s, 5, 6, k')
  {
    assert SkipSpaces(s, 10) == 10 && !IsWordChar(s[10..][4]);
    AlternativeFailsAt(Alternation, s, 5, 6);
  }

  lemma SeventeenBooksOtherHeads(s: string)
    requires s == "read seventeen books"
    ensures forall a', k' | 0 <= a' < 16 && a' != 6 :: !WordMatch(Alternation, s, 5, a', k')
  {
    AlternationHeads();
    forall a', k' | 0 <= a' < 16 && a' != 6 ensures !WordMatch(Alternation, s, 5, a', k') {
      MatchHasHead(s, 5, a');
    }
  }

  lemma SeventeenBooksChosen(s: string)
    requires s == "read seventeen books"
    ensures WordChosen(Alternation, s, 5, 16, 15)
  {
    SeventeenBooksNotSeven(s);
    SeventeenBooksOtherHeads(s);
    assert AllWordChars(s[15..]);
    assert WordAt(s, 5, Alternation[16]);
    WordChosenWhenFirst(s, 5, 16, 15);
  }

  lemma SeventeenBooksByRule(s: string)
    requires s == "read seventeen books"
    ensures Parse(s) == Target(NumberWords[Alternation[16]], s[15..])
  {
    NoDigitMatch(s);
    SeventeenBooksChosen(s);
    WordRule(s, 5, 16, 15);
  }

  /** With a unit after it, "seven" cannot end the match and "seventeen" is found. */
  lemma SeventeenBooks(s: string)
    requires s == "read seventeen books"
    ensures Parse(s) == Target(17, "books")
  {
    SeventeenBooksByRule(s);
    WordValues();
    assert s[15..] == "books";
  }
}
