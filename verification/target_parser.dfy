/**
 The target parser of the home page: free text such as "read 10 books" is
 turned into a numeric total and a unit by two regular expressions, tried in
 order,

   /(\d+)\s*(\w+)?$/                       the digit rule
   /(one|two|...|ninety|hundred)\s*(\w+)?$/i  the word rule

 and a fallback of total 1 with an empty unit.

 The regular expressions are modelled as a specification: `DigitMatch` and
 `WordMatch` describe every way a regex can match, and `DigitChosen` and
 `WordChosen` single out the match a backtracking engine reports (leftmost
 start first, then the alternatives in priority order). The scanners
 `FindDigitMatch` and `FindWordMatch` are proved to find exactly that match.
 */
module TargetParser {
  import opened Wrappers

  /** What the parser derives from a target text. */
  datatype Target = Target(total: nat, unit: string)

  /** The positions of a digit-rule match: the digits are `s[start..stop]`,
      the unit is `s[unitStart..]`. */
  datatype DigitSpan = DigitSpan(start: nat, stop: nat, unitStart: nat)

  /** The positions of a word-rule match: number word `Alternation[alt]`
      begins at `start`, the unit is `s[unitStart..]`. */
  datatype WordSpan = WordSpan(start: nat, alt: nat, unitStart: nat)

  // ---------------------------------------------------------------------
  // Character classes of ECMAScript regular expressions without the u flag
  // ---------------------------------------------------------------------

  /** `\d` */
  predicate IsDigit(c: char) {
    '0' <= c <= '9'
  }

  /** `\w`: ASCII letters, digits and the underscore. */
  predicate IsWordChar(c: char) {
    'a' <= c <= 'z' || 'A' <= c <= 'Z' || IsDigit(c) || c == '_'
  }

  /** `\s`: the WhiteSpace and LineTerminator code points of ECMAScript. */
  predicate IsSpace(c: char) {
    || c == '\t' || c == '\n' || c == '\U{000B}' || c == '\U{000C}' || c == '\r'
    || c == ' ' || c == '\U{00A0}' || c == '\U{1680}'
    || ('\U{2000}' <= c <= '\U{200A}')
    || c == '\U{2028}' || c == '\U{2029}' || c == '\U{202F}' || c == '\U{205F}'
    || c == '\U{3000}' || c == '\U{FEFF}'
  }

  predicate AllDigits(s: string) {
    forall n | 0 <= n < |s| :: IsDigit(s[n])
  }

  predicate AllSpaces(s: string) {
    forall n | 0 <= n < |s| :: IsSpace(s[n])
  }

  predicate AllWordChars(s: string) {
    forall n | 0 <= n < |s| :: IsWordChar(s[n])
  }

  /** Upper-casing as the case-insensitive comparison sees it: without the u
      flag a character that upper-cases to ASCII from outside ASCII keeps
      itself, so only the ASCII letters fold. */
  function AsciiUpper(c: char): char {
    if 'a' <= c <= 'z' then (c as int - 32) as char else c
  }

  /** `toLowerCase` on the characters a number word can match. */
  function AsciiLower(c: char): char {
    if 'A' <= c <= 'Z' then (c as int + 32) as char else c
  }

  function LowerCase(s: string): (r: string)
    ensures |r| == |s|
    ensures forall n | 0 <= n < |s| :: r[n] == AsciiLower(s[n])
  {
    seq(|s|, n requires 0 <= n < |s| => AsciiLower(s[n]))
  }

  /** The `i` flag's comparison of an input character with a pattern one. */
  predicate SameIgnoringCase(c: char, p: char) {
    AsciiUpper(c) == AsciiUpper(p)
  }

  // ---------------------------------------------------------------------
  // The common tail `\s*(\w+)?$`
  // ---------------------------------------------------------------------

  /** `\s*(\w+)?$` matches `s[j..]` with the unit group beginning at `k`. */
  predicate TailAt(s: string, j: nat, k: nat) {
    j <= k <= |s| && AllSpaces(s[j..k]) && AllWordChars(s[k..])
  }

  /** The end of the longest run of whitespace beginning at `j`. */
  function SkipSpaces(s: string, j: nat): (k: nat)
    requires j <= |s|
    ensures j <= k <= |s| && AllSpaces(s[j..k])
    ensures k < |s| ==> !IsSpace(s[k])
    decreases |s| - j
  {
    if j < |s| && IsSpace(s[j]) then
      var k := SkipSpaces(s, j + 1);
      assert forall n | 0 < n < k - j :: s[j..k][n] == s[j + 1..k][n - 1];
      k
    else j
  }

  /** The tail splits in one way only: whitespace and word characters are
      disjoint, so the unit starts where the whitespace run ends. */
  lemma TailIsUnique(s: string, j: nat, k: nat)
    requires TailAt(s, j, k)
    ensures k == SkipSpaces(s, j)
  {
    var k0 := SkipSpaces(s, j);
    assert k < k0 ==> IsSpace(s[j..k0][k - j]) && IsWordChar(s[k..][0]);
  }

  lemma TailSplitsOnce(s: string, j: nat)
    requires j <= |s|
    ensures forall k: nat | TailAt(s, j, k) :: k == SkipSpaces(s, j)
  {
    forall k: nat | TailAt(s, j, k) ensures k == SkipSpaces(s, j) {
      TailIsUnique(s, j, k);
    }
  }

  // ---------------------------------------------------------------------
  // The digit rule `(\d+)\s*(\w+)?$`
  // ---------------------------------------------------------------------

  /** One way the digit rule can match: digits `s[i..j]`, unit `s[k..]`. */
  predicate DigitMatch(s: string, i: nat, j: nat, k: nat) {
    i < j <= |s| && AllDigits(s[i..j]) && TailAt(s, j, k)
  }

  /** The match the engine reports: the leftmost start, then the longest
      digit run (greedy `\d+`), then the longest whitespace run. */
  ghost predicate DigitChosen(s: string, i: nat, j: nat, k: nat) {
    && DigitMatch(s, i, j, k)
    && forall i': nat, j': nat, k': nat | DigitMatch(s, i', j', k') ::
         i < i' || (i == i' && (j' < j || (j' == j && k' <= k)))
  }

  /** The end of the longest run of digits beginning at `i`. */
  function DigitRunEnd(s: string, i: nat): (j: nat)
    requires i <= |s|
    ensures i <= j <= |s| && AllDigits(s[i..j])
    ensures j < |s| ==> !IsDigit(s[j])
    decreases |s| - i
  {
    if i < |s| && IsDigit(s[i]) then
      var j := DigitRunEnd(s, i + 1);
      assert forall n | 0 < n < j - i :: s[i..j][n] == s[i + 1..j][n - 1];
      j
    else i
  }

  /** No run of digits from `i` is longer than the maximal one. */
  lemma {:induction false} DigitRunIsMaximal(s: string, i: nat, j: nat)
    requires i <= j <= |s| && AllDigits(s[i..j])
    ensures j <= DigitRunEnd(s, i)
    decreases j - i
  {
    if i < j {
      assert IsDigit(s[i..j][0]);
      assert forall n | 1 <= n < j - i :: s[i..j][n] == s[i + 1..j][n - 1];
      DigitRunIsMaximal(s, i + 1, j);
    }
  }

  /** A match at start `i` never extends past the maximal digit run, and
      only leaves word characters after the maximal run and its whitespace. */
  lemma DigitMatchIsBounded(s: string, i: nat, j: nat, k: nat)
    requires DigitMatch(s, i, j, k)
    ensures IsDigit(s[i]) && j <= DigitRunEnd(s, i)
    ensures j == DigitRunEnd(s, i) ==> k == SkipSpaces(s, j)
    ensures AllWordChars(s[SkipSpaces(s, DigitRunEnd(s, i))..])
  {
    var j0 := DigitRunEnd(s, i);
    var k0 := SkipSpaces(s, j0);
    assert IsDigit(s[i..j][0]);
    DigitRunIsMaximal(s, i, j);
    TailIsUnique(s, j, k);
    if j < j0 {
      assert IsDigit(s[i..j0][j - i]);
      assert k == j;
      if j0 < |s| {
        assert IsWordChar(s[j..][j0 - j]);
        assert k0 == j0;
      }
      assert forall n | 0 <= n < |s| - k0 :: s[k0..][n] == s[j..][n + (k0 - j)];
    }
  }

  /** At a fixed start, a match exists only if the maximal digit run
      followed by the maximal whitespace run leaves word characters, and
      then that is the greediest match. */
  lemma DigitMatchesAt(s: string, i: nat)
    requires i < |s|
    ensures forall j: nat, k: nat | DigitMatch(s, i, j, k) ::
      && IsDigit(s[i])
      && j <= DigitRunEnd(s, i)
      && (j == DigitRunEnd(s, i) ==> k == SkipSpaces(s, j))
      && AllWordChars(s[SkipSpaces(s, DigitRunEnd(s, i))..])
    ensures IsDigit(s[i]) && AllWordChars(s[SkipSpaces(s, DigitRunEnd(s, i))..]) ==>
      DigitMatch(s, i, DigitRunEnd(s, i), SkipSpaces(s, DigitRunEnd(s, i)))
  {
    forall j: nat, k: nat | DigitMatch(s, i, j, k)
      ensures IsDigit(s[i]) && j <= DigitRunEnd(s, i) && (j == DigitRunEnd(s, i) ==> k == SkipSpaces(s, j))
      ensures AllWordChars(s[SkipSpaces(s, DigitRunEnd(s, i))..])
    {
      DigitMatchIsBounded(s, i, j, k);
    }
    if IsDigit(s[i]) {
      assert DigitRunEnd(s, i) > i;
    }
  }

  /** Scans start positions from `from` onwards for the digit rule. */
  function FindDigitMatch(s: string, from: nat): (r: Option<DigitSpan>)
    requires from <= |s|
    ensures r.Some? ==> from <= r.value.start && DigitMatch(s, r.value.start, r.value.stop, r.value.unitStart)
    ensures r.Some? ==> forall i: nat, j: nat, k: nat | from <= i && DigitMatch(s, i, j, k) ::
      r.value.start < i || (r.value.start == i && (j < r.value.stop || (j == r.value.stop && k <= r.value.unitStart)))
    ensures r.None? ==> forall i: nat, j: nat, k: nat | from <= i :: !DigitMatch(s, i, j, k)
    decreases |s| - from
  {
    if from == |s| then None
    else
      DigitMatchesAt(s, from);
      var j := DigitRunEnd(s, from);
      var k := SkipSpaces(s, j);
      if IsDigit(s[from]) && AllWordChars(s[k..]) then Some(DigitSpan(from, j, k))
      else FindDigitMatch(s, from + 1)
  }

  /** The value of a run of decimal digits, as `Number` computes it. */
  function DigitsValue(d: string): (v: nat)
    requires AllDigits(d)
    ensures v == 0 <==> forall n | 0 <= n < |d| :: d[n] == '0'
    decreases |d|
  {
    if |d| == 0 then 0
    else
      var init := d[..|d| - 1];
      assert forall n | 0 <= n < |init| :: init[n] == d[n];
      10 * DigitsValue(init) + (d[|d| - 1] as int - '0' as int)
  }

  // ---------------------------------------------------------------------
  // The word rule `(one|two|...|hundred)\s*(\w+)?$` with the `i` flag
  // ---------------------------------------------------------------------

  /** The alternatives of the word rule, in the order the engine tries them. */
  const Alternation: seq<string> := [
    "one", "two", "three", "four", "five", "six", "seven", "eight", "nine", "ten",
    "eleven", "twelve", "thirteen", "fourteen", "fifteen", "sixteen", "seventeen",
    "eighteen", "nineteen", "twenty", "thirty", "forty", "fifty", "sixty", "seventy",
    "eighty", "ninety", "hundred"
  ]

  /** The table a recognised number word is looked up in. */
  const NumberWords: map<string, nat> := map[
    "one" := 1, "two" := 2, "three" := 3, "four" := 4, "five" := 5, "six" := 6,
    "seven" := 7, "eight" := 8, "nine" := 9, "ten" := 10, "eleven" := 11,
    "twelve" := 12, "thirteen" := 13, "fourteen" := 14, "fifteen" := 15,
    "sixteen" := 16, "seventeen" := 17, "eighteen" := 18, "nineteen" := 19,
    "twenty" := 20, "thirty" := 30, "forty" := 40, "fifty" := 50, "sixty" := 60,
    "seventy" := 70, "eighty" := 80, "ninety" := 90, "hundred" := 100
  ]

  /** `s[i..]` begins with `w`, ignoring the case of ASCII letters. */
  predicate WordAt(s: string, i: nat, w: string) {
    i + |w| <= |s| && forall n | 0 <= n < |w| :: SameIgnoringCase(s[i + n], w[n])
  }

  /** One way the word rule can match: alternative `a` at `i`, unit `s[k..]`.
      There is no word boundary: the number word may sit inside a longer word. */
  predicate WordMatch(words: seq<string>, s: string, i: nat, a: nat, k: nat) {
    a < |words| && WordAt(s, i, words[a]) && TailAt(s, i + |words[a]|, k)
  }

  /** The match the engine reports: the leftmost start, then the first
      alternative in listed order, then the longest whitespace run. */
  ghost predicate WordChosen(words: seq<string>, s: string, i: nat, a: nat, k: nat) {
    && WordMatch(words, s, i, a, k)
    && forall i': nat, a': nat, k': nat | WordMatch(words, s, i', a', k') ::
         i < i' || (i == i' && (a < a' || (a == a' && k' <= k)))
  }

  /** Tries the alternatives from `a` onwards at start `i`. */
  function FirstAlternative(words: seq<string>, s: string, i: nat, a: nat): (r: Option<nat>)
    requires i <= |s| && a <= |words|
    ensures r.Some? ==> a <= r.value < |words| && i + |words[r.value]| <= |s|
    ensures r.Some? ==> WordMatch(words, s, i, r.value, SkipSpaces(s, i + |words[r.value]|))
    ensures r.Some? ==> forall a': nat, k: nat | a <= a' && WordMatch(words, s, i, a', k) :: r.value <= a'
    ensures r.None? ==> forall a': nat, k: nat | a <= a' :: !WordMatch(words, s, i, a', k)
    decreases |words| - a
  {
    if a == |words| then None
    else if WordAt(s, i, words[a]) && AllWordChars(s[SkipSpaces(s, i + |words[a]|)..]) then
      AlternativeMatchesAt(words, s, i, a);
      Some(a)
    else
      var r := FirstAlternative(words, s, i, a + 1);
      AlternativeFailsAt(words, s, i, a);
      SkipFailedAlternative(words, s, i, a, r);
      r
  }

  /** What holds of the alternatives after a failed one holds from it on. */
  lemma SkipFailedAlternative(words: seq<string>, s: string, i: nat, a: nat, r: Option<nat>)
    requires forall k: nat :: !WordMatch(words, s, i, a, k)
    requires r.Some? ==> forall a': nat, k: nat | a + 1 <= a' && WordMatch(words, s, i, a', k) :: r.value <= a'
    requires r.None? ==> forall a': nat, k: nat | a + 1 <= a' :: !WordMatch(words, s, i, a', k)
    ensures r.Some? ==> forall a': nat, k: nat | a <= a' && WordMatch(words, s, i, a', k) :: r.value <= a'
    ensures r.None? ==> forall a': nat, k: nat | a <= a' :: !WordMatch(words, s, i, a', k)
  {
  }

  /** Alternative `a` matches at `i` when the word is there and the maximal
      whitespace run after it leaves only word characters. */
  lemma AlternativeMatchesAt(words: seq<string>, s: string, i: nat, a: nat)
    requires a < |words| && WordAt(s, i, words[a])
    requires AllWordChars(s[SkipSpaces(s, i + |words[a]|)..])
    ensures WordMatch(words, s, i, a, SkipSpaces(s, i + |words[a]|))
  {
  }

  /** Alternative `a` cannot match at `i` unless the word is there and the
      maximal whitespace run after it leaves only word characters. */
  lemma AlternativeFailsAt(words: seq<string>, s: string, i: nat, a: nat)
    requires i <= |s| && a < |words|
    requires !(WordAt(s, i, words[a]) && AllWordChars(s[SkipSpaces(s, i + |words[a]|)..]))
    ensures forall k: nat :: !WordMatch(words, s, i, a, k)
  {
    if WordAt(s, i, words[a]) {
      TailSplitsOnce(s, i + |words[a]|);
    }
  }

  /** Scans start positions from `from` onwards for the word rule. */
  function FindWordMatch(words: seq<string>, s: string, from: nat): (r: Option<WordSpan>)
    requires from <= |s|
    ensures r.Some? ==> from <= r.value.start && WordMatch(words, s, r.value.start, r.value.alt, r.value.unitStart)
    ensures r.Some? ==> forall i: nat, a: nat, k: nat | from <= i && WordMatch(words, s, i, a, k) ::
      r.value.start < i || (r.value.start == i && (r.value.alt < a || (r.value.alt == a && k <= r.value.unitStart)))
    ensures r.None? ==> forall i: nat, a: nat, k: nat | from <= i :: !WordMatch(words, s, i, a, k)
    decreases |s| - from
  {
    match FirstAlternative(words, s, from, 0)
    case Some(a) =>
      var k := SkipSpaces(s, from + |words[a]|);
      TailSplitsOnce(s, from + |words[a]|);
      Some(WordSpan(from, a, k))
    case None =>
      if from == |s| then None else FindWordMatch(words, s, from + 1)
  }

  /** `numberWords[word] || 1`: the table value of the lower-cased word, or
      1 for a missing or zero entry. */
  function LookupTotal(table: map<string, nat>, word: string): (v: nat)
    ensures v > 0
    ensures LowerCase(word) in table && table[LowerCase(word)] > 0 ==> v == table[LowerCase(word)]
    ensures !(LowerCase(word) in table && table[LowerCase(word)] > 0) ==> v == 1
  {
    var key := LowerCase(word);
    if key in table && table[key] != 0 then table[key] else 1
  }

  /** Each alternative is a lowercase key of the table with a non-zero value. */
  ghost predicate TableFits(words: seq<string>, table: map<string, nat>) {
    forall a | 0 <= a < |words| ::
      && words[a] in table && table[words[a]] > 0
      && forall n | 0 <= n < |words[a]| :: 'a' <= words[a][n] <= 'z'
  }

  // ---------------------------------------------------------------------
  // parseTarget
  // ---------------------------------------------------------------------

  /** parseTarget for a given alternation and table: the digit rule, else the
      word rule, else total 1 and no unit. The unit keeps its original case. */
  function ParseWith(words: seq<string>, table: map<string, nat>, target: string): (r: Target)
    ensures |r.unit| <= |target| && r.unit == target[|target| - |r.unit|..]
    ensures AllWordChars(r.unit)
    ensures r.total == 0 ==> FindDigitMatch(target, 0).Some?
  {
    match FindDigitMatch(target, 0)
    case Some(d) => Target(DigitsValue(target[d.start..d.stop]), target[d.unitStart..])
    case None =>
      match FindWordMatch(words, target, 0)
      case Some(w) =>
        Target(LookupTotal(table, target[w.start..w.start + |words[w.alt]|]), target[w.unitStart..])
      case None => Target(1, "")
  }

  /** parseTarget with the number words of the home page. */
  function Parse(target: string): (r: Target)
    ensures |r.unit| <= |target| && r.unit == target[|target| - |r.unit|..]
    ensures AllWordChars(r.unit)
    ensures r.total == 0 ==> exists i: nat, j: nat, k: nat :: DigitMatch(target, i, j, k)
  {
    ParseWith(Alternation, NumberWords, target)
  }

  /** Every alternative is a lowercase entry of the table with a non-zero
      value, so the `|| 1` fallback of the word rule never applies. */
  lemma NumberWordsFit()
    ensures TableFits(Alternation, NumberWords)
  {
    AlternationIsKeyed();
    AlternationIsLowercase();
  }

  lemma AlternationIsKeyed()
    ensures forall a | 0 <= a < |Alternation| :: Alternation[a] in NumberWords && NumberWords[Alternation[a]] > 0
  {
    forall a | 0 <= a < |Alternation|
      ensures Alternation[a] in NumberWords && NumberWords[Alternation[a]] > 0
    {
      if a < 7 {
        LowWordIsKeyed(a);
      } else if a < 14 {
        MiddleWordIsKeyed(a);
      } else {
        HighWordIsKeyed(a);
      }
    }
  }

  // The 28 alternatives in three parts, which keeps each proof small.
  lemma LowWordIsKeyed(a: nat)
    requires a < 7
    ensures Alternation[a] in NumberWords && NumberWords[Alternation[a]] > 0
  {
  }

  lemma MiddleWordIsKeyed(a: nat)
    requires 7 <= a < 14
    ensures Alternation[a] in NumberWords && NumberWords[Alternation[a]] > 0
  {
  }

  lemma HighWordIsKeyed(a: nat)
    requires 14 <= a < |Alternation|
    ensures Alternation[a] in NumberWords && NumberWords[Alternation[a]] > 0
  {
  }

  lemma AlternationIsLowercase()
    ensures forall a, n | 0 <= a < |Alternation| && 0 <= n < |Alternation[a]| :: 'a' <= Alternation[a][n] <= 'z'
  {
  }

  /** Text that matches a lowercase word ignoring case lower-cases to it. */
  lemma LowerCaseOfMatch(s: string, i: nat, w: string)
    requires WordAt(s, i, w)
    requires forall n | 0 <= n < |w| :: 'a' <= w[n] <= 'z'
    ensures LowerCase(s[i..i + |w|]) == w
  {
    var l := LowerCase(s[i..i + |w|]);
    forall n | 0 <= n < |w| ensures l[n] == w[n] {
      assert SameIgnoringCase(s[i + n], w[n]);
    }
  }

  lemma FindsChosenDigits(s: string, i: nat, j: nat, k: nat)
    requires DigitChosen(s, i, j, k)
    ensures FindDigitMatch(s, 0) == Some(DigitSpan(i, j, k))
  {
    var r := FindDigitMatch(s, 0);
    assert r.Some?;
    assert DigitMatch(s, r.value.start, r.value.stop, r.value.unitStart);
  }

  lemma FindsChosenWord(words: seq<string>, s: string, i: nat, a: nat, k: nat)
    requires WordChosen(words, s, i, a, k)
    ensures FindWordMatch(words, s, 0) == Some(WordSpan(i, a, k))
  {
    var r := FindWordMatch(words, s, 0);
    assert r.Some?;
    assert WordMatch(words, s, r.value.start, r.value.alt, r.value.unitStart);
  }

  lemma NoDigitMatchFound(s: string)
    requires forall i: nat, j: nat, k: nat :: !DigitMatch(s, i, j, k)
    ensures FindDigitMatch(s, 0).None?
  {
    var d := FindDigitMatch(s, 0);
    assert d.Some? ==> DigitMatch(s, d.value.start, d.value.stop, d.value.unitStart);
  }

  lemma NoWordMatchFound(words: seq<string>, s: string)
    requires forall i: nat, a: nat, k: nat :: !WordMatch(words, s, i, a, k)
    ensures FindWordMatch(words, s, 0).None?
  {
    var w := FindWordMatch(words, s, 0);
    assert w.Some? ==> WordMatch(words, s, w.value.start, w.value.alt, w.value.unitStart);
  }

  /** The digit rule: whenever the digit regex matches, its chosen match
      decides the total and the unit, whatever the word rule would say. */
  lemma DigitRule(s: string, i: nat, j: nat, k: nat)
    requires DigitChosen(s, i, j, k)
    ensures Parse(s) == Target(DigitsValue(s[i..j]), s[k..])
  {
    FindsChosenDigits(s, i, j, k);
  }

  lemma WordRuleWith(words: seq<string>, table: map<string, nat>, s: string, i: nat, a: nat, k: nat)
    requires TableFits(words, table)
    requires FindDigitMatch(s, 0).None?
    requires WordChosen(words, s, i, a, k)
    ensures ParseWith(words, table, s) == Target(table[words[a]], s[k..])
  {
    FindsChosenWord(words, s, i, a, k);
    ParseWithFoundWord(words, table, s, WordSpan(i, a, k));
    LookupOfMatch(words, table, s, i, a);
  }

  /** With no digit match, the word match found decides the result. */
  lemma ParseWithFoundWord(words: seq<string>, table: map<string, nat>, s: string, w: WordSpan)
    requires FindDigitMatch(s, 0).None? && FindWordMatch(words, s, 0) == Some(w)
    ensures ParseWith(words, table, s) ==
      Target(LookupTotal(table, s[w.start..w.start + |words[w.alt]|]), s[w.unitStart..])
  {
  }

  /** A table that fits its alternatives gives a matched word its own value. */
  lemma LookupOfMatch(words: seq<string>, table: map<string, nat>, s: string, i: nat, a: nat)
    requires TableFits(words, table)
    requires a < |words| && WordAt(s, i, words[a])
    ensures LookupTotal(table, s[i..i + |words[a]|]) == table[words[a]]
  {
    LowerCaseOfMatch(s, i, words[a]);
  }

  /** The word rule: when the digit regex does not match, the chosen number
      word, in any case, gives its table value and the rest gives the unit. */
  lemma WordRule(s: string, i: nat, a: nat, k: nat)
    requires forall i': nat, j': nat, k': nat :: !DigitMatch(s, i', j', k')
    requires WordChosen(Alternation, s, i, a, k)
    ensures Parse(s) == Target(NumberWords[Alternation[a]], s[k..])
  {
    NoDigitMatchFound(s);
    NumberWordsFit();
    WordRuleWith(Alternation, NumberWords, s, i, a, k);
  }

  /** The fallback: with neither regex matching, the target counts as one. */
  lemma DefaultRule(s: string)
    requires forall i: nat, j: nat, k: nat :: !DigitMatch(s, i, j, k)
    requires forall i: nat, a: nat, k: nat :: !WordMatch(Alternation, s, i, a, k)
    ensures Parse(s) == Target(1, "")
  {
    NoDigitMatchFound(s);
    NoWordMatchFound(Alternation, s);
  }

  /** The three rules cover every text, so the parser never fails: a digit
      match yields the chosen digit match's total and unit; otherwise a word
      match yields the chosen number word's; otherwise total 1, no unit. */
  lemma ParseCases(s: string)
    ensures (exists i: nat, j: nat, k: nat :: DigitMatch(s, i, j, k)) ==>
      exists i: nat, j: nat, k: nat :: DigitChosen(s, i, j, k) && Parse(s) == Target(DigitsValue(s[i..j]), s[k..])
    ensures (forall i: nat, j: nat, k: nat :: !DigitMatch(s, i, j, k)) && (exists i: nat, a: nat, k: nat :: WordMatch(Alternation, s, i, a, k)) ==>
      exists i: nat, a: nat, k: nat :: WordChosen(Alternation, s, i, a, k) && Parse(s) == Target(NumberWords[Alternation[a]], s[k..])
  {
    match FindDigitMatch(s, 0)
    case Some(d) =>
      assert DigitChosen(s, d.start, d.stop, d.unitStart);
      DigitRule(s, d.start, d.stop, d.unitStart);
    case None =>
      match FindWordMatch(Alternation, s, 0)
      case Some(w) =>
        assert WordChosen(Alternation, s, w.start, w.alt, w.unitStart);
        WordRule(s, w.start, w.alt, w.unitStart);
      case None =>
  }
}
