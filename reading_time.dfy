/** `readingTime` of src/lib/utils.ts: counts the words of a text and turns the count into
    whole minutes at 200 words a minute, with a display string. */
module ReadingTime {
  import opened Text

  const WordsPerMinute: nat := 200

  datatype Estimate = Estimate(minutes: nat, words: nat, text: string)

  // ---- The word count, as the source computes it ----

  /** The second stage of the count: every character that is neither a word character nor
      white space becomes a space. */
  function BlankPunctuation(s: string): (r: string)
    ensures |r| == |s|
  {
    seq(|s|, i requires 0 <= i < |s| => if IsWord(s[i]) || IsSpace(s[i]) then s[i] else ' ')
  }

  /** `.split(/\s+/)`: the pieces between maximal runs of white space, with an empty first
      piece when the string starts with white space and an empty last piece when it ends
      with it (`"".split(/\s+/)` is `[""]`). */
  function SplitOnSpaces(s: string): (parts: seq<string>)
    ensures |parts| >= 1
    ensures parts[0] == [] <==> (s == [] || IsSpace(s[0]))
    decreases |s|
  {
    if s == [] then [[]]
    else if IsSpace(s[0]) then [[]] + SplitOnSpaces(TrimStart(s))
    else
      var rest := SplitOnSpaces(s[1..]);
      [[s[0]] + rest[0]] + rest[1..]
  }

  /** The last stage of the count: how many pieces are not empty. */
  function CountNonEmpty(parts: seq<string>): (n: nat)
    ensures n <= |parts|
    ensures n == 0 <==> forall i :: 0 <= i < |parts| ==> parts[i] == []
  {
    if parts == [] then 0
    else
      assert forall i :: 1 <= i < |parts| ==> parts[i] == parts[1..][i - 1];
      (if parts[0] != [] then 1 else 0) + CountNonEmpty(parts[1..])
  }

  /** The word count: the content trimmed, its punctuation blanked, split on white-space
      runs, and the non-empty pieces counted. */
  function WordCount(content: string): (n: nat)
    ensures n == WordRuns(content)
  {
    WordCountIsRuns(content);
    CountNonEmpty(SplitOnSpaces(BlankPunctuation(Trim(content))))
  }

  // ---- The word count, as a reference definition ----

  /** The number of maximal runs of word characters `[A-Za-z0-9_]`: the positions where
      such a run ends. */
  function WordRuns(s: string): nat {
    if s == [] then 0
    else (if IsWord(s[0]) && (|s| == 1 || !IsWord(s[1])) then 1 else 0) + WordRuns(s[1..])
  }

  /** Characters that are not word characters add no word, wherever they are dropped from. */
  lemma {:induction false} RunsSkipPrefix(s: string, k: nat)
    requires k <= |s|
    requires forall i :: 0 <= i < k ==> !IsWord(s[i])
    ensures WordRuns(s) == WordRuns(s[k..])
  {
    if k > 0 {
      assert s[1..][k - 1..] == s[k..];
      RunsSkipPrefix(s[1..], k - 1);
    }
  }

  lemma {:induction false} RunsSkipSuffix(s: string, k: nat)
    requires k <= |s|
    requires forall i :: k <= i < |s| ==> !IsWord(s[i])
    ensures WordRuns(s) == WordRuns(s[..k])
  {
    if k > 0 {
      assert s[..k][1..] == s[1..][..k - 1];
      RunsSkipSuffix(s[1..], k - 1);
    } else {
      if s != [] {
        RunsSkipPrefix(s, |s|);
      }
    }
  }

  lemma RunsOfTrimStart(s: string)
    ensures WordRuns(TrimStart(s)) == WordRuns(s)
  {
    var k := |s| - |TrimStart(s)|;
    forall i | 0 <= i < k ensures !IsWord(s[i]) { SpaceIsNotWord(s[i]); }
    RunsSkipPrefix(s, k);
  }

  lemma RunsOfTrimEnd(s: string)
    ensures WordRuns(TrimEnd(s)) == WordRuns(s)
  {
    var k := |TrimEnd(s)|;
    forall i | k <= i < |s| ensures !IsWord(s[i]) { SpaceIsNotWord(s[i]); }
    RunsSkipSuffix(s, k);
  }

  /** Trimming white space adds or removes no word. */
  lemma RunsOfTrim(s: string)
    ensures WordRuns(Trim(s)) == WordRuns(s)
  {
    RunsOfTrimStart(s);
    RunsOfTrimEnd(TrimStart(s));
  }

  /** Blanking punctuation keeps every character's being a word character. */
  lemma {:induction false} RunsOfBlankPunctuation(s: string)
    ensures WordRuns(BlankPunctuation(s)) == WordRuns(s)
  {
    if s != [] {
      assert BlankPunctuation(s)[1..] == BlankPunctuation(s[1..]);
      RunsOfBlankPunctuation(s[1..]);
    }
  }

  predicate WordsAndSpaces(s: string) {
    forall i :: 0 <= i < |s| ==> IsWord(s[i]) || IsSpace(s[i])
  }

  /** On text made of word characters and white space, the non-empty pieces of the split are
      exactly the runs of word characters. */
  lemma {:induction false} SplitCountsRuns(s: string)
    requires WordsAndSpaces(s)
    ensures CountNonEmpty(SplitOnSpaces(s)) == WordRuns(s)
    decreases |s|
  {
    if s == [] {
    } else if IsSpace(s[0]) {
      var t := TrimStart(s);
      assert forall i :: 0 <= i < |s| - |t| ==> !IsWord(s[i]);
      RunsSkipPrefix(s, |s| - |t|);
      SplitCountsRuns(t);
      assert SplitOnSpaces(s)[1..] == SplitOnSpaces(t);
    } else {
      var rest := SplitOnSpaces(s[1..]);
      SplitCountsRuns(s[1..]);
      assert SplitOnSpaces(s)[1..] == rest[1..];
      assert rest == [rest[0]] + rest[1..];
      assert CountNonEmpty(rest) == (if rest[0] != [] then 1 else 0) + CountNonEmpty(rest[1..]);
      assert |s| > 1 ==> (IsWord(s[1]) <==> !IsSpace(s[1]));
    }
  }

  /** The source's word count is the number of runs of word characters: punctuation
      separates words, so `"don't"` is two words. */
  lemma WordCountIsRuns(content: string)
    ensures CountNonEmpty(SplitOnSpaces(BlankPunctuation(Trim(content)))) == WordRuns(content)
  {
    var trimmed := Trim(content);
    var blanked := BlankPunctuation(trimmed);
    assert WordsAndSpaces(blanked);
    SplitCountsRuns(blanked);
    RunsOfBlankPunctuation(trimmed);
    RunsOfTrim(content);
  }

  lemma ApostropheSeparatesWords()
    ensures WordRuns("don't") == 2
  {
    assert "don't"[1..] == "on't" && "on't"[1..] == "n't" && "n't"[1..] == "'t" && "'t"[1..] == "t";
  }

  /** Text of white space only holds no word. */
  lemma {:induction false} BlankHasNoWords(s: string)
    requires forall i :: 0 <= i < |s| ==> IsSpace(s[i])
    ensures WordRuns(s) == 0
  {
    RunsSkipPrefix(s, |s|);
  }

  // ---- Minutes ----

  /** The minutes: the word count divided by the words per minute, rounded up, on whole
      numbers. */
  function Minutes(words: nat): (m: nat)
    ensures words == 0 ==> m == 0
    ensures words > 0 ==> WordsPerMinute * (m - 1) < words <= WordsPerMinute * m
  {
    (words + WordsPerMinute - 1) / WordsPerMinute
  }

  // ---- The display text ----

  function DigitChar(d: nat): (c: char)
    requires d < 10
  {
    "0123456789"[d]
  }

  predicate IsDigit(c: char) {
    '0' <= c <= '9'
  }

  function DigitValue(c: char): (d: nat)
    requires IsDigit(c)
    ensures d < 10
  {
    c as int - '0' as int
  }

  /** The decimal form of a whole number, as template-literal interpolation writes it. */
  function Decimal(n: nat): (s: string)
    ensures s != [] && forall i :: 0 <= i < |s| ==> IsDigit(s[i])
    ensures |s| > 1 ==> s[0] != '0'
  {
    if n < 10 then [DigitChar(n)] else Decimal(n / 10) + [DigitChar(n % 10)]
  }

  /** Reads a string of decimal digits back as a number. */
  function ParseDecimal(s: string): nat
    requires forall i :: 0 <= i < |s| ==> IsDigit(s[i])
  {
    if s == [] then 0 else 10 * ParseDecimal(s[..|s| - 1]) + DigitValue(s[|s| - 1])
  }

  lemma {:induction false} DecimalRoundTrip(n: nat)
    ensures ParseDecimal(Decimal(n)) == n
  {
    var s := Decimal(n);
    if n < 10 {
      assert s[..0] == [];
    } else {
      DecimalRoundTrip(n / 10);
      assert s[..|s| - 1] == Decimal(n / 10);
    }
  }

  /** Different numbers have different decimal forms. */
  lemma DecimalInjective(m: nat, n: nat)
    requires Decimal(m) == Decimal(n)
    ensures m == n
  {
    DecimalRoundTrip(m);
    DecimalRoundTrip(n);
  }

  /** The display text, with its special case for one minute. */
  function ReadingText(minutes: nat): (r: string)
    ensures r == Decimal(minutes) + " min read"
  {
    if minutes == 1 then "1 min read" else Decimal(minutes) + " min read"
  }

  /** The text reads "1 min read" exactly when the estimate is one minute. */
  lemma OneMinuteText(minutes: nat)
    ensures ReadingText(minutes) == "1 min read" <==> minutes == 1
  {
    if minutes != 1 {
      var d := Decimal(minutes);
      assert d + " min read" != "1 min read" by {
        if d == "1" {
          assert Decimal(1) == "1";
          DecimalInjective(minutes, 1);
        } else if |d| == 1 {
          assert (d + " min read")[0] == d[0] != '1';
        } else {
          assert |d + " min read"| != 10;
        }
      }
    }
  }

  /** The whole estimate for a text: its words, its minutes and its display text. */
  function ReadingTimeOf(content: string): (r: Estimate)
    ensures r.words == WordRuns(content)
    ensures r.words == 0 ==> r.minutes == 0
    ensures r.words > 0 ==> WordsPerMinute * (r.minutes - 1) < r.words <= WordsPerMinute * r.minutes
    ensures r.text == Decimal(r.minutes) + " min read"
  {
    var words := WordCount(content);
    var minutes := Minutes(words);
    Estimate(minutes, words, ReadingText(minutes))
  }

  /** Empty or blank content reads in "0 min read". */
  lemma BlankContent(content: string)
    requires forall i :: 0 <= i < |content| ==> IsSpace(content[i])
    ensures ReadingTimeOf(content) == Estimate(0, 0, "0 min read")
  {
    BlankHasNoWords(content);
    ZeroText();
  }

  lemma ZeroText()
    ensures Decimal(0) + " min read" == "0 min read"
  {
    assert Decimal(0) == "0";
  }
}
