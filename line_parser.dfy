/**
 * `parse_line` of Programming_Assignment_3.py: the last word of a line is its
 * class label; the text before it, stripped of punctuation and digits and
 * lowered, is split into the line's words.
 */
module LineParser {
  import opened Options
  import opened TextTokens

  /** The pair `(words, category)` that `parse_line` returns. */
  datatype Parsed = Parsed(words: seq<string>, category: string)

  /** Where the last whitespace-free run of `t` starts (`|t|` when `t` ends in whitespace). */
  function LastWordStart(t: string): (j: nat)
    ensures j <= |t|
    ensures forall i :: j <= i < |t| ==> !IsSpace(t[i])
    ensures j == 0 || IsSpace(t[j - 1])
    ensures t != [] && !IsSpace(t[|t| - 1]) ==> j < |t|
  {
    if t == [] || IsSpace(t[|t| - 1]) then |t| else LastWordStart(t[..|t| - 1])
  }

  /**
   * `line.rstrip().rsplit(None, 1)`: nothing for a blank line; the one word
   * of a one-word line; otherwise the text before the last word (leading
   * whitespace kept, trailing whitespace dropped) and the last word.
   */
  function RSplitOnce(line: string): (parts: seq<string>)
    ensures |parts| <= 2
  {
    var t := RStrip(line);
    var j := LastWordStart(t);
    var head := RStrip(t[..j]);
    if t == [] then [] else if head == [] then [t[j..]] else [head, t[j..]]
  }

  /** Lines 7-9: drop `string.punctuation`, drop the digits, lower the rest. */
  function Clean(text: string): string {
    Lower(Delete(Delete(text, IsPunctuation), IsDigit))
  }

  /** `parse_line(line)`; `None` where the tuple unpacking at line 6 raises, i.e. when `rsplit` gives other than two parts. */
  function ParseLine(line: string): Option<Parsed> {
    var parts := RSplitOnce(line);
    if |parts| != 2 then None else Some(Parsed(Split(Clean(parts[0])), parts[1]))
  }

  /** The position in `line` at which its category starts. */
  function CategoryStart(line: string): (c: nat)
    ensures c <= |RStrip(line)| <= |line|
    ensures c == 0 || IsSpace(line[c - 1])
    ensures forall i :: c <= i < |RStrip(line)| ==> !IsSpace(line[i])
    ensures AllSpace(line[|RStrip(line)|..])
  {
    LastWordStart(RStrip(line))
  }

  // ---------------------------------------------------------------------

  /** A text ending in a word splits into the words before that word, then the word. */
  lemma {:induction false} SplitLastWord(t: string)
    requires t != [] && !IsSpace(t[|t| - 1])
    ensures var j := LastWordStart(t);
            j < |t| && Split(t) == Split(t[..j]) + [t[j..]]
  {
    var j := LastWordStart(t);
    assert t == t[..j] + t[j..];
    SplitAppendWord(t[..j], t[j..]);
  }

  /** Trailing whitespace: `s` splits like its `rstrip()`. */
  lemma {:induction false} SplitRStrip(s: string)
    ensures Split(s) == Split(RStrip(s))
  {
    var r := RStrip(s);
    assert s == r + s[|r|..];
    SplitAppendSpace(r, s[|r|..]);
  }

  /**
   * `rsplit(None, 1)` agrees with `split()`: it gives as many parts as
   * there are words, up to two, and with two parts the words of the line are
   * the words of the first part followed by the second part.
   */
  lemma {:induction false} RSplitAgreesWithSplit(line: string)
    ensures var parts := RSplitOnce(line);
            var ws := Split(line);
            && |parts| == (if |ws| < 2 then |ws| else 2)
            && (|parts| == 1 ==> parts == ws)
            && (|parts| == 2 ==> ws == Split(parts[0]) + [parts[1]])
  {
    var t := RStrip(line);
    SplitRStrip(line);
    if t != [] {
      var j := LastWordStart(t);
      SplitLastWord(t);
      var head := RStrip(t[..j]);
      SplitRStrip(t[..j]);
      if head != [] {
        SplitLastWord(head);
      }
    }
  }

  /** Cleaning keeps trailing whitespace where it is. */
  lemma {:induction false} CleanAppendSpace(text: string, gap: string)
    requires AllSpace(gap)
    ensures Clean(text + gap) == Clean(text) + gap
  {
    DeleteAppend(text, gap, IsPunctuation);
    DeleteKeepsSpace(gap, IsPunctuation);
    DeleteAppend(Delete(text, IsPunctuation), gap, IsDigit);
    DeleteKeepsSpace(gap, IsDigit);
    LowerAppend(Delete(Delete(text, IsPunctuation), IsDigit), gap);
    LowerKeepsSpace(gap);
  }

  /** `parse_line` fails exactly on lines of fewer than two words. */
  lemma {:induction false} ParseLineFails(line: string)
    ensures ParseLine(line).None? <==> |Split(line)| < 2
  {
    RSplitAgreesWithSplit(line);
  }

  lemma {:induction false} PrefixSlices(line: string, t: string, j: nat)
    requires |t| <= |line| && t == line[..|t|] && j <= |t|
    ensures line[j..|t|] == t[j..] && line[..j] == t[..j]
  {
  }

  /** A parsed line's category is its last word, and the words of the text before it are the other words of the line. */
  lemma {:induction false} ParseLineCategory(line: string)
    requires ParseLine(line).Some?
    ensures var p := ParseLine(line).value;
            && |Split(line)| >= 2
            && p.category == Split(line)[|Split(line)| - 1]
            && Split(line[..CategoryStart(line)]) + [p.category] == Split(line)
  {
    var parts := RSplitOnce(line);
    RSplitAgreesWithSplit(line);
    assert |parts| == 2;
    var ws := Split(line);
    assert ws == Split(parts[0]) + [parts[1]];
    assert ParseLine(line).value.category == parts[1];
    var t := RStrip(line);
    var j := LastWordStart(t);
    assert parts[0] == RStrip(t[..j]);
    PrefixSlices(line, t, j);
    SplitRStrip(t[..j]);
    assert Split(line[..j]) == Split(parts[0]);
  }

  /** The category sits right after whitespace at `CategoryStart(line)`, and only whitespace follows it. */
  lemma {:induction false} ParseLinePosition(line: string)
    requires ParseLine(line).Some?
    ensures var cat := ParseLine(line).value.category;
            var j := CategoryStart(line);
            && 0 < j && j + |cat| <= |line|
            && IsSpace(line[j - 1])
            && line[j..j + |cat|] == cat
            && AllSpace(line[j + |cat|..])
  {
    var t := RStrip(line);
    var j := LastWordStart(t);
    var parts := RSplitOnce(line);
    assert |parts| == 2 && parts[0] == RStrip(t[..j]) && parts[1] == t[j..];
    assert ParseLine(line).value.category == t[j..];
    assert j > 0 && IsSpace(t[j - 1]);
    PrefixSlices(line, t, j);
    assert line[j..|t|] == t[j..];
    assert AllSpace(line[|t|..]);
  }

  /** The text before a parsed line's category is the first part of the split, followed by whitespace. */
  lemma {:induction false} CategoryPrefix(line: string)
    requires |RSplitOnce(line)| == 2
    ensures var head := RSplitOnce(line)[0];
            var j := CategoryStart(line);
            && |head| <= j <= |line|
            && line[..j] == head + line[|head|..j]
            && AllSpace(line[|head|..j])
  {
    var t := RStrip(line);
    var j := LastWordStart(t);
    var head := RStrip(t[..j]);
    var parts := RSplitOnce(line);
    assert |parts| == 2 && parts[0] == head;
    var prefix := t[..j];
    PrefixSlices(line, t, j);
    assert line[..j] == prefix;
    assert prefix == head + prefix[|head|..];
    assert line[|head|..j] == prefix[|head|..];
  }

  /** The words of a parsed line are those of the cleaned text before its category. */
  lemma {:induction false} ParseLineWords(line: string)
    requires ParseLine(line).Some?
    ensures ParseLine(line).value.words == Split(Clean(line[..CategoryStart(line)]))
  {
    var head := RSplitOnce(line)[0];
    var j := CategoryStart(line);
    assert |RSplitOnce(line)| == 2;
    assert ParseLine(line).value.words == Split(Clean(head));
    CategoryPrefix(line);
    var gap := line[|head|..j];
    CleanAppendSpace(head, gap);
    SplitAppendSpace(Clean(head), gap);
  }

  /** No cleaned character is punctuation, a digit or a capital letter. */
  lemma {:induction false} CleanChars(text: string)
    ensures forall c :: c in Clean(text) ==> !IsPunctuation(c) && !IsDigit(c) && !IsUpper(c)
  {
    var kept := Delete(Delete(text, IsPunctuation), IsDigit);
    forall c | c in Clean(text)
      ensures !IsPunctuation(c) && !IsDigit(c) && !IsUpper(c)
    {
      var i :| 0 <= i < |Clean(text)| && Clean(text)[i] == c;
      assert kept[i] in kept;
    }
  }

  /** Every word `parse_line` returns is non-empty and free of whitespace, punctuation, digits and capitals. */
  lemma {:induction false} ParsedWordsClean(line: string)
    requires ParseLine(line).Some?
    ensures forall k :: 0 <= k < |ParseLine(line).value.words| ==>
              var w := ParseLine(line).value.words[k];
              && w != []
              && forall i :: 0 <= i < |w| ==> !IsSpace(w[i]) && !IsPunctuation(w[i]) && !IsDigit(w[i]) && !IsUpper(w[i])
  {
    var text := RSplitOnce(line)[0];
    CleanChars(text);
    SplitChars(Clean(text));
    var ws := ParseLine(line).value.words;
    assert ws == Split(Clean(text));
    forall k, i | 0 <= k < |ws| && 0 <= i < |ws[k]|
      ensures !IsSpace(ws[k][i]) && !IsPunctuation(ws[k][i]) && !IsDigit(ws[k][i]) && !IsUpper(ws[k][i])
    {
      assert IsWord(ws[k]);
      assert ws[k][i] in ws[k];
      assert ws[k][i] in Clean(text);
    }
  }
}
