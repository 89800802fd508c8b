/** How full wrapped lines are, and how wide text is taken to be. */
module LineWrapLaws {
  import opened LineWrap
  import opened MachineInts
  import opened Text

  // ---- Full lines ---------------------------------------------------------------------------

  /** What stands before the first blank. */
  function FirstWord(line: string): (word: string) {
    if line == [] || line[0] == ' ' then [] else [line[0]] + FirstWord(line[1..])
  }

  predicate NoBlank(s: string) {
    forall i :: 0 <= i < |s| ==> s[i] != ' '
  }

  lemma {:induction false} FirstOfWord(word: string)
    requires NoBlank(word)
    ensures FirstWord(word) == word
  {
    if word != [] {
      FirstOfWord(word[1..]);
    }
  }

  lemma {:induction false} FirstStays(line: string, more: string)
    ensures FirstWord(line + " " + more) == FirstWord(line)
  {
    if line == [] {
      assert (line + " " + more)[0] == ' ';
    } else {
      assert (line + " " + more)[1..] == line[1..] + " " + more;
      FirstStays(line[1..], more);
    }
  }

  /** `next` would not have fitted on `line`. */
  predicate Full(line: string, next: string, maxChars: nat) {
    |line| + 1 + |FirstWord(next)| > maxChars
  }

  ghost predicate AllFull(lines: seq<string>, maxChars: nat) {
    forall i :: 0 <= i < |lines| - 1 ==> Full(lines[i], lines[i + 1], maxChars)
  }

  /** Every line that was finished is full, for whatever comes next if nothing does yet. */
  ghost predicate Tight(page: Page, maxChars: nat) {
    && AllFull(page.lines, maxChars)
    && (page.lines != [] ==>
          if page.current == [] then |page.lines[|page.lines| - 1]| + 1 >= maxChars
          else Full(page.lines[|page.lines| - 1], page.current, maxChars))
  }

  lemma ExtendedIsTight(page: Page, part: string, maxChars: nat)
    requires Tight(page, maxChars) && part != [] && NoBlank(part)
    ensures Tight(Page(page.lines, Extended(page.current, part)), maxChars)
  {
    FirstOfWord(part);
    FirstStays(page.current, part);
  }

  lemma FinishedIsTight(page: Page, maxChars: nat)
    requires Tight(page, maxChars) && page.current != [] && |page.current| + 1 >= maxChars
    ensures Tight(Page(page.lines + [page.current], ""), maxChars)
  {
    var lines := page.lines + [page.current];
    forall i | 0 <= i < |lines| - 1 ensures Full(lines[i], lines[i + 1], maxChars) {
      if i + 1 < |page.lines| {
        assert lines[i] == page.lines[i] && lines[i + 1] == page.lines[i + 1];
      }
    }
  }

  lemma NextIsTight(page: Page, word: string, maxChars: nat)
    requires Tight(page, maxChars) && page.current != [] && |page.current| + 1 + |word| > maxChars
    requires NoBlank(word) && word != []
    ensures Tight(Page(page.lines + [page.current], word), maxChars)
  {
    FirstOfWord(word);
    var lines := page.lines + [page.current];
    forall i | 0 <= i < |lines| - 1 ensures Full(lines[i], lines[i + 1], maxChars) {
      if i + 1 < |page.lines| {
        assert lines[i] == page.lines[i] && lines[i + 1] == page.lines[i + 1];
      }
    }
  }

  lemma {:induction false} PourIsTight(page: Page, remaining: string, maxChars: nat)
    requires maxChars >= 1 && Tight(page, maxChars) && NoBlank(remaining)
    ensures Tight(Pour(page, remaining, maxChars), maxChars)
    decreases |remaining|, |page.current|
  {
    if remaining != [] {
      var room := Room(page.current, maxChars);
      if room == 0 {
        FinishedIsTight(page, maxChars);
        PourIsTight(Page(page.lines + [page.current], ""), remaining, maxChars);
      } else if room >= |remaining| {
        ExtendedIsTight(page, remaining, maxChars);
      } else {
        var filled := Page(page.lines, Extended(page.current, remaining[..room]));
        ExtendedIsTight(page, remaining[..room], maxChars);
        FinishedIsTight(filled, maxChars);
        PourIsTight(Page(page.lines + [filled.current], ""), remaining[room..], maxChars);
      }
    }
  }

  lemma AddIsTight(page: Page, word: string, maxChars: nat)
    requires maxChars >= 1 && Tight(page, maxChars) && NoBlank(word) && word != []
    ensures Tight(AddWord(page, word, maxChars), maxChars)
  {
    if MayBeCut(word, maxChars) {
      PourIsTight(page, word, maxChars);
    } else if page.current == [] || |page.current| + 1 + |word| <= maxChars {
      ExtendedIsTight(page, word, maxChars);
    } else {
      NextIsTight(page, word, maxChars);
    }
  }

  lemma {:induction false} AddAllIsTight(page: Page, words: seq<string>, maxChars: nat)
    requires maxChars >= 1 && Tight(page, maxChars)
    requires forall i :: 0 <= i < |words| ==> NoBlank(words[i]) && words[i] != []
    ensures Tight(AddWords(page, words, maxChars), maxChars)
    decreases |words|
  {
    if words != [] {
      AddIsTight(page, words[0], maxChars);
      AddAllIsTight(AddWord(page, words[0], maxChars), words[1..], maxChars);
    }
  }

  /** No line is broken early: the first word of the next line, or the first piece of a cut one, would not have fitted. */
  lemma LinesAreFull(text: string, maxWidth: real, fontSize: real)
    ensures AllFull(WrapSingleLine(text, maxWidth, fontSize), MaxChars(maxWidth, fontSize))
  {
    var maxChars, words := MaxChars(maxWidth, fontSize), Words(text);
    WordsAreWords(text);
    forall i | 0 <= i < |words| ensures NoBlank(words[i]) && words[i] != [] {
      assert words[i] in words && IsWord(words[i]) && IsSpace(' ');
      assert forall k :: 0 <= k < |words[i]| ==> words[i][k] in words[i];
    }
    AddAllIsTight(BLANK, words, maxChars);
    var page := AddWords(BLANK, words, maxChars);
    var lines := Finished(page);
    forall i | 0 <= i < |lines| - 1 ensures Full(lines[i], lines[i + 1], maxChars) {
      if i + 1 < |page.lines| {
        assert lines[i] == page.lines[i] && lines[i + 1] == page.lines[i + 1];
      }
    }
  }

  /** Words may be cut if they are longer than a line or hold an ideograph; all others stay whole. */
  lemma WhichWordsMayBeCut(word: string, maxChars: nat)
    ensures MayBeCut(word, maxChars)
            <==> maxChars < |word| || exists i :: 0 <= i < |word| && IsCjk(word[i])
  {
  }

  // ---- Widths -------------------------------------------------------------------------------

  /** The width of a text is the sum over its pieces. */
  lemma {:induction false} WidthsAdd(a: string, b: string, fontSize: real)
    ensures EstimateTextWidth(a + b, fontSize) == EstimateTextWidth(a, fontSize) + EstimateTextWidth(b, fontSize)
  {
    if a == [] {
      assert a + b == b;
    } else {
      WidthsAdd(a[1..], b, fontSize);
      assert (a + b)[0] == a[0] && (a + b)[1..] == a[1..] + b;
    }
  }

  /** In hundredths of the font size: ideographs 100, wide signs 85, capitals 70, narrow signs 32, all others 55. */
  lemma WidthOfOne(c: char, fontSize: real)
    ensures EstimateTextWidth([c], fontSize) * 100.0
            == fontSize * if IsCjk(c) then 100.0
                          else if c in "iljt!.:;'`| ,()[]{}/\\-" then 32.0
                          else if c in "mwMW@%&#+" then 85.0
                          else if c in "ABCDEFGHIJKLMNOPQRSTUVWXYZ" then 70.0
                          else 55.0
  {
    assert [c][1..] == [];
    assert c in "iljt!.:;'`| ,()[]{}/\\-" <==> c in NARROW;
    assert c in "mwMW@%&#+" <==> c in WIDE;
    Capitals(c);
  }

  lemma Capitals(c: char)
    ensures c in "ABCDEFGHIJKLMNOPQRSTUVWXYZ" <==> 'A' <= c <= 'Z'
  {
    var all := "ABCDEFGHIJKLMNOPQRSTUVWXYZ";
    assert forall i :: 0 <= i < |all| ==> all[i] as int == 65 + i;
    if 'A' <= c <= 'Z' {
      assert all[c as int - 65] == c;
    }
  }

  /** A line holds as many characters of 58 hundredths of the font size, or of one unit, as the width does, but at least one. */
  lemma LineHolds(maxWidth: real, fontSize: real)
    ensures var n := MaxChars(maxWidth, fontSize);
            var one := if fontSize * 58.0 > 100.0 then fontSize * 58.0 / 100.0 else 1.0;
            && (n == 1 || n as real * one <= maxWidth)
            && (n == USIZE_MAX || maxWidth < (n as real + 1.0) * one)
  {
    var one := if fontSize * 0.58 > 1.0 then fontSize * 0.58 else 1.0;
    assert fontSize * 0.58 == fontSize * 58.0 / 100.0;
    CharsFit(maxWidth, one, maxWidth / one);
  }

  lemma CharsFit(width: real, one: real, chars: real)
    requires one >= 1.0 && chars == width / one
    ensures var most := if chars > 1.0 then chars else 1.0;
            var n := if most.Floor > USIZE_MAX then USIZE_MAX else most.Floor;
            && (n == 1 || n as real * one <= width)
            && (n == USIZE_MAX || width < (n as real + 1.0) * one)
  {
    var most := if chars > 1.0 then chars else 1.0;
    var n := if most.Floor > USIZE_MAX then USIZE_MAX else most.Floor;
    assert chars * one == width;
    Scaled(n as real, chars, one);
    Scaled(chars, n as real + 1.0, one);
  }

  lemma Scaled(a: real, b: real, c: real)
    requires c >= 1.0
    ensures a <= b ==> a * c <= b * c
    ensures a < b ==> a * c < b * c
  {
  }

  /** A text that fits, to within one unit, stays one line. */
  lemma ShortTextStays(text: string, maxWidth: real, fontSize: real)
    ensures EstimateTextWidth(text, fontSize) - maxWidth <= 1.0 ==> WrapSingleLine(text, maxWidth, fontSize) == [text]
    ensures EstimateTextWidth(text, fontSize) - maxWidth > 1.0 && Words(text) != [] ==>
              forall line <- WrapSingleLine(text, maxWidth, fontSize) :: |line| <= MaxChars(maxWidth, fontSize)
  {
    if !Fits(text, maxWidth, fontSize) {
      LinesAreBounded(text, maxWidth, fontSize);
    }
  }
}
