/** Breaking a line of text into lines of bounded length. */
module LineWrap {
  import opened MachineInts
  import opened Text

  // ---- Measuring ----------------------------------------------------------------------------

  predicate IsCjk(c: char) {
    var n := c as int;
    0x4e00 <= n <= 0x9fff || 0x3400 <= n <= 0x4dbf || 0xf900 <= n <= 0xfaff || 0x3000 <= n <= 0x303f || 0x1f300 <= n <= 0x1f9ff
  }

  const NARROW := {'i', 'l', 'j', 't', '!', '.', ':', ';', '\'', '`', '|', ' ', ',', '(', ')', '[', ']', '{', '}', '/', '\\', '-'}
  const WIDE := {'m', 'w', 'M', 'W', '@', '%', '&', '#', '+'}

  function CharWidth(c: char, fontSize: real): (w: real) {
    if IsCjk(c) then fontSize
    else if c in NARROW then fontSize * 0.32
    else if c in WIDE then fontSize * 0.85
    else if 'A' <= c <= 'Z' then fontSize * 0.70
    else fontSize * 0.55
  }

  function EstimateTextWidth(text: string, fontSize: real): (w: real) {
    if text == [] then 0.0 else CharWidth(text[0], fontSize) + EstimateTextWidth(text[1..], fontSize)
  }

  predicate Fits(text: string, maxWidth: real, fontSize: real) {
    EstimateTextWidth(text, fontSize) <= maxWidth + 1.0
  }

  /** How many characters a line may hold: at least one. */
  function MaxChars(maxWidth: real, fontSize: real): (n: nat)
    ensures n >= 1
  {
    var charWidth := if fontSize * 0.58 > 1.0 then fontSize * 0.58 else 1.0;
    var chars := if maxWidth / charWidth > 1.0 then maxWidth / charWidth else 1.0;
    if chars.Floor > USIZE_MAX then USIZE_MAX else chars.Floor
  }

  // ---- Words --------------------------------------------------------------------------------

  function WordLength(s: string): (n: nat)
    ensures n <= |s|
  {
    if s == [] || IsSpace(s[0]) then 0 else 1 + WordLength(s[1..])
  }

  /** `split_whitespace`: the maximal runs of characters other than white space. */
  function Words(s: string): (words: seq<string>)
    decreases |s|
  {
    if s == [] then []
    else if IsSpace(s[0]) then Words(s[1..])
    else [s[..WordLength(s)]] + Words(s[WordLength(s)..])
  }

  predicate IsSolid(s: string) {
    forall c <- s :: !IsSpace(c)
  }

  predicate IsWord(s: string) {
    s != [] && IsSolid(s)
  }

  function Concat(parts: seq<string>): (s: string) {
    if parts == [] then [] else parts[0] + Concat(parts[1..])
  }

  /** The characters of a text other than white space. */
  function Solid(s: string): (t: string) {
    if s == [] then [] else (if IsSpace(s[0]) then [] else [s[0]]) + Solid(s[1..])
  }

  lemma Associate<T>(a: seq<T>, b: seq<T>, c: seq<T>)
    ensures a + b + c == a + (b + c)
  {
  }

  lemma {:induction false} ConcatAppend(a: seq<string>, b: seq<string>)
    ensures Concat(a + b) == Concat(a) + Concat(b)
  {
    if a == [] {
      assert a + b == b;
    } else {
      ConcatAppend(a[1..], b);
      assert (a + b)[0] == a[0] && (a + b)[1..] == a[1..] + b;
      Associate(a[0], Concat(a[1..]), Concat(b));
    }
  }

  lemma {:induction false} SolidAppend(a: string, b: string)
    ensures Solid(a + b) == Solid(a) + Solid(b)
  {
    if a == [] {
      assert a + b == b;
    } else {
      SolidAppend(a[1..], b);
      assert (a + b)[0] == a[0] && (a + b)[1..] == a[1..] + b;
      var first := if IsSpace(a[0]) then [] else [a[0]];
      Associate(first, Solid(a[1..]), Solid(b));
    }
  }

  lemma {:induction false} WordLengthIsWord(s: string)
    ensures IsSolid(s[..WordLength(s)])
    ensures WordLength(s) < |s| ==> IsSpace(s[WordLength(s)])
  {
    if s != [] && !IsSpace(s[0]) {
      WordLengthIsWord(s[1..]);
      assert s[..WordLength(s)] == [s[0]] + s[1..][..WordLength(s[1..])];
    }
  }

  lemma {:induction false} WordsAreWords(s: string)
    ensures forall w <- Words(s) :: IsWord(w)
    decreases |s|
  {
    if s != [] {
      if IsSpace(s[0]) {
        WordsAreWords(s[1..]);
      } else {
        WordLengthIsWord(s);
        WordsAreWords(s[WordLength(s)..]);
      }
    }
  }

  lemma {:induction false} SolidOfSolid(s: string)
    requires IsSolid(s)
    ensures Solid(s) == s
  {
    if s != [] {
      assert s[0] in s;
      SolidOfSolid(s[1..]);
    }
  }

  /** A text's words, put together, are its characters other than white space. */
  lemma {:induction false} WordsHoldSolid(s: string)
    ensures Concat(Words(s)) == Solid(s)
    decreases |s|
  {
    if s != [] {
      if IsSpace(s[0]) {
        WordsHoldSolid(s[1..]);
      } else {
        var n := WordLength(s);
        WordLengthIsWord(s);
        WordsHoldSolid(s[n..]);
        SolidOfSolid(s[..n]);
        SolidAppend(s[..n], s[n..]);
        assert s == s[..n] + s[n..];
      }
    }
  }

  lemma {:induction false} LengthOfWord(w: string, rest: string)
    requires IsSolid(w) && (rest == [] || IsSpace(rest[0]))
    ensures WordLength(w + rest) == |w|
  {
    if w == [] {
      assert w + rest == rest;
    } else {
      assert w[0] in w;
      assert (w + rest)[1..] == w[1..] + rest;
      LengthOfWord(w[1..], rest);
    }
  }

  lemma WordsOfWord(w: string)
    requires IsWord(w)
    ensures Words(w) == [w]
  {
    LengthOfWord(w, []);
    assert w + [] == w && w[0] in w && w[|w|..] == [];
  }

  /** A space between two texts separates their words. */
  lemma {:induction false} WordsAcrossSpace(a: string, b: string)
    ensures Words(a + " " + b) == Words(a) + Words(b)
    decreases |a|
  {
    var whole := a + " " + b;
    if a == [] {
      assert whole == " " + b && whole[1..] == b && IsSpace(' ');
    } else if IsSpace(a[0]) {
      assert whole[0] == a[0] && whole[1..] == a[1..] + " " + b;
      WordsAcrossSpace(a[1..], b);
    } else {
      WordsAcrossSpace(a[WordLength(a)..], b);
      FirstWordSplits(a, b);
      Associate([a[..WordLength(a)]], Words(a[WordLength(a)..]), Words(b));
    }
  }

  lemma FirstWordSplits(a: string, b: string)
    requires a != [] && !IsSpace(a[0])
    ensures var n := WordLength(a); Words(a + " " + b) == [a[..n]] + Words(a[n..] + " " + b)
  {
    var n := WordLength(a);
    var whole, rest := a + " " + b, a[n..] + " " + b;
    WordLengthIsWord(a);
    assert whole == a[..n] + rest && whole[0] == a[0] && IsSpace(' ');
    LengthOfWord(a[..n], rest);
    assert whole[..n] == a[..n] && whole[n..] == rest;
  }

  // ---- Wrapping -----------------------------------------------------------------------------

  /** The lines finished so far and the one being filled. */
  datatype Page = Page(lines: seq<string>, current: string)

  function Room(current: string, maxChars: nat): (n: nat) {
    SaturatingSub(maxChars, |current| + if |current| == 0 then 0 else 1)
  }

  function Extended(current: string, part: string): (s: string) {
    if current == [] then part else current + " " + part
  }

  /** A word that may be cut: it fills the rest of the current line and as many more as it takes. */
  function Pour(page: Page, remaining: string, maxChars: nat): (after: Page)
    requires maxChars >= 1
    decreases |remaining|, |page.current|
  {
    if remaining == [] then page
    else
      var room := Room(page.current, maxChars);
      if room == 0 then Pour(Page(page.lines + [page.current], ""), remaining, maxChars)
      else if room >= |remaining| then Page(page.lines, Extended(page.current, remaining))
      else Pour(Page(page.lines + [Extended(page.current, remaining[..room])], ""), remaining[room..], maxChars)
  }

  predicate MayBeCut(word: string, maxChars: nat) {
    |word| > maxChars || exists c <- word :: IsCjk(c)
  }

  function AddWord(page: Page, word: string, maxChars: nat): (after: Page)
    requires maxChars >= 1
  {
    if MayBeCut(word, maxChars) then Pour(page, word, maxChars)
    else if page.current == [] || |page.current| + 1 + |word| <= maxChars then Page(page.lines, Extended(page.current, word))
    else Page(page.lines + [page.current], word)
  }

  function AddWords(page: Page, words: seq<string>, maxChars: nat): (after: Page)
    requires maxChars >= 1
    decreases |words|
  {
    if words == [] then page else AddWords(AddWord(page, words[0], maxChars), words[1..], maxChars)
  }

  function Finished(page: Page): (lines: seq<string>) {
    if page.current == [] then page.lines else page.lines + [page.current]
  }

  const BLANK := Page([], "")

  function WrapSingleLine(text: string, maxWidth: real, fontSize: real): (lines: seq<string>) {
    if Fits(text, maxWidth, fontSize) then [text]
    else
      var lines := Finished(AddWords(BLANK, Words(text), MaxChars(maxWidth, fontSize)));
      if lines == [] then [text] else lines
  }

  method PourWord(page: Page, word: string, maxChars: nat) returns (after: Page)
    requires maxChars >= 1
    ensures after == Pour(page, word, maxChars)
  {
    after := page;
    var remaining := word;
    while remaining != []
      invariant Pour(after, remaining, maxChars) == Pour(page, word, maxChars)
      decreases |remaining|, |after.current|
    {
      var room := Room(after.current, maxChars);
      if room == 0 {
        after := Page(after.lines + [after.current], "");
        continue;
      }
      var take := if room < |remaining| then room else |remaining|;
      var current := Extended(after.current, remaining[..take]);
      assert take == |remaining| ==> remaining[..take] == remaining;
      remaining := remaining[take..];
      after := if remaining != [] then Page(after.lines + [current], "") else Page(after.lines, current);
    }
  }

  method Wrap(text: string, maxWidth: real, fontSize: real) returns (lines: seq<string>)
    ensures lines == WrapSingleLine(text, maxWidth, fontSize)
  {
    if Fits(text, maxWidth, fontSize) {
      return [text];
    }
    var maxChars := MaxChars(maxWidth, fontSize);
    var words := Words(text);
    var page := BLANK;
    assert words[0..] == words;
    for i := 0 to |words|
      invariant AddWords(page, words[i..], maxChars) == AddWords(BLANK, words, maxChars)
    {
      assert words[i..][1..] == words[i + 1..];
      var word := words[i];
      if MayBeCut(word, maxChars) {
        page := PourWord(page, word, maxChars);
      } else if page.current == [] {
        page := Page(page.lines, word);
      } else if |page.current| + 1 + |word| <= maxChars {
        page := Page(page.lines, page.current + " " + word);
      } else {
        page := Page(page.lines + [page.current], word);
      }
    }
    lines := page.lines;
    if page.current != [] {
      lines := lines + [page.current];
    }
    if lines == [] {
      lines := [text];
    }
  }

  // ---- Bounds -------------------------------------------------------------------------------

  predicate Bounded(page: Page, maxChars: nat) {
    |page.current| <= maxChars && forall line <- page.lines :: 1 <= |line| <= maxChars
  }

  lemma {:induction false} PourIsBounded(page: Page, remaining: string, maxChars: nat)
    requires maxChars >= 1 && Bounded(page, maxChars)
    ensures Bounded(Pour(page, remaining, maxChars), maxChars)
    ensures remaining != [] ==> Pour(page, remaining, maxChars).current != []
    decreases |remaining|, |page.current|
  {
    if remaining != [] {
      var room := Room(page.current, maxChars);
      if room == 0 {
        PourIsBounded(Page(page.lines + [page.current], ""), remaining, maxChars);
      } else if room < |remaining| {
        PourIsBounded(Page(page.lines + [Extended(page.current, remaining[..room])], ""), remaining[room..], maxChars);
      }
    }
  }

  lemma {:induction false} AddWordsIsBounded(page: Page, words: seq<string>, maxChars: nat)
    requires maxChars >= 1 && Bounded(page, maxChars) && forall w <- words :: w != []
    ensures Bounded(AddWords(page, words, maxChars), maxChars)
    ensures words != [] || page.current != [] ==> AddWords(page, words, maxChars).current != []
    decreases |words|
  {
    if words != [] {
      assert words[0] in words;
      if MayBeCut(words[0], maxChars) {
        PourIsBounded(page, words[0], maxChars);
      }
      assert forall w <- words[1..] :: w in words;
      AddWordsIsBounded(AddWord(page, words[0], maxChars), words[1..], maxChars);
    }
  }

  /**
   * Whenever a text with at least one word is wrapped, no line is empty or holds more characters than
   * fit; a text without a word comes back as it is.
   */
  lemma LinesAreBounded(text: string, maxWidth: real, fontSize: real)
    requires !Fits(text, maxWidth, fontSize)
    ensures var lines := WrapSingleLine(text, maxWidth, fontSize);
            if Words(text) == [] then lines == [text]
            else lines != [] && forall line <- lines :: 1 <= |line| <= MaxChars(maxWidth, fontSize)
  {
    var maxChars := MaxChars(maxWidth, fontSize);
    WordsAreWords(text);
    AddWordsIsBounded(BLANK, Words(text), maxChars);
  }

  // ---- What the lines hold ------------------------------------------------------------------

  function LineWords(lines: seq<string>): (words: seq<string>) {
    if lines == [] then [] else LineWords(lines[..|lines| - 1]) + Words(lines[|lines| - 1])
  }

  function PageWords(page: Page): (words: seq<string>) {
    LineWords(page.lines) + Words(page.current)
  }

  lemma PushedLine(page: Page, line: string)
    ensures PageWords(Page(page.lines + [line], "")) == LineWords(page.lines) + Words(line)
    ensures LineWords(page.lines + [line]) == LineWords(page.lines) + Words(line)
  {
    assert (page.lines + [line])[..|page.lines|] == page.lines;
  }

  lemma ExtendedWords(current: string, part: string)
    requires IsWord(part)
    ensures Words(Extended(current, part)) == Words(current) + [part]
  {
    WordsOfWord(part);
    if current != [] {
      WordsAcrossSpace(current, part);
    } else {
      assert Words(current) + [part] == [part];
    }
  }

  /** The parts a poured word is cut into follow the words already there, and make up the word. */
  ghost predicate PouredAs(page: Page, word: string, after: Page, parts: seq<string>) {
    PageWords(after) == PageWords(page) + parts && Concat(parts) == word
  }

  lemma {:induction false} PourKeepsWord(page: Page, remaining: string, maxChars: nat) returns (parts: seq<string>)
    requires maxChars >= 1 && IsSolid(remaining)
    ensures PouredAs(page, remaining, Pour(page, remaining, maxChars), parts)
    decreases |remaining|, |page.current|
  {
    var room := Room(page.current, maxChars);
    if remaining == [] {
      parts := [];
      assert PageWords(page) + [] == PageWords(page);
    } else if room == 0 {
      PushedLine(page, page.current);
      parts := PourKeepsWord(Page(page.lines + [page.current], ""), remaining, maxChars);
    } else if room >= |remaining| {
      ExtendedWords(page.current, remaining);
      parts := [remaining];
      assert Concat([]) == [] && parts[1..] == [];
    } else {
      var part, rest := remaining[..room], remaining[room..];
      var next := Page(page.lines + [Extended(page.current, part)], "");
      ExtendedWords(page.current, part);
      PushedLine(page, Extended(page.current, part));
      var more := PourKeepsWord(next, rest, maxChars);
      parts := [part] + more;
      assert parts[1..] == more && remaining == part + rest;
      assert PageWords(next) == PageWords(page) + [part];
    }
  }

  lemma AddWordKeepsWord(page: Page, word: string, maxChars: nat) returns (parts: seq<string>)
    requires maxChars >= 1 && IsWord(word)
    ensures PouredAs(page, word, AddWord(page, word, maxChars), parts)
    ensures !MayBeCut(word, maxChars) ==> parts == [word]
  {
    if MayBeCut(word, maxChars) {
      parts := PourKeepsWord(page, word, maxChars);
    } else {
      parts := [word];
      assert Concat([]) == [] && parts[1..] == [];
      if page.current == [] || |page.current| + 1 + |word| <= maxChars {
        ExtendedWords(page.current, word);
      } else {
        PushedLine(page, page.current);
        WordsOfWord(word);
      }
    }
  }

  function Flat(parts: seq<seq<string>>): (s: seq<string>) {
    if parts == [] then [] else parts[0] + Flat(parts[1..])
  }

  /** `parts` cuts each word into pieces, and only words that may be cut into more than one. */
  ghost predicate Cuts(words: seq<string>, parts: seq<seq<string>>, maxChars: nat) {
    && |parts| == |words|
    && forall i :: 0 <= i < |words| ==>
         Concat(parts[i]) == words[i] && (!MayBeCut(words[i], maxChars) ==> parts[i] == [words[i]])
  }

  lemma {:induction false} AddWordsKeepsWords(page: Page, words: seq<string>, maxChars: nat) returns (parts: seq<seq<string>>)
    requires maxChars >= 1 && forall w <- words :: IsWord(w)
    ensures Cuts(words, parts, maxChars)
    ensures PageWords(AddWords(page, words, maxChars)) == PageWords(page) + Flat(parts)
    decreases |words|
  {
    if words == [] {
      parts := [];
      assert PageWords(page) + [] == PageWords(page);
    } else {
      assert words[0] in words;
      var first := AddWordKeepsWord(page, words[0], maxChars);
      var rest := AddWordsKeepsWords(AddWord(page, words[0], maxChars), words[1..], maxChars);
      parts := [first] + rest;
      assert parts[1..] == rest;
      assert PageWords(page) + first + Flat(rest) == PageWords(page) + (first + Flat(rest));
    }
  }

  lemma FinishedWords(page: Page)
    ensures LineWords(Finished(page)) == PageWords(page)
  {
    PushedLine(page, page.current);
    if page.current == [] {
      assert LineWords(page.lines) + [] == LineWords(page.lines);
    }
  }

  /**
   * The words on the lines, read in order, are the words of the text, in order, none lost and none
   * added; only a word longer than a line or with a CJK character is ever cut, into pieces that make
   * it up.
   */
  lemma LinesKeepWords(text: string, maxWidth: real, fontSize: real) returns (parts: seq<seq<string>>)
    requires !Fits(text, maxWidth, fontSize)
    ensures Cuts(Words(text), parts, MaxChars(maxWidth, fontSize))
    ensures LineWords(WrapSingleLine(text, maxWidth, fontSize)) == Flat(parts)
  {
    var maxChars := MaxChars(maxWidth, fontSize);
    WordsAreWords(text);
    parts := AddWordsKeepsWords(BLANK, Words(text), maxChars);
    FinishedWords(AddWords(BLANK, Words(text), maxChars));
    assert PageWords(BLANK) == [] && [] + Flat(parts) == Flat(parts);
    if Finished(AddWords(BLANK, Words(text), maxChars)) == [] {
      AddWordsIsBounded(BLANK, Words(text), maxChars);
      assert [text][..0] == [] && LineWords([text]) == [] + Words(text) == Words(text) == [];
    }
  }

  lemma {:induction false} FlatConcat(words: seq<string>, parts: seq<seq<string>>)
    requires |parts| == |words| && forall i :: 0 <= i < |words| ==> Concat(parts[i]) == words[i]
    ensures Concat(Flat(parts)) == Concat(words)
  {
    if words != [] {
      FlatConcat(words[1..], parts[1..]);
      ConcatAppend(parts[0], Flat(parts[1..]));
    }
  }

  lemma {:induction false} LinesHoldSolid(lines: seq<string>)
    ensures Solid(Concat(lines)) == Concat(LineWords(lines))
  {
    if lines != [] {
      var front, last := lines[..|lines| - 1], lines[|lines| - 1];
      LinesHoldSolid(front);
      WordsHoldSolid(last);
      ConcatAppend(LineWords(front), Words(last));
      ConcatAppend(front, [last]);
      assert lines == front + [last] && Concat([last]) == last + [] == last;
      SolidAppend(Concat(front), last);
    }
  }

  /** Wrapping conserves the characters other than white space, in order, whatever the text and the width. */
  lemma WrappingConservesText(text: string, maxWidth: real, fontSize: real)
    ensures Solid(Concat(WrapSingleLine(text, maxWidth, fontSize))) == Solid(text)
  {
    if Fits(text, maxWidth, fontSize) {
      assert [text][1..] == [] && Concat([text]) == text + [] == text;
    } else {
      var parts := LinesKeepWords(text, maxWidth, fontSize);
      LinesHoldSolid(WrapSingleLine(text, maxWidth, fontSize));
      FlatConcat(Words(text), parts);
      WordsHoldSolid(text);
    }
  }
}
