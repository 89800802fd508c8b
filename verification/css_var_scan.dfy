/** What the scan for references finds, told by the characters of the string, and the resolution of printed values. */
module CssVarScan {
  import opened CssVar
  import opened Text
  import opened Wrappers

  // ---- Parentheses --------------------------------------------------------------------------

  /** Opening parentheses minus closing ones. */
  function Open(s: string): (n: int) {
    if s == [] then 0
    else Open(s[..|s| - 1]) + (if s[|s| - 1] == '(' then 1 else if s[|s| - 1] == ')' then -1 else 0)
  }

  /** Every closing parenthesis is matched by one before it, and every opening one by one behind it. */
  ghost predicate Balanced(s: string) {
    Open(s) == 0 && forall k :: 0 <= k <= |s| ==> Open(s[..k]) >= 0
  }

  lemma OpenStep(s: string, k: nat)
    requires k < |s|
    ensures Open(s[..k + 1]) == Open(s[..k]) + (if s[k] == '(' then 1 else if s[k] == ')' then -1 else 0)
  {
    assert s[..k + 1][..k] == s[..k];
  }

  /** `s[k]` closes what `depth` parentheses before the string opened, and everything before it stays inside. */
  ghost predicate ClosesAt(s: string, depth: nat, k: nat) {
    k < |s| && s[k] == ')' && Open(s[..k]) == 0 - depth && forall i :: 0 <= i <= k ==> Open(s[..i]) >= 0 - depth
  }

  lemma {:induction false} OpenCons(s: string, k: nat)
    requires 0 < k <= |s|
    ensures Open(s[..k]) == Open(s[..1]) + Open(s[1..][..k - 1])
  {
    if k == 1 {
      assert s[1..][..0] == [];
    } else {
      OpenCons(s, k - 1);
      OpenStep(s, k - 1);
      OpenStep(s[1..], k - 2);
    }
  }

  lemma OpenFirst(s: string)
    requires s != []
    ensures Open(s[..0]) == 0
    ensures Open(s[..1]) == if s[0] == '(' then 1 else if s[0] == ')' then -1 else 0
  {
    OpenStep(s, 0);
  }

  /** One character on, the place moves by one. */
  lemma ClosesOn(s: string, depth: nat, k: nat)
    requires 0 < k < |s| && !(s[0] == ')' && depth == 0)
    ensures ClosesAt(s, depth, k) <==> ClosesAt(s[1..], Nested(s[0], depth), k - 1)
  {
    OpenFirst(s);
    forall i | 0 < i <= k ensures Open(s[..i]) == Open(s[..1]) + Open(s[1..][..i - 1]) {
      OpenCons(s, i);
    }
    var t, inner := s[1..], Nested(s[0], depth);
    if ClosesAt(s, depth, k) {
      forall i | 0 <= i <= k - 1 ensures Open(t[..i]) + inner >= 0 {
        assert Open(s[..i + 1]) == Open(s[..1]) + Open(t[..i]);
      }
    }
    if ClosesAt(t, inner, k - 1) {
      forall i | 0 <= i <= k ensures Open(s[..i]) >= 0 - depth {
        assert i > 0 ==> Open(s[..i]) == Open(s[..1]) + Open(t[..i - 1]);
      }
    }
  }

  lemma {:induction false} CloseIsFound(s: string, depth: nat, k: nat)
    ensures FindClose(s, depth) == Some(k) <==> ClosesAt(s, depth, k)
  {
    if s != [] {
      OpenFirst(s);
      if s[0] == ')' && depth == 0 {
        assert k > 0 ==> !ClosesAt(s, depth, k);
      } else if k > 0 {
        CloseIsFound(s[1..], Nested(s[0], depth), k - 1);
        if k < |s| {
          ClosesOn(s, depth, k);
        }
      }
    }
  }

  /** Closing parentheses never outnumber the opening ones by more than `depth`. */
  ghost predicate Stays(s: string, depth: nat) {
    forall i :: 0 <= i <= |s| ==> Open(s[..i]) >= 0 - depth
  }

  predicate OuterComma(s: string, depth: nat, i: nat)
    requires i < |s|
  {
    s[i] == ',' && Open(s[..i]) == 0 - depth
  }

  /** The first comma inside exactly the `depth` parentheses open before the string. */
  ghost predicate CommaAt(s: string, depth: nat, k: nat) {
    k < |s| && OuterComma(s, depth, k) && forall i :: 0 <= i < k ==> !OuterComma(s, depth, i)
  }

  lemma StaysOn(s: string, depth: nat)
    requires s != [] && Stays(s, depth)
    ensures s[0] == ')' ==> depth > 0
    ensures Stays(s[1..], Nested(s[0], depth))
    ensures forall i :: 0 < i < |s| ==> (OuterComma(s, depth, i) <==> OuterComma(s[1..], Nested(s[0], depth), i - 1))
  {
    OpenFirst(s);
    forall i | 0 < i <= |s| ensures Open(s[..i]) == Open(s[..1]) + Open(s[1..][..i - 1]) {
      OpenCons(s, i);
    }
    forall i | 0 <= i <= |s[1..]| ensures Open(s[1..][..i]) >= 0 - Nested(s[0], depth) {
      assert Open(s[..i + 1]) == Open(s[..1]) + Open(s[1..][..i]);
    }
  }

  lemma {:induction false} CommaIsFound(s: string, depth: nat, k: nat)
    requires Stays(s, depth)
    ensures FindComma(s, depth) == Some(k) <==> CommaAt(s, depth, k)
  {
    if s != [] {
      OpenFirst(s);
      StaysOn(s, depth);
      if s[0] == ',' && depth == 0 {
        assert OuterComma(s, depth, 0);
      } else {
        assert !OuterComma(s, depth, 0);
        if k > 0 {
          CommaIsFound(s[1..], Nested(s[0], depth), k - 1);
          CommaOn(s, depth, k);
        }
      }
    }
  }

  lemma CommaOn(s: string, depth: nat, k: nat)
    requires s != [] && Stays(s, depth) && k > 0 && !OuterComma(s, depth, 0)
    requires s[0] == ')' ==> depth > 0
    ensures CommaAt(s, depth, k) <==> CommaAt(s[1..], Nested(s[0], depth), k - 1)
  {
    StaysOn(s, depth);
    if CommaAt(s, depth, k) {
      forall i | 0 <= i < k - 1 ensures !OuterComma(s[1..], Nested(s[0], depth), i) {
        assert OuterComma(s, depth, i + 1) <==> OuterComma(s[1..], Nested(s[0], depth), i);
      }
    }
  }

  // ---- The scan -----------------------------------------------------------------------------

  /** The text stands in the string at that place. */
  predicate StandsAt(s: string, text: string, i: nat) {
    i + |text| <= |s| && s[i..i + |text|] == text
  }

  ghost predicate FirstAt(s: string, text: string, i: nat) {
    StandsAt(s, text, i) && forall j :: 0 <= j < i ==> !StandsAt(s, text, j)
  }

  lemma VarIsText(s: string, i: nat)
    ensures VarAt(s, i) <==> StandsAt(s, "var(", i)
  {
    if i + 4 <= |s| {
      var t := s[i..i + 4];
      assert t[0] == s[i] && t[1] == s[i + 1] && t[2] == s[i + 2] && t[3] == s[i + 3];
      assert "var("[0] == 'v' && "var("[1] == 'a' && "var("[2] == 'r' && "var("[3] == '(';
    }
  }

  lemma {:induction false} VarIsFound(s: string)
    ensures FindVar(s).None? <==> forall i: nat :: !StandsAt(s, "var(", i)
    ensures FindVar(s).Some? ==> FirstAt(s, "var(", FindVar(s).value)
    decreases |s|
  {
    if |s| >= 4 {
      VarIsText(s, 0);
      if !VarAt(s, 0) {
        VarIsFound(s[1..]);
        forall i: nat | i > 0 ensures StandsAt(s, "var(", i) <==> StandsAt(s[1..], "var(", i - 1) {
          assert i + 4 <= |s| ==> s[i..i + 4] == s[1..][i - 1..i - 1 + 4];
        }
        var later := FindVar(s[1..]);
        if later.Some? {
          assert StandsAt(s, "var(", later.value + 1);
        } else {
          forall i: nat ensures !StandsAt(s, "var(", i) {
            assert i > 0 ==> !StandsAt(s[1..], "var(", i - 1);
          }
        }
      }
    }
  }

  /** The name and the fallback of a reference, from what stands between its parentheses. */
  ghost predicate HasParts(body: string, name: string, fallback: Option<string>) {
    if forall k: nat :: !CommaAt(body, 0, k) then name == Trim(body) && fallback.None?
    else exists k: nat :: CommaAt(body, 0, k) && name == Trim(body[..k]) && fallback == Some(Trim(body[k + 1..]))
  }

  /** The string is the text before its first `var(`, that, a balanced body, the parenthesis behind it, and the rest. */
  ghost predicate Tiles(s: string, prefix: string, body: string, rest: string) {
    s == prefix + "var(" + body + ")" + rest && Balanced(body) && FirstAt(s, "var(", |prefix|)
  }

  ghost predicate Means(s: string, scan: Scan) {
    match scan
    case NoVar => forall i: nat :: !StandsAt(s, "var(", i)
    case Unclosed(prefix) =>
      && FirstAt(s, "var(", |prefix|) && prefix == s[..|prefix|]
      && forall body, rest :: !Tiles(s, prefix, body, rest)
    case Closed(prefix, name, fallback, rest) => exists body :: Tiles(s, prefix, body, rest) && HasParts(body, name, fallback)
  }

  lemma FirstIsOne(s: string, i: nat, j: nat)
    requires FirstAt(s, "var(", i) && FirstAt(s, "var(", j)
    ensures i == j
  {
  }

  lemma TextBehind(prefix: string, body: string, rest: string, s: string)
    requires s == prefix + "var(" + body + ")" + rest
    ensures |s| == |prefix| + 5 + |body| + |rest| && s[..|prefix|] == prefix
    ensures s[|prefix| + 4..] == body + ")" + rest
  {
  }

  lemma BalancedCloses(body: string, rest: string, after: string)
    requires Balanced(body) && after == body + ")" + rest
    ensures ClosesAt(after, 0, |body|) && after[..|body|] == body && after[|body| + 1..] == rest
  {
    assert after[..|body|] == body && after[|body|] == ')';
    forall i | 0 <= i <= |body| ensures Open(after[..i]) >= 0 {
      assert after[..i] == body[..i];
    }
  }

  /** A string is tiled in one way at most, and that is what the two searches find. */
  lemma TilesAreFound(s: string, prefix: string, body: string, rest: string)
    requires Tiles(s, prefix, body, rest)
    ensures FindVar(s) == Some(|prefix|) && prefix == s[..|prefix|]
    ensures var after := s[|prefix| + 4..];
            FindClose(after, 0) == Some(|body|) && body == after[..|body|] && rest == after[|body| + 1..]
  {
    VarIsFound(s);
    assert StandsAt(s, "var(", |prefix|);
    FirstIsOne(s, FindVar(s).value, |prefix|);
    TextBehind(prefix, body, rest, s);
    var after := s[|prefix| + 4..];
    BalancedCloses(body, rest, after);
    CloseIsFound(after, 0, |body|);
  }

  lemma ClosedTiles(s: string, i: nat, k: nat)
    requires FirstAt(s, "var(", i) && ClosesAt(s[i + 4..], 0, k)
    ensures Tiles(s, s[..i], s[i + 4..][..k], s[i + 4..][k + 1..])
  {
    var after := s[i + 4..];
    var body, rest := after[..k], after[k + 1..];
    forall j | 0 <= j <= |body| ensures Open(body[..j]) >= 0 {
      assert body[..j] == after[..j];
    }
    assert body[..|body|] == body;
    assert after == body + ")" + rest;
    assert s == s[..i] + s[i..i + 4] + after;
    Regroup(s[..i], "var(", body, rest);
  }

  lemma Regroup(a: string, b: string, body: string, rest: string)
    ensures a + b + (body + ")" + rest) == a + b + body + ")" + rest
  {
  }

  lemma PartsAreFound(body: string)
    requires Balanced(body)
    ensures FindComma(body, 0).None? <==> forall k: nat :: !CommaAt(body, 0, k)
    ensures FindComma(body, 0).Some? ==> CommaAt(body, 0, FindComma(body, 0).value)
    ensures forall k: nat :: CommaAt(body, 0, k) ==> FindComma(body, 0) == Some(k)
  {
    forall k: nat ensures FindComma(body, 0) == Some(k) <==> CommaAt(body, 0, k) {
      CommaIsFound(body, 0, k);
    }
  }

  lemma BodyHasParts(body: string)
    requires Balanced(body)
    ensures var comma := FindComma(body, 0);
            if comma.None? then HasParts(body, Trim(body), None)
            else HasParts(body, Trim(body[..comma.value]), Some(Trim(body[comma.value + 1..])))
  {
    PartsAreFound(body);
  }

  lemma PartsAreScanned(body: string, name: string, fallback: Option<string>)
    requires Balanced(body) && HasParts(body, name, fallback)
    ensures var comma := FindComma(body, 0);
            if comma.None? then name == Trim(body) && fallback == None
            else name == Trim(body[..comma.value]) && fallback == Some(Trim(body[comma.value + 1..]))
  {
    PartsAreFound(body);
  }

  lemma ScanOf(s: string, i: nat, after: string, body: string, rest: string)
    requires FindVar(s) == Some(i) && after == s[i + 4..] && FindClose(after, 0) == Some(|body|)
    requires body == after[..|body|] && rest == after[|body| + 1..]
    ensures var comma := FindComma(body, 0);
            ScanVar(s) == if comma.None? then Closed(s[..i], Trim(body), None, rest)
                          else Closed(s[..i], Trim(body[..comma.value]), Some(Trim(body[comma.value + 1..])), rest)
  {
  }

  lemma ClosedMeans(s: string, i: nat, k: nat, after: string, scan: Scan)
    requires FindVar(s) == Some(i) && after == s[i + 4..] && FindClose(after, 0) == Some(k) && scan == ScanVar(s)
    ensures scan.Closed? && Means(s, scan)
  {
    VarIsFound(s);
    CloseIsFound(after, 0, k);
    ClosedTiles(s, i, k);
    BodyHasParts(after[..k]);
  }

  lemma UnclosedMeans(s: string, i: nat)
    requires FindVar(s) == Some(i) && FindClose(s[i + 4..], 0).None?
    ensures Means(s, Unclosed(s[..i]))
  {
    VarIsFound(s);
    forall body, rest ensures !Tiles(s, s[..i], body, rest) {
      if Tiles(s, s[..i], body, rest) {
        TilesAreFound(s, s[..i], body, rest);
      }
    }
  }

  /** The scan says what the string is made of. */
  lemma ScanMeans(s: string)
    ensures Means(s, ScanVar(s))
  {
    var start := FindVar(s);
    if start.None? {
      VarIsFound(s);
    } else {
      var close := FindClose(s[start.value + 4..], 0);
      if close.Some? {
        ClosedMeans(s, start.value, close.value, s[start.value + 4..], ScanVar(s));
      } else {
        UnclosedMeans(s, start.value);
      }
    }
  }

  lemma TilesAreScanned(s: string, prefix: string, body: string, name: string, fallback: Option<string>, rest: string)
    requires Tiles(s, prefix, body, rest) && HasParts(body, name, fallback)
    ensures ScanVar(s) == Closed(prefix, name, fallback, rest)
  {
    TilesAreFound(s, prefix, body, rest);
    PartsAreScanned(body, name, fallback);
    ScanOf(s, |prefix|, s[|prefix| + 4..], body, rest);
  }

  lemma UnclosedIsScanned(s: string, prefix: string)
    requires Means(s, Unclosed(prefix))
    ensures ScanVar(s) == Unclosed(prefix)
  {
    VarIsFound(s);
    assert StandsAt(s, "var(", |prefix|);
    FirstIsOne(s, FindVar(s).value, |prefix|);
    var close := FindClose(s[|prefix| + 4..], 0);
    if close.Some? {
      CloseIsFound(s[|prefix| + 4..], 0, close.value);
      ClosedTiles(s, |prefix|, close.value);
    }
  }

  /** And a string is made of such parts in one way only. */
  lemma MeansIsScan(s: string, scan: Scan)
    ensures ScanVar(s) == scan <==> Means(s, scan)
  {
    ScanMeans(s);
    if Means(s, scan) {
      match scan
      case NoVar => VarIsFound(s);
      case Unclosed(prefix) => UnclosedIsScanned(s, prefix);
      case Closed(prefix, name, fallback, rest) =>
        var body :| Tiles(s, prefix, body, rest) && HasParts(body, name, fallback);
        TilesAreScanned(s, prefix, body, name, fallback, rest);
    }
  }

  // ---- Printed values -----------------------------------------------------------------------

  /** A reference, its fallback as written, and the text behind it. */
  datatype Part = Part(name: string, fallback: Option<string>, after: string)

  predicate IsPlain(text: string) {
    forall i :: 0 <= i < |text| ==> !StandsAt(text, "var(", i)
  }

  predicate IsSimple(name: string) {
    "--" <= name && Trim(name) == name
    && forall i :: 0 <= i < |name| ==> name[i] != '(' && name[i] != ')' && name[i] != ','
  }

  ghost predicate IsPart(part: Part) {
    && IsSimple(part.name) && IsPlain(part.after)
    && (part.fallback.Some? ==> Balanced(part.fallback.value))
  }

  function PrintBody(part: Part): (body: string) {
    if part.fallback.None? then part.name else part.name + "," + part.fallback.value
  }

  function PrintParts(parts: seq<Part>): (s: string) {
    if parts == [] then "" else "var(" + PrintBody(parts[0]) + ")" + (parts[0].after + PrintParts(parts[1..]))
  }

  function PrintValue(lead: string, parts: seq<Part>): (s: string) {
    lead + PrintParts(parts)
  }

  /** What stands for a reference: its property, or else its fallback. */
  function TextOf(part: Part, customs: Customs): (text: Option<string>) {
    if part.name in customs then Some(customs[part.name])
    else if part.fallback.Some? then Some(Trim(part.fallback.value))
    else None
  }

  predicate HasPlainText(part: Part, customs: Customs) {
    TextOf(part, customs).Some? ==> IsPlain(TextOf(part, customs).value)
  }

  predicate AllGiven(parts: seq<Part>, customs: Customs) {
    forall part <- parts :: TextOf(part, customs).Some?
  }

  /** The texts and what stands for the references between them, one after the other. */
  function Texts(lead: string, parts: seq<Part>, customs: Customs): (s: string)
    requires AllGiven(parts, customs)
    decreases |parts|
  {
    if parts == [] then lead
    else
      assert parts[0] in parts;
      lead + TextOf(parts[0], customs).value + Texts(parts[0].after, parts[1..], customs)
  }

  /** The same without the text behind the last reference. */
  function UpToLast(lead: string, parts: seq<Part>, customs: Customs): (s: string)
    requires AllGiven(parts, customs)
    decreases |parts|
  {
    if parts == [] then ""
    else
      assert parts[0] in parts;
      lead + TextOf(parts[0], customs).value + UpToLast(parts[0].after, parts[1..], customs)
  }

  lemma {:induction false} OpenJoin(a: string, b: string)
    ensures Open(a + b) == Open(a) + Open(b)
  {
    if b == [] {
      assert a + b == a;
    } else {
      OpenJoin(a, b[..|b| - 1]);
      assert (a + b)[..|a + b| - 1] == a + b[..|b| - 1];
    }
  }

  lemma {:induction false} NoneOpen(s: string)
    requires forall i :: 0 <= i < |s| ==> s[i] != '(' && s[i] != ')'
    ensures Open(s) == 0
  {
    if s != [] {
      NoneOpen(s[..|s| - 1]);
    }
  }

  lemma NameIsFlat(name: string, k: nat)
    requires IsSimple(name) && k <= |name|
    ensures Open(name[..k]) == 0
  {
    NoneOpen(name[..k]);
  }

  lemma BodyPrefix(name: string, fallback: string, body: string, k: nat)
    requires IsSimple(name) && body == name + "," + fallback && k <= |body|
    ensures Open(body[..k]) == if k <= |name| then 0 else Open(fallback[..k - |name| - 1])
  {
    if k <= |name| {
      assert body[..k] == name[..k];
      NameIsFlat(name, k);
    } else {
      var tail := fallback[..k - |name| - 1];
      assert body[..k] == (name + ",") + tail;
      OpenJoin(name + ",", tail);
      NoneOpen(name + ",");
    }
  }

  lemma BodyWithFallback(name: string, fallback: string)
    requires IsSimple(name) && Balanced(fallback)
    ensures var body := name + "," + fallback;
            Balanced(body) && HasParts(body, name, Some(Trim(fallback)))
  {
    var body := name + "," + fallback;
    forall k | 0 <= k <= |body| ensures Open(body[..k]) >= 0 {
      BodyPrefix(name, fallback, body, k);
    }
    BodyPrefix(name, fallback, body, |body|);
    assert body[..|body|] == body && fallback[..|fallback|] == fallback;
    BodyPrefix(name, fallback, body, |name|);
    forall i | 0 <= i < |name| ensures !OuterComma(body, 0, i) {
      assert body[i] == name[i];
    }
    assert CommaAt(body, 0, |name|);
    assert body[..|name|] == name && body[|name| + 1..] == fallback;
  }

  lemma BodyWithout(name: string)
    requires IsSimple(name)
    ensures Balanced(name) && HasParts(name, name, None)
  {
    forall k | 0 <= k <= |name| ensures Open(name[..k]) == 0 {
      NameIsFlat(name, k);
    }
    assert name[..|name|] == name;
  }

  /** Behind plain text the first reference is the first one printed. */
  lemma PlainLeadsTo(lead: string, tail: string, s: string)
    requires IsPlain(lead) && s == lead + tail && StandsAt(tail, "var(", 0)
    ensures FirstAt(s, "var(", |lead|)
  {
    VarIsText(tail, 0);
    VarIsText(s, |lead|);
    assert forall k :: 0 <= k < |tail| ==> s[|lead| + k] == tail[k];
    forall j | 0 <= j < |lead| ensures !StandsAt(s, "var(", j) {
      VarIsText(s, j);
      if j + 4 <= |lead| {
        assert s[j..j + 4] == lead[j..j + 4] && !StandsAt(lead, "var(", j);
      } else {
        var k := j + 3 - |lead|;
        assert 0 <= k < 3 && s[j + 3] == s[|lead| + k] == tail[k] && tail[k] != '(';
      }
    }
  }

  lemma FirstPartTiles(lead: string, part: Part, behind: string, s: string)
    requires IsPlain(lead) && IsPart(part) && s == lead + ("var(" + PrintBody(part) + ")" + behind)
    ensures ScanVar(s) == Closed(lead, part.name, if part.fallback.None? then None else Some(Trim(part.fallback.value)), behind)
  {
    var body := PrintBody(part);
    var tail := "var(" + body + ")" + behind;
    assert tail[0..4] == "var(";
    PlainLeadsTo(lead, tail, s);
    assert s == lead + "var(" + body + ")" + behind;
    if part.fallback.None? {
      BodyWithout(part.name);
      TilesAreScanned(s, lead, body, part.name, None, behind);
    } else {
      BodyWithFallback(part.name, part.fallback.value);
      TilesAreScanned(s, lead, body, part.name, Some(Trim(part.fallback.value)), behind);
    }
  }

  lemma PlainResolves(value: string, customs: Customs, visited: set<string>, depth: nat)
    requires IsPlain(value) && depth <= MAX_DEPTH
    ensures Resolve(value, customs, visited, depth) == Some(value)
  {
    VarIsFound(value);
    assert forall i: nat :: i >= |value| ==> !StandsAt(value, "var(", i);
    assert "" + value == value;
  }

  /** Custom properties are those whose names start with two hyphens; a reference to any other name takes its fallback. */
  lemma OtherNamesTakeFallback(name: string, fallback: Option<string>, customs: Customs, visited: set<string>, depth: nat)
    requires depth <= MAX_DEPTH
    ensures IsCustom(name) <==> "--" <= name
    ensures !("--" <= name) ==> Refer(name, fallback, customs, visited, depth)
                                == if fallback.None? then None else Resolve(fallback.value, customs, visited, depth + 1)
  {
  }

  lemma PartResolves(part: Part, customs: Customs)
    requires IsPart(part) && HasPlainText(part, customs)
    ensures Refer(part.name, if part.fallback.None? then None else Some(Trim(part.fallback.value)), customs, {}, 0)
            == TextOf(part, customs)
  {
    assert IsCustom(part.name);
    if part.name in customs {
      PlainResolves(customs[part.name], customs, {} + {part.name}, 1);
    } else if part.fallback.Some? {
      PlainResolves(Trim(part.fallback.value), customs, {}, 1);
    }
  }

  /** What the loop still comes to, given what it has put out. */
  predicate Comes(output: string, lead: string, parts: seq<Part>, customs: Customs) {
    var actual := Expand(output, PrintValue(lead, parts), customs, {}, 0);
    if AllGiven(parts, customs) && (parts == [] || Bytes(output + UpToLast(lead, parts, customs)) <= MAX_BYTES)
    then actual == Some(output + Texts(lead, parts, customs))
    else actual.None?
  }

  lemma {:induction false} ExpandPrinted(output: string, lead: string, parts: seq<Part>, customs: Customs)
    requires IsPlain(lead) && forall part <- parts :: IsPart(part) && HasPlainText(part, customs)
    ensures Comes(output, lead, parts, customs)
    decreases |parts|
  {
    if parts == [] {
      assert PrintValue(lead, []) == lead;
      VarIsFound(lead);
      assert forall i: nat :: i >= |lead| ==> !StandsAt(lead, "var(", i);
    } else {
      var part, rest := parts[0], parts[1..];
      assert part in parts;
      FirstPartTiles(lead, part, PrintValue(part.after, rest), PrintValue(lead, parts));
      PartResolves(part, customs);
      var text := TextOf(part, customs);
      if text.Some? {
        ExpandPrinted(output + lead + text.value, part.after, rest, customs);
        PartComes(output, lead, part, rest, parts, text.value, customs);
      }
    }
  }

  lemma GivenCons(part: Part, rest: seq<Part>, parts: seq<Part>, customs: Customs)
    requires parts != [] && part == parts[0] && rest == parts[1..]
    ensures AllGiven(parts, customs) <==> TextOf(part, customs).Some? && AllGiven(rest, customs)
  {
    assert parts == [part] + rest;
  }

  lemma TextsCons(lead: string, part: Part, rest: seq<Part>, parts: seq<Part>, text: string, customs: Customs)
    requires parts != [] && part == parts[0] && rest == parts[1..] && TextOf(part, customs) == Some(text)
    requires AllGiven(parts, customs) && AllGiven(rest, customs)
    ensures Texts(lead, parts, customs) == lead + text + Texts(part.after, rest, customs)
    ensures UpToLast(lead, parts, customs) == lead + text + UpToLast(part.after, rest, customs)
  {
  }

  lemma ReferenceExpands(output: string, value: string, scan: Scan, text: string, customs: Customs)
    requires scan == ScanVar(value) && scan.Closed? && Refer(scan.name, scan.fallback, customs, {}, 0) == Some(text)
    ensures Expand(output, value, customs, {}, 0)
            == if Bytes(output + scan.prefix + text) > MAX_BYTES then None
               else Expand(output + scan.prefix + text, scan.rest, customs, {}, 0)
  {
  }

  lemma Longer(output: string, lead: string, text: string, more: string)
    ensures output + (lead + text + more) == (output + lead + text) + more
    ensures Bytes(output + lead + text) <= Bytes((output + lead + text) + more)
  {
    BytesAdd(output + lead + text, more);
  }

  lemma LastIsBehind(output: string, after: string, rest: seq<Part>, customs: Customs)
    requires AllGiven(rest, customs)
    ensures rest == [] ==> output + UpToLast(after, rest, customs) == output
  {
  }

  lemma PartComes(output: string, lead: string, part: Part, rest: seq<Part>, parts: seq<Part>, text: string, customs: Customs)
    requires parts != [] && part == parts[0] && rest == parts[1..] && TextOf(part, customs) == Some(text)
    requires ScanVar(PrintValue(lead, parts))
             == Closed(lead, part.name, if part.fallback.None? then None else Some(Trim(part.fallback.value)),
                       PrintValue(part.after, rest))
    requires Refer(part.name, if part.fallback.None? then None else Some(Trim(part.fallback.value)), customs, {}, 0) == Some(text)
    requires Comes(output + lead + text, part.after, rest, customs)
    ensures Comes(output, lead, parts, customs)
  {
    GivenCons(part, rest, parts, customs);
    ReferenceExpands(output, PrintValue(lead, parts), ScanVar(PrintValue(lead, parts)), text, customs);
    if AllGiven(parts, customs) {
      TextsCons(lead, part, rest, parts, text, customs);
      LastIsBehind(output + lead + text, part.after, rest, customs);
      Longer(output, lead, text, UpToLast(part.after, rest, customs));
      Longer(output, lead, text, Texts(part.after, rest, customs));
    }
  }

  /**
   * For every list of plain texts and references, with or without fallbacks: the printed value resolves to
   * the texts with what stands for each reference between them. It fails exactly when nothing stands for one
   * of them, or when the text up to the last one is longer than 65536 bytes.
   */
  lemma PrintedResolves(lead: string, parts: seq<Part>, customs: Customs)
    requires IsPlain(lead) && forall part <- parts :: IsPart(part) && HasPlainText(part, customs)
    ensures var actual := Resolve(PrintValue(lead, parts), customs, {}, 0);
            if AllGiven(parts, customs) && (parts == [] || Bytes(UpToLast(lead, parts, customs)) <= 65_536)
            then actual == Some(Texts(lead, parts, customs))
            else actual.None?
  {
    ExpandPrinted("", lead, parts, customs);
    if AllGiven(parts, customs) {
      assert "" + UpToLast(lead, parts, customs) == UpToLast(lead, parts, customs);
      assert "" + Texts(lead, parts, customs) == Texts(lead, parts, customs);
    }
  }

  // ---- The depth cap ------------------------------------------------------------------------

  function Link(k: nat): (name: string)
    requires k < 0x1000
  {
    Tag("--", k)
  }

  /** Property `k` refers to property `k - 1`, and property 0 is plain. */
  predicate IsChain(customs: Customs, n: nat)
    requires n < 0x1000
  {
    && Link(0) in customs && customs[Link(0)] == "x"
    && forall k :: 0 < k <= n ==> Link(k) in customs && customs[Link(k)] == "var(" + Link(k - 1) + ")"
  }

  lemma LinkIsSimple(k: nat)
    requires k < 0x1000
    ensures IsSimple(Link(k))
  {
    var name := Link(k);
    assert name[0] == '-' && name[1] == '-' && |name| == 3 && name[2] as int == 0x4e00 + k;
    var i, j := TrimStrips(name);
    assert i == 0 && j == 3 by {
      assert !IsSpace(name[0]) && !IsSpace(name[2]);
    }
    assert name[0..3] == name;
  }

  lemma LinkScans(k: nat, value: string)
    requires k < 0x1000 && value == "var(" + Link(k) + ")"
    ensures ScanVar(value) == Closed("", Link(k), None, "")
  {
    LinkIsSimple(k);
    var part := Part(Link(k), None, "");
    assert value == "" + ("var(" + PrintBody(part) + ")" + "");
    FirstPartTiles("", part, "", value);
  }

  lemma XIsPlain()
    ensures IsPlain("x") && IsPlain("") && Bytes("x") == 1
  {
  }

  /** A chain of references resolves as long as it ends within sixteen levels, and not beyond. */
  lemma {:induction false} DepthIsSixteen(customs: Customs, n: nat, k: nat, visited: set<string>, depth: nat)
    requires n < 0x1000 && IsChain(customs, n) && k <= n && depth <= 17
    requires forall j :: 0 <= j < k ==> Link(j) !in visited
    ensures Resolve(customs[Link(k)], customs, visited, depth) == if depth + k <= 16 then Some("x") else None
    decreases k
  {
    XIsPlain();
    if depth <= 16 {
      if k == 0 {
        PlainResolves("x", customs, visited, depth);
      } else {
        LinksDiffer(k - 1);
        DepthIsSixteen(customs, n, k - 1, visited + {Link(k - 1)}, depth + 1);
        LinkScans(k - 1, customs[Link(k)]);
        LastLinkResolves(customs[Link(k)], Link(k - 1), customs, visited, depth);
      }
    }
  }

  lemma LinksDiffer(k: nat)
    requires k < 0x1000
    ensures IsCustom(Link(k)) && forall j :: 0 <= j < k ==> Link(j) != Link(k)
  {
    LinkIsSimple(k);
    assert forall j :: 0 <= j < k ==> Link(j)[2] != Link(k)[2];
  }

  lemma LastLinkResolves(value: string, name: string, customs: Customs, visited: set<string>, depth: nat)
    requires depth <= 16 && ScanVar(value) == Closed("", name, None, "") && IsCustom(name)
    requires name in customs && name !in visited
    requires var own := Resolve(customs[name], customs, visited + {name}, depth + 1); own.None? || own == Some("x")
    ensures Resolve(value, customs, visited, depth) == Resolve(customs[name], customs, visited + {name}, depth + 1)
  {
    XIsPlain();
    var own := Resolve(customs[name], customs, visited + {name}, depth + 1);
    assert Refer(name, None, customs, visited, depth) == own;
    if own.None? {
      FailedReference("", value, ScanVar(value), customs, visited, depth);
    } else {
      var start: string := "";
      assert start + "" + "x" == "x";
      PlainExpands("x", "", customs, visited, depth);
      assert Expand("", value, customs, visited, depth) == Expand("x", "", customs, visited, depth);
    }
  }

  lemma PlainExpands(output: string, value: string, customs: Customs, visited: set<string>, depth: nat)
    requires depth <= MAX_DEPTH && value == ""
    ensures Expand(output, value, customs, visited, depth) == Some(output)
  {
    assert ScanVar("") == NoVar;
    assert output + "" == output;
  }
}
