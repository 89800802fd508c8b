/** `var()` substitution: references between custom properties, with fallbacks, cycles and two caps. */
module CssVar {
  import opened MachineInts
  import opened Text
  import opened Wrappers

  const MAX_DEPTH := 16
  const MAX_BYTES := 65_536

  type Customs = map<string, string>

  // ---- Finding a reference ------------------------------------------------------------------

  /** The text `var(` stands at that place. */
  predicate VarAt(s: string, at: nat) {
    at + 4 <= |s| && s[at] == 'v' && s[at + 1] == 'a' && s[at + 2] == 'r' && s[at + 3] == '('
  }

  function FindVar(s: string): (i: Option<nat>)
    ensures i.Some? ==> VarAt(s, i.value)
  {
    if |s| < 4 then None
    else if VarAt(s, 0) then Some(0)
    else
      var later := FindVar(s[1..]);
      if later.None? then None else Some(later.value + 1)
  }

  /** The first closing parenthesis that `depth` open ones and those opened on the way do not match. */
  function FindClose(s: string, depth: nat): (i: Option<nat>)
    ensures i.Some? ==> i.value < |s| && s[i.value] == ')'
  {
    if s == [] then None
    else if s[0] == ')' && depth == 0 then Some(0)
    else
      var later := FindClose(s[1..], if s[0] == '(' then depth + 1 else if s[0] == ')' then depth - 1 else depth);
      if later.None? then None else Some(later.value + 1)
  }

  function FindComma(s: string, depth: nat): (i: Option<nat>)
    ensures i.Some? ==> i.value < |s| && s[i.value] == ','
  {
    if s == [] then None
    else if s[0] == ',' && depth == 0 then Some(0)
    else
      var later := FindComma(s[1..], if s[0] == '(' then depth + 1
                                     else if s[0] == ')' && depth > 0 then depth - 1 else depth);
      if later.None? then None else Some(later.value + 1)
  }

  function Shift(i: Option<nat>, n: nat): (j: Option<nat>) {
    if i.None? then None else Some(i.value + n)
  }

  /** How nesting changes over one character. */
  function Nested(c: char, depth: nat): (d: nat)
    requires c == ')' ==> depth > 0
  {
    if c == '(' then depth + 1 else if c == ')' then depth - 1 else depth
  }

  lemma CloseStep(s: string, index: nat, depth: nat)
    requires index < |s|
    ensures FindClose(s[index..], depth)
            == if s[index] == ')' && depth == 0 then Some(0)
               else Shift(FindClose(s[index + 1..], Nested(s[index], depth)), 1)
  {
    assert s[index..][1..] == s[index + 1..];
  }

  /** The search has reached `index` with `depth` parentheses open. */
  predicate ClosesFrom(s: string, index: nat, depth: nat)
    requires index <= |s|
  {
    FindClose(s, 0) == Shift(FindClose(s[index..], depth), index)
  }

  lemma ClosesOn(s: string, index: nat, depth: nat)
    requires index < |s| && ClosesFrom(s, index, depth)
    ensures if s[index] == ')' && depth == 0 then FindClose(s, 0) == Some(index)
            else ClosesFrom(s, index + 1, Nested(s[index], depth))
  {
    CloseStep(s, index, depth);
    if !(s[index] == ')' && depth == 0) {
      ShiftTwice(FindClose(s[index + 1..], Nested(s[index], depth)), index);
    }
  }

  lemma ShiftTwice(i: Option<nat>, n: nat)
    ensures Shift(Shift(i, 1), n) == Shift(i, n + 1)
  {
  }

  method FindVarClose(after: string) returns (close: Option<nat>)
    ensures close == FindClose(after, 0)
  {
    var depth: nat := 0;
    assert after[0..] == after;
    for index := 0 to |after|
      invariant ClosesFrom(after, index, depth)
    {
      ClosesOn(after, index, depth);
      if after[index] == '(' {
        depth := depth + 1;
      } else if after[index] == ')' {
        if depth == 0 {
          return Some(index);
        }
        depth := depth - 1;
      }
    }
    close := None;
  }

  /** As for parentheses, but a stray closing one is ignored. */
  function Loosely(c: char, depth: nat): (d: nat) {
    if c == ')' && depth == 0 then 0 else Nested(c, depth)
  }

  lemma CommaStep(s: string, index: nat, depth: nat)
    requires index < |s|
    ensures FindComma(s[index..], depth)
            == if s[index] == ',' && depth == 0 then Some(0)
               else Shift(FindComma(s[index + 1..], Loosely(s[index], depth)), 1)
  {
    assert s[index..][1..] == s[index + 1..];
  }

  predicate CommaFrom(s: string, index: nat, depth: nat)
    requires index <= |s|
  {
    FindComma(s, 0) == Shift(FindComma(s[index..], depth), index)
  }

  lemma CommaOn(s: string, index: nat, depth: nat)
    requires index < |s| && CommaFrom(s, index, depth)
    ensures if s[index] == ',' && depth == 0 then FindComma(s, 0) == Some(index)
            else CommaFrom(s, index + 1, Loosely(s[index], depth))
  {
    CommaStep(s, index, depth);
    ShiftTwice(FindComma(s[index + 1..], Loosely(s[index], depth)), index);
  }

  method SplitFirstComma(s: string) returns (comma: Option<nat>)
    ensures comma == FindComma(s, 0)
  {
    var depth: nat := 0;
    assert s[0..] == s;
    for index := 0 to |s|
      invariant CommaFrom(s, index, depth)
    {
      CommaOn(s, index, depth);
      if s[index] == '(' {
        depth := depth + 1;
      } else if s[index] == ')' {
        depth := SaturatingSub(depth, 1);
      } else if s[index] == ',' && depth == 0 {
        return Some(index);
      }
    }
    comma := None;
  }

  /** The first reference of a string: the text before it, the name, the fallback, the text after it. */
  datatype Scan =
    | NoVar
    | Unclosed(prefix: string)
    | Closed(prefix: string, name: string, fallback: Option<string>, rest: string)

  function ScanVar(s: string): (scan: Scan)
    ensures scan.Closed? ==> |scan.rest| < |s| && (scan.fallback.Some? ==> |scan.fallback.value| < |s|)
  {
    var start := FindVar(s);
    if start.None? then NoVar
    else
      var after := s[start.value + 4..];
      var close := FindClose(after, 0);
      if close.None? then Unclosed(s[..start.value])
      else
        var body := after[..close.value];
        var comma := FindComma(body, 0);
        if comma.None? then Closed(s[..start.value], Trim(body), None, after[close.value + 1..])
        else
          TrimShrinks(body[comma.value + 1..]);
          Closed(s[..start.value], Trim(body[..comma.value]), Some(Trim(body[comma.value + 1..])), after[close.value + 1..])
  }

  // ---- Resolution ---------------------------------------------------------------------------

  predicate IsCustom(name: string) {
    |name| >= 2 && name[0] == '-' && name[1] == '-'
  }

  function Resolve(value: string, customs: Customs, visited: set<string>, depth: nat): (r: Option<string>)
    decreases MAX_DEPTH + 1 - depth, 2, 0
  {
    if depth > MAX_DEPTH then None else Expand("", value, customs, visited, depth)
  }

  /** `output` is what earlier references and the text between them came to. */
  function Expand(output: string, remaining: string, customs: Customs, visited: set<string>, depth: nat): (r: Option<string>)
    requires depth <= MAX_DEPTH
    decreases MAX_DEPTH + 1 - depth, 1, |remaining|
  {
    match ScanVar(remaining)
    case NoVar => Some(output + remaining)
    case Unclosed(prefix) => Some(output + prefix + remaining)
    case Closed(prefix, name, fallback, rest) =>
      var text := Refer(name, fallback, customs, visited, depth);
      if text.None? then None
      else
        var grown := output + prefix + text.value;
        if Bytes(grown) > MAX_BYTES then None else Expand(grown, rest, customs, visited, depth)
  }

  /** One reference. */
  function Refer(name: string, fallback: Option<string>, customs: Customs, visited: set<string>, depth: nat)
    : (r: Option<string>)
    requires depth <= MAX_DEPTH
    decreases MAX_DEPTH + 1 - depth, 0, 0
  {
    var own := if IsCustom(name) && name !in visited && name in customs
               then Resolve(customs[name], customs, visited + {name}, depth + 1) else None;
    if own.Some? then own
    else if fallback.None? then None
    else Resolve(fallback.value, customs, visited, depth + 1)
  }

  class VisitedSet {
    var names: set<string>

    constructor ()
      ensures names == {}
    {
      names := {};
    }
  }

  /** Whatever path it takes, including every failure, it leaves the visited set as it found it. */
  method ResolveVarRecursive(value: string, customs: Customs, visited: VisitedSet, depth: nat) returns (r: Option<string>)
    modifies visited
    ensures r == Resolve(value, customs, old(visited.names), depth)
    ensures visited.names == old(visited.names)
    decreases MAX_DEPTH + 1 - depth, 1
  {
    if depth > MAX_DEPTH {
      return None;
    }
    ghost var names := visited.names;
    var output, remaining := "", value;
    var scan := ScanVar(remaining);
    while scan.Closed?
      invariant visited.names == names
      invariant scan == ScanVar(remaining)
      invariant Expand(output, remaining, customs, names, depth) == Resolve(value, customs, names, depth)
      decreases |remaining|
    {
      var text := ResolveReference(scan.name, scan.fallback, customs, visited, depth);
      if text.None? {
        return None;
      }
      output := output + scan.prefix + text.value;
      if Bytes(output) > MAX_BYTES {
        return None;
      }
      remaining := scan.rest;
      scan := ScanVar(remaining);
    }
    if scan.Unclosed? {
      return Some(output + scan.prefix + remaining);
    }
    r := Some(output + remaining);
  }

  method ResolveReference(name: string, fallback: Option<string>, customs: Customs, visited: VisitedSet, depth: nat)
    returns (text: Option<string>)
    requires depth <= MAX_DEPTH
    modifies visited
    ensures text == Refer(name, fallback, customs, old(visited.names), depth)
    ensures visited.names == old(visited.names)
    decreases MAX_DEPTH + 1 - depth, 0
  {
    if IsCustom(name) && name !in visited.names && name in customs {
      visited.names := visited.names + {name};
      text := ResolveVarRecursive(customs[name], customs, visited, depth + 1);
      visited.names := visited.names - {name};
      if text.Some? {
        return;
      }
    }
    if fallback.None? {
      return None;
    }
    text := ResolveVarRecursive(fallback.value, customs, visited, depth + 1);
  }

  /** What a declaration asks for: nothing for a value without references. */
  method ResolveVarValue(value: string, customs: Customs) returns (r: Option<string>)
    ensures r == if FindVar(value).None? then None else Resolve(value, customs, {}, 0)
  {
    if FindVar(value).None? {
      return None;
    }
    var visited := new VisitedSet();
    r := ResolveVarRecursive(value, customs, visited, 0);
  }

  // ---- Plain substitution -------------------------------------------------------------------

  /** Every name a string refers to, those in fallbacks included. */
  function Refs(value: string): (names: set<string>)
    decreases |value|
  {
    match ScanVar(value)
    case Closed(_, name, fallback, rest) =>
      {name} + (if fallback.Some? then Refs(fallback.value) else {}) + Refs(rest)
    case _ => {}
  }

  predicate RefsBelow(value: string, customs: Customs, rank: string -> nat, bound: nat) {
    forall name {:trigger name in Refs(value)} :: name in Refs(value) && name in customs ==> rank(name) < bound
  }

  /** References form no cycle: each property only refers to properties of lower rank. */
  predicate Acyclic(customs: Customs, rank: string -> nat) {
    forall name {:trigger RefsBelow(customs[name], customs, rank, rank(name))} :: name in customs ==>
      RefsBelow(customs[name], customs, rank, rank(name))
  }

  predicate Reaches(value: string, customs: Customs, rank: string -> nat, bound: nat) {
    Acyclic(customs, rank) && RefsBelow(value, customs, rank, bound)
  }

  lemma PartsReach(value: string, customs: Customs, rank: string -> nat, bound: nat)
    requires Reaches(value, customs, rank, bound) && ScanVar(value).Closed?
    ensures var scan := ScanVar(value);
            && Reaches(scan.rest, customs, rank, bound)
            && (scan.fallback.Some? ==> Reaches(scan.fallback.value, customs, rank, bound))
            && (scan.name in customs ==> rank(scan.name) < bound
                                         && Reaches(customs[scan.name], customs, rank, rank(scan.name)))
  {
    var scan := ScanVar(value);
    assert Refs(scan.rest) <= Refs(value) && scan.name in Refs(value);
    assert scan.fallback.Some? ==> Refs(scan.fallback.value) <= Refs(value);
  }

  /** What an unclosed reference is kept as: the text as it stands, or with the text before it repeated. */
  function Kept(prefix: string, value: string, repeated: bool): (s: string) {
    if repeated then prefix + value else value
  }

  /**
   * Plain recursive substitution, without a visited set, a depth or a length cap: text is kept, a
   * reference becomes the substituted property or else its substituted fallback, and fails without one.
   */
  function Subst(value: string, customs: Customs, rank: string -> nat, bound: nat, repeated: bool): (r: Option<string>)
    requires Reaches(value, customs, rank, bound)
    decreases bound, |value|
  {
    match ScanVar(value)
    case NoVar => Some(value)
    case Unclosed(prefix) => Some(Kept(prefix, value, repeated))
    case Closed(prefix, name, fallback, rest) =>
      PartsReach(value, customs, rank, bound);
      var own := if IsCustom(name) && name in customs then Subst(customs[name], customs, rank, rank(name), repeated) else None;
      var text := if own.Some? || fallback.None? then own else Subst(fallback.value, customs, rank, bound, repeated);
      var tail := Subst(rest, customs, rank, bound, repeated);
      if text.None? || tail.None? then None else Some(prefix + text.value + tail.value)
  }

  function Max(a: nat, b: nat): (m: nat) {
    if a < b then b else a
  }

  /** What the code's answer owes the plain one: the same failure, and the same text if it is not too long. */
  predicate Agrees(output: string, plain: Option<string>, actual: Option<string>) {
    && (plain.None? ==> actual.None?)
    && (plain.Some? && Bytes(output + plain.value) <= MAX_BYTES ==> actual == Some(output + plain.value))
  }

  predicate Answers(plain: Option<string>, actual: Option<string>) {
    (plain.None? ==> actual.None?) && (plain.Some? && Bytes(plain.value) <= MAX_BYTES ==> actual == plain)
  }

  lemma PartAgrees(plain: Option<string>, actual: Option<string>)
    ensures Agrees("", plain, actual) <==> Answers(plain, actual)
  {
    assert plain.Some? ==> "" + plain.value == plain.value;
  }

  lemma ReferAgrees(name: string, fallback: Option<string>, customs: Customs, visited: set<string>, depth: nat,
                    own: Option<string>, fall: Option<string>)
    requires depth <= MAX_DEPTH
    requires if IsCustom(name) && name !in visited && name in customs
             then Agrees("", own, Resolve(customs[name], customs, visited + {name}, depth + 1)) else own.None?
    requires own.None? && fallback.Some? ==> Agrees("", fall, Resolve(fallback.value, customs, visited, depth + 1))
    ensures Agrees("", if own.Some? || fallback.None? then own else fall, Refer(name, fallback, customs, visited, depth))
  {
    if IsCustom(name) && name !in visited && name in customs {
      PartAgrees(own, Resolve(customs[name], customs, visited + {name}, depth + 1));
    }
    if own.None? && fallback.Some? {
      PartAgrees(fall, Resolve(fallback.value, customs, visited, depth + 1));
    }
    PartAgrees(if own.Some? || fallback.None? then own else fall, Refer(name, fallback, customs, visited, depth));
  }

  lemma ExpandAgrees(output: string, remaining: string, customs: Customs, visited: set<string>, depth: nat,
                     text: Option<string>, tail: Option<string>)
    requires depth <= MAX_DEPTH && ScanVar(remaining).Closed?
    requires var scan := ScanVar(remaining);
             var actual := Refer(scan.name, scan.fallback, customs, visited, depth);
             && Agrees("", text, actual)
             && (text.Some? && actual.Some? ==>
                   var grown := output + scan.prefix + actual.value;
                   Agrees(grown, tail, Expand(grown, scan.rest, customs, visited, depth)))
    ensures Agrees(output, if text.None? || tail.None? then None else Some(ScanVar(remaining).prefix + text.value + tail.value),
                   Expand(output, remaining, customs, visited, depth))
  {
    var scan := ScanVar(remaining);
    var actual := Refer(scan.name, scan.fallback, customs, visited, depth);
    PartAgrees(text, actual);
    if text.Some? && tail.Some? {
      var grown := output + scan.prefix + text.value;
      assert output + (scan.prefix + text.value + tail.value) == grown + tail.value;
      BytesAdd(grown, tail.value);
      BytesAdd(output + scan.prefix, text.value);
    }
  }

  predicate Unvisited(visited: set<string>, rank: string -> nat, bound: nat) {
    forall name <- visited :: rank(name) >= bound
  }

  /** The plain answer to a reference, from what its property and its fallback come to. */
  function Either(own: Option<string>, fallback: Option<string>, fall: Option<string>): (text: Option<string>) {
    if own.Some? || fallback.None? then own else fall
  }

  function Join(prefix: string, text: Option<string>, tail: Option<string>): (r: Option<string>) {
    if text.None? || tail.None? then None else Some(prefix + text.value + tail.value)
  }

  function OwnSubst(name: string, customs: Customs, rank: string -> nat, repeated: bool): (r: Option<string>)
    requires Acyclic(customs, rank)
  {
    if IsCustom(name) && name in customs then Subst(customs[name], customs, rank, rank(name), repeated) else None
  }

  function FallSubst(fallback: Option<string>, customs: Customs, rank: string -> nat, bound: nat, repeated: bool)
    : (r: Option<string>)
    requires fallback.Some? ==> Reaches(fallback.value, customs, rank, bound)
  {
    if fallback.Some? then Subst(fallback.value, customs, rank, bound, repeated) else None
  }

  lemma SubstParts(scan: Scan, value: string, customs: Customs, rank: string -> nat, bound: nat, repeated: bool)
    requires scan == ScanVar(value) && scan.Closed?
    requires Reaches(value, customs, rank, bound)
    ensures Reaches(scan.rest, customs, rank, bound)
    ensures scan.fallback.Some? ==> Reaches(scan.fallback.value, customs, rank, bound)
    ensures Subst(value, customs, rank, bound, repeated)
            == Join(scan.prefix, Either(OwnSubst(scan.name, customs, rank, repeated), scan.fallback,
                                        FallSubst(scan.fallback, customs, rank, bound, repeated)),
                    Subst(scan.rest, customs, rank, bound, repeated))
  {
    PartsReach(value, customs, rank, bound);
  }

  /** The fallback of the first reference is looked at: its property is missing, not a custom one, or fails. */
  predicate FallNeeded(value: string, customs: Customs, rank: string -> nat, bound: nat)
    requires Reaches(value, customs, rank, bound) && ScanVar(value).Closed?
  {
    ScanVar(value).fallback.Some? && OwnSubst(ScanVar(value).name, customs, rank, true).None?
  }

  /** What the first reference comes to. */
  function TextSubst(value: string, customs: Customs, rank: string -> nat, bound: nat): (text: Option<string>)
    requires Reaches(value, customs, rank, bound) && ScanVar(value).Closed?
  {
    PartsReach(value, customs, rank, bound);
    var scan := ScanVar(value);
    Either(OwnSubst(scan.name, customs, rank, true), scan.fallback, FallSubst(scan.fallback, customs, rank, bound, true))
  }

  /**
   * How many references deep a substitution goes, counting what it looks at: a fallback only when the
   * property gives nothing, and what follows a reference only when the reference gives something.
   */
  function Height(value: string, customs: Customs, rank: string -> nat, bound: nat): (h: nat)
    requires Reaches(value, customs, rank, bound)
    decreases bound, |value|
  {
    var scan := ScanVar(value);
    if !scan.Closed? then 0
    else
      PartsReach(value, customs, rank, bound);
      var own := if IsCustom(scan.name) && scan.name in customs
                 then 1 + Height(customs[scan.name], customs, rank, rank(scan.name)) else 0;
      var fall := if FallNeeded(value, customs, rank, bound) then 1 + Height(scan.fallback.value, customs, rank, bound) else 0;
      var tail := if TextSubst(value, customs, rank, bound).Some? then Height(scan.rest, customs, rank, bound) else 0;
      Max(Max(own, fall), tail)
  }

  lemma HeightParts(scan: Scan, value: string, customs: Customs, rank: string -> nat, bound: nat)
    requires scan == ScanVar(value) && scan.Closed?
    requires Reaches(value, customs, rank, bound)
    ensures Reaches(scan.rest, customs, rank, bound)
    ensures scan.fallback.Some? ==> Reaches(scan.fallback.value, customs, rank, bound)
    ensures TextSubst(value, customs, rank, bound).Some? ==>
              Height(scan.rest, customs, rank, bound) <= Height(value, customs, rank, bound)
    ensures FallNeeded(value, customs, rank, bound) ==>
              Height(scan.fallback.value, customs, rank, bound) < Height(value, customs, rank, bound)
    ensures IsCustom(scan.name) && scan.name in customs ==>
              rank(scan.name) < bound && Reaches(customs[scan.name], customs, rank, rank(scan.name))
              && Height(customs[scan.name], customs, rank, rank(scan.name)) < Height(value, customs, rank, bound)
  {
    PartsReach(value, customs, rank, bound);
  }

  /** What induction provides for one string: the code and plain substitution agree on it after any output. */
  ghost predicate Settled(value: string, customs: Customs, rank: string -> nat, bound: nat, visited: set<string>, depth: nat) {
    && Reaches(value, customs, rank, bound) && depth <= MAX_DEPTH
    && forall output: string ::
         Agrees(output, Subst(value, customs, rank, bound, true), Expand(output, value, customs, visited, depth))
  }

  lemma FallSettled(fallback: Option<string>, customs: Customs, rank: string -> nat, bound: nat, visited: set<string>,
                    depth: nat)
    requires fallback.Some? && Settled(fallback.value, customs, rank, bound, visited, depth)
    ensures Agrees("", FallSubst(fallback, customs, rank, bound, true), Resolve(fallback.value, customs, visited, depth))
  {
  }

  lemma OwnSettled(name: string, customs: Customs, rank: string -> nat, visited: set<string>, depth: nat)
    requires Acyclic(customs, rank) && name !in visited
    requires IsCustom(name) && name in customs ==>
               Settled(customs[name], customs, rank, rank(name), visited + {name}, depth)
    ensures if IsCustom(name) && name !in visited && name in customs
            then Agrees("", OwnSubst(name, customs, rank, true), Resolve(customs[name], customs, visited + {name}, depth))
            else OwnSubst(name, customs, rank, true).None?
  {
  }

  lemma ReferIsSubst(scan: Scan, value: string, customs: Customs, rank: string -> nat, bound: nat, visited: set<string>,
                     depth: nat)
    requires Reaches(value, customs, rank, bound) && scan == ScanVar(value) && scan.Closed? && depth <= MAX_DEPTH
    requires scan.name in customs ==> scan.name !in visited
    requires FallNeeded(value, customs, rank, bound) ==>
               Settled(scan.fallback.value, customs, rank, bound, visited, depth + 1)
    requires IsCustom(scan.name) && scan.name in customs ==>
               Settled(customs[scan.name], customs, rank, rank(scan.name), visited + {scan.name}, depth + 1)
    ensures Agrees("", TextSubst(value, customs, rank, bound), Refer(scan.name, scan.fallback, customs, visited, depth))
  {
    PartsReach(value, customs, rank, bound);
    var own := OwnSubst(scan.name, customs, rank, true);
    var fall := FallSubst(scan.fallback, customs, rank, bound, true);
    if scan.name in customs {
      OwnSettled(scan.name, customs, rank, visited, depth + 1);
    }
    if FallNeeded(value, customs, rank, bound) {
      FallSettled(scan.fallback, customs, rank, bound, visited, depth + 1);
    }
    ReferAgrees(scan.name, scan.fallback, customs, visited, depth, own, fall);
  }

  lemma ClosedIsSubst(scan: Scan, value: string, customs: Customs, rank: string -> nat, bound: nat, visited: set<string>,
                      depth: nat)
    requires Reaches(value, customs, rank, bound) && scan == ScanVar(value) && scan.Closed? && depth <= MAX_DEPTH
    requires Agrees("", TextSubst(value, customs, rank, bound), Refer(scan.name, scan.fallback, customs, visited, depth))
    requires TextSubst(value, customs, rank, bound).Some? ==> Settled(scan.rest, customs, rank, bound, visited, depth)
    ensures Settled(value, customs, rank, bound, visited, depth)
  {
    SubstParts(scan, value, customs, rank, bound, true);
    ClosedAgrees(scan, value, customs, visited, depth, TextSubst(value, customs, rank, bound),
                 Subst(scan.rest, customs, rank, bound, true));
  }

  /** A string agrees after any output when its first reference and the rest do. */
  lemma ClosedAgrees(scan: Scan, value: string, customs: Customs, visited: set<string>, depth: nat, text: Option<string>,
                     tail: Option<string>)
    requires depth <= MAX_DEPTH && scan == ScanVar(value) && scan.Closed?
    requires Agrees("", text, Refer(scan.name, scan.fallback, customs, visited, depth))
    requires text.Some? ==> forall output: string :: Agrees(output, tail, Expand(output, scan.rest, customs, visited, depth))
    ensures forall output: string ::
              Agrees(output, Join(scan.prefix, text, tail), Expand(output, value, customs, visited, depth))
  {
    forall output: string
      ensures Agrees(output, Join(scan.prefix, text, tail), Expand(output, value, customs, visited, depth))
    {
      ExpandAgrees(output, value, customs, visited, depth, text, tail);
    }
  }

  lemma UnrefIsSubst(value: string, customs: Customs, rank: string -> nat, bound: nat, visited: set<string>, depth: nat)
    requires Reaches(value, customs, rank, bound) && !ScanVar(value).Closed? && depth <= MAX_DEPTH
    ensures Settled(value, customs, rank, bound, visited, depth)
  {
    var scan := ScanVar(value);
    if scan.Unclosed? {
      assert forall output: string :: output + (scan.prefix + value) == output + scan.prefix + value;
    }
  }

  /** A string whose references are acyclic, not being resolved already, and within the depth cap. */
  predicate Ready(value: string, customs: Customs, rank: string -> nat, bound: nat, visited: set<string>, depth: nat) {
    && Reaches(value, customs, rank, bound) && Unvisited(visited, rank, bound)
    && depth + Height(value, customs, rank, bound) <= MAX_DEPTH
  }

  lemma ReadyParts(scan: Scan, value: string, customs: Customs, rank: string -> nat, bound: nat, visited: set<string>,
                   depth: nat)
    requires scan == ScanVar(value) && scan.Closed? && Ready(value, customs, rank, bound, visited, depth)
    ensures TextSubst(value, customs, rank, bound).Some? ==> Ready(scan.rest, customs, rank, bound, visited, depth)
    ensures FallNeeded(value, customs, rank, bound) ==> Ready(scan.fallback.value, customs, rank, bound, visited, depth + 1)
    ensures scan.name in customs ==> scan.name !in visited && rank(scan.name) < bound
    ensures IsCustom(scan.name) && scan.name in customs ==>
              Ready(customs[scan.name], customs, rank, rank(scan.name), visited + {scan.name}, depth + 1)
  {
    HeightParts(scan, value, customs, rank, bound);
    PartsReach(value, customs, rank, bound);
  }

  /** The induction step: a string whose parts are settled, as far as they are looked at, is settled. */
  lemma SettledParts(scan: Scan, value: string, customs: Customs, rank: string -> nat, bound: nat, visited: set<string>,
                     depth: nat)
    requires scan == ScanVar(value) && scan.Closed? && Ready(value, customs, rank, bound, visited, depth)
    requires TextSubst(value, customs, rank, bound).Some? ==> Settled(scan.rest, customs, rank, bound, visited, depth)
    requires FallNeeded(value, customs, rank, bound) ==> Settled(scan.fallback.value, customs, rank, bound, visited, depth + 1)
    requires IsCustom(scan.name) && scan.name in customs ==>
               Settled(customs[scan.name], customs, rank, rank(scan.name), visited + {scan.name}, depth + 1)
    ensures Settled(value, customs, rank, bound, visited, depth)
  {
    ReadyParts(scan, value, customs, rank, bound, visited, depth);
    ReferIsSubst(scan, value, customs, rank, bound, visited, depth);
    ClosedIsSubst(scan, value, customs, rank, bound, visited, depth);
  }

  lemma {:induction false} OwnIsSubst(scan: Scan, value: string, customs: Customs, rank: string -> nat,
                                      bound: nat, visited: set<string>, depth: nat)
    requires scan == ScanVar(value) && scan.Closed? && Ready(value, customs, rank, bound, visited, depth)
    ensures IsCustom(scan.name) && scan.name in customs ==>
              Settled(customs[scan.name], customs, rank, rank(scan.name), visited + {scan.name}, depth + 1)
    decreases bound, |value|, 0
  {
    ReadyParts(scan, value, customs, rank, bound, visited, depth);
    if IsCustom(scan.name) && scan.name in customs {
      ExpandIsSubst(customs[scan.name], customs, rank, rank(scan.name), visited + {scan.name}, depth + 1);
    }
  }

  lemma {:induction false} FallIsSubst(scan: Scan, value: string, customs: Customs, rank: string -> nat,
                                       bound: nat, visited: set<string>, depth: nat)
    requires scan == ScanVar(value) && scan.Closed? && Ready(value, customs, rank, bound, visited, depth)
    ensures FallNeeded(value, customs, rank, bound) ==>
              Settled(scan.fallback.value, customs, rank, bound, visited, depth + 1)
    decreases bound, |value|, 0
  {
    ReadyParts(scan, value, customs, rank, bound, visited, depth);
    if FallNeeded(value, customs, rank, bound) {
      ExpandIsSubst(scan.fallback.value, customs, rank, bound, visited, depth + 1);
    }
  }

  lemma {:induction false} RestIsSubst(scan: Scan, value: string, customs: Customs, rank: string -> nat,
                                       bound: nat, visited: set<string>, depth: nat)
    requires scan == ScanVar(value) && scan.Closed? && Ready(value, customs, rank, bound, visited, depth)
    ensures TextSubst(value, customs, rank, bound).Some? ==> Settled(scan.rest, customs, rank, bound, visited, depth)
    decreases bound, |value|, 0
  {
    ReadyParts(scan, value, customs, rank, bound, visited, depth);
    if TextSubst(value, customs, rank, bound).Some? {
      ExpandIsSubst(scan.rest, customs, rank, bound, visited, depth);
    }
  }

  lemma {:induction false} ExpandIsSubst(value: string, customs: Customs, rank: string -> nat, bound: nat,
                                         visited: set<string>, depth: nat)
    requires Ready(value, customs, rank, bound, visited, depth)
    ensures Settled(value, customs, rank, bound, visited, depth)
    decreases bound, |value|, 1
  {
    var scan := ScanVar(value);
    if scan.Closed? {
      OwnIsSubst(scan, value, customs, rank, bound, visited, depth);
      FallIsSubst(scan, value, customs, rank, bound, visited, depth);
      RestIsSubst(scan, value, customs, rank, bound, visited, depth);
      SettledParts(scan, value, customs, rank, bound, visited, depth);
    } else {
      UnrefIsSubst(value, customs, rank, bound, visited, depth);
    }
  }

  // ---- Unclosed references --------------------------------------------------------------------

  /** How many characters of the result stand before an unclosed reference, in the strings that make it up. */
  function Stray(value: string, customs: Customs, rank: string -> nat, bound: nat): (n: nat)
    requires Reaches(value, customs, rank, bound)
    decreases bound, |value|
  {
    match ScanVar(value)
    case NoVar => 0
    case Unclosed(prefix) => |prefix|
    case Closed(prefix, name, fallback, rest) =>
      PartsReach(value, customs, rank, bound);
      var used := if OwnSubst(name, customs, rank, false).Some? then Stray(customs[name], customs, rank, rank(name))
                  else if fallback.Some? then Stray(fallback.value, customs, rank, bound) else 0;
      used + Stray(rest, customs, rank, bound)
  }

  /** `n` characters more, and the same text when that is none. */
  predicate LongerBy(kept: Option<string>, repeated: Option<string>, n: nat) {
    && (kept.Some? <==> repeated.Some?)
    && (kept.Some? ==> |repeated.value| == |kept.value| + n)
    && (n == 0 ==> kept == repeated)
  }

  lemma JoinLonger(prefix: string, a: Option<string>, b: Option<string>, c: Option<string>, d: Option<string>, n: nat, m: nat)
    requires LongerBy(a, b, n) && LongerBy(c, d, m)
    ensures LongerBy(Join(prefix, a, c), Join(prefix, b, d), n + m)
  {
  }

  /** The code repeats exactly the text before an unclosed reference; it is plain substitution iff there is none. */
  lemma {:induction false} RepeatsStrayText(value: string, customs: Customs, rank: string -> nat, bound: nat)
    requires Reaches(value, customs, rank, bound)
    ensures LongerBy(Subst(value, customs, rank, bound, false), Subst(value, customs, rank, bound, true),
                     Stray(value, customs, rank, bound))
    decreases bound, |value|
  {
    var scan := ScanVar(value);
    if scan.Closed? {
      PartsReach(value, customs, rank, bound);
      SubstParts(scan, value, customs, rank, bound, false);
      SubstParts(scan, value, customs, rank, bound, true);
      var n: nat := 0;
      if IsCustom(scan.name) && scan.name in customs {
        RepeatsStrayText(customs[scan.name], customs, rank, rank(scan.name));
      }
      if scan.fallback.Some? {
        RepeatsStrayText(scan.fallback.value, customs, rank, bound);
      }
      RepeatsStrayText(scan.rest, customs, rank, bound);
      if OwnSubst(scan.name, customs, rank, false).Some? {
        n := Stray(customs[scan.name], customs, rank, rank(scan.name));
      } else if scan.fallback.Some? {
        n := Stray(scan.fallback.value, customs, rank, bound);
      }
      JoinLonger(scan.prefix,
                 Either(OwnSubst(scan.name, customs, rank, false), scan.fallback,
                        FallSubst(scan.fallback, customs, rank, bound, false)),
                 Either(OwnSubst(scan.name, customs, rank, true), scan.fallback,
                        FallSubst(scan.fallback, customs, rank, bound, true)),
                 Subst(scan.rest, customs, rank, bound, false), Subst(scan.rest, customs, rank, bound, true),
                 n, Stray(scan.rest, customs, rank, bound));
    } else if scan.Unclosed? {
      KeptLonger(scan.prefix, value);
    }
  }

  lemma KeptLonger(prefix: string, value: string)
    ensures LongerBy(Some(Kept(prefix, value, false)), Some(Kept(prefix, value, true)), |prefix|)
  {
    assert prefix == [] ==> prefix + value == value;
  }

  /** No reference of the string itself is left unclosed with text before it. */
  predicate Tidy(value: string)
    decreases |value|
  {
    match ScanVar(value)
    case NoVar => true
    case Unclosed(prefix) => prefix == []
    case Closed(_, _, _, rest) => Tidy(rest)
  }

  /** Every opening parenthesis is matched within the string. */
  predicate Covered(s: string) {
    forall i :: 0 <= i < |s| && s[i] == '(' ==> FindClose(s[i + 1..], 0).Some?
  }

  /** With fewer parentheses open the match is found earlier. */
  lemma {:induction false} ClosesEarlier(s: string, open: nat, fewer: nat)
    requires FindClose(s, open).Some? && fewer < open
    ensures FindClose(s[..FindClose(s, open).value], fewer).Some?
  {
    var k := FindClose(s, open).value;
    if s[0] == ')' && fewer == 0 {
      assert s[..k][0] == ')';
    } else {
      var step := if s[0] == '(' then 1 else if s[0] == ')' then -1 else 0;
      ClosesEarlier(s[1..], open + step, fewer + step);
      assert s[1..][..k - 1] == s[..k][1..];
    }
  }

  lemma {:induction false} BodyIsCovered(s: string, open: nat)
    requires FindClose(s, open).Some?
    ensures Covered(s[..FindClose(s, open).value])
  {
    var k := FindClose(s, open).value;
    if s[0] == ')' && open == 0 {
    } else {
      var step := if s[0] == '(' then 1 else if s[0] == ')' then -1 else 0;
      BodyIsCovered(s[1..], open + step);
      var body, tail := s[..k], s[1..][..k - 1];
      assert body[1..] == tail;
      forall i | 0 <= i < |body| && body[i] == '(' ensures FindClose(body[i + 1..], 0).Some? {
        if i == 0 {
          ClosesEarlier(s[1..], open + 1, 0);
        } else {
          assert tail[i - 1] == '(' && tail[i..] == body[i + 1..];
        }
      }
    }
  }

  lemma SuffixIsCovered(s: string, from: nat)
    requires Covered(s) && from <= |s|
    ensures Covered(s[from..])
  {
    forall i | 0 <= i < |s[from..]| && s[from..][i] == '(' ensures FindClose(s[from..][i + 1..], 0).Some? {
      assert s[from..][i + 1..] == s[from + i + 1..] && s[from + i] == '(';
    }
  }

  lemma {:induction false} CloseInPrefix(s: string, open: nat, cut: nat)
    requires FindClose(s, open).Some? && FindClose(s, open).value < cut <= |s|
    ensures FindClose(s[..cut], open).Some?
  {
    if s[0] == ')' && open == 0 {
    } else {
      CloseInPrefix(s[1..], if s[0] == '(' then open + 1 else if s[0] == ')' then open - 1 else open, cut - 1);
      assert s[..cut][1..] == s[1..][..cut - 1];
    }
  }

  lemma TrimIsCovered(s: string)
    requires Covered(s)
    ensures Covered(Trim(s))
  {
    TrimStartIsSuffix(s);
    var t := TrimStart(s);
    SuffixIsCovered(s, |s| - |t|);
    TrimEndIsPrefix(t);
    var cut := |TrimEnd(t)|;
    forall i | 0 <= i < cut && t[..cut][i] == '(' ensures FindClose(t[..cut][i + 1..], 0).Some? {
      var k := FindClose(t[i + 1..], 0).value;
      assert t[i + 1..][k] == t[i + 1 + k] == ')';
      assert !IsSpace(')');
      CloseInPrefix(t[i + 1..], 0, cut - i - 1);
      assert t[i + 1..][..cut - i - 1] == t[..cut][i + 1..];
    }
  }

  lemma CoveredScan(s: string)
    requires Covered(s)
    ensures !ScanVar(s).Unclosed? && (ScanVar(s).Closed? ==> Covered(ScanVar(s).rest))
  {
    var start := FindVar(s);
    if start.Some? {
      var after := s[start.value + 4..];
      assert after == s[start.value + 3 + 1..];
      SuffixIsCovered(s, start.value + 4);
      SuffixIsCovered(after, FindClose(after, 0).value + 1);
    }
  }

  lemma {:induction false} CoveredIsTidy(s: string)
    requires Covered(s)
    ensures Tidy(s)
    decreases |s|
  {
    CoveredScan(s);
    if ScanVar(s).Closed? {
      CoveredIsTidy(ScanVar(s).rest);
    }
  }

  /** A fallback lies between matched parentheses, so it never holds an unclosed reference. */
  lemma FallbackIsTidy(value: string)
    requires ScanVar(value).Closed? && ScanVar(value).fallback.Some?
    ensures Tidy(ScanVar(value).fallback.value)
  {
    var after := value[FindVar(value).value + 4..];
    var body := after[..FindClose(after, 0).value];
    BodyIsCovered(after, 0);
    var comma := FindComma(body, 0).value;
    SuffixIsCovered(body, comma + 1);
    TrimIsCovered(body[comma + 1..]);
    CoveredIsTidy(Trim(body[comma + 1..]));
  }

  lemma {:induction false} TidyHasNoStray(value: string, customs: Customs, rank: string -> nat, bound: nat)
    requires Reaches(value, customs, rank, bound)
    requires Tidy(value) && forall name <- customs :: Tidy(customs[name])
    ensures Stray(value, customs, rank, bound) == 0
    decreases bound, |value|
  {
    var scan := ScanVar(value);
    if scan.Closed? {
      PartsReach(value, customs, rank, bound);
      if IsCustom(scan.name) && scan.name in customs {
        TidyHasNoStray(customs[scan.name], customs, rank, rank(scan.name));
      }
      if scan.fallback.Some? {
        FallbackIsTidy(value);
        TidyHasNoStray(scan.fallback.value, customs, rank, bound);
      }
      TidyHasNoStray(scan.rest, customs, rank, bound);
    }
  }

  // ---- Main results -----------------------------------------------------------------------------

  /**
   * On properties whose references form no cycle, resolution is plain recursive substitution: it fails
   * when that fails, and gives its text when that is within the length cap and the references nest
   * within the depth cap. What it repeats is exactly the text before an unclosed reference.
   */
  lemma ResolutionIsSubstitution(value: string, customs: Customs, rank: string -> nat, bound: nat)
    requires Reaches(value, customs, rank, bound)
    requires Height(value, customs, rank, bound) <= MAX_DEPTH
    ensures var plain := Subst(value, customs, rank, bound, false);
            var text := Subst(value, customs, rank, bound, true);
            var actual := Resolve(value, customs, {}, 0);
            && (plain.None? ==> actual.None?)
            && (plain.Some? ==>
                  && text.Some? && |text.value| == |plain.value| + Stray(value, customs, rank, bound)
                  && (Bytes(text.value) <= MAX_BYTES ==>
                        actual == text && (actual == plain <==> Stray(value, customs, rank, bound) == 0)))
  {
    ExpandIsSubst(value, customs, rank, bound, {}, 0);
    RepeatsStrayText(value, customs, rank, bound);
    PartAgrees(Subst(value, customs, rank, bound, true), Resolve(value, customs, {}, 0));
  }

  /** So it is plain substitution wherever no value or property is left with an unclosed reference after text. */
  lemma TidyResolutionIsSubstitution(value: string, customs: Customs, rank: string -> nat, bound: nat)
    requires Reaches(value, customs, rank, bound)
    requires Height(value, customs, rank, bound) <= MAX_DEPTH
    requires Tidy(value) && forall name <- customs :: Tidy(customs[name])
    ensures Answers(Subst(value, customs, rank, bound, false), Resolve(value, customs, {}, 0))
  {
    var plain, text := Subst(value, customs, rank, bound, false), Subst(value, customs, rank, bound, true);
    assert plain == text by {
      TidyHasNoStray(value, customs, rank, bound);
      RepeatsStrayText(value, customs, rank, bound);
    }
    assert Answers(text, Resolve(value, customs, {}, 0)) by {
      ExpandIsSubst(value, customs, rank, bound, {}, 0);
      PartAgrees(text, Resolve(value, customs, {}, 0));
    }
  }

  lemma {:induction false} NothingCloses(s: string, depth: nat)
    requires ')' !in s
    ensures FindClose(s, depth).None?
  {
    if s != [] {
      assert s[0] in s;
      NothingCloses(s[1..], if s[0] == '(' then depth + 1 else depth);
    }
  }

  lemma {:induction false} FindsAfter(lead: string, rest: string)
    requires 'v' !in lead && VarAt(rest, 0)
    ensures FindVar(lead + rest) == Some(|lead|)
  {
    var s := lead + rest;
    if lead == [] {
      assert s == rest;
    } else {
      assert s[0] == lead[0] && lead[0] in lead && s[1..] == lead[1..] + rest;
      FindsAfter(lead[1..], rest);
    }
  }

  /** Whatever stands before the first reference comes out twice when that reference is not closed. */
  lemma UnclosedIsRepeated(value: string, customs: Customs)
    requires ScanVar(value).Unclosed?
    ensures var start := FindVar(value).value;
            && ScanVar(value) == Unclosed(value[..start])
            && Resolve(value, customs, {}, 0) == Some(value[..start] + value)
            && (Resolve(value, customs, {}, 0) == Some(value) <==> start == 0)
  {
    var prefix := value[..FindVar(value).value];
    assert "" + prefix + value == prefix + value;
    assert prefix == [] ==> prefix + value == value;
  }

  /** The repeated text, on a concrete value. */
  lemma UnclosedTextIsRepeated(customs: Customs)
    ensures var value := "a " + ("var(" + "--b");
            Resolve(value, customs, {}, 0) == Some("a " + value)
  {
    var lead, rest := "a ", "var(" + "--b";
    var value := lead + rest;
    assert VarAt(rest, 0);
    FindsAfter(lead, rest);
    assert value[|lead| + 4..] == "--b" && value[..|lead|] == lead;
    NothingCloses("--b", 0);
    UnclosedIsRepeated(value, customs);
  }

  /**
   * Some reference of the value, first or later, is to one of `names`, and no fallback saves it: it has
   * none, or one that is doomed itself.
   */
  predicate Doomed(names: set<string>, value: string)
    decreases |value|
  {
    match ScanVar(value)
    case Closed(_, name, fallback, rest) =>
      || (name in names && (fallback.None? || Doomed(names, fallback.value)))
      || Doomed(names, rest)
    case _ => false
  }

  /** No property of `names` can do without the others: each is missing, misnamed, or refers to one of them without rescue. */
  ghost predicate Circular(names: set<string>, customs: Customs) {
    forall name {:trigger name in names} :: name in names && IsCustom(name) && name in customs ==>
      Doomed(names, customs[name])
  }

  lemma {:induction false} DoomedFails(names: set<string>, customs: Customs, output: string, value: string,
                                       visited: set<string>, depth: nat)
    requires Circular(names, customs) && Doomed(names, value) && depth <= MAX_DEPTH
    ensures Expand(output, value, customs, visited, depth).None?
    decreases MAX_DEPTH + 1 - depth, 1, |value|
  {
    var scan := ScanVar(value);
    if scan.name in names && (scan.fallback.None? || Doomed(names, scan.fallback.value)) {
      DoomedReference(names, customs, scan.name, scan.fallback, visited, depth);
      FailedReference(output, value, scan, customs, visited, depth);
    } else {
      var text := Refer(scan.name, scan.fallback, customs, visited, depth);
      if text.Some? {
        DoomedFails(names, customs, output + scan.prefix + text.value, scan.rest, visited, depth);
      }
      FailedRest(output, value, scan, customs, visited, depth);
    }
  }

  lemma {:induction false} DoomedReference(names: set<string>, customs: Customs, name: string, fallback: Option<string>,
                                           visited: set<string>, depth: nat)
    requires Circular(names, customs) && depth <= MAX_DEPTH
    requires name in names && (fallback.None? || Doomed(names, fallback.value))
    ensures Refer(name, fallback, customs, visited, depth).None?
    decreases MAX_DEPTH + 1 - depth, 0, 1
  {
    CycleTakesFallback(names, customs, name, fallback, visited, depth);
    if fallback.Some? {
      DoomedIsInvalid(names, customs, fallback.value, visited, depth + 1);
    }
  }

  lemma FailedReference(output: string, value: string, scan: Scan, customs: Customs, visited: set<string>, depth: nat)
    requires depth <= MAX_DEPTH && scan == ScanVar(value) && scan.Closed?
    requires Refer(scan.name, scan.fallback, customs, visited, depth).None?
    ensures Expand(output, value, customs, visited, depth).None?
  {
  }

  lemma FailedRest(output: string, value: string, scan: Scan, customs: Customs, visited: set<string>, depth: nat)
    requires depth <= MAX_DEPTH && scan == ScanVar(value) && scan.Closed?
    requires var text := Refer(scan.name, scan.fallback, customs, visited, depth);
             text.Some? ==> Expand(output + scan.prefix + text.value, scan.rest, customs, visited, depth).None?
    ensures Expand(output, value, customs, visited, depth).None?
  {
  }

  lemma InvalidTakesFallback(name: string, fallback: Option<string>, customs: Customs, visited: set<string>, depth: nat)
    requires depth <= MAX_DEPTH
    requires IsCustom(name) && name in customs ==> Resolve(customs[name], customs, visited + {name}, depth + 1).None?
    ensures Refer(name, fallback, customs, visited, depth)
            == if fallback.None? then None else Resolve(fallback.value, customs, visited, depth + 1)
  {
  }

  /**
   * Every property on a cycle is invalid, whatever the cycle's length and wherever in a value its
   * references stand: a reference to it takes its fallback, or fails without one.
   */
  lemma {:induction false} CycleTakesFallback(names: set<string>, customs: Customs, name: string, fallback: Option<string>,
                                              visited: set<string>, depth: nat)
    requires Circular(names, customs) && name in names && depth <= MAX_DEPTH
    ensures Refer(name, fallback, customs, visited, depth)
            == if fallback.None? then None else Resolve(fallback.value, customs, visited, depth + 1)
    decreases MAX_DEPTH + 1 - depth, 0, 0
  {
    if IsCustom(name) && name in customs {
      DoomedIsInvalid(names, customs, customs[name], visited + {name}, depth + 1);
    }
    InvalidTakesFallback(name, fallback, customs, visited, depth);
  }

  lemma {:induction false} DoomedIsInvalid(names: set<string>, customs: Customs, value: string, visited: set<string>,
                                           depth: nat)
    requires Circular(names, customs) && Doomed(names, value)
    ensures Resolve(value, customs, visited, depth).None?
    decreases MAX_DEPTH + 1 - depth, 2, 0
  {
    if depth <= MAX_DEPTH {
      DoomedFails(names, customs, "", value, visited, depth);
    }
  }
}
