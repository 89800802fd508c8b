/** Strings as the repository trims and measures them. */
module Text {
  predicate IsSpace(c: char) {
    var n := c as int;
    || 0x9 <= n <= 0xd || n == 0x20 || n == 0x85 || n == 0xa0 || n == 0x1680 || 0x2000 <= n <= 0x200a
    || n == 0x2028 || n == 0x2029 || n == 0x202f || n == 0x205f || n == 0x3000
  }

  function TrimStart(s: string): (t: string) {
    if s != [] && IsSpace(s[0]) then TrimStart(s[1..]) else s
  }

  function TrimEnd(s: string): (t: string) {
    if s != [] && IsSpace(s[|s| - 1]) then TrimEnd(s[..|s| - 1]) else s
  }

  function Trim(s: string): (t: string) {
    TrimEnd(TrimStart(s))
  }

  lemma {:induction false} TrimStartIsSuffix(s: string)
    ensures |TrimStart(s)| <= |s| && TrimStart(s) == s[|s| - |TrimStart(s)|..]
  {
    if s != [] && IsSpace(s[0]) {
      TrimStartIsSuffix(s[1..]);
    }
  }

  lemma {:induction false} TrimEndIsPrefix(s: string)
    ensures |TrimEnd(s)| <= |s| && TrimEnd(s) == s[..|TrimEnd(s)|]
    ensures forall i :: |TrimEnd(s)| <= i < |s| ==> IsSpace(s[i])
  {
    if s != [] && IsSpace(s[|s| - 1]) {
      TrimEndIsPrefix(s[..|s| - 1]);
    }
  }

  /** Trimming takes white space off both ends, all of it and nothing else. */
  lemma TrimStrips(s: string) returns (i: nat, j: nat)
    ensures i <= j <= |s| && Trim(s) == s[i..j]
    ensures forall k :: 0 <= k < i || j <= k < |s| ==> IsSpace(s[k])
    ensures i < j ==> !IsSpace(s[i]) && !IsSpace(s[j - 1])
  {
    var t := TrimStart(s);
    i := StartStrips(s);
    j := i + |TrimEnd(t)|;
    TrimEndIsPrefix(t);
    EndStrips(t);
    assert t == s[i..];
    assert s[i..][..|TrimEnd(t)|] == s[i..j];
    forall k | j <= k < |s| ensures IsSpace(s[k]) {
      assert s[k] == t[k - i];
    }
  }

  lemma {:induction false} StartStrips(s: string) returns (i: nat)
    ensures i <= |s| && TrimStart(s) == s[i..] && (i < |s| ==> !IsSpace(s[i])) && forall k :: 0 <= k < i ==> IsSpace(s[k])
  {
    if s != [] && IsSpace(s[0]) {
      i := StartStrips(s[1..]);
      i := i + 1;
      assert s[1..][i - 1..] == s[i..];
      assert forall k :: 0 < k < i ==> s[k] == s[1..][k - 1];
    } else {
      i := 0;
    }
  }

  lemma {:induction false} EndStrips(s: string)
    ensures TrimEnd(s) != [] ==> !IsSpace(TrimEnd(s)[|TrimEnd(s)| - 1])
  {
    if s != [] && IsSpace(s[|s| - 1]) {
      EndStrips(s[..|s| - 1]);
    }
  }

  lemma TrimShrinks(s: string)
    ensures |Trim(s)| <= |s|
  {
    TrimStartIsSuffix(s);
    TrimEndIsPrefix(TrimStart(s));
  }

  /** The length of a string in UTF-8, which is what the cap counts. */
  function Bytes(s: string): (n: nat) {
    if s == [] then 0
    else
      var c := s[0] as int;
      (if c < 0x80 then 1 else if c < 0x800 then 2 else if c < 0x1_0000 then 3 else 4) + Bytes(s[1..])
  }

  /** Seven, eleven, sixteen and twenty-one bits take one to four bytes. */
  lemma BytesOfOne(c: char)
    ensures var bits := if c as int < 128 then 7 else if c as int < 2_048 then 11 else if c as int < 65_536 then 16 else 21;
            Bytes([c]) == if bits == 7 then 1 else if bits == 11 then 2 else if bits == 16 then 3 else 4
  {
    assert [c][1..] == [];
  }

  lemma {:induction false} BytesAdd(a: string, b: string)
    ensures Bytes(a + b) == Bytes(a) + Bytes(b)
  {
    if a == [] {
      assert a + b == b;
    } else {
      assert (a + b)[1..] == a[1..] + b;
      BytesAdd(a[1..], b);
    }
  }

  // ---- As many strings as one likes, for concrete examples --------------------------------------

  /** Different for different numbers. */
  function Tag(prefix: string, n: nat): (s: string)
    requires n < 0x1000
  {
    prefix + [(0x4e00 + n) as char]
  }

  function Tagged(prefix: string, n: nat): (tags: set<string>)
    requires n <= 0x1000
  {
    set i | 0 <= i < n :: Tag(prefix, i)
  }

  lemma {:induction false} TaggedCount(prefix: string, n: nat)
    requires n <= 0x1000
    ensures |Tagged(prefix, n)| == n
  {
    if n > 0 {
      TaggedCount(prefix, n - 1);
      var last := Tag(prefix, n - 1);
      forall i | 0 <= i < n - 1 ensures Tag(prefix, i) != last {
        assert Tag(prefix, i)[|prefix|] != last[|prefix|];
      }
      assert Tagged(prefix, n) == Tagged(prefix, n - 1) + {last};
    }
  }
}
