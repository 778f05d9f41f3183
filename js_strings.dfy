/** The JavaScript string operations the core relies on, over Dafny strings
    (sequences of characters). */
module JsStrings {
  import opened Wrappers

  /** JavaScript truthiness of a string that may be null: present and not
      the empty string. */
  predicate Truthy(o: Option<string>)
  {
    o.Some? && o.value != ""
  }

  /** `c.toLowerCase()` for one character, on the ASCII letters. */
  function LowerChar(c: char): char
  {
    if 'A' <= c <= 'Z' then (c as int + 32) as char else c
  }

  /** `s.toLowerCase()`, character by character. */
  function Lower(s: string): (r: string)
    ensures |r| == |s|
    ensures forall i :: 0 <= i < |s| ==> r[i] == LowerChar(s[i])
  {
    seq(|s|, i requires 0 <= i < |s| => LowerChar(s[i]))
  }

  /** Lower-casing a second time changes nothing. */
  lemma LowerIdempotent(s: string)
    ensures Lower(Lower(s)) == Lower(s)
  {
    var l := Lower(s);
    assert forall i :: 0 <= i < |l| ==> LowerChar(l[i]) == l[i];
  }

  /** `s.startsWith(p)`. */
  predicate IsPrefix(p: string, s: string)
  {
    |p| <= |s| && s[..|p|] == p
  }

  /** `s.includes(t)`: some position of `s` starts a copy of `t`. */
  predicate Contains(s: string, t: string)
    decreases |s|
  {
    IsPrefix(t, s) || (|s| > 0 && Contains(s[1..], t))
  }

  /** `t` occurs in `s` starting at position `i`. */
  predicate OccursAt(s: string, t: string, i: int)
  {
    0 <= i && i + |t| <= |s| && s[i..i + |t|] == t
  }

  /** Slicing the tail of `s` is slicing `s` one position further on. */
  lemma TailSlice(s: string, a: int, b: int)
    requires 1 <= a <= b <= |s|
    ensures s[1..][a - 1..b - 1] == s[a..b]
  {
    var u := s[1..];
    assert forall k :: a - 1 <= k < b - 1 ==> u[k] == s[k + 1];
  }

  /** `Contains` agrees with the direct definition of a substring. */
  lemma {:induction false} ContainsIff(s: string, t: string)
    ensures Contains(s, t) <==> exists i :: OccursAt(s, t, i)
    decreases |s|
  {
    assert OccursAt(s, t, 0) == IsPrefix(t, s);
    if |s| > 0 {
      var u := s[1..];
      ContainsIff(u, t);
      forall i | 0 < i
        ensures OccursAt(s, t, i) == OccursAt(u, t, i - 1)
      {
        if i + |t| <= |s| {
          TailSlice(s, i, i + |t|);
        }
      }
      if exists i :: OccursAt(u, t, i) {
        var i :| OccursAt(u, t, i);
        assert OccursAt(s, t, i + 1);
      }
      if exists i :: OccursAt(s, t, i) {
        var i :| OccursAt(s, t, i);
        if i > 0 {
          assert OccursAt(u, t, i - 1);
        }
      }
    } else if exists i :: OccursAt(s, t, i) {
      var i :| OccursAt(s, t, i);
      assert i == 0;
    }
  }

  /** A string includes each of the parts it is concatenated from. */
  lemma ContainsMiddle(a: string, b: string, c: string)
    ensures Contains(a + b + c, b)
  {
    assert (a + b + c)[|a|..|a| + |b|] == b;
    assert OccursAt(a + b + c, b, |a|);
    ContainsIff(a + b + c, b);
  }

  /** Wherever `t` occurs in `s`, each character of `t` is a character of `s`. */
  lemma OccursChars(s: string, t: string)
    ensures forall i, c :: OccursAt(s, t, i) && c in t ==> c in s
  {
    forall i, c | OccursAt(s, t, i) && c in t
      ensures c in s
    {
      var k :| 0 <= k < |t| && t[k] == c;
      assert s[i..i + |t|][k] == s[i + k];
    }
  }

  /** A string never includes one that holds a character it lacks. */
  lemma MissingChar(s: string, t: string, c: char)
    requires c in t && c !in s
    ensures !Contains(s, t)
  {
    ContainsIff(s, t);
    OccursChars(s, t);
  }

  /** Wherever `t` occurs in `s`, each position it covers holds a letter of
      `t`. */
  lemma OccursCovers(s: string, t: string, p: int)
    ensures forall i :: OccursAt(s, t, i) && i <= p < i + |t| ==> s[p] in t
  {
    forall i | OccursAt(s, t, i) && i <= p < i + |t|
      ensures s[p] in t
    {
      assert s[i..i + |t|][p - i] == s[p];
    }
  }

  /** A string never includes a string `t` when every place `t` could start
      puts position `p` under it and `s[p]` is missing from `t`. */
  lemma MissingCovered(s: string, t: string, p: nat)
    requires |s| - |t| <= p < |t| && p < |s|
    requires s[p] !in t
    ensures !Contains(s, t)
  {
    ContainsIff(s, t);
    OccursCovers(s, t, p);
  }

  /** Every string includes the empty string. */
  lemma ContainsEmpty(s: string)
    ensures Contains(s, "")
  {
    assert IsPrefix("", s);
  }

  /** `s.split(' ')[0]`: the text before the first space (all of `s` if it
      has none). */
  function FirstToken(s: string): (r: string)
    ensures IsPrefix(r, s)
    ensures ' ' !in r
    ensures |r| == |s| || s[|r|] == ' '
  {
    if s == [] || s[0] == ' ' then [] else [s[0]] + FirstToken(s[1..])
  }

  /** The characters the regular-expression class `\w` matches. */
  predicate IsWordChar(c: char)
  {
    'a' <= c <= 'z' || 'A' <= c <= 'Z' || '0' <= c <= '9' || c == '_'
  }

  /** The characters the regular-expression class `\s` matches; `trim()`
      removes exactly these. */
  predicate IsSpace(c: char)
  {
    '\U{0009}' <= c <= '\U{000D}' || c == ' ' || c == '\U{00A0}' || c == '\U{1680}'
    || '\U{2000}' <= c <= '\U{200A}' || c == '\U{2028}' || c == '\U{2029}'
    || c == '\U{202F}' || c == '\U{205F}' || c == '\U{3000}' || c == '\U{FEFF}'
  }

  /** No word character is white space. */
  lemma WordCharNotSpace(c: char)
    ensures IsWordChar(c) ==> !IsSpace(c)
  {
  }

  /** What `s.replace(/[^\w\s]/g, '')` leaves of one character: the
      character itself when it is a word character or white space, nothing
      otherwise. */
  function KeepChar(c: char): (r: string)
    ensures r == [c] <==> IsWordChar(c) || IsSpace(c)
    ensures r == [] <==> !(IsWordChar(c) || IsSpace(c))
  {
    if IsWordChar(c) || IsSpace(c) then [c] else []
  }

  /** `s.replace(/[^\w\s]/g, '')`: drops every character that is neither a
      word character nor white space, keeping the others in order. */
  function StripNonWord(s: string): (r: string)
    ensures |r| <= |s|
    ensures forall c :: c in r ==> (IsWordChar(c) || IsSpace(c)) && c in s
    ensures forall c :: c in s && (IsWordChar(c) || IsSpace(c)) ==> c in r
  {
    if s == [] then [] else KeepChar(s[0]) + StripNonWord(s[1..])
  }

  /** The stripping works character by character: the result for a
      concatenation is the results for its parts, in order, so the kept
      characters keep their order and their number. */
  lemma {:induction false} StripNonWordAppend(a: string, b: string)
    ensures StripNonWord(a + b) == StripNonWord(a) + StripNonWord(b)
    decreases |a|
  {
    if a == [] {
      assert a + b == b;
    } else {
      assert (a + b)[1..] == a[1..] + b;
      StripNonWordAppend(a[1..], b);
      assert StripNonWord(a + b) == KeepChar(a[0]) + StripNonWord(a[1..] + b);
    }
  }

  /** Stripping a second time changes nothing. */
  lemma {:induction false} StripNonWordIdempotent(s: string)
    ensures StripNonWord(StripNonWord(s)) == StripNonWord(s)
  {
    if s != [] {
      var k := KeepChar(s[0]);
      StripNonWordIdempotent(s[1..]);
      StripNonWordAppend(k, StripNonWord(s[1..]));
      assert StripNonWord(k) == k by {
        if k != [] {
          assert k[1..] == [];
        }
      }
    }
  }

  predicate AllSpace(s: string)
  {
    forall i :: 0 <= i < |s| ==> IsSpace(s[i])
  }

  /** Putting a white-space character in front of `s[1..]` keeps the
      trimmed suffix of `s[1..]` a trimmed suffix of `s`. */
  lemma LeadingSpace(s: string, r: string)
    requires s != [] && IsSpace(s[0])
    requires |r| <= |s| - 1 && r == s[1..][|s| - 1 - |r|..] && AllSpace(s[1..][..|s| - 1 - |r|])
    ensures r == s[|s| - |r|..] && AllSpace(s[..|s| - |r|])
  {
    var n := |s| - 1 - |r|;
    assert s[1..][n..] == s[n + 1..];
    forall i | 1 <= i <= n
      ensures IsSpace(s[i])
    {
      assert s[1..][..n][i - 1] == s[i];
    }
  }

  /** `s.trimStart()`: the suffix left after the leading white space. */
  function TrimStart(s: string): (r: string)
    ensures |r| <= |s| && r == s[|s| - |r|..]
    ensures AllSpace(s[..|s| - |r|])
    ensures r == [] || !IsSpace(r[0])
  {
    if s != [] && IsSpace(s[0]) then
      var r := TrimStart(s[1..]);
      LeadingSpace(s, r);
      r
    else s
  }

  /** Putting a white-space character after `s[..|s| - 1]` keeps its trimmed
      prefix a trimmed prefix of `s`. */
  lemma TrailingSpace(s: string, r: string)
    requires s != [] && IsSpace(s[|s| - 1])
    requires |r| <= |s| - 1 && r == s[..|s| - 1][..|r|] && AllSpace(s[..|s| - 1][|r|..])
    ensures r == s[..|r|] && AllSpace(s[|r|..])
  {
    var n := |r|;
    assert s[..|s| - 1][..n] == s[..n];
    forall i | n <= i < |s| - 1
      ensures IsSpace(s[i])
    {
      assert s[..|s| - 1][n..][i - n] == s[i];
    }
  }

  /** `s.trimEnd()`: the prefix left before the trailing white space. */
  function TrimEnd(s: string): (r: string)
    ensures |r| <= |s| && r == s[..|r|]
    ensures AllSpace(s[|r|..])
    ensures r == [] || !IsSpace(r[|r| - 1])
  {
    if s != [] && IsSpace(s[|s| - 1]) then
      var r := TrimEnd(s[..|s| - 1]);
      TrailingSpace(s, r);
      r
    else s
  }

  /** When only white space lies outside `s[a..b]`, the slice holds every
      other character of `s`, and nothing that is not in `s`. */
  lemma SpaceAround(s: string, a: nat, b: nat)
    requires a <= b <= |s| && AllSpace(s[..a]) && AllSpace(s[b..])
    ensures forall c :: c in s[a..b] ==> c in s
    ensures forall c :: c in s && !IsSpace(c) ==> c in s[a..b]
  {
    forall c | c in s[a..b]
      ensures c in s
    {
      var k :| 0 <= k < b - a && s[a..b][k] == c;
      assert s[a + k] == c;
    }
    forall c | c in s && !IsSpace(c)
      ensures c in s[a..b]
    {
      var k :| 0 <= k < |s| && s[k] == c;
      assert forall j :: 0 <= j < a ==> s[..a][j] == s[j];
      assert forall j :: b <= j < |s| ==> s[b..][j - b] == s[j];
      assert s[a..b][k - a] == c;
    }
  }

  /** The trimmed string is the slice of `s` between its leading and its
      trailing white space. */
  lemma TrimmedSlice(s: string, e: string, r: string)
    requires |e| <= |s| && e == s[..|e|] && AllSpace(s[|e|..])
    requires |r| <= |e| && r == e[|e| - |r|..] && AllSpace(e[..|e| - |r|])
    requires e == [] || !IsSpace(e[|e| - 1])
    ensures r == [] || !IsSpace(r[|r| - 1])
    ensures r == [] <==> AllSpace(s)
    ensures exists a, b :: 0 <= a <= b <= |s| && r == s[a..b] && AllSpace(s[..a]) && AllSpace(s[b..])
    ensures forall c :: c in r ==> c in s
    ensures forall c :: c in s && !IsSpace(c) ==> c in r
  {
    var a := |e| - |r|;
    if r != [] {
      assert r[|r| - 1] == e[|e| - 1];
    }
    assert s[..a] == e[..a];
    assert r == s[a..|e|];
    SpaceAround(s, a, |e|);
    if r == [] {
      assert e[..|e|] == e;
      assert e == [];
      assert s[|e|..] == s;
    }
    if AllSpace(s) {
      assert e == [];
    }
  }

  /** `s.trim()`: the slice of `s` between its leading and its trailing
      white space; it keeps every other character and is empty exactly when
      `s` is all white space. */
  function Trim(s: string): (r: string)
    ensures exists a, b :: 0 <= a <= b <= |s| && r == s[a..b] && AllSpace(s[..a]) && AllSpace(s[b..])
    ensures r == [] || (!IsSpace(r[0]) && !IsSpace(r[|r| - 1]))
    ensures forall c :: c in r ==> c in s
    ensures forall c :: c in s && !IsSpace(c) ==> c in r
    ensures r == [] <==> AllSpace(s)
  {
    var e := TrimEnd(s);
    var r := TrimStart(e);
    TrimmedSlice(s, e, r);
    r
  }
}
