/** String helpers shared by the backend validators and the chat client:
    character classes, searching, splitting and joining, trimming and
    ASCII case mapping, each with the property it is relied upon for. */
module Text {

  /** Python's `\d`, restricted to the ASCII digits. */
  predicate IsDigit(c: char) { '0' <= c <= '9' }

  /** Python's `\w`, restricted to ASCII letters, digits and underscore. */
  predicate IsWordChar(c: char) {
    ('a' <= c <= 'z') || ('A' <= c <= 'Z') || IsDigit(c) || c == '_'
  }

  predicate AllDigits(s: string) { forall k | 0 <= k < |s| :: IsDigit(s[k]) }

  predicate AllWordChars(s: string) { forall k | 0 <= k < |s| :: IsWordChar(s[k]) }

  /** True when `sub` occurs as a contiguous block of `s` (JavaScript `includes`). */
  ghost predicate OccursIn(sub: string, s: string) {
    exists i :: OccursAt(sub, s, i)
  }

  /** `sub` occurs in `s` starting at index `i`. */
  ghost predicate OccursAt(sub: string, s: string, i: int) {
    0 <= i <= |s| - |sub| && s[i..i + |sub|] == sub
  }

  /** Executable substring test, proved to agree with `OccursIn`. */
  function Contains(s: string, sub: string): (b: bool)
    ensures b <==> OccursIn(sub, s)
    decreases |s|
  {
    if |sub| > |s| then false
    else if s[..|sub|] == sub then
      assert OccursAt(sub, s, 0);
      true
    else
      var rest := Contains(s[1..], sub);
      assert OccursIn(sub, s) ==> OccursIn(sub, s[1..]) by {
        if OccursIn(sub, s) {
          var i :| OccursAt(sub, s, i);
          assert i != 0;
          assert s[1..][i - 1..i - 1 + |sub|] == sub;
          assert OccursAt(sub, s[1..], i - 1);
        }
      }
      assert OccursIn(sub, s[1..]) ==> OccursIn(sub, s) by {
        if OccursIn(sub, s[1..]) {
          var i :| OccursAt(sub, s[1..], i);
          assert s[i + 1..i + 1 + |sub|] == sub;
          assert OccursAt(sub, s, i + 1);
        }
      }
      rest
  }

  /** Index of the first `c` in `s`, or `|s|` when there is none. */
  function FindFirst(s: string, c: char): (r: nat)
    ensures r <= |s|
    ensures r < |s| ==> s[r] == c
    ensures forall k | 0 <= k < r :: s[k] != c
    decreases |s|
  {
    if |s| == 0 then 0
    else if s[0] == c then 0
    else 1 + FindFirst(s[1..], c)
  }

  /** Index of the last `c` in `s`, or -1 when there is none. */
  function FindLast(s: string, c: char): (r: int)
    ensures -1 <= r < |s|
    ensures r >= 0 ==> s[r] == c
    ensures forall k | r < k < |s| :: s[k] != c
    decreases |s|
  {
    if |s| == 0 then -1
    else if s[|s| - 1] == c then |s| - 1
    else FindLast(s[..|s| - 1], c)
  }

  /** `k` is the first position of `c` in `s`. */
  lemma FindFirstIs(s: string, c: char, k: int)
    requires 0 <= k < |s| && s[k] == c
    requires forall j | 0 <= j < k :: s[j] != c
    ensures FindFirst(s, c) == k
  {
  }

  /** `k` is the last position of `c` in `s`. */
  lemma FindLastIs(s: string, c: char, k: int)
    requires 0 <= k < |s| && s[k] == c
    requires forall j | k < j < |s| :: s[j] != c
    ensures FindLast(s, c) == k
  {
  }

  /** `parts` glued together with `sep` between neighbours (JavaScript `join`):
      the result starts with the first piece and ends with the last. */
  function Join(parts: seq<string>, sep: char): (r: string)
    ensures |parts| == 0 ==> r == ""
    ensures |parts| >= 1 ==> |parts[0]| <= |r| && r[..|parts[0]|] == parts[0]
    decreases |parts|
  {
    if |parts| == 0 then ""
    else if |parts| == 1 then parts[0]
    else parts[0] + [sep] + Join(parts[1..], sep)
  }

  /** JavaScript `split` on a one-character separator: the pieces between
      separators, never fewer than one, and joining them gives `s` back. */
  function Split(s: string, sep: char): (r: seq<string>)
    ensures |r| >= 1
    ensures forall k | 0 <= k < |r| :: sep !in r[k]
    ensures Join(r, sep) == s
    ensures |r| == 1 <==> sep !in s
    ensures r[0] == s[..FindFirst(s, sep)]
    ensures |r| >= 2 ==> Join(r[1..], sep) == s[FindFirst(s, sep) + 1..]
    decreases |s|
  {
    var k := FindFirst(s, sep);
    if k == |s| then
      assert s[..k] == s;
      [s]
    else
      var rest := Split(s[k + 1..], sep);
      var r := [s[..k]] + rest;
      assert r[1..] == rest;
      assert s == s[..k] + [sep] + s[k + 1..];
      r
  }

  /** Splitting a join whose pieces hold no separator gives the pieces back. */
  lemma {:induction false} SplitJoin(parts: seq<string>, sep: char)
    requires |parts| >= 1
    requires forall k | 0 <= k < |parts| :: sep !in parts[k]
    ensures Split(Join(parts, sep), sep) == parts
    decreases |parts|
  {
    if |parts| == 1 {
      SplitWhole(parts[0], sep);
    } else {
      var head, tail := parts[0], parts[1..];
      SplitJoin(tail, sep);
      assert Join(parts, sep) == head + [sep] + Join(tail, sep);
      SplitAfterPiece(head, sep, Join(tail, sep));
      assert parts == [head] + tail;
    }
  }

  /** A string without the separator splits into itself alone. */
  lemma SplitWhole(s: string, sep: char)
    requires sep !in s
    ensures Split(s, sep) == [s]
  {
    assert FindFirst(s, sep) == |s|;
  }

  /** Splitting a separator-free piece, a separator and a tail gives the
      piece, then the split of the tail. */
  lemma SplitAfterPiece(head: string, sep: char, tail: string)
    requires sep !in head
    ensures Split(head + [sep] + tail, sep) == [head] + Split(tail, sep)
  {
    var s := head + [sep] + tail;
    FirstSeparator(head, sep, tail);
    SplitAt(s, sep, |head|);
    assert s[..|head|] == head && s[|head| + 1..] == tail;
  }

  /** Splitting at the first separator: the piece before it, then the split
      of what follows it. */
  lemma SplitAt(s: string, sep: char, k: nat)
    requires k == FindFirst(s, sep) && k < |s|
    ensures Split(s, sep) == [s[..k]] + Split(s[k + 1..], sep)
  {
  }

  /** The first separator of `head + [sep] + tail` is the one after `head`
      when `head` holds none. */
  lemma FirstSeparator(head: string, sep: char, tail: string)
    requires sep !in head
    ensures FindFirst(head + [sep] + tail, sep) == |head|
  {
    var s := head + [sep] + tail;
    assert s[|head|] == sep;
    assert forall k | 0 <= k < |head| :: s[k] == head[k];
  }

  /** `s` without its longest prefix made of characters of `cs`. */
  function DropLeading(s: string, cs: set<char>): (r: string)
    ensures |r| <= |s| && r == s[|s| - |r|..]
    ensures forall k | 0 <= k < |s| - |r| :: s[k] in cs
    ensures r == [] || r[0] !in cs
    decreases |s|
  {
    if |s| > 0 && s[0] in cs then
      var r := DropLeading(s[1..], cs);
      assert s[1..][|s| - 1 - |r|..] == s[|s| - |r|..];
      assert forall k | 1 <= k < |s| - |r| :: s[k] == s[1..][k - 1];
      r
    else s
  }

  /** `s` without its longest suffix made of characters of `cs`. */
  function DropTrailing(s: string, cs: set<char>): (r: string)
    ensures |r| <= |s| && r == s[..|r|]
    ensures forall k | |r| <= k < |s| :: s[k] in cs
    ensures r == [] || r[|r| - 1] !in cs
    decreases |s|
  {
    if |s| > 0 && s[|s| - 1] in cs then
      var r := DropTrailing(s[..|s| - 1], cs);
      assert s[..|s| - 1][..|r|] == s[..|r|];
      assert forall k | |r| <= k < |s| - 1 :: s[k] == s[..|s| - 1][k];
      r
    else s
  }

  /** `s` without its leading and trailing runs of characters of `cs`:
      the infix that is left neither starts nor ends with one of them,
      and everything cut off on either side was one of them. */
  function Strip(s: string, cs: set<char>): (r: string)
    ensures exists i, j | 0 <= i <= j <= |s| :: StrippedAt(s, cs, i, j) && r == s[i..j]
    ensures r == [] || (r[0] !in cs && r[|r| - 1] !in cs)
  {
    var a := DropLeading(s, cs);
    var r := DropTrailing(a, cs);
    StrippedInfix(s, cs, a, r);
    r
  }

  /** A prefix `r` of a suffix `a` of `s`, where everything cut off is from
      `cs`, is the infix a strip describes. */
  lemma StrippedInfix(s: string, cs: set<char>, a: string, r: string)
    requires |a| <= |s| && a == s[|s| - |a|..] && forall k | 0 <= k < |s| - |a| :: s[k] in cs
    requires |r| <= |a| && r == a[..|r|] && forall k | |r| <= k < |a| :: a[k] in cs
    ensures 0 <= |s| - |a| <= |s| - |a| + |r| <= |s|
    ensures r == s[|s| - |a|..|s| - |a| + |r|]
    ensures StrippedAt(s, cs, |s| - |a|, |s| - |a| + |r|)
  {
    var i := |s| - |a|;
    var j := i + |r|;
    assert a == s[i..];
    assert r == a[..|r|];
    assert r == s[i..j] by {
      forall k | 0 <= k < |r| ensures r[k] == s[i + k] {
        assert r[k] == a[k];
      }
    }
    forall k | j <= k < |s| ensures s[k] in cs {
      assert s[k] == a[k - i];
    }
  }

  /** Everything before `i` and from `j` on is a character of `cs`. */
  ghost predicate StrippedAt(s: string, cs: set<char>, i: int, j: int)
    requires 0 <= i <= j <= |s|
  {
    (forall k | 0 <= k < i :: s[k] in cs) && (forall k | j <= k < |s| :: s[k] in cs)
  }

  /** The characters JavaScript's `String.prototype.trim` removes: the
      ECMAScript WhiteSpace (tab, vertical tab, form feed, space, no-break
      space, byte order mark and the space separators of Unicode category Zs)
      and LineTerminator (line feed, carriage return, line and paragraph
      separator) code points. */
  const Whitespace: set<char> := {
    '\t', '\U{B}', '\U{C}', ' ', '\U{A0}', '\U{FEFF}',
    '\U{1680}', '\U{2000}', '\U{2001}', '\U{2002}', '\U{2003}', '\U{2004}',
    '\U{2005}', '\U{2006}', '\U{2007}', '\U{2008}', '\U{2009}', '\U{200A}',
    '\U{202F}', '\U{205F}', '\U{3000}',
    '\n', '\r', '\U{2028}', '\U{2029}'
  }

  /** JavaScript `trim`: the infix left once the leading and the trailing
      whitespace are cut off. */
  function Trim(s: string): (r: string)
    ensures exists i, j | 0 <= i <= j <= |s| :: StrippedAt(s, Whitespace, i, j) && r == s[i..j]
    ensures r == [] || (r[0] !in Whitespace && r[|r| - 1] !in Whitespace)
  {
    Strip(s, Whitespace)
  }

  /** Every character of `s` is one `trim` removes. */
  ghost predicate AllWhitespace(s: string) {
    forall k | 0 <= k < |s| :: s[k] in Whitespace
  }

  /** `input.trim() === ''`: the input holds nothing but whitespace. */
  function IsBlank(s: string): (b: bool)
    ensures b <==> AllWhitespace(s)
  {
    var t := Trim(s);
    assert (forall k | 0 <= k < |s| :: s[k] in Whitespace) ==> t == [] by {
      if forall k | 0 <= k < |s| :: s[k] in Whitespace {
        var i, j :| 0 <= i <= j <= |s| && StrippedAt(s, Whitespace, i, j) && t == s[i..j];
      }
    }
    assert t == [] ==> forall k | 0 <= k < |s| :: s[k] in Whitespace by {
      if t == [] {
        var i, j :| 0 <= i <= j <= |s| && StrippedAt(s, Whitespace, i, j) && t == s[i..j];
        assert i == j;
      }
    }
    t == ""
  }

  /** JavaScript `toLowerCase`, restricted to the ASCII letters. */
  function LowerChar(c: char): char {
    if 'A' <= c <= 'Z' then (c as int - 'A' as int + 'a' as int) as char else c
  }

  function ToLower(s: string): (r: string)
    ensures |r| == |s|
    ensures forall k | 0 <= k < |r| :: !('A' <= r[k] <= 'Z')
    ensures forall k | 0 <= k < |s| :: ToLowerAt(s, r, k)
  {
    seq(|s|, k requires 0 <= k < |s| => LowerChar(s[k]))
  }

  /** Position `k` of `r` is `s[k]` with an upper-case ASCII letter lowered
      and every other character kept. */
  ghost predicate ToLowerAt(s: string, r: string, k: int)
    requires 0 <= k < |s| && |r| == |s|
  {
    if 'A' <= s[k] <= 'Z' then r[k] as int == s[k] as int + 32 else r[k] == s[k]
  }
}
