/**
 * The JavaScript string operations the handlers and components rely on:
 * `split` on one separator character, `trim`, `indexOf`, `includes`,
 * `toLowerCase`/`toUpperCase`, global literal `replace`, and the relational
 * `<` on strings.
 */
module JsStrings {

  /** The characters `String.prototype.trim` strips: ECMAScript WhiteSpace and LineTerminator. */
  predicate IsTrimmable(c: char) {
    var n := c as int;
    n == 0x09 || n == 0x0A || n == 0x0B || n == 0x0C || n == 0x0D || n == 0x20 ||
    n == 0xA0 || n == 0x1680 || (0x2000 <= n <= 0x200A) || n == 0x2028 || n == 0x2029 ||
    n == 0x202F || n == 0x205F || n == 0x3000 || n == 0xFEFF
  }

  /** `s` with its leading trimmable characters removed. */
  function TrimStart(s: string): (r: string)
    ensures |r| <= |s| && r == s[|s| - |r|..]
    ensures r == [] || !IsTrimmable(r[0])
  {
    if s != [] && IsTrimmable(s[0]) then TrimStart(s[1..]) else s
  }

  /** `s` with its trailing trimmable characters removed. */
  function TrimEnd(s: string): (r: string)
    ensures |r| <= |s| && r == s[..|r|]
    ensures r == [] || !IsTrimmable(r[|r| - 1])
  {
    if s != [] && IsTrimmable(s[|s| - 1]) then TrimEnd(s[..|s| - 1]) else s
  }

  /** `sub` occurs in `s` starting at position `i`. */
  predicate OccursAt(s: string, sub: string, i: int) {
    0 <= i <= |s| - |sub| && s[i..i + |sub|] == sub
  }

  /** `s.trim()`: `s` without its leading and trailing white space (see `TrimDropsWhitespace`). */
  function Trim(s: string): (r: string)
    ensures |r| <= |s|
    ensures r == [] || (!IsTrimmable(r[0]) && !IsTrimmable(r[|r| - 1]))
    ensures (s == [] || (!IsTrimmable(s[0]) && !IsTrimmable(s[|s| - 1]))) ==> r == s
  {
    var t := TrimStart(s);
    var r := TrimEnd(t);
    assert r != [] ==> r[0] == t[0];
    assert s != [] && !IsTrimmable(s[0]) ==> t == s;
    assert t != [] && !IsTrimmable(t[|t| - 1]) ==> r == t;
    r
  }

  /** What `TrimStart` drops is white space. */
  lemma {:induction false} TrimStartDropsWhitespace(s: string)
    ensures forall i :: 0 <= i < |s| - |TrimStart(s)| ==> IsTrimmable(s[i])
    decreases |s|
  {
    if s != [] && IsTrimmable(s[0]) {
      TrimStartDropsWhitespace(s[1..]);
      assert forall i :: 1 <= i < |s| ==> s[i] == s[1..][i - 1];
    }
  }

  /** What `TrimEnd` drops is white space. */
  lemma {:induction false} TrimEndDropsWhitespace(s: string)
    ensures forall i :: |TrimEnd(s)| <= i < |s| ==> IsTrimmable(s[i])
    decreases |s|
  {
    if s != [] && IsTrimmable(s[|s| - 1]) {
      TrimEndDropsWhitespace(s[..|s| - 1]);
    }
  }

  /**
   * `Trim` drops white space only: `s` is the result with white space before
   * it (what `TrimStart` drops) and white space after it.
   */
  lemma TrimDropsWhitespace(s: string)
    ensures var k := |s| - |TrimStart(s)|;
      && k + |Trim(s)| <= |s| && Trim(s) == s[k..k + |Trim(s)|]
      && (forall i :: 0 <= i < k ==> IsTrimmable(s[i]))
      && (forall i :: k + |Trim(s)| <= i < |s| ==> IsTrimmable(s[i]))
  {
    var t := TrimStart(s);
    var k := |s| - |t|;
    var r := TrimEnd(t);
    assert Trim(s) == r;
    SliceOfSuffix(s, k, |r|);
    TrimStartDropsWhitespace(s);
    TrimDropsTrailing(s, t, k);
  }

  lemma SliceOfSuffix(s: string, k: nat, n: nat)
    requires k + n <= |s|
    ensures s[k..][..n] == s[k..k + n]
  {
  }

  /** A character absent from `s` is absent from `Trim(s)`. */
  lemma TrimAdmitsNothingNew(s: string, c: char)
    requires c !in s
    ensures c !in Trim(s)
  {
    TrimDropsWhitespace(s);
    var k := |s| - |TrimStart(s)|;
    assert forall i :: 0 <= i < |Trim(s)| ==> Trim(s)[i] == s[k + i];
  }

  lemma TrimDropsTrailing(s: string, t: string, k: nat)
    requires k <= |s| && t == s[k..]
    ensures forall i :: k + |TrimEnd(t)| <= i < |s| ==> IsTrimmable(s[i])
  {
    TrimEndDropsWhitespace(t);
    forall i | k + |TrimEnd(t)| <= i < |s|
      ensures IsTrimmable(s[i])
    {
      assert s[i] == t[i - k];
    }
  }

  /** The pieces of `parts` joined with `sep`: the inverse of `Split`. */
  function Join(parts: seq<string>, sep: char): string
    requires |parts| >= 1
  {
    if |parts| == 1 then parts[0] else parts[0] + [sep] + Join(parts[1..], sep)
  }

  /** `parts.join(sep)` for a separator of any length (`Array.prototype.join`). */
  function JoinWith(parts: seq<string>, sep: string): (r: string)
    ensures parts != [] ==> parts[0] <= r
    ensures |parts| >= 2 ==> r == parts[0] + (sep + JoinWith(parts[1..], sep))
    ensures forall i :: 0 <= i < |parts| ==> |parts[i]| <= |r|
  {
    if parts == [] then []
    else if |parts| == 1 then parts[0]
    else
      var tail := JoinWith(parts[1..], sep);
      assert forall i :: 1 <= i < |parts| ==> parts[i] == parts[1..][i - 1];
      parts[0] + (sep + tail)
  }

  /**
   * `s.split(sep)` for a one-character separator: the maximal `sep`-free pieces
   * of `s`, in order, always at least one (the empty string splits to `[""]`).
   */
  function Split(s: string, sep: char): (r: seq<string>)
    ensures |r| >= 1
    ensures forall i :: 0 <= i < |r| ==> sep !in r[i]
    ensures Join(r, sep) == s
  {
    if s == [] then [[]]
    else
      var rest := Split(s[1..], sep);
      if s[0] == sep then [[]] + rest
      else
        var r := [[s[0]] + rest[0]] + rest[1..];
        assert r[1..] == rest[1..];
        r
  }

  /** Splitting a join of separator-free pieces gives the pieces back. */
  lemma {:induction false} SplitJoin(parts: seq<string>, sep: char)
    requires |parts| >= 1
    requires forall i :: 0 <= i < |parts| ==> sep !in parts[i]
    ensures Split(Join(parts, sep), sep) == parts
  {
    if |parts| == 1 {
      SplitFree(parts[0], sep);
    } else {
      SplitJoin(parts[1..], sep);
      SplitPrefix(parts[0], Join(parts[1..], sep), sep);
      assert [parts[0]] + parts[1..] == parts;
    }
  }

  /** A string without the separator splits into itself alone. */
  lemma {:induction false} SplitFree(s: string, sep: char)
    requires sep !in s
    ensures Split(s, sep) == [s]
  {
    if s != [] {
      SplitFree(s[1..], sep);
      assert [s[0]] + s[1..] == s;
    }
  }

  /** A separator-free head followed by the separator becomes the first piece. */
  lemma {:induction false} SplitPrefix(head: string, tail: string, sep: char)
    requires sep !in head
    ensures Split(head + [sep] + tail, sep) == [head] + Split(tail, sep)
  {
    if head == [] {
      assert head + [sep] + tail == [sep] + tail;
      assert ([sep] + tail)[1..] == tail;
    } else {
      var s := head + [sep] + tail;
      assert s[1..] == head[1..] + [sep] + tail;
      SplitPrefix(head[1..], tail, sep);
      assert [head[0]] + head[1..] == head;
    }
  }

  /** Joining one more piece appends the separator and that piece. */
  lemma {:induction false} JoinSnoc(parts: seq<string>, x: string, sep: char)
    requires |parts| >= 1
    ensures Join(parts + [x], sep) == Join(parts, sep) + [sep] + x
  {
    if |parts| == 1 {
      assert parts + [x] == [parts[0], x];
      assert [parts[0], x][1..] == [x];
    } else {
      JoinSnoc(parts[1..], x, sep);
      assert (parts + [x])[1..] == parts[1..] + [x];
    }
  }

  /** `s.split(sep)[0]`: everything before the first separator. */
  function FirstField(s: string, sep: char): (r: string)
    ensures sep !in r && r <= s
    ensures sep in s ==> |r| < |s| && s[|r|] == sep
    ensures sep !in s ==> r == s
  {
    var parts := Split(s, sep);
    FirstPieceIsPrefix(s, sep);
    parts[0]
  }

  /** The first field of `p + q` is `p` when `p` has no separator and `q` starts with one. */
  lemma FirstFieldOfConcat(p: string, q: string, sep: char)
    requires sep !in p && q != [] && q[0] == sep
    ensures FirstField(p + q, sep) == p
  {
    var s := p + q;
    var r := FirstField(s, sep);
    assert s[|p|] == sep;
    assert forall i :: 0 <= i < |p| ==> s[i] == p[i];
    assert r == s[..|p|] == p;
  }

  lemma {:induction false} FirstPieceIsPrefix(s: string, sep: char)
    ensures Split(s, sep)[0] <= s
    ensures sep in s ==> |Split(s, sep)[0]| < |s| && s[|Split(s, sep)[0]|] == sep
    ensures sep !in s ==> Split(s, sep)[0] == s
  {
    if s != [] {
      FirstPieceIsPrefix(s[1..], sep);
    }
  }

  /** `s.indexOf(c)`: the first position of `c` in `s`, or -1 when `c` does not occur. */
  function IndexOf(s: string, c: char): (r: int)
    ensures -1 <= r < |s|
    ensures r == -1 <==> c !in s
    ensures r >= 0 ==> s[r] == c && c !in s[..r]
  {
    if s == [] then -1
    else if s[0] == c then 0
    else
      var k := IndexOf(s[1..], c);
      assert k >= 0 ==> s[..k + 1] == [s[0]] + s[1..][..k];
      if k == -1 then -1 else k + 1
  }

  /** `s.includes(sub)`: `sub` occurs in `s` at some position. */
  function Contains(s: string, sub: string): (r: bool)
    ensures r <==> exists i :: OccursAt(s, sub, i)
  {
    if sub <= s then
      assert OccursAt(s, sub, 0);
      true
    else if s == [] then false
    else
      var r := Contains(s[1..], sub);
      assert r ==> exists i :: OccursAt(s, sub, i) by {
        if r {
          var j :| OccursAt(s[1..], sub, j);
          assert s[1..][j..j + |sub|] == s[j + 1..j + 1 + |sub|];
          assert OccursAt(s, sub, j + 1);
        }
      }
      assert (exists i :: OccursAt(s, sub, i)) ==> r by {
        if exists i :: OccursAt(s, sub, i) {
          var i :| OccursAt(s, sub, i);
          assert i != 0;
          assert s[1..][i - 1..i - 1 + |sub|] == s[i..i + |sub|];
          assert OccursAt(s[1..], sub, i - 1);
        }
      }
      r
  }

  /**
   * `s.replace(/pat/g, '')` for a literal pattern: scanning left to right, every
   * occurrence that does not overlap an earlier removed one is deleted.
   */
  function RemoveAll(s: string, pat: string): (r: string)
    requires pat != []
    ensures |r| <= |s|
    ensures Contains(s, pat) ==> |r| <= |s| - |pat|
    ensures r == s <==> !Contains(s, pat)
    decreases |s|
  {
    if |s| < |pat| then s
    else if pat <= s then RemoveAll(s[|pat|..], pat)
    else
      var rest := RemoveAll(s[1..], pat);
      assert Contains(s, pat) == Contains(s[1..], pat);
      assert s == [s[0]] + s[1..];
      [s[0]] + rest
  }

  /** Where the pattern does not start, `RemoveAll` keeps the first character. */
  lemma RemoveAllKeepsHead(s: string, pat: string)
    requires pat != [] && |s| >= |pat| && !(pat <= s)
    ensures RemoveAll(s, pat) == [s[0]] + RemoveAll(s[1..], pat)
  {
  }

  /** Where the pattern starts, `RemoveAll` drops it and goes on after it. */
  lemma RemoveAllDropsHead(s: string, pat: string)
    requires pat != [] && pat <= s
    ensures RemoveAll(s, pat) == RemoveAll(s[|pat|..], pat)
  {
  }

  /** `c.toLowerCase()` for the scripts the model covers (see README). */
  function LowerChar(c: char): (r: char)
  {
    var n := c as int;
    if 0x41 <= n <= 0x5A then (n + 0x20) as char                                  // A-Z
    else if (0xC0 <= n <= 0xDE) && n != 0xD7 then (n + 0x20) as char             // Latin-1 À-Þ
    else if 0x100 <= n <= 0x137 && n % 2 == 0 && n != 0x130 then (n + 1) as char // Latin Extended-A pairs
    else if 0x139 <= n <= 0x148 && n % 2 == 1 then (n + 1) as char
    else if 0x14A <= n <= 0x177 && n % 2 == 0 then (n + 1) as char
    else if n == 0x178 then 0xFF as char                                         // Ÿ
    else if 0x179 <= n <= 0x17E && n % 2 == 1 then (n + 1) as char
    else if n == 0x386 then 0x3AC as char                                        // Greek capitals with tonos
    else if 0x388 <= n <= 0x38A then (n + 0x25) as char
    else if n == 0x38C then 0x3CC as char
    else if 0x38E <= n <= 0x38F then (n + 0x3F) as char
    else if 0x391 <= n <= 0x3AB && n != 0x3A2 then (n + 0x20) as char            // Greek Α-Ϋ
    else if 0x410 <= n <= 0x42F then (n + 0x20) as char                          // Cyrillic А-Я
    else if 0x400 <= n <= 0x40F then (n + 0x50) as char                          // Cyrillic Ѐ-Џ
    else c
  }

  /** `c.toUpperCase()` for ASCII letters. */
  function UpperChar(c: char): (r: char)
  {
    if 'a' <= c <= 'z' then (c as int - 0x20) as char else c
  }

  /** `s.toLowerCase()`, character by character. */
  function ToLower(s: string): (r: string)
    ensures |r| == |s| && forall i :: 0 <= i < |s| ==> r[i] == LowerChar(s[i])
  {
    if s == [] then [] else [LowerChar(s[0])] + ToLower(s[1..])
  }

  /** `s.toUpperCase()`, character by character. */
  function ToUpper(s: string): (r: string)
    ensures |r| == |s| && forall i :: 0 <= i < |s| ==> r[i] == UpperChar(s[i])
  {
    if s == [] then [] else [UpperChar(s[0])] + ToUpper(s[1..])
  }

  /** Upper-casing twice is upper-casing once. */
  lemma ToUpperIdempotent(s: string)
    ensures ToUpper(ToUpper(s)) == ToUpper(s)
  {
    assert forall i :: 0 <= i < |s| ==> UpperChar(UpperChar(s[i])) == UpperChar(s[i]);
  }

  /**
   * `a < b` on strings: lexicographic comparison of characters, where a proper
   * prefix is smaller.
   */
  predicate LexLess(a: string, b: string) {
    if a == [] then b != []
    else if b == [] then false
    else if a[0] != b[0] then a[0] < b[0]
    else LexLess(a[1..], b[1..])
  }

  /** Comparing two strings that share a head of equal length falls through to the tails. */
  lemma {:induction false} LexLessCommonHead(h: string, a: string, b: string)
    ensures LexLess(h + a, h + b) <==> LexLess(a, b)
  {
    if h != [] {
      assert (h + a)[0] == h[0] == (h + b)[0];
      assert (h + a)[1..] == h[1..] + a;
      assert (h + b)[1..] == h[1..] + b;
      LexLessCommonHead(h[1..], a, b);
    } else {
      assert h + a == a && h + b == b;
    }
  }

  /** Comparing two strings whose heads have equal length and differ is decided by the heads. */
  lemma {:induction false} LexLessDifferentHeads(h1: string, h2: string, a: string, b: string)
    requires |h1| == |h2| && h1 != h2
    ensures LexLess(h1 + a, h2 + b) <==> LexLess(h1, h2)
  {
    assert h1 != [] && h2 != [];
    assert (h1 + a)[1..] == h1[1..] + a;
    assert (h2 + b)[1..] == h2[1..] + b;
    assert h1 == [h1[0]] + h1[1..] && h2 == [h2[0]] + h2[1..];
    if h1[0] == h2[0] {
      assert h1[1..] != h2[1..];
      LexLessDifferentHeads(h1[1..], h2[1..], a, b);
    }
  }

  /** `<` on strings is irreflexive. */
  lemma {:induction false} LexLessIrreflexive(a: string)
    ensures !LexLess(a, a)
  {
    if a != [] { LexLessIrreflexive(a[1..]); }
  }
}
