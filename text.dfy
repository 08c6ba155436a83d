/**
 * String primitives the watcher relies on: Python's `str.lower()`, the
 * substring test `p in s`, `s.find(p)` and `sep.join(parts)`.
 */
module Text {

  /** Python's `lower()` on one character, restricted to a length-preserving
      mapping: ASCII, Latin-1 and Latin Extended-A capitals (which covers
      Polish). Every other character is left as it is. */
  function LowerChar(c: char): (d: char)
    ensures 'A' <= c <= 'Z' ==> d as int == c as int + 32
    ensures !('A' <= c <= 'Z') && c as int < 0xC0 ==> d == c
  {
    var n := c as int;
    if 'A' <= c <= 'Z' then (n + 32) as char
    else if 0xC0 <= n <= 0xDE && n != 0xD7 then (n + 32) as char
    else if (0x100 <= n <= 0x12F || 0x132 <= n <= 0x137 || 0x14A <= n <= 0x177) && n % 2 == 0 then (n + 1) as char
    else if (0x139 <= n <= 0x148 || 0x179 <= n <= 0x17E) && n % 2 == 1 then (n + 1) as char
    else if n == 0x178 then 0xFF as char
    else c
  }

  /** `s.lower()`, one character at a time. */
  function Lower(s: string): (r: string)
    ensures |r| == |s|
    ensures forall i :: 0 <= i < |s| ==> r[i] == LowerChar(s[i])
  {
    seq(|s|, i requires 0 <= i < |s| => LowerChar(s[i]))
  }

  /** Lowering distributes over concatenation. */
  lemma LowerAppend(a: string, b: string)
    ensures Lower(a + b) == Lower(a) + Lower(b)
  {
    assert forall i :: 0 <= i < |a + b| ==> Lower(a + b)[i] == (Lower(a) + Lower(b))[i];
  }

  /** `p` occurs in `s` starting at index `i`. */
  predicate OccursAt(s: string, p: string, i: nat)
  {
    i + |p| <= |s| && s[i..i + |p|] == p
  }

  /** Python's `p in s`. */
  predicate Contains(s: string, p: string)
  {
    exists i | 0 <= i <= |s| - |p| :: OccursAt(s, p, i)
  }

  /** The empty string is in every string, and nothing longer than `s` is. */
  lemma ContainsBasics(s: string, p: string)
    ensures |p| == 0 ==> Contains(s, p)
    ensures Contains(s, p) ==> |p| <= |s|
  {
    if |p| == 0 {
      assert OccursAt(s, p, 0);
    }
  }

  /** The first index at or after `i` where `p` occurs in `s`, or -1. */
  function IndexFrom(s: string, p: string, i: nat): (r: int)
    requires i <= |s|
    ensures r == -1 || (i <= r && OccursAt(s, p, r))
    ensures r == -1 ==> forall j: nat :: i <= j ==> !OccursAt(s, p, j)
    ensures r != -1 ==> forall j: nat :: i <= j < r ==> !OccursAt(s, p, j)
    decreases |s| - i
  {
    if i + |p| > |s| then -1
    else if s[i..i + |p|] == p then i
    else IndexFrom(s, p, i + 1)
  }

  /** Python's `s.find(p)`: the index of the first occurrence, -1 when absent. */
  function IndexOf(s: string, p: string): (r: int)
    ensures -1 <= r
    ensures r == -1 <==> !Contains(s, p)
    ensures r != -1 ==> OccursAt(s, p, r)
    ensures r != -1 ==> forall j: nat :: j < r ==> !OccursAt(s, p, j)
  {
    IndexFrom(s, p, 0)
  }

  /** An occurrence in `s` is still the first occurrence once text is appended. */
  lemma IndexOfAppend(s: string, extra: string, p: string)
    requires Contains(s, p)
    ensures Contains(s + extra, p)
    ensures IndexOf(s + extra, p) == IndexOf(s, p)
  {
    var i := IndexOf(s, p);
    var t := s + extra;
    assert t[i..i + |p|] == s[i..i + |p|];
    assert OccursAt(t, p, i);
    forall j: nat | j < i
      ensures !OccursAt(t, p, j)
    {
      assert !OccursAt(s, p, j);
      assert t[j..j + |p|] == s[j..j + |p|];
    }
  }

  /** Text around an occurrence does not hide it. */
  lemma ContainsInfix(before: string, s: string, after: string, p: string)
    requires Contains(s, p)
    ensures Contains(before + s + after, p)
  {
    var i: nat :| i <= |s| - |p| && OccursAt(s, p, i);
    var t := before + s + after;
    assert t[|before| + i..|before| + i + |p|] == s[i..i + |p|];
    assert OccursAt(t, p, |before| + i);
  }

  /** An occurrence inside `s[a..b]` is still an occurrence in the slice. */
  lemma OccursInSlice(s: string, p: string, i: nat, a: nat, b: nat)
    requires OccursAt(s, p, i) && a <= i && i + |p| <= b <= |s|
    ensures OccursAt(s[a..b], p, i - a)
  {
    var w := s[a..b];
    forall k | 0 <= k < |p| ensures w[i - a + k] == p[k] {
      assert s[i..i + |p|][k] == s[i + k];
    }
    assert w[i - a..i - a + |p|] == p;
  }

  /** Python's `sep.join(parts)`. */
  function Join(parts: seq<string>, sep: string): (r: string)
  {
    if |parts| == 0 then ""
    else if |parts| == 1 then parts[0]
    else parts[0] + sep + Join(parts[1..], sep)
  }

  /** Every part of a join occurs in the joined string. */
  lemma {:induction false} JoinContainsParts(parts: seq<string>, sep: string, k: nat)
    requires k < |parts|
    ensures Contains(Join(parts, sep), parts[k])
  {
    var j := Join(parts, sep);
    if |parts| == 1 {
      assert OccursAt(j, parts[0], 0);
    } else if k == 0 {
      assert j[0..|parts[0]|] == parts[0];
      assert OccursAt(j, parts[0], 0);
    } else {
      JoinContainsParts(parts[1..], sep, k - 1);
      var rest := Join(parts[1..], sep);
      var i: nat :| i <= |rest| - |parts[k]| && OccursAt(rest, parts[k], i);
      var off := |parts[0]| + |sep|;
      assert j == parts[0] + sep + rest;
      assert j[off + i..off + i + |parts[k]|] == rest[i..i + |parts[k]|];
      assert OccursAt(j, parts[k], off + i);
    }
  }

  /** A join is at least as long as its first part. */
  lemma JoinLength(parts: seq<string>, sep: string)
    ensures parts != [] ==> |parts[0]| <= |Join(parts, sep)|
  {
    if parts != [] {
      JoinContainsParts(parts, sep, 0);
      ContainsBasics(Join(parts, sep), parts[0]);
    }
  }
}
