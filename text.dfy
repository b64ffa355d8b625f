/** String helpers shared by the pages: ECMAScript `String.prototype.trim` and the
    concatenation of streamed chunks. Strings are sequences of Unicode scalar values. */
module Text {

  /** The code points `trim` removes: ECMAScript WhiteSpace (TAB, VT, FF, SPACE, NBSP,
      ZWNBSP and every other Space_Separator) and LineTerminator (LF, CR, LS, PS). */
  const TrimmableCodes: set<int> := {
    0x09, 0x0A, 0x0B, 0x0C, 0x0D, 0x20, 0xA0, 0x1680,
    0x2000, 0x2001, 0x2002, 0x2003, 0x2004, 0x2005, 0x2006, 0x2007, 0x2008, 0x2009, 0x200A,
    0x2028, 0x2029, 0x202F, 0x205F, 0x3000, 0xFEFF
  }

  predicate IsTrimmable(c: char) {
    c as int in TrimmableCodes
  }

  predicate AllTrimmable(s: string) {
    forall k :: 0 <= k < |s| ==> IsTrimmable(s[k])
  }

  /** A string with no trimmable character at either end. */
  predicate IsTrimmed(s: string) {
    s == [] || (!IsTrimmable(s[0]) && !IsTrimmable(s[|s| - 1]))
  }

  /** The first index at or after `i` that `trim` keeps, or `|s|`. */
  function KeptFrom(s: string, i: nat): (j: nat)
    requires i <= |s|
    ensures i <= j <= |s|
    ensures forall k :: i <= k < j ==> IsTrimmable(s[k])
    ensures j < |s| ==> !IsTrimmable(s[j])
    decreases |s| - i
  {
    if i < |s| && IsTrimmable(s[i]) then KeptFrom(s, i + 1) else i
  }

  /** The end of the kept infix: the last index at or below `j`, but not below `lo`,
      whose preceding character `trim` keeps. */
  function KeptUntil(s: string, lo: nat, j: nat): (e: nat)
    requires lo <= j <= |s|
    ensures lo <= e <= j
    ensures forall k :: e <= k < j ==> IsTrimmable(s[k])
    ensures e > lo ==> !IsTrimmable(s[e - 1])
  {
    if j > lo && IsTrimmable(s[j - 1]) then KeptUntil(s, lo, j - 1) else j
  }

  /** `s.trim()`: the infix of `s` left once the trimmable characters at both ends are
      stripped; everything stripped is trimmable and the result starts and ends with a
      kept character. */
  function Trim(s: string): (r: string)
    ensures IsTrimmed(r)
    ensures r == [] <==> AllTrimmable(s)
    ensures var i := KeptFrom(s, 0);
      i + |r| <= |s| && r == s[i..i + |r|] &&
      (forall k :: 0 <= k < i ==> IsTrimmable(s[k])) &&
      (forall k :: i + |r| <= k < |s| ==> IsTrimmable(s[k]))
  {
    var lo := KeptFrom(s, 0);
    var hi := KeptUntil(s, lo, |s|);
    assert hi > lo ==> s[lo..hi][0] == s[lo];
    s[lo..hi]
  }

  /** Concatenation of the parts, in order: `parts.join("")`. */
  function Concat(parts: seq<string>): string
  {
    if parts == [] then "" else parts[0] + Concat(parts[1..])
  }

  lemma {:induction false} ConcatAppend(a: seq<string>, b: seq<string>)
    ensures Concat(a + b) == Concat(a) + Concat(b)
  {
    if a == [] {
      assert a + b == b;
    } else {
      assert (a + b)[1..] == a[1..] + b;
      ConcatAppend(a[1..], b);
    }
  }

  /** Appending one more part extends the concatenation by that part. */
  lemma ConcatSnoc(parts: seq<string>, p: string)
    ensures Concat(parts + [p]) == Concat(parts) + p
  {
    ConcatAppend(parts, [p]);
    assert Concat([p]) == p + Concat([]);
  }

  /** Every concatenation of a prefix of the parts is a prefix of the whole. */
  lemma {:induction false} ConcatPrefix(parts: seq<string>, i: nat)
    requires i <= |parts|
    ensures Concat(parts[..i]) <= Concat(parts)
  {
    ConcatAppend(parts[..i], parts[i..]);
    assert parts[..i] + parts[i..] == parts;
  }

  /** Of two prefixes of the parts, the shorter one's concatenation is a prefix of the
      longer one's. */
  lemma ConcatPrefixes(parts: seq<string>, k: nat, l: nat)
    requires k <= l <= |parts|
    ensures Concat(parts[..k]) <= Concat(parts[..l])
  {
    var longer := parts[..l];
    assert longer[..k] == parts[..k];
    ConcatPrefix(longer, k);
  }
}
