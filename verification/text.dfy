/**
  The string operations the derivation script relies on, written out with the
  semantics JavaScript gives them: `split` with a one-character separator,
  `trim`, removal of one character everywhere (`replace(/c/g, '')`), ASCII
  lower-casing and substring search.
 */
module Text {

  /** The characters `String.prototype.trim` removes: ECMAScript's WhiteSpace and LineTerminator code points. */
  predicate IsWhitespace(c: char) {
    || c == '\t' || c == '\n' || c == '\U{000B}' || c == '\U{000C}' || c == '\r' || c == ' '
    || c == '\U{00A0}' || c == '\U{1680}' || ('\U{2000}' <= c <= '\U{200A}')
    || c == '\U{2028}' || c == '\U{2029}' || c == '\U{202F}' || c == '\U{205F}'
    || c == '\U{3000}' || c == '\U{FEFF}'
  }

  /** Every character of `s` is whitespace; the empty string is blank. */
  predicate IsBlank(s: string) {
    forall i :: 0 <= i < |s| ==> IsWhitespace(s[i])
  }

  function TrimStart(s: string): (r: string)
    ensures |r| <= |s| && r == s[|s| - |r|..]
    ensures forall i :: 0 <= i < |s| - |r| ==> IsWhitespace(s[i])
    ensures |r| > 0 ==> !IsWhitespace(r[0])
    decreases |s|
  {
    if |s| > 0 && IsWhitespace(s[0]) then
      var r := TrimStart(s[1..]);
      assert s[1..][|s| - 1 - |r|..] == s[|s| - |r|..];
      assert forall i :: 1 <= i < |s| - |r| ==> s[1..][i - 1] == s[i];
      r
    else s
  }

  function TrimEnd(s: string): (r: string)
    ensures |r| <= |s| && r == s[..|r|]
    ensures forall i :: |r| <= i < |s| ==> IsWhitespace(s[i])
    ensures |r| > 0 ==> !IsWhitespace(r[|r| - 1])
    decreases |s|
  {
    if |s| > 0 && IsWhitespace(s[|s| - 1]) then
      var r := TrimEnd(s[..|s| - 1]);
      assert s[..|s| - 1][..|r|] == s[..|r|];
      assert forall i :: |r| <= i < |s| - 1 ==> s[..|s| - 1][i] == s[i];
      r
    else s
  }

  /** `r` is a slice of `s` with only whitespace before and after it. */
  predicate BlankAround(s: string, r: string) {
    exists i :: 0 <= i <= |s| - |r| && r == s[i..i + |r|] && IsBlank(s[..i]) && IsBlank(s[i + |r|..])
  }

  /**
    `s.trim()`: the string without its leading and trailing whitespace. The
    result is a slice of `s` between two blank ends, and it neither starts
    nor ends with whitespace; `TrimUnique` shows that this fixes it.
   */
  function Trim(s: string): (r: string)
    ensures |r| <= |s|
    ensures BlankAround(s, r)
    ensures |r| > 0 ==> !IsWhitespace(r[0]) && !IsWhitespace(r[|r| - 1])
    ensures |r| == 0 <==> IsBlank(s)
    ensures (|s| == 0 || (!IsWhitespace(s[0]) && !IsWhitespace(s[|s| - 1]))) ==> r == s
  {
    var t := TrimStart(s);
    var r := TrimEnd(t);
    TrimFacts(s, t, r);
    r
  }

  /** What `Trim` promises, from what `TrimStart` and `TrimEnd` promise. */
  lemma TrimFacts(s: string, t: string, r: string)
    requires |t| <= |s| && t == s[|s| - |t|..] && forall k :: 0 <= k < |s| - |t| ==> IsWhitespace(s[k])
    requires |t| > 0 ==> !IsWhitespace(t[0])
    requires |r| <= |t| && r == t[..|r|] && forall k :: |r| <= k < |t| ==> IsWhitespace(t[k])
    requires |r| > 0 ==> !IsWhitespace(r[|r| - 1])
    ensures |r| <= |s|
    ensures BlankAround(s, r)
    ensures |r| > 0 ==> !IsWhitespace(r[0]) && !IsWhitespace(r[|r| - 1])
    ensures |r| == 0 <==> IsBlank(s)
    ensures (|s| == 0 || (!IsWhitespace(s[0]) && !IsWhitespace(s[|s| - 1]))) ==> r == s
  {
    TrimSlice(s, t, r);
    var i := |s| - |t|;
    assert r == s[i..i + |r|] && IsBlank(s[..i]) && IsBlank(s[i + |r|..]);
    if |r| > 0 {
      assert r[0] == t[0];
    }
    if |r| == 0 {
      assert |t| == 0;
      assert forall k :: 0 <= k < |s| ==> IsWhitespace(s[k]);
    }
  }

  /** The two trimming steps cut a slice out of `s` between two blank ends. */
  lemma TrimSlice(s: string, t: string, r: string)
    requires |t| <= |s| && t == s[|s| - |t|..] && forall k :: 0 <= k < |s| - |t| ==> IsWhitespace(s[k])
    requires |r| <= |t| && r == t[..|r|] && forall k :: |r| <= k < |t| ==> IsWhitespace(t[k])
    ensures var i := |s| - |t|;
      && 0 <= i <= |s| - |r| && r == s[i..i + |r|] && IsBlank(s[..i]) && IsBlank(s[i + |r|..])
  {
    var i := |s| - |t|;
    assert t[..|r|] == s[i..i + |r|];
    assert s[i + |r|..] == t[|r|..];
    BlankTail(t, |r|);
    BlankHead(s, i);
  }

  /** The characters before `n` are whitespace exactly when that head is blank. */
  lemma BlankHead(s: string, n: nat)
    requires n <= |s| && forall k :: 0 <= k < n ==> IsWhitespace(s[k])
    ensures IsBlank(s[..n])
  {
    forall k | 0 <= k < n ensures IsWhitespace(s[..n][k]) {
      assert s[..n][k] == s[k];
    }
  }

  /** The characters from `n` on are whitespace exactly when that tail is blank. */
  lemma BlankTail(t: string, n: nat)
    requires n <= |t| && forall k :: n <= k < |t| ==> IsWhitespace(t[k])
    ensures IsBlank(t[n..])
  {
    forall k | 0 <= k < |t| - n ensures IsWhitespace(t[n..][k]) {
      assert t[n..][k] == t[n + k];
    }
  }

  /**
    Whatever surrounds a string with no whitespace at either end, as long
    as it is blank, is exactly what `Trim` removes.
   */
  lemma TrimUnique(pre: string, mid: string, post: string)
    requires IsBlank(pre) && IsBlank(post)
    requires |mid| > 0 ==> !IsWhitespace(mid[0]) && !IsWhitespace(mid[|mid| - 1])
    ensures Trim(pre + mid + post) == mid
  {
    var s := pre + mid + post;
    if |mid| == 0 {
      assert s == pre + post;
      BlankConcat(pre, post);
    } else {
      var t := TrimStart(s);
      var r := TrimEnd(t);
      assert forall k :: 0 <= k < |s| - |t| ==> IsWhitespace(s[k]);
      assert forall k :: |r| <= k < |t| ==> IsWhitespace(t[k]);
      TrimAround(pre, mid, post, s, t, r);
    }
  }

  /**
    `TrimUnique` for a non-empty middle, given what `TrimStart` and
    `TrimEnd` return: `t` is `s` without its leading whitespace and `r` is
    `t` without its trailing whitespace.
   */
  lemma TrimAround(pre: string, mid: string, post: string, s: string, t: string, r: string)
    requires IsBlank(pre) && IsBlank(post) && s == pre + mid + post
    requires |mid| > 0 && !IsWhitespace(mid[0]) && !IsWhitespace(mid[|mid| - 1])
    requires |t| <= |s| && t == s[|s| - |t|..] && forall k :: 0 <= k < |s| - |t| ==> IsWhitespace(s[k])
    requires |t| > 0 ==> !IsWhitespace(t[0])
    requires |r| <= |t| && r == t[..|r|] && forall k :: |r| <= k < |t| ==> IsWhitespace(t[k])
    requires |r| > 0 ==> !IsWhitespace(r[|r| - 1])
    ensures r == mid
  {
    var i := |s| - |t|;
    assert s[|pre|] == mid[0];
    if |pre| >= i {
      assert t[|pre| - i] == s[|pre|];
    }
    assert r[0] == t[0];
    TrimSlice(s, t, r);
    SliceBetweenBlanks(pre, mid, post, i, r);
  }

  /** Two blank strings make a blank string. */
  lemma BlankConcat(a: string, b: string)
    requires IsBlank(a) && IsBlank(b)
    ensures IsBlank(a + b)
  {
    forall k | 0 <= k < |a + b| ensures IsWhitespace((a + b)[k]) {
      if k >= |a| {
        assert (a + b)[k] == b[k - |a|];
      }
    }
  }

  /**
    A slice of `pre + mid + post` that lies between blank ends and starts
    and ends with non-whitespace is `mid`, when `mid` does so too.
   */
  lemma SliceBetweenBlanks(pre: string, mid: string, post: string, i: nat, r: string)
    requires IsBlank(pre) && IsBlank(post)
    requires |mid| > 0 && !IsWhitespace(mid[0]) && !IsWhitespace(mid[|mid| - 1])
    requires i + |r| <= |pre + mid + post| && r == (pre + mid + post)[i..i + |r|]
    requires IsBlank((pre + mid + post)[..i]) && IsBlank((pre + mid + post)[i + |r|..])
    requires |r| > 0 && !IsWhitespace(r[0]) && !IsWhitespace(r[|r| - 1])
    ensures r == mid
  {
    var s := pre + mid + post;
    var m, e := |pre|, |pre| + |mid|;
    assert s[m] == mid[0] && s[e - 1] == mid[|mid| - 1];
    var j := i + |r|;
    assert r[0] == s[i] && r[|r| - 1] == s[j - 1];
    assert forall k :: 0 <= k < m ==> s[k] == pre[k];
    assert forall k :: 0 <= k < i ==> s[..i][k] == s[k];
    assert forall k :: e <= k < |s| ==> s[k] == post[k - e];
    assert forall k :: j <= k < |s| ==> s[j..][k - j] == s[k];
    assert i == m && j == e;
    assert s[m..e] == mid;
  }

  /**
    `s.split(sep)`: the pieces of `s` between occurrences of `sep`. There is
    always at least one piece, and the empty string gives one empty piece.
   */
  function Split(s: string, sep: char): (parts: seq<string>)
    ensures |parts| >= 1
    ensures forall i :: 0 <= i < |parts| ==> sep !in parts[i]
    ensures |parts[0]| <= |s| && parts[0] == s[..|parts[0]|]
    ensures |parts[0]| < |s| ==> s[|parts[0]|] == sep
    decreases |s|
  {
    if |s| == 0 then [""]
    else
      var rest := Split(s[1..], sep);
      if s[0] == sep then [""] + rest
      else [[s[0]] + rest[0]] + rest[1..]
  }

  /** `parts.join(sep)`, the inverse of `Split`. */
  function Join(parts: seq<string>, sep: char): string {
    if |parts| == 0 then "" else if |parts| == 1 then parts[0] else parts[0] + [sep] + Join(parts[1..], sep)
  }

  /** Joining the pieces of a split restores the original string. */
  lemma {:induction false} JoinSplit(s: string, sep: char)
    ensures Join(Split(s, sep), sep) == s
    decreases |s|
  {
    if |s| > 0 {
      var rest := Split(s[1..], sep);
      JoinSplit(s[1..], sep);
      if s[0] == sep {
        assert Join(Split(s, sep), sep) == "" + [sep] + Join(rest, sep);
      } else if |rest| == 1 {
        assert Join(Split(s, sep), sep) == [s[0]] + rest[0];
      } else {
        var parts := Split(s, sep);
        assert parts[1..] == rest[1..];
        assert Join(parts, sep) == [s[0]] + rest[0] + [sep] + Join(rest[1..], sep);
        assert Join(rest, sep) == rest[0] + [sep] + Join(rest[1..], sep);
      }
      assert [s[0]] + s[1..] == s;
    }
  }

  /** A separator-free prefix stays glued to the first piece of what follows it. */
  lemma {:induction false} SplitPrefix(p: string, rest: string, sep: char)
    requires sep !in p
    ensures Split(p + rest, sep) == [p + Split(rest, sep)[0]] + Split(rest, sep)[1..]
    decreases |p|
  {
    var parts := Split(rest, sep);
    if |p| > 0 {
      var q := p + rest;
      assert q[0] == p[0] && q[0] != sep;
      assert q[1..] == p[1..] + rest;
      SplitPrefix(p[1..], rest, sep);
      var r := Split(q[1..], sep);
      assert r[0] == p[1..] + parts[0] && r[1..] == parts[1..];
      assert Split(q, sep) == [[q[0]] + r[0]] + r[1..];
      assert [p[0]] + (p[1..] + parts[0]) == p + parts[0];
    } else {
      assert p + rest == rest;
      assert p + parts[0] == parts[0];
      assert [parts[0]] + parts[1..] == parts;
    }
  }

  /** Splitting a join of separator-free pieces gives the pieces back. */
  lemma {:induction false} SplitJoin(parts: seq<string>, sep: char)
    requires |parts| >= 1
    requires forall i :: 0 <= i < |parts| ==> sep !in parts[i]
    ensures Split(Join(parts, sep), sep) == parts
    decreases |parts|
  {
    if |parts| == 1 {
      SplitPrefix(parts[0], "", sep);
      assert parts[0] + "" == parts[0];
    } else {
      var tail := Join(parts[1..], sep);
      SplitJoin(parts[1..], sep);
      assert Join(parts, sep) == parts[0] + ([sep] + tail);
      SplitPrefix(parts[0], [sep] + tail, sep);
      assert ([sep] + tail)[1..] == tail;
      assert parts == [parts[0]] + parts[1..];
    }
  }

  /** `s.replace(/c/g, '')`: every occurrence of `c` deleted, the rest kept in order. */
  function RemoveAll(s: string, c: char): (r: string)
    ensures c !in r
    ensures multiset(r) == multiset(s)[c := 0]
    ensures c !in s ==> r == s
    decreases |s|
  {
    if |s| == 0 then ""
    else
      assert s == [s[0]] + s[1..];
      (if s[0] == c then "" else [s[0]]) + RemoveAll(s[1..], c)
  }

  /** A single character is dropped when it is `c` and kept otherwise. */
  lemma RemoveAllChar(x: char, c: char)
    ensures RemoveAll([x], c) == if x == c then "" else [x]
  {
  }

  /**
    Removal works piecewise: the characters kept from `a + b` are those
    kept from `a`, in order, followed by those kept from `b`. With
    `RemoveAllChar` this fixes the result character by character.
   */
  lemma {:induction false} RemoveAllConcat(a: string, b: string, c: char)
    ensures RemoveAll(a + b, c) == RemoveAll(a, c) + RemoveAll(b, c)
    decreases |a|
  {
    if |a| == 0 {
      assert a + b == b;
    } else {
      assert (a + b)[0] == a[0];
      assert (a + b)[1..] == a[1..] + b;
      RemoveAllConcat(a[1..], b, c);
    }
  }

  /** `c` removed from each string of `ls`. */
  function RemoveAllEach(ls: seq<string>, c: char): (r: seq<string>)
    ensures |r| == |ls|
    ensures forall i :: 0 <= i < |ls| ==> r[i] == RemoveAll(ls[i], c)
  {
    seq(|ls|, i requires 0 <= i < |ls| => RemoveAll(ls[i], c))
  }

  /** Removing a character other than the separator from a join removes it from each part. */
  lemma {:induction false} RemoveAllJoin(ls: seq<string>, sep: char, c: char)
    requires sep != c
    ensures RemoveAll(Join(ls, sep), c) == Join(RemoveAllEach(ls, c), sep)
    decreases |ls|
  {
    var rs := RemoveAllEach(ls, c);
    if |ls| > 1 {
      RemoveAllJoin(ls[1..], sep, c);
      assert RemoveAllEach(ls[1..], c) == rs[1..];
      RemoveAllConcat(ls[0] + [sep], Join(ls[1..], sep), c);
      RemoveAllConcat(ls[0], [sep], c);
      RemoveAllChar(sep, c);
    }
  }

  function LowerChar(c: char): char {
    if 'A' <= c <= 'Z' then (c as int + 32) as char else c
  }

  /** ASCII lower-casing; every other character is left alone. */
  function ToLowerAscii(s: string): (r: string)
    ensures |r| == |s|
    ensures forall i :: 0 <= i < |r| ==> !('A' <= r[i] <= 'Z')
  {
    seq(|s|, i requires 0 <= i < |s| => LowerChar(s[i]))
  }

  /** `p` occurs in `s` starting at offset `j`. */
  predicate OccursAt(s: string, p: string, j: nat) {
    j + |p| <= |s| && s[j..j + |p|] == p
  }

  /**
    `p` occurs in `s` at offset `i`, comparing from position `k` of `p` on.
    Written by index, with its meaning in `MatchesAtMeaning`, so that it can
    be evaluated on string literals.
   */
  function MatchesAt(s: string, p: string, i: nat, k: nat): bool
    requires i + |p| <= |s| && k <= |p|
    decreases |p| - k
  {
    if k == |p| then true else s[i + k] == p[k] && MatchesAt(s, p, i, k + 1)
  }

  lemma {:induction false} MatchesAtMeaning(s: string, p: string, i: nat, k: nat)
    requires i + |p| <= |s| && k <= |p|
    ensures MatchesAt(s, p, i, k) <==> forall j :: k <= j < |p| ==> s[i + j] == p[j]
    decreases |p| - k
  {
    if k < |p| {
      MatchesAtMeaning(s, p, i, k + 1);
    }
  }

  /** `p` occurs in `s` at offset `i` or later; its meaning is `ContainsFromMeaning`. */
  function ContainsFrom(s: string, p: string, i: nat): bool
    decreases |s| - i
  {
    if i + |p| > |s| then false else MatchesAt(s, p, i, 0) || ContainsFrom(s, p, i + 1)
  }

  lemma {:induction false} ContainsFromMeaning(s: string, p: string, i: nat)
    ensures ContainsFrom(s, p, i) <==> exists j :: i <= j && OccursAt(s, p, j)
    decreases |s| - i
  {
    if i + |p| <= |s| {
      ContainsFromMeaning(s, p, i + 1);
      MatchesAtMeaning(s, p, i, 0);
      if MatchesAt(s, p, i, 0) {
        assert s[i..i + |p|] == p;
        assert OccursAt(s, p, i);
      }
      if exists j :: i <= j && OccursAt(s, p, j) {
        var j :| i <= j && OccursAt(s, p, j);
        assert j == i || (i + 1 <= j && OccursAt(s, p, j));
      }
    }
  }

  /** `p` is a substring of `s`. */
  predicate Contains(s: string, p: string) {
    ContainsFrom(s, p, 0)
  }

  /** `Contains` means that `p` occurs in `s` at some offset. */
  lemma ContainsMeaning(s: string, p: string)
    ensures Contains(s, p) <==> exists j :: OccursAt(s, p, j)
  {
    ContainsFromMeaning(s, p, 0);
  }

  /** A pattern with a character that `s` lacks cannot occur in `s`. */
  lemma NotContainsByChar(s: string, p: string, c: char)
    requires c in p && c !in s
    ensures !Contains(s, p)
  {
    ContainsMeaning(s, p);
  }

  /** An occurrence at a known offset makes `Contains` true. */
  lemma ContainsAt(s: string, p: string, j: nat)
    requires OccursAt(s, p, j)
    ensures Contains(s, p)
  {
    ContainsMeaning(s, p);
  }
}
