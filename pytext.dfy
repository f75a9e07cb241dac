/**
  The Python string operations the pipeline is built from, with Python's
  semantics: str.isspace, strip, split(sep), split(sep, 1), split() with no
  argument, join, replace (all occurrences and the first one), splitlines,
  file.readlines, str(int), int() on digit strings, isdigit, and the
  lexicographic string comparison.
*/
module PyText {
  import opened Wrappers

  // ---------------------------------------------------------------------
  // Characters

  /** Python's str.isspace() on one character (the Unicode whitespace set). */
  predicate IsSpace(c: char) {
    || ('\U{9}' <= c <= '\U{D}')
    || ('\U{1C}' <= c <= '\U{20}')
    || c == '\U{85}' || c == '\U{A0}' || c == '\U{1680}'
    || ('\U{2000}' <= c <= '\U{200A}')
    || c == '\U{2028}' || c == '\U{2029}' || c == '\U{202F}' || c == '\U{205F}'
    || c == '\U{3000}'
  }

  /** The characters at which str.splitlines() breaks a line. */
  predicate IsLineBreak(c: char) {
    || c == '\n' || c == '\r' || c == '\U{B}' || c == '\U{C}'
    || ('\U{1C}' <= c <= '\U{1E}')
    || c == '\U{85}' || c == '\U{2028}' || c == '\U{2029}'
  }

  predicate IsAsciiDigit(c: char) {
    '0' <= c <= '9'
  }

  ghost predicate AllSpace(s: string) {
    forall i :: 0 <= i < |s| ==> IsSpace(s[i])
  }

  ghost predicate NoSpace(s: string) {
    forall i :: 0 <= i < |s| ==> !IsSpace(s[i])
  }

  /** s neither begins nor ends with whitespace. */
  ghost predicate Trimmed(s: string) {
    s == [] || (!IsSpace(s[0]) && !IsSpace(s[|s| - 1]))
  }

  // ---------------------------------------------------------------------
  // strip()

  function StripLeft(s: string): string {
    if s != [] && IsSpace(s[0]) then StripLeft(s[1..]) else s
  }

  function StripRight(s: string): string {
    if s != [] && IsSpace(s[|s| - 1]) then StripRight(s[..|s| - 1]) else s
  }

  /** Python's str.strip() with no argument. */
  function Strip(s: string): string {
    StripRight(StripLeft(s))
  }

  /** lstrip() drops a whitespace prefix and stops at the first other character. */
  lemma {:induction false} StripLeftSpec(s: string)
    ensures var r := StripLeft(s);
      && |r| <= |s| && r == s[|s| - |r|..]
      && AllSpace(s[..|s| - |r|])
      && (r == [] || !IsSpace(r[0]))
    decreases |s|
  {
    if s != [] && IsSpace(s[0]) {
      StripLeftSpec(s[1..]);
      var r := StripLeft(s[1..]);
      assert s[1..][..|s| - 1 - |r|] == s[1..|s| - |r|];
    }
  }

  /** rstrip() drops a whitespace suffix and stops at the last other character. */
  lemma {:induction false} StripRightSpec(s: string)
    ensures var r := StripRight(s);
      && |r| <= |s| && r == s[..|r|]
      && AllSpace(s[|r|..])
      && (r == [] || !IsSpace(r[|r| - 1]))
    decreases |s|
  {
    if s != [] && IsSpace(s[|s| - 1]) {
      var front := s[..|s| - 1];
      StripRightSpec(front);
      var r := StripRight(front);
      assert front[..|r|] == s[..|r|];
      assert s[|r|..] == front[|r|..] + [s[|s| - 1]];
    }
  }

  lemma StripLeftRightKeepsFront(s: string)
    requires s == [] || !IsSpace(s[0])
    ensures var r := StripRight(s); r == [] || !IsSpace(r[0])
  {
    var r := StripRight(s);
    StripRightSpec(s);
    if r != [] {
      assert r[0] == s[0];
    }
  }

  /** strip() removes exactly the surrounding whitespace: its result is
      trimmed and is the slice of the input that only whitespace surrounds. */
  lemma StripIsTrimmedSlice(s: string)
    ensures var r := Strip(s); var i := |s| - |StripLeft(s)|;
      && Trimmed(r) && 0 <= i && i + |r| <= |s| && r == s[i..i + |r|]
      && AllSpace(s[..i]) && AllSpace(s[i + |r|..])
  {
    StripTrimmed(s);
    StripLeftSpec(s);
    StripSlice(s);
  }

  lemma StripTrimmed(s: string)
    ensures Trimmed(Strip(s))
  {
    var l := StripLeft(s);
    StripLeftSpec(s);
    StripLeftRightKeepsFront(l);
    StripRightSpec(l);
  }

  lemma StripSlice(s: string)
    ensures var l := StripLeft(s); var r := StripRight(l);
      && |l| <= |s| && |r| <= |l| && r == s[|s| - |l|..|s| - |l| + |r|]
      && AllSpace(s[|s| - |l| + |r|..])
  {
    var l := StripLeft(s);
    StripLeftSpec(s);
    StripRightSpec(l);
    SuffixOfPrefix(s, l, StripRight(l));
  }

  lemma SuffixOfPrefix<T>(s: seq<T>, l: seq<T>, r: seq<T>)
    requires |l| <= |s| && l == s[|s| - |l|..]
    requires |r| <= |l| && r == l[..|r|]
    ensures var i := |s| - |l|; i + |r| <= |s| && r == s[i..i + |r|] && s[i + |r|..] == l[|r|..]
  {
  }

  lemma SliceOfSuffix<T>(s: seq<T>, i: nat, n: nat)
    requires i + n <= |s|
    ensures s[i..][..n] == s[i..i + n]
    ensures s[i..][n..] == s[i + n..]
  {
  }

  lemma StripLeftOfSpacePrefix(w: string, x: string)
    requires AllSpace(w)
    requires x == [] || !IsSpace(x[0])
    ensures StripLeft(w + x) == x
    decreases |w|
  {
    if w != [] {
      assert (w + x)[1..] == w[1..] + x;
      StripLeftOfSpacePrefix(w[1..], x);
    } else {
      assert w + x == x;
    }
  }

  lemma StripRightOfSpaceSuffix(x: string, w: string)
    requires AllSpace(w)
    requires x == [] || !IsSpace(x[|x| - 1])
    ensures StripRight(x + w) == x
    decreases |w|
  {
    if w != [] {
      assert (x + w)[..|x + w| - 1] == x + w[..|w| - 1];
      StripRightOfSpaceSuffix(x, w[..|w| - 1]);
    } else {
      assert x + w == x;
    }
  }

  /** strip() of a trimmed text wrapped in whitespace gives back that text. */
  lemma {:induction false} StripSurrounded(w1: string, x: string, w2: string)
    requires AllSpace(w1) && AllSpace(w2) && Trimmed(x)
    ensures Strip(w1 + x + w2) == x
  {
    if x == [] {
      assert w1 + x + w2 == w1 + w2;
      assert AllSpace(w1 + w2);
      StripLeftOfSpacePrefix(w1 + w2, []);
      assert w1 + w2 + [] == w1 + w2;
    } else {
      assert w1 + x + w2 == w1 + (x + w2);
      StripLeftOfSpacePrefix(w1, x + w2);
      StripRightOfSpaceSuffix(x, w2);
    }
  }

  // ---------------------------------------------------------------------
  // Occurrences of a pattern

  predicate OccursAt(s: string, pat: string, i: nat) {
    i + |pat| <= |s| && s[i..i + |pat|] == pat
  }

  ghost predicate Contains(s: string, pat: string) {
    exists i: nat :: OccursAt(s, pat, i)
  }

  /** The first occurrence of pat in s at or after k (Python's str.find). */
  function FindFrom(s: string, pat: string, k: nat): (r: Option<nat>)
    requires k <= |s|
    ensures r.Some? ==> k <= r.value && OccursAt(s, pat, r.value)
    ensures r.Some? ==> forall j :: k <= j < r.value ==> !OccursAt(s, pat, j)
    ensures r.None? ==> forall j: nat :: k <= j ==> !OccursAt(s, pat, j)
    decreases |s| - k
  {
    if OccursAt(s, pat, k) then Some(k)
    else if k + |pat| >= |s| then None
    else FindFrom(s, pat, k + 1)
  }

  function Find(s: string, pat: string): (r: Option<nat>)
    ensures r.Some? ==> OccursAt(s, pat, r.value)
    ensures r.Some? ==> forall j :: 0 <= j < r.value ==> !OccursAt(s, pat, j)
    ensures r.None? <==> !Contains(s, pat)
  {
    FindFrom(s, pat, 0)
  }

  /** A prefix that ends before the first occurrence holds no occurrence. */
  lemma NoOccurrenceBefore(s: string, pat: string, i: nat)
    requires pat != [] && i <= |s|
    requires forall j :: 0 <= j < i ==> !OccursAt(s, pat, j)
    ensures !Contains(s[..i], pat)
  {
    forall j: nat
      ensures !OccursAt(s[..i], pat, j)
    {
      if j + |pat| <= i {
        assert s[..i][j..j + |pat|] == s[j..j + |pat|];
        assert !OccursAt(s, pat, j);
      }
    }
  }

  /** When pat does not occur in a and a's last character is not in pat, the
      first occurrence of pat in a + pat + b is the one right after a. */
  lemma FindAfterPrefix(a: string, pat: string, b: string)
    requires pat != []
    requires !Contains(a, pat)
    requires a == [] || a[|a| - 1] !in pat
    ensures Find(a + pat + b, pat) == Some(|a|)
  {
    var s := a + pat + b;
    assert OccursAt(s, pat, |a|) by {
      assert s[|a|..|a| + |pat|] == pat;
    }
    forall j | 0 <= j < |a|
      ensures !OccursAt(s, pat, j)
    {
      if j + |pat| <= |a| {
        assert a[j..j + |pat|] == s[j..j + |pat|];
        assert !OccursAt(a, pat, j);
      } else {
        var k := |a| - 1 - j;
        assert s[j..j + |pat|][k] == a[|a| - 1];
        assert pat[k] != a[|a| - 1];
      }
    }
    FindIsFirst(s, pat, |a|);
  }

  /** An occurrence with none before it is the one find reports. */
  lemma FindIsFirst(s: string, pat: string, i: nat)
    requires OccursAt(s, pat, i)
    requires forall j :: 0 <= j < i ==> !OccursAt(s, pat, j)
    ensures Find(s, pat) == Some(i)
  {
    assert Contains(s, pat);
  }

  /** Gluing two texts without the pattern cannot create one when the
      character on one side of the seam is not in the pattern. */
  lemma NoOccurrenceConcat(a: string, b: string, pat: string)
    requires pat != [] && !Contains(a, pat) && !Contains(b, pat)
    requires (a != [] && a[|a| - 1] !in pat) || (b != [] && b[0] !in pat)
    ensures !Contains(a + b, pat)
  {
    var s := a + b;
    forall i: nat
      ensures !OccursAt(s, pat, i)
    {
      if i + |pat| > |s| {
      } else if i + |pat| <= |a| {
        assert s[i..i + |pat|] == a[i..i + |pat|];
        assert !OccursAt(a, pat, i);
      } else if i >= |a| {
        var k := i - |a|;
        assert s[i..i + |pat|] == b[k..k + |pat|];
        assert !OccursAt(b, pat, k);
      } else if a != [] && a[|a| - 1] !in pat {
        assert s[i..i + |pat|][|a| - 1 - i] == a[|a| - 1];
      } else {
        assert s[i..i + |pat|][|a| - i] == b[0];
      }
    }
  }

  /** A text made of characters outside the pattern does not contain it. */
  lemma NoOccurrenceOfChars(m: string, pat: string)
    requires pat != []
    requires forall k :: 0 <= k < |m| ==> m[k] !in pat
    ensures !Contains(m, pat)
  {
    forall i: nat
      ensures !OccursAt(m, pat, i)
    {
      if i + |pat| <= |m| {
        assert m[i..i + |pat|][0] == m[i];
      }
    }
  }

  /** Splitting at a separator that occurs peels off the text before it. */
  lemma SplitAfter(s: string, sep: string)
    requires sep != [] && Contains(s, sep)
    ensures Split(s, sep) == [Before(s, sep)] + Split(After(s, sep), sep)
  {
  }

  /** pat occurs in any text built around it. */
  lemma ContainsInside(a: string, pat: string, b: string)
    ensures Contains(a + pat + b, pat)
  {
    assert (a + pat + b)[|a|..|a| + |pat|] == pat;
    assert OccursAt(a + pat + b, pat, |a|);
  }

  /** A text with two separate occurrences of sep still holds one after
      its first occurrence. */
  lemma TwoOccurrences(a: string, b: string, c: string, sep: string)
    requires sep != []
    ensures var s := a + sep + b + sep + c;
      Contains(s, sep) && Contains(After(s, sep), sep)
  {
    var s := a + sep + b + sep + c;
    var tail := b + sep + c;
    Regroup4(a, sep, b + sep, c);
    assert s == a + sep + tail;
    ContainsInside(a, sep, tail);
    var i := Find(s, sep).value;
    assert OccursAt(s, sep, |a|) by {
      DropPrefix(a, sep + tail);
      DropPrefix(sep, tail);
    }
    AfterIsSuffix(s, sep);
    var r := After(s, sep);
    var k := |a| + |sep|;
    SliceSplit(s, i + |sep|, k);
    DropPrefix(a + sep, tail);
    var x := s[i + |sep|..k];
    assert r == x + tail;
    ContainsInside(x + b, sep, c);
    Regroup4(x, b, sep, c);
  }

  /** What follows the first occurrence of sep. */
  lemma AfterIsSuffix(s: string, sep: string)
    requires sep != [] && Contains(s, sep)
    ensures After(s, sep) == s[Find(s, sep).value + |sep|..]
  {
  }

  lemma DropPrefix<T>(p: seq<T>, q: seq<T>)
    ensures (p + q)[|p|..] == q
    ensures (p + q)[..|p|] == p
  {
  }

  lemma SliceSplit<T>(s: seq<T>, j: nat, k: nat)
    requires j <= k <= |s|
    ensures s[j..] == s[j..k] + s[k..]
  {
  }

  lemma Regroup4<T>(x: seq<T>, b: seq<T>, m: seq<T>, c: seq<T>)
    ensures x + b + m + c == x + (b + m + c)
  {
  }

  /** A character occurs in s exactly when the one-character pattern does. */
  lemma CharContains(s: string, c: char)
    ensures c in s <==> Contains(s, [c])
  {
    if c in s {
      var i :| 0 <= i < |s| && s[i] == c;
      assert s[i..i + 1] == [c];
      assert OccursAt(s, [c], i);
    }
    forall i: nat | i + 1 <= |s|
      ensures OccursAt(s, [c], i) ==> c in s
    {
      assert s[i..i + 1][0] == s[i];
    }
  }

  // ---------------------------------------------------------------------
  // split(sep), split(sep, 1), join

  /** Python's str.split(sep) for a non-empty separator. */
  function Split(s: string, sep: string): (parts: seq<string>)
    requires sep != []
    ensures |parts| >= 1
    decreases |s|
  {
    match Find(s, sep)
    case None => [s]
    case Some(i) => [s[..i]] + Split(s[i + |sep|..], sep)
  }

  /** Python's sep.join(parts). */
  function Join(parts: seq<string>, sep: string): string {
    if |parts| == 0 then ""
    else if |parts| == 1 then parts[0]
    else parts[0] + sep + Join(parts[1..], sep)
  }

  /** Python's str.split(sep, 1). */
  function SplitOnce(s: string, sep: string): (parts: seq<string>)
    requires sep != []
    ensures 1 <= |parts| <= 2
    ensures parts[0] == Split(s, sep)[0]
    ensures |parts| == 2 <==> Contains(s, sep)
  {
    match Find(s, sep)
    case None => [s]
    case Some(i) => [s[..i], s[i + |sep|..]]
  }

  /** The text before the first occurrence of sep, or all of s. */
  function Before(s: string, sep: string): (r: string)
    requires sep != []
    ensures !Contains(r, sep)
    ensures |r| <= |s| && r == s[..|r|]
    ensures !Contains(s, sep) ==> r == s
  {
    var f := Find(s, sep);
    if f.None? then s
    else
      NoOccurrenceBefore(s, sep, f.value);
      s[..f.value]
  }

  /** The text after the first occurrence of sep (requires one). */
  function After(s: string, sep: string): (r: string)
    requires sep != [] && Contains(s, sep)
    ensures s == Before(s, sep) + sep + r
  {
    var i := Find(s, sep).value;
    assert s == s[..i] + s[i..i + |sep|] + s[i + |sep|..];
    s[i + |sep|..]
  }

  /** Text appended after an occurrence does not move the first one. */
  lemma BeforeAppend(h: string, t: string, sep: string)
    requires sep != [] && Contains(h, sep)
    ensures Before(h + t, sep) == Before(h, sep)
  {
    var i := Find(h, sep).value;
    var s := h + t;
    assert s[i..i + |sep|] == h[i..i + |sep|];
    forall j | 0 <= j < i
      ensures !OccursAt(s, sep, j)
    {
      assert s[j..j + |sep|] == h[j..j + |sep|];
      assert !OccursAt(h, sep, j);
    }
    FindIsFirst(s, sep, i);
    assert s[..i] == h[..i];
  }

  /** The text before the first separator of h + sep + t is h when h has none. */
  lemma BeforeSeparator(h: string, sep: string, t: string)
    requires sep != [] && !Contains(h, sep)
    requires h == [] || h[|h| - 1] !in sep
    ensures Before(h + sep + t, sep) == h
  {
    FindAfterPrefix(h, sep, t);
    assert (h + sep + t)[..|h|] == h;
  }

  lemma SplitHead(s: string, sep: string)
    requires sep != []
    ensures Split(s, sep)[0] == Before(s, sep)
  {
  }

  lemma SplitOnceParts(s: string, sep: string)
    requires sep != []
    ensures SplitOnce(s, sep) ==
      if Contains(s, sep) then [Before(s, sep), After(s, sep)] else [s]
  {
  }

  /** Joining the parts of a split with the same separator restores the text. */
  lemma {:induction false} SplitJoin(s: string, sep: string)
    requires sep != []
    ensures Join(Split(s, sep), sep) == s
    decreases |s|
  {
    var f := Find(s, sep);
    if f.Some? {
      var i := f.value;
      var rest := s[i + |sep|..];
      var tail := Split(rest, sep);
      SplitJoin(rest, sep);
      assert Split(s, sep) == [s[..i]] + tail;
      JoinCons(s[..i], tail, sep);
      PeelOccurrence(s, sep, i);
    } else {
      assert Split(s, sep) == [s];
    }
  }

  lemma PeelOccurrence(s: string, sep: string, i: nat)
    requires OccursAt(s, sep, i)
    ensures s == s[..i] + sep + s[i + |sep|..]
  {
    assert s == s[..i] + s[i..i + |sep|] + s[i + |sep|..];
  }

  /** No part of a split contains the separator. */
  lemma {:induction false} SplitPartsFree(s: string, sep: string)
    requires sep != []
    ensures forall k :: 0 <= k < |Split(s, sep)| ==> !Contains(Split(s, sep)[k], sep)
    decreases |s|
  {
    var f := Find(s, sep);
    if f.Some? {
      var i := f.value;
      NoOccurrenceBefore(s, sep, i);
      SplitPartsFree(s[i + |sep|..], sep);
      assert Split(s, sep) == [s[..i]] + Split(s[i + |sep|..], sep);
    }
  }

  /** Every character of a part of a split is a character of the text. */
  lemma SplitPartWithin(s: string, sep: string, k: nat, c: char)
    requires sep != [] && k < |Split(s, sep)| && c in Split(s, sep)[k]
    ensures c in s
  {
    SplitJoin(s, sep);
    JoinPartWithin(Split(s, sep), sep, k, c);
  }

  lemma {:induction false} JoinPartWithin(parts: seq<string>, sep: string, k: nat, c: char)
    requires k < |parts| && c in parts[k]
    ensures c in Join(parts, sep)
  {
    if |parts| > 1 {
      var rest := Join(parts[1..], sep);
      assert Join(parts, sep) == parts[0] + sep + rest;
      if k == 0 {
        var j :| 0 <= j < |parts[0]| && parts[0][j] == c;
        assert Join(parts, sep)[j] == c;
      } else {
        JoinPartWithin(parts[1..], sep, k - 1, c);
        var j :| 0 <= j < |rest| && rest[j] == c;
        assert Join(parts, sep)[|parts[0]| + |sep| + j] == c;
      }
    }
  }

  /** The split of a text that has no separator is the text alone. */
  lemma SplitWhole(s: string, sep: string)
    requires sep != [] && !Contains(s, sep)
    ensures Split(s, sep) == [s]
  {
  }

  /** Splitting a + sep + b peels off a when the first separator is the one after a. */
  lemma SplitCons(a: string, sep: string, b: string)
    requires sep != []
    requires Find(a + sep + b, sep) == Some(|a|)
    ensures Split(a + sep + b, sep) == [a] + Split(b, sep)
  {
    var s := a + sep + b;
    assert s[..|a|] == a;
    assert s[|a| + |sep|..] == b;
  }

  /** A split has at least two parts exactly when the separator occurs. */
  lemma SplitHasTwo(s: string, sep: string)
    requires sep != []
    ensures |Split(s, sep)| >= 2 <==> Contains(s, sep)
  {
  }

  /** With a one-character separator that no part contains, split undoes join. */
  lemma {:induction false} JoinSplit(parts: seq<string>, sep: string)
    requires |sep| == 1 && |parts| >= 1
    requires forall k :: 0 <= k < |parts| ==> sep[0] !in parts[k]
    ensures Split(Join(parts, sep), sep) == parts
  {
    if |parts| == 1 {
      NoCharNoOccurrence(parts[0], sep);
      SplitWhole(parts[0], sep);
    } else {
      var rest := Join(parts[1..], sep);
      NoCharNoOccurrence(parts[0], sep);
      assert parts[0] == [] || parts[0][|parts[0]| - 1] !in sep;
      FindAfterPrefix(parts[0], sep, rest);
      SplitCons(parts[0], sep, rest);
      JoinSplit(parts[1..], sep);
      assert [parts[0]] + parts[1..] == parts;
    }
  }

  lemma NoCharNoOccurrence(s: string, sep: string)
    requires |sep| == 1 && sep[0] !in s
    ensures !Contains(s, sep)
  {
    CharContains(s, sep[0]);
    assert sep == [sep[0]];
  }

  lemma JoinCons(a: string, rest: seq<string>, sep: string)
    ensures Join([a] + rest, sep) == if rest == [] then a else a + sep + Join(rest, sep)
  {
    assert ([a] + rest)[1..] == rest;
  }

  /** "".join([a] + rest) == a + "".join(rest). */
  lemma ConcatCons(a: string, rest: seq<string>)
    ensures Join([a] + rest, "") == a + Join(rest, "")
  {
    JoinCons(a, rest, "");
    if rest == [] {
      assert a + "" == a;
    } else {
      assert a + "" + Join(rest, "") == a + Join(rest, "");
    }
  }

  /** "".join distributes over list concatenation. */
  lemma ConcatSnoc(parts: seq<string>, x: string)
    ensures Join(parts + [x], "") == Join(parts, "") + x
  {
    JoinSnoc(parts, x, "");
    if parts == [] {
      assert Join(parts, "") + x == x;
    } else {
      assert Join(parts, "") + "" == Join(parts, "");
    }
  }

  lemma {:induction false} ConcatAppend(a: seq<string>, b: seq<string>)
    ensures Join(a + b, "") == Join(a, "") + Join(b, "")
  {
    if a == [] {
      assert a + b == b;
    } else {
      ConcatAppend(a[1..], b);
      assert a + b == [a[0]] + (a[1..] + b);
      ConcatCons(a[0], a[1..] + b);
      ConcatCons(a[0], a[1..]);
      assert [a[0]] + a[1..] == a;
    }
  }

  /** sep.join of a list with one more element. */
  lemma {:induction false} JoinSnoc(parts: seq<string>, x: string, sep: string)
    ensures Join(parts + [x], sep) == if parts == [] then x else Join(parts, sep) + sep + x
  {
    if |parts| >= 2 {
      assert (parts + [x])[1..] == parts[1..] + [x];
      JoinSnoc(parts[1..], x, sep);
    } else if |parts| == 1 {
      assert (parts + [x])[1..] == [x];
    }
  }

  // ---------------------------------------------------------------------
  // replace

  /** Python's s.replace(pat, repl) for a non-empty pat. */
  function ReplaceAll(s: string, pat: string, repl: string): string
    requires pat != []
  {
    Join(Split(s, pat), repl)
  }

  /** Python's s.replace(pat, repl, 1). */
  function ReplaceFirst(s: string, pat: string, repl: string): (r: string)
    requires pat != []
    ensures !Contains(s, pat) ==> r == s
    ensures Contains(s, pat) ==> r == Before(s, pat) + repl + After(s, pat)
  {
    match Find(s, pat)
    case None => s
    case Some(i) => s[..i] + repl + s[i + |pat|..]
  }

  /** A text without the pattern is left alone by replace. */
  lemma ReplaceAllAbsent(s: string, pat: string, repl: string)
    requires pat != [] && !Contains(s, pat)
    ensures ReplaceAll(s, pat, repl) == s
  {
    SplitWhole(s, pat);
  }

  /** s with every occurrence of c dropped. */
  function DeleteChar(s: string, c: char): (r: string)
    ensures c !in r
    ensures |r| <= |s|
  {
    if s == [] then [] else (if s[0] == c then [] else [s[0]]) + DeleteChar(s[1..], c)
  }

  lemma DeleteCharAppend(a: string, b: string, c: char)
    ensures DeleteChar(a + b, c) == DeleteChar(a, c) + DeleteChar(b, c)
  {
    if a != [] {
      assert (a + b)[1..] == a[1..] + b;
      DeleteCharAppend(a[1..], b, c);
    } else {
      assert a + b == b;
    }
  }

  lemma DeleteCharAbsent(s: string, c: char)
    requires c !in s
    ensures DeleteChar(s, c) == s
  {
  }

  /** Dropping c leaves the number of every other character alone. */
  lemma {:induction false} DeleteCharKeeps(s: string, c: char, d: char)
    requires c != d
    ensures multiset(DeleteChar(s, c))[d] == multiset(s)[d]
  {
    if s != [] {
      DeleteCharKeeps(s[1..], c, d);
      assert s == [s[0]] + s[1..];
    }
  }

  /** replace(c, "") with a one-character pattern drops every c and nothing else. */
  lemma {:induction false} ReplaceCharByNothing(s: string, c: char)
    ensures ReplaceAll(s, [c], "") == DeleteChar(s, c)
    decreases |s|
  {
    var f := Find(s, [c]);
    if f.None? {
      CharContains(s, c);
      DeleteCharAbsent(s, c);
      SplitWhole(s, [c]);
    } else {
      var i := f.value;
      var rest := s[i + 1..];
      ReplaceCharByNothing(rest, c);
      NoOccurrenceBefore(s, [c], i);
      CharContains(s[..i], c);
      var tail := Split(rest, [c]);
      assert Split(s, [c]) == [s[..i]] + tail;
      ConcatCons(s[..i], tail);
      assert ReplaceAll(s, [c], "") == s[..i] + DeleteChar(rest, c);
      DeleteCharSplit(s, i, c);
    }
  }

  lemma DeleteCharSplit(s: string, i: nat, c: char)
    requires i < |s| && s[i] == c && c !in s[..i]
    ensures DeleteChar(s, c) == s[..i] + DeleteChar(s[i + 1..], c)
  {
    assert s == s[..i] + ([s[i]] + s[i + 1..]);
    DeleteCharAppend(s[..i], [s[i]] + s[i + 1..], c);
    DeleteCharAbsent(s[..i], c);
    assert ([s[i]] + s[i + 1..])[1..] == s[i + 1..];
  }

  // ---------------------------------------------------------------------
  // split() with no argument

  /** s with every whitespace character dropped. */
  function NonSpace(s: string): (r: string)
    ensures NoSpace(r)
  {
    if s == [] then [] else (if IsSpace(s[0]) then [] else [s[0]]) + NonSpace(s[1..])
  }

  lemma NonSpaceAppend(a: string, b: string)
    ensures NonSpace(a + b) == NonSpace(a) + NonSpace(b)
  {
    if a != [] {
      assert (a + b)[1..] == a[1..] + b;
      NonSpaceAppend(a[1..], b);
    } else {
      assert a + b == b;
    }
  }

  lemma NonSpaceOfSpace(s: string)
    requires AllSpace(s)
    ensures NonSpace(s) == []
  {
  }

  lemma NonSpaceOfWord(s: string)
    requires NoSpace(s)
    ensures NonSpace(s) == s
  {
  }

  /** Number of leading non-whitespace characters. */
  function RunLength(s: string): (n: nat)
    ensures n <= |s| && NoSpace(s[..n])
    ensures n < |s| ==> IsSpace(s[n])
  {
    if s == [] || IsSpace(s[0]) then 0
    else
      var n := RunLength(s[1..]);
      assert s[..n + 1] == [s[0]] + s[1..][..n];
      n + 1
  }

  /** Python's str.split() with no argument: the maximal runs of
      non-whitespace characters. */
  function Words(s: string): (ws: seq<string>)
    decreases |s|
  {
    StripLeftSpec(s);
    var t := StripLeft(s);
    if t == [] then []
    else
      var n := RunLength(t);
      [t[..n]] + Words(t[n..])
  }

  /** "".join(s.split()) deletes every whitespace character and keeps the
      rest in order. */
  lemma {:induction false} JoinWords(s: string)
    ensures Join(Words(s), "") == NonSpace(s)
    decreases |s|
  {
    var t := StripLeft(s);
    StripLeftSpec(s);
    NonSpaceAfterStripLeft(s);
    if t == [] {
      assert Words(s) == [];
    } else {
      var n := RunLength(t);
      var rest := Words(t[n..]);
      assert Words(s) == [t[..n]] + rest;
      JoinWords(t[n..]);
      NonSpaceOfRun(t, n);
      ConcatCons(t[..n], rest);
    }
  }

  lemma NonSpaceAfterStripLeft(s: string)
    ensures NonSpace(s) == NonSpace(StripLeft(s))
  {
    var t := StripLeft(s);
    StripLeftSpec(s);
    var w := s[..|s| - |t|];
    assert s == w + t;
    NonSpaceAppend(w, t);
    NonSpaceOfSpace(w);
  }

  lemma NonSpaceOfRun(t: string, n: nat)
    requires n <= |t| && NoSpace(t[..n])
    ensures NonSpace(t) == t[..n] + NonSpace(t[n..])
  {
    assert t == t[..n] + t[n..];
    NonSpaceAppend(t[..n], t[n..]);
    NonSpaceOfWord(t[..n]);
  }

  // ---------------------------------------------------------------------
  // splitlines() and readlines()

  function LineEnd(s: string): (n: nat)
    ensures n <= |s|
    ensures forall i :: 0 <= i < n ==> !IsLineBreak(s[i])
    ensures n < |s| ==> IsLineBreak(s[n])
  {
    if s == [] || IsLineBreak(s[0]) then 0 else LineEnd(s[1..]) + 1
  }

  /** Python's str.splitlines(): lines without their terminators; "\r\n"
      ends a line once; no empty last line for a trailing terminator. */
  function SplitLines(s: string): (lines: seq<string>)
    ensures forall k, i :: 0 <= k < |lines| && 0 <= i < |lines[k]| ==> !IsLineBreak(lines[k][i])
    decreases |s|
  {
    if s == [] then []
    else
      var n := LineEnd(s);
      if n == |s| then [s]
      else
        var skip := if s[n] == '\r' && n + 1 < |s| && s[n + 1] == '\n' then 2 else 1;
        [s[..n]] + SplitLines(s[n + skip..])
  }

  /** file.readlines() on text already read with universal newlines: every
      line keeps its "\n"; the last line may lack one. */
  function ReadLines(s: string): (lines: seq<string>)
    decreases |s|
  {
    if s == [] then []
    else
      match Find(s, "\n")
      case None => [s]
      case Some(i) => [s[..i + 1]] + ReadLines(s[i + 1..])
  }

  /** readlines() loses nothing: the lines concatenate back to the text, and
      each line but the last ends with its single "\n". */
  lemma {:induction false} ReadLinesJoin(s: string)
    ensures Join(ReadLines(s), "") == s
    ensures forall k :: 0 <= k < |ReadLines(s)| ==> ReadLines(s)[k] != []
    ensures forall k :: 0 <= k < |ReadLines(s)| - 1 ==>
      ReadLines(s)[k][|ReadLines(s)[k]| - 1] == '\n'
    decreases |s|
  {
    if s != [] {
      match Find(s, "\n")
      case None =>
      case Some(i) =>
        var rest := s[i + 1..];
        ReadLinesJoin(rest);
        assert s[i..i + 1] == "\n";
        assert s == s[..i + 1] + rest;
        ConcatCons(s[..i + 1], ReadLines(rest));
        assert ReadLines(s) == [s[..i + 1]] + ReadLines(rest);
    }
  }

  /** A first line with its single "\n" at the end comes off readlines whole. */
  lemma ReadLinesCons(a: string, b: string)
    requires a != [] && a[|a| - 1] == '\n' && '\n' !in a[..|a| - 1]
    ensures ReadLines(a + b) == [a] + ReadLines(b)
  {
    var s := a + b;
    var i := |a| - 1;
    assert s[..i] == a[..i];
    CharContains(a[..i], '\n');
    FindAfterPrefix(a[..i], "\n", b);
    assert a[..i] + "\n" + b == s;
    assert s[..i + 1] == a;
    assert s[i + 1..] == b;
  }

  /** readlines gives back a list of "\n"-terminated lines joined together. */
  lemma {:induction false} ReadLinesOfLines(lines: seq<string>)
    requires forall k :: 0 <= k < |lines| ==>
      lines[k] != [] && lines[k][|lines[k]| - 1] == '\n' && '\n' !in lines[k][..|lines[k]| - 1]
    ensures ReadLines(Join(lines, "")) == lines
  {
    if lines != [] {
      ReadLinesOfLines(lines[1..]);
      ConcatCons(lines[0], lines[1..]);
      assert [lines[0]] + lines[1..] == lines;
      ReadLinesCons(lines[0], Join(lines[1..], ""));
    }
  }

  // ---------------------------------------------------------------------
  // Numbers as text

  ghost predicate AllDigits(s: string) {
    forall i :: 0 <= i < |s| ==> IsAsciiDigit(s[i])
  }

  /** Python's str.isdigit(), restricted to the ASCII digits. */
  predicate IsDigitString(s: string) {
    |s| >= 1 && forall i :: 0 <= i < |s| ==> IsAsciiDigit(s[i])
  }

  function DigitChar(d: nat): (c: char)
    requires d < 10
    ensures IsAsciiDigit(c) && (c as int) - ('0' as int) == d
  {
    (('0' as int) + d) as char
  }

  /** Python's str(n) for a natural number. */
  function Decimal(n: nat): (r: string)
    ensures IsDigitString(r)
    ensures r[0] == '0' ==> n == 0 && |r| == 1
  {
    if n < 10 then [DigitChar(n)] else Decimal(n / 10) + [DigitChar(n % 10)]
  }

  /** Python's int(s) on a string of ASCII digits. */
  function DigitsValue(s: string): nat
    requires AllDigits(s)
  {
    if s == [] then 0
    else DigitsValue(s[..|s| - 1]) * 10 + ((s[|s| - 1] as int) - ('0' as int))
  }

  /** int(str(n)) == n. */
  lemma {:induction false} DecimalRoundTrip(n: nat)
    ensures DigitsValue(Decimal(n)) == n
  {
    if n >= 10 {
      DecimalRoundTrip(n / 10);
      var r := Decimal(n);
      assert r[..|r| - 1] == Decimal(n / 10);
    }
  }

  /** Python's str(n) for any integer. */
  function IntText(n: int): (r: string)
    ensures r != [] && (r[0] == '-' <==> n < 0)
  {
    if n < 0 then "-" + Decimal(-n) else Decimal(n)
  }

  /** Python's int(s): surrounding whitespace, an optional sign and ASCII
      digits; anything else is a ValueError. */
  function ParseInt(s: string): Result<int> {
    var t := Strip(s);
    if t != [] && (t[0] == '+' || t[0] == '-') && IsDigitString(t[1..]) then
      var v: int := DigitsValue(t[1..]);
      Success(if t[0] == '-' then -v else v)
    else if IsDigitString(t) then Success(DigitsValue(t))
    else Failure(ValueError)
  }

  /** An entry that strips to digits is read as their value. */
  lemma ParseIntStrippedDigits(s: string, digits: string)
    requires Strip(s) == digits && IsDigitString(digits)
    ensures ParseInt(s) == Success(DigitsValue(digits))
  {
  }

  /** An entry that strips to a minus sign and digits is read as the
      negated value. */
  lemma ParseIntStrippedNegative(s: string, digits: string)
    requires Strip(s) == "-" + digits && IsDigitString(digits)
    ensures ParseInt(s) == Success(-(DigitsValue(digits) as int))
  {
    assert Strip(s)[1..] == digits;
  }

  /** A digit string with whitespace around it is read as its digits. */
  lemma ParseIntDigits(w1: string, digits: string, w2: string)
    requires AllSpace(w1) && AllSpace(w2) && IsDigitString(digits)
    ensures ParseInt(w1 + digits + w2) == Success(DigitsValue(digits))
  {
    assert !IsSpace(digits[0]) && !IsSpace(digits[|digits| - 1]);
    StripSurrounded(w1, digits, w2);
    ParseIntStrippedDigits(w1 + digits + w2, digits);
  }

  /** A minus sign and digits with whitespace around them are read as the
      negated digits. */
  lemma ParseIntNegative(w1: string, digits: string, w2: string)
    requires AllSpace(w1) && AllSpace(w2) && IsDigitString(digits)
    ensures ParseInt(w1 + ("-" + digits) + w2) == Success(-(DigitsValue(digits) as int))
  {
    var t := "-" + digits;
    assert !IsSpace(t[0]) && t[|t| - 1] == digits[|digits| - 1] && !IsSpace(digits[|digits| - 1]);
    StripSurrounded(w1, t, w2);
    ParseIntStrippedNegative(w1 + t + w2, digits);
  }

  /** str(n) carries no surrounding whitespace. */
  lemma IntTextStripped(n: int)
    ensures Strip(IntText(n)) == IntText(n)
  {
    var t := IntText(n);
    assert t[0] == '-' || IsAsciiDigit(t[0]);
    assert IsAsciiDigit(t[|t| - 1]);
    StripSurrounded([], t, []);
    assert [] + t + [] == t;
  }

  /** int(str(n)) == n for every integer. */
  lemma ParseIntRoundTrip(n: int)
    ensures ParseInt(IntText(n)) == Success(n)
  {
    IntTextStripped(n);
    if n < 0 {
      DecimalRoundTrip(-n);
      ParseIntStrippedNegative(IntText(n), Decimal(-n));
    } else {
      DecimalRoundTrip(n);
      ParseIntStrippedDigits(IntText(n), Decimal(n));
    }
  }

  /** Python's a <= b on strings: lexicographic by code point. */
  predicate LexLessEq(a: string, b: string) {
    a == [] || (b != [] && (a[0] < b[0] || (a[0] == b[0] && LexLessEq(a[1..], b[1..]))))
  }

  /** A string compares <= "0" exactly when it is empty, is "0", or starts
      with a character below '0'. */
  lemma LexLessEqZero(a: string)
    ensures LexLessEq(a, "0") <==> (a == [] || a[0] < '0' || a == "0")
  {
    if a != [] && a[0] == '0' {
      assert LexLessEq(a, "0") <==> LexLessEq(a[1..], []);
      assert a == "0" <==> a[1..] == [];
    }
  }

  // ---------------------------------------------------------------------
  // string.ascii_uppercase

  const AsciiUppercase: string := "ABCDEFGHIJKLMNOPQRSTUVWXYZ"

  /** string.ascii_uppercase[i]. */
  function Letter(i: nat): (c: char)
    requires i < 26
    ensures 'A' <= c <= 'Z' && (c as int) - ('A' as int) == i
  {
    AsciiUppercase[i]
  }

  /** The index of an uppercase letter in string.ascii_uppercase. */
  function LetterIndex(c: char): nat
    requires 'A' <= c <= 'Z'
  {
    (c as int) - ('A' as int)
  }
}
