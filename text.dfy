/** The parts of Go's `strings`, `fmt` and `sort` packages that the core relies on,
    over Dafny strings (sequences of code points). */
module Text {

  // ---------------------------------------------------------------------------
  // Prefixes, suffixes, substrings

  predicate HasPrefix(s: string, p: string) {
    |p| <= |s| && s[..|p|] == p
  }

  predicate HasSuffix(s: string, p: string) {
    |p| <= |s| && s[|s| - |p|..] == p
  }

  /** strings.TrimPrefix */
  function TrimPrefix(s: string, p: string): (r: string)
    ensures HasPrefix(s, p) ==> p + r == s
    ensures !HasPrefix(s, p) ==> r == s
  {
    if HasPrefix(s, p) then s[|p|..] else s
  }

  /** strings.Contains, scanning left to right. */
  predicate Contains(s: string, sub: string)
    decreases |s|
  {
    HasPrefix(s, sub) || (|s| > 0 && Contains(s[1..], sub))
  }

  predicate OccursAt(s: string, sub: string, i: int) {
    0 <= i && i + |sub| <= |s| && s[i..i + |sub|] == sub
  }

  lemma {:induction false} ContainsIff(s: string, sub: string)
    ensures Contains(s, sub) <==> exists i :: OccursAt(s, sub, i)
    decreases |s|
  {
    if HasPrefix(s, sub) {
      assert OccursAt(s, sub, 0);
    } else if |s| == 0 {
    } else {
      ContainsIff(s[1..], sub);
      if Contains(s[1..], sub) {
        var i :| OccursAt(s[1..], sub, i);
        assert s[1..][i..i + |sub|] == s[i + 1..i + 1 + |sub|];
        assert OccursAt(s, sub, i + 1);
      }
      if exists i :: OccursAt(s, sub, i) {
        var i :| OccursAt(s, sub, i);
        assert i > 0;
        assert s[1..][i - 1..i - 1 + |sub|] == s[i..i + |sub|];
        assert OccursAt(s[1..], sub, i - 1);
      }
    }
  }

  /** Index of the first occurrence of c in s, or -1 (strings.IndexByte). */
  function IndexOf(s: string, c: char): (r: int)
    ensures -1 <= r < |s|
    ensures r == -1 <==> c !in s
    ensures 0 <= r ==> s[r] == c && c !in s[..r]
  {
    if |s| == 0 then -1
    else if s[0] == c then 0
    else
      var k := IndexOf(s[1..], c);
      if k == -1 then -1 else
        assert s[1..][..k] == s[1..k + 1];
        k + 1
  }

  /** Index of the last occurrence of c in s, or -1 (strings.LastIndex with a one-character needle). */
  function LastIndexOf(s: string, c: char): (r: int)
    ensures -1 <= r < |s|
    ensures r == -1 <==> c !in s
    ensures 0 <= r ==> s[r] == c && c !in s[r + 1..]
  {
    if |s| == 0 then -1
    else if s[|s| - 1] == c then |s| - 1
    else
      var k := LastIndexOf(s[..|s| - 1], c);
      assert s[..|s| - 1] + [s[|s| - 1]] == s;
      k
  }

  // ---------------------------------------------------------------------------
  // Replacement

  /** strings.ReplaceAll for a non-empty needle: non-overlapping, left to right. */
  function ReplaceAll(s: string, pat: string, repl: string): string
    requires |pat| > 0
    decreases |s|
  {
    if |s| < |pat| then s
    else if s[..|pat|] == pat then repl + ReplaceAll(s[|pat|..], pat, repl)
    else [s[0]] + ReplaceAll(s[1..], pat, repl)
  }

  /** A text without the needle's first character is left alone. */
  lemma {:induction false} ReplaceAllAbsent(s: string, pat: string, repl: string)
    requires |pat| > 0 && pat[0] !in s
    ensures ReplaceAll(s, pat, repl) == s
    decreases |s|
  {
    if |s| >= |pat| {
      assert s[..|pat|][0] == s[0];
      ReplaceAllAbsent(s[1..], pat, repl);
      assert [s[0]] + s[1..] == s;
    }
  }

  /** A text missing any one character of the needle is left alone. */
  lemma {:induction false} ReplaceAllMissing(s: string, pat: string, repl: string, j: nat)
    requires j < |pat| && pat[j] !in s
    ensures ReplaceAll(s, pat, repl) == s
    decreases |s|
  {
    if |s| >= |pat| {
      assert s[..|pat|][j] == s[j];
      ReplaceAllMissing(s[1..], pat, repl, j);
      assert [s[0]] + s[1..] == s;
    }
  }

  /** A text with no white space at either end is its own TrimSpace. */
  lemma TrimSpaceUnspaced(s: string)
    requires s != [] && !IsSpace(s[0]) && !IsSpace(s[|s| - 1])
    ensures TrimSpace(s) == s
  {
  }

  /** Replacing a needle by itself changes nothing. */
  lemma {:induction false} ReplaceAllIdentity(s: string, pat: string)
    requires |pat| > 0
    ensures ReplaceAll(s, pat, pat) == s
    decreases |s|
  {
    if |s| < |pat| {
    } else if s[..|pat|] == pat {
      ReplaceAllIdentity(s[|pat|..], pat);
      assert pat + s[|pat|..] == s;
    } else {
      ReplaceAllIdentity(s[1..], pat);
      assert [s[0]] + s[1..] == s;
    }
  }

  /** When the replacement text starts with a character outside p, a prefix p of the
      output of replacing "self" was already a prefix of the input. */
  lemma {:induction false} ReplacePrefixKept(t: string, v: string, p: string)
    requires v != [] && v[0] !in p
    ensures HasPrefix(ReplaceAll(t, "self", v), p) ==> HasPrefix(t, p)
    decreases |p|
  {
    var r := ReplaceAll(t, "self", v);
    if p == [] {
    } else if |t| < 4 {
      assert r == t;
    } else if t[..4] == "self" {
      assert r[0] == v[0];
    } else {
      var tail := ReplaceAll(t[1..], "self", v);
      assert r == [t[0]] + tail;
      ReplacePrefixKept(t[1..], v, p[1..]);
      if HasPrefix(r, p) {
        assert tail[..|p| - 1] == r[..|p|][1..];
        assert t[..|p|] == [t[0]] + t[1..][..|p| - 1];
      }
    }
  }

  /** Substituting a scope variable that contains none of the characters of "self"
      leaves no "self" behind. */
  lemma {:induction false} ReplaceLeavesNoSelf(s: string, v: string)
    requires v != []
    requires forall i :: 0 <= i < |v| ==> v[i] !in "self"
    ensures forall i :: !OccursAt(ReplaceAll(s, "self", v), "self", i)
    ensures !Contains(ReplaceAll(s, "self", v), "self")
    decreases |s|
  {
    var r := ReplaceAll(s, "self", v);
    if |s| < 4 {
      assert r == s;
    } else if s[..4] == "self" {
      var tail := ReplaceAll(s[4..], "self", v);
      ReplaceLeavesNoSelf(s[4..], v);
      assert r == v + tail;
      NoSelfAfterVar(v, tail);
    } else {
      var tail := ReplaceAll(s[1..], "self", v);
      ReplaceLeavesNoSelf(s[1..], v);
      assert r == [s[0]] + tail;
      if |tail| >= 3 {
        ReplacePrefixKept(s[1..], v, "elf");
        assert s[..4] == [s[0]] + s[1..][..3];
        assert !(s[0] == 's' && HasPrefix(s[1..], "elf"));
        assert !(s[0] == 's' && HasPrefix(tail, "elf"));
        var w := [s[0]] + tail[..3];
        assert w[0] == s[0] && w[1..] == tail[..3];
        assert "self"[0] == 's' && "self"[1..] == "elf";
        assert w != "self";
      }
      NoSelfAfterChar(s[0], tail);
    }
    ContainsIff(r, "self");
  }

  /** A scope variable without the characters of "self", followed by a text without
      "self", has no "self". */
  lemma NoSelfAfterVar(v: string, tail: string)
    requires forall i :: 0 <= i < |v| ==> v[i] !in "self"
    requires forall i :: !OccursAt(tail, "self", i)
    ensures forall i :: !OccursAt(v + tail, "self", i)
  {
    var r := v + tail;
    forall i ensures !OccursAt(r, "self", i) {
      if 0 <= i < |v| && i + 4 <= |r| {
        assert r[i..i + 4][0] == v[i];
      } else if |v| <= i && i + 4 <= |r| {
        assert r[i..i + 4] == tail[i - |v|..i - |v| + 4];
        assert !OccursAt(tail, "self", i - |v|);
      }
    }
  }

  /** One character in front of a text without "self" adds no "self" unless it starts one. */
  lemma NoSelfAfterChar(c: char, tail: string)
    requires forall i :: !OccursAt(tail, "self", i)
    requires |tail| >= 3 ==> [c] + tail[..3] != "self"
    ensures forall i :: !OccursAt([c] + tail, "self", i)
  {
    var r := [c] + tail;
    forall i ensures !OccursAt(r, "self", i) {
      if i == 0 && 4 <= |r| {
        assert r[..4] == [c] + tail[..3];
      } else if 0 < i && i + 4 <= |r| {
        assert r[i..i + 4] == tail[i - 1..i + 3];
        assert !OccursAt(tail, "self", i - 1);
      }
    }
  }

  // ---------------------------------------------------------------------------
  // Joining and splitting

  /** strings.Join */
  function Join(parts: seq<string>, sep: string): string {
    if |parts| == 0 then ""
    else if |parts| == 1 then parts[0]
    else parts[0] + sep + Join(parts[1..], sep)
  }

  /** strings.Split with a one-character separator. */
  function Split(s: string, sep: char): (r: seq<string>)
    ensures |r| >= 1
    ensures forall i :: 0 <= i < |r| ==> sep !in r[i]
  {
    if |s| == 0 then [""]
    else if s[0] == sep then [""] + Split(s[1..], sep)
    else
      var rest := Split(s[1..], sep);
      [[s[0]] + rest[0]] + rest[1..]
  }

  /** Joining the pieces of a split with the separator gives back the string. */
  lemma {:induction false} JoinSplit(s: string, sep: char)
    ensures Join(Split(s, sep), [sep]) == s
  {
    if |s| == 0 {
    } else if s[0] == sep {
      JoinSplit(s[1..], sep);
      assert [sep] + s[1..] == s;
    } else {
      var rest := Split(s[1..], sep);
      JoinSplit(s[1..], sep);
      if |rest| == 1 {
        assert [s[0]] + s[1..] == s;
      } else {
        assert Join(rest, [sep]) == rest[0] + [sep] + Join(rest[1..], [sep]);
        assert [s[0]] + s[1..] == s;
      }
    }
  }

  lemma {:induction false} JoinAppend(parts: seq<string>, x: string, sep: string)
    ensures Join(parts + [x], sep) == if parts == [] then x else Join(parts, sep) + sep + x
  {
    if |parts| <= 1 {
    } else {
      assert (parts + [x])[1..] == parts[1..] + [x];
      JoinAppend(parts[1..], x, sep);
    }
  }

  /** Joining with a separator around a split point. */
  lemma {:induction false} JoinConcat(a: seq<string>, b: seq<string>, sep: string)
    requires a != [] && b != []
    ensures Join(a + b, sep) == Join(a, sep) + sep + Join(b, sep)
  {
    if |a| == 1 {
      assert (a + b)[1..] == b;
    } else {
      assert (a + b)[1..] == a[1..] + b;
      JoinConcat(a[1..], b, sep);
    }
  }

  /** Concatenation of all pieces. */
  function Concat(pieces: seq<string>): string {
    if pieces == [] then "" else pieces[0] + Concat(pieces[1..])
  }

  lemma {:induction false} ConcatAppend(a: seq<string>, b: seq<string>)
    ensures Concat(a + b) == Concat(a) + Concat(b)
  {
    if a == [] {
      assert a + b == b;
    } else {
      assert (a + b)[1..] == a[1..] + b;
      ConcatAppend(a[1..], b);
    }
  }

  /** Each piece followed by a newline. */
  function Lines(pieces: seq<string>): string {
    if pieces == [] then "" else pieces[0] + "\n" + Lines(pieces[1..])
  }

  lemma {:induction false} LinesAppend(a: seq<string>, x: string)
    ensures Lines(a + [x]) == Lines(a) + x + "\n"
  {
    if a == [] {
    } else {
      assert (a + [x])[1..] == a[1..] + [x];
      LinesAppend(a[1..], x);
    }
  }

  /** A non-empty list of lines, newline-terminated, is its join plus a final newline. */
  lemma {:induction false} LinesIsJoin(a: seq<string>)
    requires a != []
    ensures Lines(a) == Join(a, "\n") + "\n"
  {
    if |a| == 1 {
    } else {
      LinesIsJoin(a[1..]);
    }
  }

  /** Newline-terminated lines followed by one unterminated line are the join of all. */
  lemma LinesThenLast(a: seq<string>, x: string)
    ensures Lines(a) + x == Join(a + [x], "\n")
  {
    JoinAppend(a, x, "\n");
    if a != [] {
      LinesIsJoin(a);
    }
  }

  /** Appending to a buffer in two steps appends the concatenation. */
  lemma AppendAssociative(a: string, b: string, c: string)
    ensures a + b + c == a + (b + c)
  {
  }

  /** Four appends to a buffer append the four texts' concatenation. */
  lemma AppendFour(s: string, a: string, b: string, c: string, d: string)
    ensures s + a + b + c + d == s + (a + b + c + d)
  {
    AppendAssociative(s, a, b);
    AppendAssociative(s, a + b, c);
    AppendAssociative(s, a + b + c, d);
  }

  /** The outer parts of a three-part concatenation are its prefix and its suffix, and
      what follows the first part is the rest. */
  lemma ThreeParts(a: string, b: string, c: string)
    ensures HasPrefix(a + b + c, a)
    ensures (a + b + c)[|a|..] == b + c
    ensures HasSuffix(a + b + c, c)
  {
    var s := a + b + c;
    assert s[..|a|] == a;
    assert s[|a|..] == b + c;
    assert s[|s| - |c|..] == c;
  }

  /** A prefix stays a prefix when text is appended. */
  lemma PrefixThrough(s: string, p: string, t: string)
    requires HasPrefix(s, p)
    ensures HasPrefix(s + t, p)
  {
    assert (s + t)[..|p|] == s[..|p|];
  }

  /** A suffix stays a suffix when text is prepended. */
  lemma SuffixThrough(t: string, s: string, p: string)
    requires HasSuffix(s, p)
    ensures HasSuffix(t + s, p)
  {
    assert (t + s)[|t + s| - |p|..] == s[|s| - |p|..];
  }

  // ---------------------------------------------------------------------------
  // Whitespace

  /** unicode.IsSpace */
  predicate IsSpace(c: char) {
    c == ' ' || c == '\t' || c == '\n' || c == '\r' || c == '\U{B}' || c == '\U{C}'
    || c == '\U{85}' || c == '\U{A0}' || c == '\U{1680}'
    || ('\U{2000}' <= c <= '\U{200A}') || c == '\U{2028}' || c == '\U{2029}'
    || c == '\U{202F}' || c == '\U{205F}' || c == '\U{3000}'
  }

  function TrimLeft(s: string): string {
    if s != [] && IsSpace(s[0]) then TrimLeft(s[1..]) else s
  }

  function TrimRight(s: string): string {
    if s != [] && IsSpace(s[|s| - 1]) then TrimRight(s[..|s| - 1]) else s
  }

  /** strings.TrimSpace */
  function TrimSpace(s: string): string {
    TrimRight(TrimLeft(s))
  }

  lemma {:induction false} TrimLeftIsSuffix(s: string)
    ensures var r := TrimLeft(s);
      |r| <= |s| && r == s[|s| - |r|..] && (r != [] ==> !IsSpace(r[0])) &&
      forall i :: 0 <= i < |s| - |r| ==> IsSpace(s[i])
  {
    if s != [] && IsSpace(s[0]) {
      TrimLeftIsSuffix(s[1..]);
      var r := TrimLeft(s);
      forall i | 0 <= i < |s| - |r| ensures IsSpace(s[i]) {
        if i > 0 {
          assert s[i] == s[1..][i - 1];
        }
      }
    }
  }

  lemma {:induction false} TrimRightIsPrefix(s: string)
    ensures var r := TrimRight(s);
      |r| <= |s| && r == s[..|r|] && (r != [] ==> !IsSpace(r[|r| - 1])) &&
      forall i :: |r| <= i < |s| ==> IsSpace(s[i])
  {
    if s != [] && IsSpace(s[|s| - 1]) {
      TrimRightIsPrefix(s[..|s| - 1]);
      var r := TrimRight(s);
      assert s[..|s| - 1][..|r|] == s[..|r|];
      forall i | |r| <= i < |s| ensures IsSpace(s[i]) {
        if i < |s| - 1 {
          assert s[i] == s[..|s| - 1][i];
        }
      }
    }
  }

  /** TrimSpace removes exactly the leading and trailing white space: the result is a
      contiguous piece of the input, everything cut off is white space, and the result
      neither starts nor ends with white space. */
  lemma TrimSpaceTrims(s: string) returns (lo: nat)
    ensures var r := TrimSpace(s);
      lo + |r| <= |s| && r == s[lo..lo + |r|] &&
      (forall i :: 0 <= i < lo ==> IsSpace(s[i])) &&
      (forall i :: lo + |r| <= i < |s| ==> IsSpace(s[i]))
    ensures TrimSpace(s) != [] ==> !IsSpace(TrimSpace(s)[0]) && !IsSpace(TrimSpace(s)[|TrimSpace(s)| - 1])
  {
    var l := TrimLeft(s);
    TrimLeftIsSuffix(s);
    TrimRightIsPrefix(l);
    var r := TrimRight(l);
    lo := |s| - |l|;
    assert r == s[lo..lo + |r|];
    forall i | lo + |r| <= i < |s| ensures IsSpace(s[i]) {
      assert s[i] == l[i - lo];
    }
    if r != [] {
      assert r[0] == l[0];
    }
  }

  // ---------------------------------------------------------------------------
  // Lexicographic order (sort.Strings compares bytes of UTF-8, which orders
  // code points the same way)

  predicate Less(a: string, b: string) {
    if a == [] then b != []
    else if b == [] then false
    else if a[0] != b[0] then a[0] < b[0]
    else Less(a[1..], b[1..])
  }

  predicate LessEq(a: string, b: string) {
    Less(a, b) || a == b
  }

  lemma {:induction false} LessIrreflexive(a: string)
    ensures !Less(a, a)
  {
    if a != [] {
      LessIrreflexive(a[1..]);
    }
  }

  lemma {:induction false} LessAsymmetric(a: string, b: string)
    ensures !(Less(a, b) && Less(b, a))
  {
    if a != [] && b != [] && a[0] == b[0] {
      LessAsymmetric(a[1..], b[1..]);
    }
  }

  lemma {:induction false} LessTransitive(a: string, b: string, c: string)
    requires Less(a, b) && Less(b, c)
    ensures Less(a, c)
  {
    if a != [] && b != [] && c != [] && a[0] == b[0] && b[0] == c[0] {
      LessTransitive(a[1..], b[1..], c[1..]);
    }
  }

  lemma {:induction false} LessTotal(a: string, b: string)
    ensures Less(a, b) || a == b || Less(b, a)
  {
    if a != [] && b != [] && a[0] == b[0] {
      LessTotal(a[1..], b[1..]);
      if a[1..] == b[1..] {
        assert a == [a[0]] + a[1..] && b == [b[0]] + b[1..];
      }
    }
  }

  predicate Sorted(s: seq<string>) {
    forall i, j :: 0 <= i < j < |s| ==> LessEq(s[i], s[j])
  }

  /** Insert x into a sorted sequence. */
  function Insert(x: string, s: seq<string>): (r: seq<string>)
    requires Sorted(s)
    ensures Sorted(r) && multiset(r) == multiset(s) + multiset{x}
  {
    if s == [] then [x]
    else if LessEq(x, s[0]) then
      assert forall j :: 0 <= j < |s| ==> LessEq(x, s[j]) by {
        forall j | 0 <= j < |s| ensures LessEq(x, s[j]) {
          if j > 0 && Less(x, s[0]) && Less(s[0], s[j]) { LessTransitive(x, s[0], s[j]); }
        }
      }
      [x] + s
    else
      LessTotal(x, s[0]);
      var t := Insert(x, s[1..]);
      assert forall j :: 0 <= j < |t| ==> LessEq(s[0], t[j]) by {
        forall j | 0 <= j < |t| ensures LessEq(s[0], t[j]) {
          assert t[j] in multiset(t);
          assert t[j] in multiset(s[1..]) || t[j] == x;
          if t[j] != x {
            var k :| 0 <= k < |s[1..]| && s[1..][k] == t[j];
            assert s[k + 1] == t[j];
          }
        }
      }
      assert s == [s[0]] + s[1..];
      [s[0]] + t
  }

  /** sort.Strings */
  function SortStrings(s: seq<string>): (r: seq<string>)
    ensures Sorted(r) && multiset(r) == multiset(s)
  {
    if s == [] then [] else
      assert s == [s[0]] + s[1..];
      Insert(s[0], SortStrings(s[1..]))
  }

  /** Two sorted sequences with the same elements are equal: the output of sorting is
      independent of the order in which the elements were collected. */
  lemma {:induction false} SortedUnique(a: seq<string>, b: seq<string>)
    requires Sorted(a) && Sorted(b) && multiset(a) == multiset(b)
    ensures a == b
  {
    if a == [] {
      assert |b| == |multiset(b)| == 0;
    } else {
      assert |b| == |multiset(b)| == |multiset(a)| == |a|;
      SortedSameHead(a, b);
      assert a == [a[0]] + a[1..] && b == [b[0]] + b[1..];
      assert multiset(a) == multiset([a[0]]) + multiset(a[1..]);
      assert multiset(b) == multiset([b[0]]) + multiset(b[1..]);
      assert multiset(a[1..]) == multiset(a) - multiset([a[0]]);
      SortedUnique(a[1..], b[1..]);
    }
  }

  lemma SortedSameHead(a: seq<string>, b: seq<string>)
    requires Sorted(a) && Sorted(b) && multiset(a) == multiset(b)
    requires a != [] && b != []
    ensures a[0] == b[0]
  {
    assert a[0] in multiset(b);
    var j :| 0 <= j < |b| && b[j] == a[0];
    assert b[0] in multiset(a);
    var i :| 0 <= i < |a| && a[i] == b[0];
    assert LessEq(a[0], b[0]) by { assert i == 0 || LessEq(a[0], a[i]); }
    assert LessEq(b[0], a[0]) by { assert j == 0 || LessEq(b[0], b[j]); }
    LessAsymmetric(a[0], b[0]);
  }

  /** The elements of a set, in some order. */
  ghost function SetToSeq(s: set<string>): (r: seq<string>)
    ensures multiset(r) == multiset(s)
    ensures |r| == |s|
  {
    if s == {} then []
    else
      var x :| x in s;
      [x] + SetToSeq(s - {x})
  }

  /** The elements of a set in ascending order, once each. */
  ghost function SortedKeys(s: set<string>): (r: seq<string>)
    ensures Sorted(r) && multiset(r) == multiset(s)
  {
    SortedListingExists(s);
    var r :| Sorted(r) && multiset(r) == multiset(s);
    r
  }

  /** Every set of strings has a sorted listing: sort any listing of it. */
  lemma SortedListingExists(s: set<string>)
    ensures exists r :: Sorted(r) && multiset(r) == multiset(s)
  {
    var r := SortStrings(SetToSeq(s));
    assert Sorted(r) && multiset(r) == multiset(s);
  }

  /** SortedKeys lists exactly the elements of the set. */
  lemma SortedKeysMembers(s: set<string>)
    ensures forall x :: x in SortedKeys(s) ==> x in s
  {
    var r := SortedKeys(s);
    forall x | x in r ensures x in s {
      assert x in multiset(r);
    }
  }

  /** Any sorted listing of a set's elements, without repeats, is SortedKeys. */
  lemma SortedListingIsSortedKeys(r: seq<string>, s: set<string>)
    requires Sorted(r) && multiset(r) == multiset(s)
    ensures r == SortedKeys(s)
  {
    SortedUnique(r, SortedKeys(s));
  }

  /** A sorted listing of a set has no repeated element and is strictly ascending. */
  lemma SortedKeysStrict(r: seq<string>, s: set<string>)
    requires Sorted(r) && multiset(r) == multiset(s)
    ensures forall i, j :: 0 <= i < j < |r| ==> Less(r[i], r[j])
    ensures forall x :: x in r <==> x in s
  {
    forall i, j | 0 <= i < j < |r| ensures Less(r[i], r[j]) {
      assert r == r[..j] + r[j..];
      assert r[i] in multiset(r[..j]);
      assert r[j] in multiset(r[j..]);
      assert multiset(r)[r[j]] == multiset(r[..j])[r[j]] + multiset(r[j..])[r[j]];
      assert multiset(r)[r[j]] <= 1;
    }
    forall x ensures x in r <==> x in s {
      assert x in r <==> x in multiset(r);
    }
  }
}
