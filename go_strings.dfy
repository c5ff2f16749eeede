/**
 * The functions of Go's `strings` package that the extraction pipeline calls.
 * A Go string is modelled as the sequence of its code points.
 */
module GoStrings {

  /** strings.HasPrefix */
  predicate HasPrefix(s: string, prefix: string) {
    prefix <= s
  }

  /** strings.HasSuffix */
  predicate HasSuffix(s: string, suffix: string) {
    |suffix| <= |s| && s[|s| - |suffix|..] == suffix
  }

  /** s starts with prefix exactly when it is prefix followed by something. */
  lemma HasPrefixMeaning(s: string, prefix: string)
    ensures HasPrefix(s, prefix) <==> exists t :: s == prefix + t
  {
    if HasPrefix(s, prefix) {
      assert s == prefix + s[|prefix|..];
    }
    forall t | s == prefix + t ensures HasPrefix(s, prefix) {
      assert s[..|prefix|] == prefix;
    }
  }

  /** s ends with suffix exactly when it is something followed by suffix. */
  lemma HasSuffixMeaning(s: string, suffix: string)
    ensures HasSuffix(s, suffix) <==> exists t :: s == t + suffix
  {
    if HasSuffix(s, suffix) {
      assert s == s[..|s| - |suffix|] + suffix;
    }
    forall t | s == t + suffix ensures HasSuffix(s, suffix) {
      assert s[|t|..] == suffix;
    }
  }

  /** r occurs in s at offset i. */
  predicate InfixAt(r: string, s: string, i: int) {
    0 <= i <= |s| - |r| && s[i..i + |r|] == r
  }

  lemma InfixTransitive(a: string, b: string, c: string, i: int, j: int)
    requires InfixAt(a, b, i) && InfixAt(b, c, j)
    ensures InfixAt(a, c, i + j)
  {
    forall k | 0 <= k < |a| ensures c[i + j + k] == a[k] {
      assert c[j..j + |b|][i + k] == b[i + k];
      assert b[i..i + |a|][k] == a[k];
    }
  }

  /** strings.TrimPrefix: s without one leading `prefix`, or s itself. */
  function TrimPrefix(s: string, prefix: string): (r: string)
    ensures InfixAt(r, s, if HasPrefix(s, prefix) then |prefix| else 0)
    ensures |r| == if HasPrefix(s, prefix) then |s| - |prefix| else |s|
  {
    if HasPrefix(s, prefix) then s[|prefix|..] else s
  }

  /** TrimPrefix removes a prefix that is there. */
  lemma TrimPrefixOf(p: string, x: string)
    ensures TrimPrefix(p + x, p) == x
  {
    assert (p + x)[..|p|] == p;
    assert (p + x)[|p|..] == x;
  }

  /** strings.TrimSuffix: s without one trailing `suffix`, or s itself. */
  function TrimSuffix(s: string, suffix: string): (r: string)
    ensures InfixAt(r, s, 0)
    ensures |r| == if HasSuffix(s, suffix) then |s| - |suffix| else |s|
  {
    if HasSuffix(s, suffix) then s[..|s| - |suffix|] else s
  }

  /** TrimSuffix removes a suffix that is there. */
  lemma TrimSuffixOf(x: string, p: string)
    ensures TrimSuffix(x + p, p) == x
  {
    assert (x + p)[|x|..] == p;
    assert (x + p)[..|x|] == x;
  }

  /** unicode.IsSpace, the test strings.TrimSpace applies to each code point. */
  predicate IsSpace(c: char) {
    var n := c as int;
    (9 <= n <= 13) || n == 32 || n == 0x85 || n == 0xA0 || n == 0x1680
    || (0x2000 <= n <= 0x200A) || n == 0x2028 || n == 0x2029 || n == 0x202F
    || n == 0x205F || n == 0x3000
  }

  predicate AllSpace(s: string) {
    forall k :: 0 <= k < |s| ==> IsSpace(s[k])
  }

  /** Neither end of s is white space. */
  predicate NoOuterSpace(s: string) {
    |s| == 0 || (!IsSpace(s[0]) && !IsSpace(s[|s| - 1]))
  }

  /** The number of white-space code points that s starts with. */
  function LeadingSpaces(s: string): (n: nat)
    ensures n <= |s|
    ensures n < |s| ==> !IsSpace(s[n])
  {
    if |s| > 0 && IsSpace(s[0]) then 1 + LeadingSpaces(s[1..]) else 0
  }

  /** Everything LeadingSpaces counts is white space. */
  lemma {:induction false} LeadingSpacesAll(s: string)
    ensures forall k :: 0 <= k < LeadingSpaces(s) ==> IsSpace(s[k])
  {
    if |s| > 0 && IsSpace(s[0]) {
      var tail := s[1..];
      LeadingSpacesAll(tail);
      forall k | 1 <= k < LeadingSpaces(s) ensures IsSpace(s[k]) {
        assert s[k] == tail[k - 1];
      }
    }
  }

  /** The number of white-space code points that s ends with. */
  function TrailingSpaces(s: string): (n: nat)
    ensures n <= |s|
    ensures n < |s| ==> !IsSpace(s[|s| - 1 - n])
  {
    if |s| > 0 && IsSpace(s[|s| - 1]) then 1 + TrailingSpaces(s[..|s| - 1]) else 0
  }

  /** Everything TrailingSpaces counts is white space. */
  lemma {:induction false} TrailingSpacesAll(s: string)
    ensures forall k :: |s| - TrailingSpaces(s) <= k < |s| ==> IsSpace(s[k])
  {
    if |s| > 0 && IsSpace(s[|s| - 1]) {
      var front := s[..|s| - 1];
      TrailingSpacesAll(front);
      forall k | |s| - TrailingSpaces(s) <= k < |s| - 1 ensures IsSpace(s[k]) {
        assert s[k] == front[k];
      }
    }
  }

  /** r sits in s at offset i with nothing but white space around it. */
  predicate TrimmedAt(s: string, r: string, i: int) {
    && InfixAt(r, s, i)
    && (forall k :: 0 <= k < i ==> IsSpace(s[k]))
    && (forall k :: i + |r| <= k < |s| ==> IsSpace(s[k]))
  }

  /** strings.TrimSpace: s without its leading and trailing white space. */
  function TrimSpace(s: string): (r: string)
    ensures NoOuterSpace(r)
  {
    var a := LeadingSpaces(s);
    var t := s[a..];
    t[..|t| - TrailingSpaces(t)]
  }

  /** What TrimSpace keeps sits in the input with nothing but white space around it. */
  lemma TrimSpaceTrims(s: string)
    ensures exists i :: TrimmedAt(s, TrimSpace(s), i)
  {
    var a := LeadingSpaces(s);
    var t := s[a..];
    var b := TrailingSpaces(t);
    var r := t[..|t| - b];
    assert r == TrimSpace(s);
    LeadingSpacesAll(s);
    TrailingSpacesAll(t);
    assert s[a..a + |r|] == r;
    assert forall k :: a + |r| <= k < |s| ==> IsSpace(s[k]) by {
      forall k | a + |r| <= k < |s| ensures IsSpace(s[k]) {
        assert s[k] == t[k - a];
      }
    }
    assert TrimmedAt(s, r, a);
  }

  /** White space around a string with no white space at its ends is exactly what TrimSpace removes. */
  lemma TrimSpaceExact(a: string, x: string, b: string)
    requires AllSpace(a) && AllSpace(b) && NoOuterSpace(x)
    ensures TrimSpace(a + x + b) == x
  {
    var s := a + x + b;
    var r := TrimSpace(s);
    TrimSpaceTrims(s);
    var i :| TrimmedAt(s, r, i);
    if |x| == 0 {
      assert AllSpace(s);
    } else {
      assert s[|a|] == x[0];
      assert s[|a| + |x| - 1] == x[|x| - 1];
      assert i == |a|;
      assert |r| == |x|;
      assert s[|a|..|a| + |x|] == x;
    }
  }

  /** strings.Join */
  function Join(parts: seq<string>, sep: string): string {
    if |parts| == 0 then ""
    else if |parts| == 1 then parts[0]
    else parts[0] + sep + Join(parts[1..], sep)
  }

  /** strings.Split with a one-character separator: the pieces between the separators, in order. */
  function Split(s: string, sep: char): (parts: seq<string>)
    ensures |parts| >= 1
  {
    if |s| == 0 then [""]
    else if s[0] == sep then [""] + Split(s[1..], sep)
    else
      var rest := Split(s[1..], sep);
      [[s[0]] + rest[0]] + rest[1..]
  }

  lemma JoinPair(x: string, y: string, sep: string)
    ensures Join([x, y], sep) == x + sep + y
  {
    assert [x, y][1..] == [y];
  }

  lemma JoinConsHead(c: char, parts: seq<string>, sep: string)
    requires |parts| >= 1
    ensures Join([[c] + parts[0]] + parts[1..], sep) == [c] + Join(parts, sep)
  {
    var q := [[c] + parts[0]] + parts[1..];
    if |parts| > 1 {
      assert q[1..] == parts[1..];
    }
  }

  /** A join ends with its last part. */
  lemma {:induction false} JoinEndsWithLast(parts: seq<string>, sep: string)
    requires |parts| >= 1
    ensures HasSuffix(Join(parts, sep), parts[|parts| - 1])
  {
    if |parts| > 1 {
      var rest := parts[1..];
      JoinEndsWithLast(rest, sep);
      var j := Join(rest, sep);
      var last := parts[|parts| - 1];
      assert rest[|rest| - 1] == last;
      var t := parts[0] + sep;
      assert Join(parts, sep) == t + j;
      assert (t + j)[|t + j| - |last|..] == j[|j| - |last|..];
    }
  }

  /** Splitting a join of separator-free pieces gives back the pieces: Split inverts Join. */
  lemma {:induction false} SplitJoin(parts: seq<string>, sep: char)
    requires |parts| >= 1 && forall k :: 0 <= k < |parts| ==> sep !in parts[k]
    ensures Split(Join(parts, [sep]), sep) == parts
  {
    SplitNoSeparator(parts[0], sep);
    if |parts| > 1 {
      var rest := parts[1..];
      assert forall k :: 0 <= k < |rest| ==> sep !in rest[k] by {
        forall k | 0 <= k < |rest| ensures sep !in rest[k] {
          assert rest[k] == parts[k + 1];
        }
      }
      SplitJoin(rest, sep);
      assert Join(parts, [sep]) == parts[0] + [sep] + Join(rest, [sep]);
      SplitConcat(parts[0], Join(rest, [sep]), sep);
      assert parts == [parts[0]] + rest;
    }
  }

  /** Joining the pieces of a split with the separator gives back the string. */
  lemma {:induction false} JoinSplit(s: string, sep: char)
    ensures Join(Split(s, sep), [sep]) == s
  {
    if |s| == 0 {
    } else if s[0] == sep {
      JoinSplit(s[1..], sep);
      var rest := Split(s[1..], sep);
      assert ([""] + rest)[1..] == rest;
      assert s == [sep] + s[1..];
    } else {
      JoinSplit(s[1..], sep);
      JoinConsHead(s[0], Split(s[1..], sep), [sep]);
      assert s == [s[0]] + s[1..];
    }
  }

  /** No piece of a Split contains the separator. */
  lemma {:induction false} SplitPieces(s: string, sep: char)
    ensures forall k :: 0 <= k < |Split(s, sep)| ==> sep !in Split(s, sep)[k]
  {
    if |s| > 0 {
      SplitPieces(s[1..], sep);
      if s[0] != sep {
        var rest := Split(s[1..], sep);
        assert sep !in [s[0]] + rest[0];
      }
    }
  }

  /** Extending the first piece of a concatenation of piece lists extends the first list's first piece. */
  lemma MergeHead(h: string, r1: seq<string>, r2: seq<string>)
    requires |r1| >= 1
    ensures [h + (r1 + r2)[0]] + (r1 + r2)[1..] == [h + r1[0]] + r1[1..] + r2
  {
    assert (r1 + r2)[0] == r1[0];
    assert (r1 + r2)[1..] == r1[1..] + r2;
  }

  /** Splitting at a separator at index i splits the text before it and the text after it independently. */
  lemma {:induction false} SplitAt(s: string, i: nat, sep: char)
    requires i < |s| && s[i] == sep
    ensures Split(s, sep) == Split(s[..i], sep) + Split(s[i + 1..], sep)
  {
    var tail := s[1..];
    if i == 0 {
      assert s[..0] == [];
      assert tail == s[1..];
    } else {
      var before, after := tail[..i - 1], tail[i..];
      assert before == s[..i][1..] && after == s[i + 1..] && s[..i][0] == s[0] by {
        assert |s[..i]| == i;
      }
      assert tail[i - 1] == sep;
      SplitAt(tail, i - 1, sep);
      var r1, r2 := Split(before, sep), Split(after, sep);
      assert Split(s[..i], sep) == if s[0] == sep then [""] + r1 else [[s[0]] + r1[0]] + r1[1..];
      if s[0] != sep {
        MergeHead([s[0]], r1, r2);
      }
    }
  }

  /** Splitting at one more separator splits the two sides independently. */
  lemma SplitConcat(a: string, b: string, sep: char)
    ensures Split(a + [sep] + b, sep) == Split(a, sep) + Split(b, sep)
  {
    var s := a + [sep] + b;
    assert s[..|a|] == a && s[|a|] == sep && s[|a| + 1..] == b;
    SplitAt(s, |a|, sep);
  }

  /** A string without the separator is one piece. */
  lemma {:induction false} SplitNoSeparator(s: string, sep: char)
    requires sep !in s
    ensures Split(s, sep) == [s]
  {
    if |s| > 0 {
      assert sep !in s[1..];
      SplitNoSeparator(s[1..], sep);
      assert s == [s[0]] + s[1..];
    }
  }

  /** strings.Replace(s, from, to, -1) for one-character strings: every `from` becomes `to`. */
  function ReplaceAll(s: string, from: char, to: char): (r: string)
    ensures |r| == |s|
    ensures forall k :: 0 <= k < |s| ==> r[k] == if s[k] == from then to else s[k]
  {
    if |s| == 0 then "" else [if s[0] == from then to else s[0]] + ReplaceAll(s[1..], from, to)
  }

  /** strings.Replace(s, c, "", 1) for a one-character c: s without its first c. */
  function RemoveFirst(s: string, c: char): (r: string)
    ensures c !in s ==> r == s
    ensures c in s ==> |r| == |s| - 1
  {
    if |s| == 0 then "" else if s[0] == c then s[1..] else [s[0]] + RemoveFirst(s[1..], c)
  }

  /** RemoveFirst drops the character at the first occurrence of c and keeps the rest in place. */
  lemma {:induction false} RemoveFirstAt(s: string, c: char, i: int)
    requires 0 <= i < |s| && s[i] == c && c !in s[..i]
    ensures RemoveFirst(s, c) == s[..i] + s[i + 1..]
  {
    if i > 0 {
      var tail := s[1..];
      assert s[0] != c by { assert s[..i][0] == s[0]; }
      assert s[..i] == [s[0]] + tail[..i - 1];
      assert tail[i - 1] == c;
      RemoveFirstAt(tail, c, i - 1);
      assert s[i + 1..] == tail[i..];
    }
  }

  /** When c occurs, RemoveFirst removes its first occurrence and nothing else. */
  lemma {:induction false} RemoveFirstContents(s: string, c: char)
    requires c in s
    ensures exists i :: 0 <= i < |s| && s[i] == c && c !in s[..i] && RemoveFirst(s, c) == s[..i] + s[i + 1..]
  {
    var i := FirstIndex(s, c);
    RemoveFirstAt(s, c, i);
  }

  /** The index of the first occurrence of c in s. */
  function FirstIndex(s: string, c: char): (i: nat)
    requires c in s
    ensures i < |s| && s[i] == c && c !in s[..i]
  {
    if s[0] == c then
      assert s[..0] == [];
      0
    else
      var tail := s[1..];
      assert c in tail by { var k :| 0 <= k < |s| && s[k] == c; assert tail[k - 1] == c; }
      var j := FirstIndex(tail, c);
      assert s[..j + 1] == [s[0]] + tail[..j];
      j + 1
  }
}
