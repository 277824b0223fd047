/** The behaviour of the few java.lang.String operations the dispatcher
    relies on: trim, isEmpty-after-trim, startsWith, indexOf, replace and
    split with a one-character literal separator. */
module JavaStrings {

  /** `String.trim` strips every leading and trailing character whose code
      is at most U+0020 (space and all control characters). */
  predicate IsWhite(c: char) {
    c <= ' '
  }

  function TrimStart(s: string): (r: string)
    ensures |r| <= |s|
  {
    if s != [] && IsWhite(s[0]) then TrimStart(s[1..]) else s
  }

  function TrimEnd(s: string): (r: string)
    ensures |r| <= |s|
  {
    if s != [] && IsWhite(s[|s| - 1]) then TrimEnd(s[..|s| - 1]) else s
  }

  /** TrimStart removes a white prefix and leaves a suffix that does not
      start with a white character. */
  lemma {:induction false} TrimStartSpec(s: string)
    ensures TrimStart(s) == s[|s| - |TrimStart(s)|..]
    ensures TrimStart(s) != [] ==> !IsWhite(TrimStart(s)[0])
    ensures forall i :: 0 <= i < |s| - |TrimStart(s)| ==> IsWhite(s[i])
    decreases |s|
  {
    if s != [] && IsWhite(s[0]) {
      TrimStartSpec(s[1..]);
      assert s[1..][|s| - 1 - |TrimStart(s)|..] == s[|s| - |TrimStart(s)|..];
      assert forall i :: 0 < i < |s| - |TrimStart(s)| ==> s[i] == s[1..][i - 1];
    }
  }

  /** TrimEnd removes a white suffix and leaves a prefix that does not end
      with a white character. */
  lemma {:induction false} TrimEndSpec(s: string)
    ensures TrimEnd(s) == s[..|TrimEnd(s)|]
    ensures TrimEnd(s) != [] ==> !IsWhite(TrimEnd(s)[|TrimEnd(s)| - 1])
    ensures forall i :: |TrimEnd(s)| <= i < |s| ==> IsWhite(s[i])
    decreases |s|
  {
    if s != [] && IsWhite(s[|s| - 1]) {
      TrimEndSpec(s[..|s| - 1]);
      assert s[..|s| - 1][..|TrimEnd(s)|] == s[..|TrimEnd(s)|];
      assert forall i :: |TrimEnd(s)| <= i < |s| - 1 ==> s[i] == s[..|s| - 1][i];
    }
  }

  /** `String.trim`: the slice of `s` left after removing a white prefix
      and a white suffix, with no white character left at either end. */
  function Trim(s: string): (r: string)
    ensures r != [] ==> !IsWhite(r[0]) && !IsWhite(r[|r| - 1])
  {
    TrimStartSpec(s);
    TrimEndSpec(TrimStart(s));
    TrimEnd(TrimStart(s))
  }

  /** What `trim` removes is a white prefix and a white suffix: the result
      is the slice of `s` between them. */
  lemma TrimSlice(s: string)
    ensures exists i, j :: (0 <= i <= j <= |s| && Trim(s) == s[i..j] &&
      (forall k :: 0 <= k < i ==> IsWhite(s[k])) && (forall k :: j <= k < |s| ==> IsWhite(s[k])))
  {
    var t := TrimStart(s);
    TrimStartSpec(s);
    TrimEndSpec(t);
    var i := |s| - |t|;
    var u := TrimEnd(t);
    assert u == s[i..i + |u|];
    assert forall k :: i + |u| <= k < |s| ==> s[k] == t[k - i];
  }

  /** `s.trim().isEmpty()`. */
  predicate IsBlank(s: string) {
    Trim(s) == ""
  }

  /** `String.startsWith`: `s` is `prefix` followed by something. */
  predicate StartsWith(s: string, prefix: string) {
    |prefix| <= |s| && s[..|prefix|] == prefix
  }

  /** `s` starts with `prefix` exactly when it is `prefix` followed by
      something. */
  lemma StartsWithConcat(s: string, prefix: string)
    ensures StartsWith(s, prefix) <==> exists rest :: s == prefix + rest
  {
    if StartsWith(s, prefix) {
      assert s == prefix + s[|prefix|..];
    }
  }

  /** Trimming is idempotent: a trimmed string has nothing left to strip. */
  lemma TrimIdempotent(s: string)
    ensures Trim(Trim(s)) == Trim(s)
  {
    TrimOfTrimmed(Trim(s));
  }

  /** A string is blank exactly when every one of its characters is white. */
  lemma BlankIffAllWhite(s: string)
    ensures IsBlank(s) <==> forall i :: 0 <= i < |s| ==> IsWhite(s[i])
  {
    var t := TrimStart(s);
    TrimStartSpec(s);
    TrimEndSpec(t);
    assert t != [] ==> t[0] == s[|s| - |t|];
    assert forall i :: |s| - |t| <= i < |s| ==> s[i] == t[i - (|s| - |t|)];
  }

  /** Trimming never removes a non-white first character. */
  lemma TrimKeepsFirst(s: string)
    requires s != [] && !IsWhite(s[0])
    ensures Trim(s) != [] && Trim(s)[0] == s[0]
  {
    TrimEndSpec(s);
  }

  /** Trimming a string that already has non-white ends leaves it as it is. */
  lemma TrimOfTrimmed(s: string)
    requires s != [] ==> !IsWhite(s[0]) && !IsWhite(s[|s| - 1])
    ensures Trim(s) == s
  {
    TrimEndSpec(s);
  }

  /** `String.indexOf(c)`: the first position of `c`, or -1. */
  function IndexOf(s: string, c: char): (r: int)
    ensures -1 <= r < |s|
    ensures r == -1 <==> c !in s
    ensures 0 <= r ==> s[r] == c && c !in s[..r]
  {
    if s == [] then -1
    else if s[0] == c then 0
    else
      var k := IndexOf(s[1..], c);
      assert s[1..][..k + 1] == s[1..k + 2] by { assert k + 2 <= |s| || k == -1; }
      if k == -1 then -1 else k + 1
  }

  /** The first position of `c` in `x + y`, when `x` does not contain it. */
  lemma {:induction false} IndexOfAfter(x: string, y: string, c: char)
    requires c !in x && c in y
    ensures IndexOf(x + y, c) == |x| + IndexOf(y, c)
    decreases |x|
  {
    if x != [] {
      assert (x + y)[1..] == x[1..] + y;
      assert c !in x[1..] by {
        assert forall i :: 0 <= i < |x| - 1 ==> x[1..][i] == x[i + 1];
      }
      IndexOfAfter(x[1..], y, c);
    } else {
      assert x + y == y;
    }
  }

  /** `String.replace(target, replacement)`: every non-overlapping
      occurrence of `target`, scanning left to right, is replaced. */
  function Replace(s: string, target: string, replacement: string): (r: string)
    requires target != ""
    decreases |s|
  {
    if |s| < |target| then s
    else if s[..|target|] == target then replacement + Replace(s[|target|..], target, replacement)
    else [s[0]] + Replace(s[1..], target, replacement)
  }

  /** Replacing brings in no character that is neither in `s` nor in the
      replacement, and replacing the target by itself changes nothing. */
  lemma {:induction false} ReplaceChars(s: string, target: string, replacement: string)
    requires target != ""
    ensures forall c :: c in Replace(s, target, replacement) ==> c in s || c in replacement
    ensures replacement == target ==> Replace(s, target, replacement) == s
    decreases |s|
  {
    if |s| >= |target| {
      if s[..|target|] == target {
        ReplaceChars(s[|target|..], target, replacement);
        assert s == s[..|target|] + s[|target|..];
        assert forall c :: c in s[|target|..] ==> c in s;
      } else {
        ReplaceChars(s[1..], target, replacement);
        assert s == [s[0]] + s[1..];
      }
    }
  }

  /** A string missing one of the target's characters has no occurrence of
      it, so replacing changes nothing. */
  lemma {:induction false} ReplaceAbsent(s: string, target: string, replacement: string, c: char)
    requires target != "" && c in target && c !in s
    ensures Replace(s, target, replacement) == s
    decreases |s|
  {
    if |s| >= |target| {
      var i :| 0 <= i < |target| && target[i] == c;
      assert s[..|target|][i] != c;
      assert forall j :: 0 <= j < |s| - 1 ==> s[1..][j] == s[j + 1];
      ReplaceAbsent(s[1..], target, replacement, c);
      assert [s[0]] + s[1..] == s;
    }
  }

  /** With no occurrence of the target starting anywhere in `s`, replacing
      changes nothing. */
  lemma {:induction false} ReplaceNoOccurrence(s: string, target: string, replacement: string)
    requires target != ""
    requires forall k :: 0 <= k < |s| ==> !StartsWith(s[k..], target)
    ensures Replace(s, target, replacement) == s
    decreases |s|
  {
    if |s| >= |target| {
      assert s[0..] == s;
      forall k | 0 <= k < |s[1..]|
        ensures !StartsWith(s[1..][k..], target)
      {
        assert s[1..][k..] == s[k + 1..];
      }
      ReplaceNoOccurrence(s[1..], target, replacement);
      assert [s[0]] + s[1..] == s;
    }
  }

  /** The leftmost occurrence is the one replaced: when none starts inside
      `x`, the target right after `x` becomes the replacement and the scan
      goes on after it. */
  lemma {:induction false} ReplaceAtOccurrence(x: string, target: string, y: string, replacement: string)
    requires target != ""
    requires forall k :: 0 <= k < |x| ==> !StartsWith((x + target + y)[k..], target)
    ensures Replace(x + target + y, target, replacement) == x + replacement + Replace(y, target, replacement)
    decreases |x|
  {
    var s := x + target + y;
    if x == [] {
      assert s[..|target|] == target;
      assert s[|target|..] == y;
    } else {
      assert s[..|target|] != target by {
        assert s[0..] == s;
      }
      assert Replace(s, target, replacement) == [s[0]] + Replace(s[1..], target, replacement);
      var x' := x[1..];
      assert s[1..] == x' + target + y;
      forall k | 0 <= k < |x'|
        ensures !StartsWith((x' + target + y)[k..], target)
      {
        assert (x' + target + y)[k..] == s[k + 1..];
      }
      ReplaceAtOccurrence(x', target, y, replacement);
      assert [s[0]] + (x' + replacement + Replace(y, target, replacement)) == x + replacement + Replace(y, target, replacement);
    }
  }

  /** The pieces joined back together with `sep` between consecutive ones. */
  function Join(parts: seq<string>, sep: char): string {
    if parts == [] then ""
    else if |parts| == 1 then parts[0]
    else parts[0] + [sep] + Join(parts[1..], sep)
  }

  /** The pieces of `s` between the occurrences of `sep`, empty ones
      included: joining them with `sep` gives `s` back. */
  function SplitAll(s: string, sep: char): (parts: seq<string>)
    ensures |parts| >= 1
    ensures forall i :: 0 <= i < |parts| ==> sep !in parts[i]
    decreases |s|
  {
    var k := IndexOf(s, sep);
    if k == -1 then [s] else [s[..k]] + SplitAll(s[k + 1..], sep)
  }

  /** Joining the pieces with the separator gives the string back. */
  lemma {:induction false} SplitAllJoin(s: string, sep: char)
    ensures Join(SplitAll(s, sep), sep) == s
    decreases |s|
  {
    var k := IndexOf(s, sep);
    if k == -1 {
      assert SplitAll(s, sep) == [s];
    } else {
      var rest := SplitAll(s[k + 1..], sep);
      assert SplitAll(s, sep) == [s[..k]] + rest;
      SplitAllJoin(s[k + 1..], sep);
      JoinCons(s[..k], rest, sep);
      assert s == s[..k] + [sep] + s[k + 1..];
    }
  }

  /** Joining a piece in front of at least one more puts the separator
      between them. */
  lemma JoinCons(head: string, rest: seq<string>, sep: char)
    requires rest != []
    ensures Join([head] + rest, sep) == head + [sep] + Join(rest, sep)
  {
    assert ([head] + rest)[1..] == rest;
  }

  /** The pieces with every trailing empty piece removed. */
  function DropTrailingEmpty(parts: seq<string>): (r: seq<string>)
    ensures |r| <= |parts| && r == parts[..|r|]
    ensures forall k :: |r| <= k < |parts| ==> parts[k] == ""
    ensures r != [] ==> r[|r| - 1] != ""
  {
    if parts != [] && parts[|parts| - 1] == "" then
      var r := DropTrailingEmpty(parts[..|parts| - 1]);
      assert forall k :: |r| <= k < |parts| - 1 ==> parts[..|parts| - 1][k] == parts[k];
      r
    else parts
  }

  /** `String.split(",")` for a one-character literal separator: a string
      without the separator is returned whole; otherwise the pieces between
      separators, with the trailing empty pieces (and only those) removed. */
  function Split(s: string, sep: char): (parts: seq<string>)
    ensures forall i :: 0 <= i < |parts| ==> sep !in parts[i]
    ensures sep !in s ==> parts == [s]
  {
    if sep !in s then [s] else DropTrailingEmpty(SplitAll(s, sep))
  }

  /** With the separator present, `split` keeps the pieces of `SplitAll` up
      to the last non-empty one: what it drops is empty, and it never ends
      with an empty piece. */
  lemma SplitDropsTrailingEmpty(s: string, sep: char)
    requires sep in s
    ensures var parts, all := Split(s, sep), SplitAll(s, sep);
      && |parts| <= |all| && parts == all[..|parts|]
      && (forall k :: |parts| <= k < |all| ==> all[k] == "")
      && (parts != [] ==> parts[|parts| - 1] != "")
  {
  }

  /** Splitting `a,b` where neither piece holds the separator gives the two pieces. */
  lemma SplitPair(a: string, b: string, sep: char)
    requires sep !in a && sep !in b && b != ""
    ensures Split(a + [sep] + b, sep) == [a, b]
  {
    var s := a + [sep] + b;
    IndexOfAfter(a, [sep] + b, sep);
    assert s == a + ([sep] + b);
    assert IndexOf(s, sep) == |a|;
    assert s[..|a|] == a;
    assert s[|a| + 1..] == b;
    assert SplitAll(s, sep) == [a] + SplitAll(b, sep);
  }
}
