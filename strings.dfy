/** JavaScript's `String.prototype.split` and `Array.prototype.join` for a
    non-empty string separator, as the translation lookup (split on ".") and
    the service multi-select (split and join on ", ") use them. */
module Strings {

  /** `s` begins with `sep`. */
  predicate StartsWith(s: string, sep: string) {
    |sep| <= |s| && s[..|sep|] == sep
  }

  /** `sep` occurs nowhere in `s`. */
  predicate Free(s: string, sep: string) {
    forall j | 0 <= j <= |s| :: !StartsWith(s[j..], sep)
  }

  /** No proper prefix of `sep` is also a suffix of it, so two occurrences of
      `sep` can never overlap (true of "." and of ", "). */
  predicate BorderFree(sep: string) {
    forall k | 0 < k < |sep| :: sep[..k] != sep[|sep| - k..]
  }

  /** No occurrence of `sep` starts inside `a` and runs on into a `sep` placed
      right after `a`. */
  predicate NoStraddle(a: string, sep: string) {
    forall j | 0 <= j < |a| && |a| - j < |sep| :: !StartsWith(a[j..] + sep, sep)
  }

  /** Scans `s` left to right; `cur` is the part of the current segment read
      so far. Every occurrence of `sep` closes a segment and is skipped. */
  function SplitFrom(s: string, sep: string, cur: string): (parts: seq<string>)
    requires sep != ""
    ensures |parts| >= 1
    decreases |s|
  {
    if s == [] then [cur]
    else if StartsWith(s, sep) then [cur] + SplitFrom(s[|sep|..], sep, "")
    else SplitFrom(s[1..], sep, cur + [s[0]])
  }

  /** `s.split(sep)`: "" splits to [""], and "a..b" on "." to ["a", "", "b"]. */
  function Split(s: string, sep: string): (parts: seq<string>)
    requires sep != ""
    ensures |parts| >= 1
    ensures Join(parts, sep) == s
  {
    JoinSplitFrom(s, sep, "");
    SplitFrom(s, sep, "")
  }

  /** `parts.join(sep)`: the first part, then each further part after a
      separator. */
  function Join(parts: seq<string>, sep: string): (joined: string)
    ensures parts != [] ==> StartsWith(joined, parts[0])
    ensures forall i | 0 <= i < |parts| :: |parts[i]| <= |joined|
    decreases |parts|
  {
    if parts == [] then ""
    else if |parts| == 1 then parts[0]
    else parts[0] + sep + Join(parts[1..], sep)
  }

  lemma {:induction false} JoinSplitFrom(s: string, sep: string, cur: string)
    requires sep != ""
    ensures Join(SplitFrom(s, sep, cur), sep) == cur + s
    decreases |s|
  {
    if s == [] {
    } else if StartsWith(s, sep) {
      var rest := s[|sep|..];
      JoinSplitFrom(rest, sep, "");
      assert s == sep + rest;
      var tail := SplitFrom(rest, sep, "");
      assert ([cur] + tail)[1..] == tail;
    } else {
      JoinSplitFrom(s[1..], sep, cur + [s[0]]);
      assert s == [s[0]] + s[1..];
    }
  }

  lemma {:induction false} SplitFromFree(s: string, sep: string, cur: string)
    requires sep != "" && Free(s, sep)
    ensures SplitFrom(s, sep, cur) == [cur + s]
    decreases |s|
  {
    if s != [] {
      assert s[0..] == s;
      assert !StartsWith(s, sep);
      forall j | 0 <= j <= |s| - 1 ensures !StartsWith(s[1..][j..], sep) {
        assert s[1..][j..] == s[j + 1..];
      }
      SplitFromFree(s[1..], sep, cur + [s[0]]);
      assert SplitFrom(s, sep, cur) == SplitFrom(s[1..], sep, cur + [s[0]]);
      assert cur + [s[0]] + s[1..] == cur + s;
    } else {
      assert cur + s == cur;
    }
  }

  /** A string without the separator splits into itself alone. */
  lemma SplitFree(s: string, sep: string)
    requires sep != "" && Free(s, sep)
    ensures Split(s, sep) == [s]
  {
    SplitFromFree(s, sep, "");
    assert "" + s == s;
  }

  /** An occurrence of `sep` that starts `t` characters before the end of
      `a` and runs into a following `sep` makes the last `|sep| - t`
      characters of `sep` equal to its first `|sep| - t`. */
  lemma StraddleIsBorder(a: string, sep: string, j: int)
    requires 0 <= j < |a| && |a| - j < |sep|
    ensures StartsWith(a[j..] + sep, sep) ==>
              sep[..|sep| - (|a| - j)] == sep[|sep| - (|sep| - (|a| - j))..]
  {
    var t := |a| - j;
    var u := a[j..] + sep;
    var k := |sep| - t;
    if StartsWith(u, sep) {
      forall i | 0 <= i < k ensures sep[..k][i] == sep[|sep| - k..][i] {
        calc {
          sep[..k][i];
          u[i];
          sep[t + i];
        }
      }
    }
  }

  /** A border-free separator cannot straddle the end of any string. */
  lemma BorderFreeNoStraddle(a: string, sep: string)
    requires BorderFree(sep)
    ensures NoStraddle(a, sep)
  {
    forall j | 0 <= j < |a| && |a| - j < |sep|
      ensures !StartsWith(a[j..] + sep, sep)
    {
      StraddleIsBorder(a, sep, j);
    }
  }

  /** With no straddling occurrence, `a + sep + b` begins with `sep` exactly
      when the non-empty `a` does. */
  lemma StartsWithConcat(a: string, b: string, sep: string)
    requires sep != "" && a != [] && NoStraddle(a, sep)
    ensures StartsWith(a + sep + b, sep) <==> StartsWith(a, sep)
  {
    var s := a + sep + b;
    if |a| >= |sep| {
      assert s[..|sep|] == a[..|sep|];
    } else {
      assert a[0..] == a;
      assert !StartsWith(a + sep, sep);
      assert (a + sep)[..|sep|] == s[..|sep|];
    }
  }

  lemma {:induction false} SplitFromConcat(a: string, b: string, sep: string, cur: string)
    requires sep != "" && NoStraddle(a, sep)
    ensures SplitFrom(a + sep + b, sep, cur) == SplitFrom(a, sep, cur) + Split(b, sep)
    decreases |a|
  {
    var s := a + sep + b;
    if a == [] {
      assert s == sep + b;
      assert StartsWith(s, sep);
      assert s[|sep|..] == b;
    } else if StartsWith(a, sep) {
      StartsWithConcat(a, b, sep);
      var a' := a[|sep|..];
      assert s[|sep|..] == a' + sep + b;
      forall j | 0 <= j < |a'| && |a'| - j < |sep|
        ensures !StartsWith(a'[j..] + sep, sep)
      {
        assert a'[j..] == a[j + |sep|..];
      }
      SplitFromConcat(a', b, sep, "");
    } else {
      StartsWithConcat(a, b, sep);
      var a' := a[1..];
      assert s[1..] == a' + sep + b;
      forall j | 0 <= j < |a'| && |a'| - j < |sep|
        ensures !StartsWith(a'[j..] + sep, sep)
      {
        assert a'[j..] == a[j + 1..];
      }
      SplitFromConcat(a', b, sep, cur + [a[0]]);
    }
  }

  /** Splitting `a + sep + b` splits `a` and `b` apart when `sep` cannot
      overlap itself. */
  lemma SplitConcat(a: string, b: string, sep: string)
    requires sep != "" && BorderFree(sep)
    ensures Split(a + sep + b, sep) == Split(a, sep) + Split(b, sep)
  {
    BorderFreeNoStraddle(a, sep);
    SplitFromConcat(a, b, sep, "");
  }

  /** Splitting a join of separator-free parts gives the parts back. */
  lemma {:induction false} SplitJoin(parts: seq<string>, sep: string)
    requires sep != "" && BorderFree(sep) && parts != []
    requires forall i | 0 <= i < |parts| :: Free(parts[i], sep)
    ensures Split(Join(parts, sep), sep) == parts
    decreases |parts|
  {
    if |parts| == 1 {
      SplitFree(parts[0], sep);
    } else {
      SplitJoin(parts[1..], sep);
      SplitConcat(parts[0], Join(parts[1..], sep), sep);
      SplitFree(parts[0], sep);
      assert parts == [parts[0]] + parts[1..];
    }
  }

  /** Appending a part appends the separator and the part. */
  lemma {:induction false} JoinSnoc(parts: seq<string>, last: string, sep: string)
    requires parts != []
    ensures Join(parts + [last], sep) == Join(parts, sep) + sep + last
    decreases |parts|
  {
    if |parts| == 1 {
      assert parts + [last] == [parts[0], last];
    } else {
      JoinSnoc(parts[1..], last, sep);
      assert (parts + [last])[1..] == parts[1..] + [last];
    }
  }
}
