/**
 * The parts of Python's `str` that the recipe generator relies on:
 * `strip()`, `split(sep)` with a one-character separator and `sep.join(parts)`.
 */
module Text {

  /** The characters for which Python's `str.isspace()` holds: the ASCII
      whitespace and separator controls, plus the Unicode space characters. */
  const Whitespace: set<char> := {
    ' ', '\t', '\n', '\r', '\U{000B}', '\U{000C}',
    '\U{001C}', '\U{001D}', '\U{001E}', '\U{001F}', '\U{0085}', '\U{00A0}', '\U{1680}',
    '\U{2000}', '\U{2001}', '\U{2002}', '\U{2003}', '\U{2004}', '\U{2005}',
    '\U{2006}', '\U{2007}', '\U{2008}', '\U{2009}', '\U{200A}',
    '\U{2028}', '\U{2029}', '\U{202F}', '\U{205F}', '\U{3000}'
  }

  predicate IsSpace(c: char)
  {
    c in Whitespace
  }

  predicate AllSpace(s: string)
  {
    forall i :: 0 <= i < |s| ==> IsSpace(s[i])
  }

  /** The index of the first non-whitespace character of `s` at or after
      `from`, or `|s|` when there is none. */
  function FirstNonSpace(s: string, from: nat): (n: nat)
    requires from <= |s|
    ensures from <= n <= |s|
    ensures forall i :: from <= i < n ==> IsSpace(s[i])
    ensures n < |s| ==> !IsSpace(s[n])
    decreases |s| - from
  {
    if from == |s| || !IsSpace(s[from]) then from else FirstNonSpace(s, from + 1)
  }

  /** The end of `s[lo..hi]` once its trailing whitespace is dropped. */
  function TrailingSpaceStart(s: string, lo: nat, hi: nat): (m: nat)
    requires lo <= hi <= |s|
    ensures lo <= m <= hi
    ensures forall i :: m <= i < hi ==> IsSpace(s[i])
    ensures m > lo ==> !IsSpace(s[m - 1])
    decreases hi - lo
  {
    if hi == lo || !IsSpace(s[hi - 1]) then hi else TrailingSpaceStart(s, lo, hi - 1)
  }

  /** `s` is `lead + r + tail` with `lead` and `tail` all whitespace and
      `r` neither starting nor ending with whitespace. */
  ghost predicate TrimmedAt(s: string, a: nat, r: string)
  {
    && a + |r| <= |s|
    && s[a..a + |r|] == r
    && AllSpace(s[..a])
    && AllSpace(s[a + |r|..])
    && (r != [] ==> !IsSpace(r[0]) && !IsSpace(r[|r| - 1]))
  }

  /** `s.strip()`: `s` without its leading and trailing whitespace, that
      is, the piece of `s` after its leading whitespace and before its
      trailing whitespace. It is empty exactly when `s` is all whitespace. */
  function Strip(s: string): (r: string)
    ensures TrimmedAt(s, FirstNonSpace(s, 0), r)
    ensures r == [] <==> AllSpace(s)
  {
    var a := FirstNonSpace(s, 0);
    var b := TrailingSpaceStart(s, a, |s|);
    assert a < |s| ==> a < b;
    s[a..b]
  }

  /** Stripping has one answer: whenever `s` is whitespace, then `r`, then
      whitespace, with `r` not starting or ending with whitespace, `r` is
      `s.strip()`. */
  lemma StripIsUnique(s: string, a: nat, r: string)
    requires TrimmedAt(s, a, r)
    ensures r == Strip(s)
  {
    var a0 := FirstNonSpace(s, 0);
    var r0 := Strip(s);
    if r == [] {
      assert forall i :: 0 <= i < |s| ==> IsSpace(s[i]) by {
        forall i | 0 <= i < |s| ensures IsSpace(s[i]) {
          if i < a { assert s[..a][i] == s[i]; }
          else { assert s[a..][i - a] == s[i]; }
        }
      }
    } else {
      assert s[a] == r[0];
      assert forall i :: 0 <= i < a ==> IsSpace(s[i]) by {
        forall i | 0 <= i < a ensures IsSpace(s[i]) { assert s[..a][i] == s[i]; }
      }
      assert a0 == a;
      assert r0 != [];
      var e, e0 := a + |r|, a0 + |r0|;
      assert s[e - 1] == r[|r| - 1];
      assert s[e0 - 1] == r0[|r0| - 1];
    }
  }

  /** Python's `not s.strip()`: by the contract of `Strip`, the stripped
      text is empty exactly when `s` is all whitespace. */
  predicate Blank(s: string)
  {
    AllSpace(s)
  }

  /** `sep.join(parts)`. */
  function Join(parts: seq<string>, sep: string): (r: string)
  {
    if |parts| == 0 then ""
    else if |parts| == 1 then parts[0]
    else parts[0] + sep + Join(parts[1..], sep)
  }

  /** Where `parts[i]` starts inside `Join(parts, sep)`: after the first
      part and a separator, at its place in the join of the rest. */
  function JoinOffset(parts: seq<string>, sep: string, i: nat): nat
    requires i <= |parts|
  {
    if i == 0 then 0 else |parts[0]| + |sep| + JoinOffset(parts[1..], sep, i - 1)
  }

  /** Consecutive parts are one part and one separator apart. */
  lemma {:induction false} JoinOffsetStep(parts: seq<string>, sep: string, i: nat)
    requires i < |parts|
    ensures JoinOffset(parts, sep, i + 1) == JoinOffset(parts, sep, i) + |parts[i]| + |sep|
  {
    if i > 0 {
      JoinOffsetStep(parts[1..], sep, i - 1);
    }
  }

  /** Each character of a part is the character of the joined text at the
      part's offset. */
  lemma {:induction false} JoinCharAt(parts: seq<string>, sep: string, i: nat, k: nat)
    requires i < |parts| && k < |parts[i]|
    ensures JoinOffset(parts, sep, i) + k < |Join(parts, sep)|
    ensures Join(parts, sep)[JoinOffset(parts, sep, i) + k] == parts[i][k]
  {
    if i > 0 {
      var head := parts[0] + sep;
      assert Join(parts, sep) == head + Join(parts[1..], sep);
      JoinCharAt(parts[1..], sep, i - 1, k);
    }
  }

  /** Each character of the separator after part `i` (not the last) is the
      character of the joined text right after that part. */
  lemma {:induction false} JoinSepCharAt(parts: seq<string>, sep: string, i: nat, k: nat)
    requires i + 1 < |parts| && k < |sep|
    ensures JoinOffset(parts, sep, i) + |parts[i]| + k < |Join(parts, sep)|
    ensures Join(parts, sep)[JoinOffset(parts, sep, i) + |parts[i]| + k] == sep[k]
  {
    var head := parts[0] + sep;
    assert Join(parts, sep) == head + Join(parts[1..], sep);
    if i > 0 {
      JoinSepCharAt(parts[1..], sep, i - 1, k);
    }
  }

  /** The last part ends the joined text. */
  lemma {:induction false} JoinEnd(parts: seq<string>, sep: string)
    requires parts != []
    ensures JoinOffset(parts, sep, |parts| - 1) + |parts[|parts| - 1]| == |Join(parts, sep)|
  {
    if |parts| > 1 {
      JoinEnd(parts[1..], sep);
    }
  }

  /** The joined text is exactly the parts, in order, each at its offset,
      with `sep` between consecutive parts and nothing after the last one. */
  lemma JoinAt(parts: seq<string>, sep: string, i: nat)
    requires i < |parts|
    ensures JoinOffset(parts, sep, i) + |parts[i]| <= |Join(parts, sep)|
    ensures Join(parts, sep)[JoinOffset(parts, sep, i)..JoinOffset(parts, sep, i) + |parts[i]|] == parts[i]
    ensures i + 1 < |parts| ==>
              var e := JoinOffset(parts, sep, i) + |parts[i]|;
              && e + |sep| <= |Join(parts, sep)|
              && Join(parts, sep)[e..e + |sep|] == sep
              && JoinOffset(parts, sep, i + 1) == e + |sep|
    ensures i + 1 == |parts| ==> JoinOffset(parts, sep, i) + |parts[i]| == |Join(parts, sep)|
  {
    JoinEnd(parts, sep);
    JoinPartAt(parts, sep, i);
    if i + 1 < |parts| {
      JoinSepAt(parts, sep, i);
      JoinOffsetStep(parts, sep, i);
    }
  }

  lemma JoinPartAt(parts: seq<string>, sep: string, i: nat)
    requires i < |parts|
    ensures JoinOffset(parts, sep, i) + |parts[i]| <= |Join(parts, sep)|
    ensures Join(parts, sep)[JoinOffset(parts, sep, i)..JoinOffset(parts, sep, i) + |parts[i]|] == parts[i]
  {
    var j := Join(parts, sep);
    var o := JoinOffset(parts, sep, i);
    JoinOffsetBelowEnd(parts, sep, i);
    forall k | 0 <= k < |parts[i]|
      ensures j[o + k] == parts[i][k]
    {
      JoinCharAt(parts, sep, i, k);
    }
    SliceFromChars(j, o, parts[i]);
  }

  lemma JoinSepAt(parts: seq<string>, sep: string, i: nat)
    requires i + 1 < |parts|
    ensures JoinOffset(parts, sep, i) + |parts[i]| + |sep| <= |Join(parts, sep)|
    ensures Join(parts, sep)[JoinOffset(parts, sep, i) + |parts[i]|..JoinOffset(parts, sep, i) + |parts[i]| + |sep|] == sep
  {
    var j := Join(parts, sep);
    var e := JoinOffset(parts, sep, i) + |parts[i]|;
    JoinOffsetBelowEnd(parts, sep, i + 1);
    JoinOffsetStep(parts, sep, i);
    forall k | 0 <= k < |sep|
      ensures j[e + k] == sep[k]
    {
      JoinSepCharAt(parts, sep, i, k);
    }
    SliceFromChars(j, e, sep);
  }

  /** A text holds `t` at offset `o` when it agrees with `t` character by
      character there. */
  lemma SliceFromChars(s: string, o: nat, t: string)
    requires o + |t| <= |s|
    requires forall k :: 0 <= k < |t| ==> s[o + k] == t[k]
    ensures s[o..o + |t|] == t
  {
  }

  /** Every part, with what follows it, fits inside the joined text. */
  lemma {:induction false} JoinOffsetBelowEnd(parts: seq<string>, sep: string, i: nat)
    requires i < |parts|
    ensures JoinOffset(parts, sep, i) + |parts[i]| <= |Join(parts, sep)|
  {
    if i > 0 {
      JoinOffsetBelowEnd(parts[1..], sep, i - 1);
    }
  }

  /** `s.split(sep)` for a one-character separator: never empty, no piece
      holds the separator, and joining the pieces back gives `s`. */
  function Split(s: string, sep: char): (r: seq<string>)
    ensures |r| >= 1
    ensures forall i :: 0 <= i < |r| ==> sep !in r[i]
    ensures Join(r, [sep]) == s
  {
    if s == [] then [""]
    else
      var rest := Split(s[1..], sep);
      if s[0] == sep then
        assert s == [sep] + s[1..];
        [""] + rest
      else
        var r := [[s[0]] + rest[0]] + rest[1..];
        assert r[1..] == rest[1..];
        assert s == [s[0]] + s[1..];
        r
  }

  lemma {:induction false} SplitWithoutSep(s: string, sep: char)
    requires sep !in s
    ensures Split(s, sep) == [s]
  {
    if s != [] {
      SplitWithoutSep(s[1..], sep);
    }
  }

  lemma {:induction false} SplitAfterFirstSep(a: string, sep: char, b: string)
    requires sep !in a
    ensures Split(a + [sep] + b, sep) == [a] + Split(b, sep)
  {
    var s := a + [sep] + b;
    if a == [] {
      assert s[1..] == b;
    } else {
      assert s[1..] == a[1..] + [sep] + b;
      SplitAfterFirstSep(a[1..], sep, b);
      assert [a[0]] + a[1..] == a;
    }
  }

  /** `Split` undoes `Join` when no part holds the separator. */
  lemma {:induction false} SplitJoin(parts: seq<string>, sep: char)
    requires |parts| >= 1
    requires forall i :: 0 <= i < |parts| ==> sep !in parts[i]
    ensures Split(Join(parts, [sep]), sep) == parts
  {
    if |parts| == 1 {
      SplitWithoutSep(parts[0], sep);
    } else {
      SplitJoin(parts[1..], sep);
      SplitAfterFirstSep(parts[0], sep, Join(parts[1..], [sep]));
      assert [parts[0]] + parts[1..] == parts;
    }
  }
}
