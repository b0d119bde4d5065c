/**
 * The string methods the cookie code uses: `split` on a one-character
 * separator, `join`, and `trim` with JavaScript's notion of white space.
 */
module Strings {

  /** WhiteSpace and LineTerminator code points that `String.prototype.trim` strips. */
  predicate IsJsSpace(c: char)
  {
    || c == '\t' || c == '\n' || c == '\U{000B}' || c == '\U{000C}' || c == '\r' || c == ' '
    || c == '\U{00A0}' || c == '\U{1680}' || ('\U{2000}' <= c <= '\U{200A}')
    || c == '\U{2028}' || c == '\U{2029}' || c == '\U{202F}' || c == '\U{205F}'
    || c == '\U{3000}' || c == '\U{FEFF}'
  }

  /** `parts.join(sep)`. */
  function Join(parts: seq<string>, sep: string): string
  {
    if |parts| == 0 then ""
    else if |parts| == 1 then parts[0]
    else parts[0] + sep + Join(parts[1..], sep)
  }

  /** `s.split(sep)` for a one-character separator: never empty, and joins back to `s`. */
  function Split(s: string, sep: char): (parts: seq<string>)
    ensures |parts| >= 1
    ensures forall i :: 0 <= i < |parts| ==> sep !in parts[i]
    ensures Join(parts, [sep]) == s
    decreases |s|
  {
    if s == [] then [""]
    else
      var rest := Split(s[1..], sep);
      if s[0] == sep then
        assert Join([""] + rest, [sep]) == [sep] + Join(rest, [sep]) by {
          assert ([""] + rest)[1..] == rest;
        }
        [""] + rest
      else
        var parts := [[s[0]] + rest[0]] + rest[1..];
        assert Join(parts, [sep]) == [s[0]] + Join(rest, [sep]) by {
          if |rest| > 1 {
            assert parts[1..] == rest[1..];
          }
        }
        assert s == [s[0]] + s[1..];
        parts
  }

  /** A string without the separator splits into itself alone. */
  lemma {:induction false} SplitNone(s: string, sep: char)
    requires sep !in s
    ensures Split(s, sep) == [s]
    decreases |s|
  {
    if s != [] {
      SplitNone(s[1..], sep);
    }
  }

  /** Splitting `p + sep + t`, where `p` has no separator, yields `p` then the pieces of `t`. */
  lemma {:induction false} SplitCons(p: string, sep: char, t: string)
    requires sep !in p
    ensures Split(p + [sep] + t, sep) == [p] + Split(t, sep)
    decreases |p|
  {
    if p == [] {
      assert p + [sep] + t == [sep] + t;
      assert ([sep] + t)[1..] == t;
    } else {
      SplitCons(p[1..], sep, t);
      assert (p + [sep] + t)[1..] == p[1..] + [sep] + t;
      assert [p[0]] + p[1..] == p;
    }
  }

  /** Each part with `pad` put in front. */
  function Prefixed(pad: string, parts: seq<string>): (r: seq<string>)
    ensures |r| == |parts|
  {
    if parts == [] then [] else [pad + parts[0]] + Prefixed(pad, parts[1..])
  }

  lemma PrefixedCons(pad: string, part: string, parts: seq<string>)
    ensures Prefixed(pad, [part] + parts) == [pad + part] + Prefixed(pad, parts)
  {
    assert ([part] + parts)[1..] == parts;
  }

  /**
   * Splitting `head` followed by parts joined with `sep` and `pad` on `sep`
   * gives the first part after `head`, then every later part after `pad`.
   */
  lemma {:induction false} SplitJoinFrom(head: string, parts: seq<string>, sep: char, pad: string)
    requires |parts| >= 1 && sep !in head && sep !in pad
    requires forall i :: 0 <= i < |parts| ==> sep !in parts[i]
    ensures Split(head + Join(parts, [sep] + pad), sep) == [head + parts[0]] + Prefixed(pad, parts[1..])
    decreases |parts|
  {
    if |parts| == 1 {
      SplitNone(head + parts[0], sep);
    } else {
      var rest := Join(parts[1..], [sep] + pad);
      assert head + Join(parts, [sep] + pad) == (head + parts[0]) + [sep] + (pad + rest);
      SplitCons(head + parts[0], sep, pad + rest);
      SplitJoinFrom(pad, parts[1..], sep, pad);
      assert parts[1..][1..] == parts[2..];
    }
  }

  /** `parts.join(sep + pad).split(sep)`: the first part, then the others behind `pad`. */
  lemma SplitJoin(parts: seq<string>, sep: char, pad: string)
    requires |parts| >= 1 && sep !in pad
    requires forall i :: 0 <= i < |parts| ==> sep !in parts[i]
    ensures Split(Join(parts, [sep] + pad), sep) == [parts[0]] + Prefixed(pad, parts[1..])
  {
    SplitJoinFrom("", parts, sep, pad);
    assert "" + Join(parts, [sep] + pad) == Join(parts, [sep] + pad);
    assert "" + parts[0] == parts[0];
  }

  /** A join of non-empty parts starts as the first part does and ends as the last part does. */
  lemma {:induction false} JoinEnds(parts: seq<string>, sep: string)
    requires |parts| >= 1 && forall i :: 0 <= i < |parts| ==> parts[i] != []
    ensures var j := Join(parts, sep);
      j != [] && j[0] == parts[0][0] && j[|j| - 1] == parts[|parts| - 1][|parts[|parts| - 1]| - 1]
    decreases |parts|
  {
    if |parts| > 1 {
      JoinEnds(parts[1..], sep);
    }
  }

  /** `s.trimStart()`: the longest suffix of `s` not starting with white space. */
  function TrimStart(s: string): (r: string)
    ensures |r| <= |s| && r == s[|s| - |r|..]
    ensures forall i :: 0 <= i < |s| - |r| ==> IsJsSpace(s[i])
    ensures r == [] || !IsJsSpace(r[0])
    decreases |s|
  {
    if s != [] && IsJsSpace(s[0]) then TrimStart(s[1..]) else s
  }

  /** `s.trimEnd()`: the longest prefix of `s` not ending with white space. */
  function TrimEnd(s: string): (r: string)
    ensures |r| <= |s| && r == s[..|r|]
    ensures forall i :: |r| <= i < |s| ==> IsJsSpace(s[i])
    ensures r == [] || !IsJsSpace(r[|r| - 1])
    decreases |s|
  {
    if s != [] && IsJsSpace(s[|s| - 1]) then TrimEnd(s[..|s| - 1]) else s
  }

  /** Neither end of `s` is white space. */
  predicate Trimmed(s: string)
  {
    s == [] || (!IsJsSpace(s[0]) && !IsJsSpace(s[|s| - 1]))
  }

  /** `s.trim()`: no white space at either end, and a string already so is left as it is. */
  function Trim(s: string): (r: string)
    ensures Trimmed(r)
    ensures Trimmed(s) ==> r == s
  {
    var a := TrimStart(s);
    var r := TrimEnd(a);
    assert r != [] ==> r[0] == a[0];
    r
  }

  /**
   * What `trim` removes is exactly the white space at the two ends: the result
   * is the slice of `s` between a run of leading and a run of trailing white space.
   */
  lemma {:induction false} TrimSlice(s: string) returns (i: nat)
    ensures i + |Trim(s)| <= |s| && Trim(s) == s[i..i + |Trim(s)|]
    ensures forall k :: 0 <= k < i ==> IsJsSpace(s[k])
    ensures forall k :: i + |Trim(s)| <= k < |s| ==> IsJsSpace(s[k])
  {
    var a := TrimStart(s);
    i := |s| - |a|;
    var r := TrimEnd(a);
    assert Trim(s) == r;
    SliceOfSuffix(s, a, r, i);
  }

  /** A prefix `r` of the suffix `a` of `s` that starts at `i`, followed in `a` only by white space. */
  lemma SliceOfSuffix(s: string, a: string, r: string, i: nat)
    requires i <= |s| && a == s[i..] && |r| <= |a| && r == a[..|r|]
    requires forall j :: |r| <= j < |a| ==> IsJsSpace(a[j])
    ensures i + |r| <= |s| && r == s[i..i + |r|]
    ensures forall k :: i + |r| <= k < |s| ==> IsJsSpace(s[k])
  {
    forall k | i + |r| <= k < |s|
      ensures IsJsSpace(s[k])
    {
      assert s[k] == a[k - i];
    }
  }

  /** One space before a trimmed, non-empty word is all `trim` removes. */
  lemma TrimSpace(word: string)
    requires word != [] && Trimmed(word)
    ensures Trim(" " + word) == word
  {
    assert (" " + word)[1..] == word;
    assert TrimStart(" " + word) == word;
  }
}
