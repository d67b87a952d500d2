/**
  The two functions of Node's POSIX `path` module that the handler uses to
  name derivatives: `basename(path, suffix)` and `extname(path)`. Both work on
  the last segment of a path, after any run of trailing '/' is ignored.
 */
module PosixPath {

  const SEPARATOR: char := '/'

  /** Two strings compared character by character, from the first. */
  predicate SameText(a: string, b: string)
    decreases |a|
  {
    |a| == |b| && (|a| == 0 || (a[0] == b[0] && SameText(a[1..], b[1..])))
  }

  /** The character-by-character comparison is string equality. */
  lemma {:induction false} SameTextIsEquality(a: string, b: string)
    ensures SameText(a, b) <==> a == b
    decreases |a|
  {
    if |a| != 0 && |a| == |b| {
      SameTextIsEquality(a[1..], b[1..]);
      assert a == [a[0]] + a[1..] && b == [b[0]] + b[1..];
    }
  }

  predicate NoSeparator(s: string) {
    forall i :: 0 <= i < |s| ==> s[i] != SEPARATOR
  }

  /** `p` without its run of trailing separators. */
  function TrimTrailing(p: string): (t: string)
    ensures |t| <= |p|
    decreases |p|
  {
    if |p| > 0 && p[|p| - 1] == SEPARATOR then TrimTrailing(p[..|p| - 1]) else p
  }

  /** What `TrimTrailing` removes is a run of separators at the end, and what it keeps does not end with one. */
  lemma {:induction false} TrimTrailingShape(p: string)
    ensures TrimTrailing(p) == p[..|TrimTrailing(p)|]
    ensures TrimTrailing(p) == [] || TrimTrailing(p)[|TrimTrailing(p)| - 1] != SEPARATOR
    ensures forall i :: |TrimTrailing(p)| <= i < |p| ==> p[i] == SEPARATOR
    decreases |p|
  {
    if |p| > 0 && p[|p| - 1] == SEPARATOR {
      var init := p[..|p| - 1];
      TrimTrailingShape(init);
      var t := TrimTrailing(init);
      assert init[..|t|] == p[..|t|];
      forall i | |t| <= i < |p| ensures p[i] == SEPARATOR {
        if i < |init| { assert p[i] == init[i]; }
      }
    }
  }

  /** The part of `t` after its last separator (all of `t` when it has none). */
  function AfterLastSeparator(t: string): (c: string)
    ensures |c| <= |t|
    decreases |t|
  {
    if |t| == 0 || t[|t| - 1] == SEPARATOR then [] else AfterLastSeparator(t[..|t| - 1]) + [t[|t| - 1]]
  }

  /** `AfterLastSeparator` keeps an end of `t` that has no separator and is preceded by one, or is all of `t`. */
  lemma AfterLastSeparatorShape(t: string)
    ensures AfterLastSeparator(t) == t[|t| - |AfterLastSeparator(t)|..]
    ensures NoSeparator(AfterLastSeparator(t))
    ensures |AfterLastSeparator(t)| < |t| ==> t[|t| - |AfterLastSeparator(t)| - 1] == SEPARATOR
  {
    AfterLastSeparatorIsEnd(t);
    AfterLastSeparatorHasNone(t);
    AfterLastSeparatorFollowsOne(t);
  }

  lemma {:induction false} AfterLastSeparatorIsEnd(t: string)
    ensures AfterLastSeparator(t) == t[|t| - |AfterLastSeparator(t)|..]
    decreases |t|
  {
    if |t| != 0 && t[|t| - 1] != SEPARATOR {
      var init := t[..|t| - 1];
      AfterLastSeparatorIsEnd(init);
      var c0 := AfterLastSeparator(init);
      assert init[|init| - |c0|..] + [t[|t| - 1]] == t[|t| - |c0| - 1..];
    }
  }

  lemma {:induction false} AfterLastSeparatorHasNone(t: string)
    ensures NoSeparator(AfterLastSeparator(t))
    decreases |t|
  {
    if |t| != 0 && t[|t| - 1] != SEPARATOR {
      var init := t[..|t| - 1];
      AfterLastSeparatorHasNone(init);
      NoSeparatorConcat(AfterLastSeparator(init), [t[|t| - 1]]);
    }
  }

  lemma {:induction false} AfterLastSeparatorFollowsOne(t: string)
    ensures |AfterLastSeparator(t)| < |t| ==> t[|t| - |AfterLastSeparator(t)| - 1] == SEPARATOR
    decreases |t|
  {
    if |t| != 0 && t[|t| - 1] != SEPARATOR {
      var init := t[..|t| - 1];
      AfterLastSeparatorFollowsOne(init);
      var n := |AfterLastSeparator(init)|;
      if n < |init| {
        assert t[|t| - (n + 1) - 1] == init[|init| - n - 1];
      }
    }
  }

  /** The last segment of `p`: what `basename(p)` returns without a suffix. */
  function LastSegment(p: string): string {
    AfterLastSeparator(TrimTrailing(p))
  }

  /** The last segment has no separator and is no longer than the path. */
  lemma LastSegmentShape(p: string)
    ensures NoSeparator(LastSegment(p)) && |LastSegment(p)| <= |p|
  {
    AfterLastSeparatorShape(TrimTrailing(p));
  }

  /** Index of the last '.' in `c`, or -1 when there is none. */
  function LastDot(c: string): (d: int)
    ensures -1 <= d < |c|
    decreases |c|
  {
    if |c| == 0 then -1 else if c[|c| - 1] == '.' then |c| - 1 else LastDot(c[..|c| - 1])
  }

  /** `LastDot` finds a '.', and none follows it. */
  lemma {:induction false} LastDotShape(c: string)
    ensures LastDot(c) >= 0 ==> c[LastDot(c)] == '.'
    ensures forall i :: LastDot(c) < i < |c| ==> c[i] != '.'
    decreases |c|
  {
    if |c| != 0 && c[|c| - 1] != '.' {
      var init := c[..|c| - 1];
      LastDotShape(init);
      forall i | LastDot(c) < i < |c| ensures c[i] != '.' {
        if i < |init| { assert c[i] == init[i]; }
      }
    }
  }

  /** `e` is empty, or a proper suffix of the last segment of `p`. */
  predicate EndsSegment(p: string, e: string) {
    e != [] ==> |e| < |LastSegment(p)| && e == LastSegment(p)[|LastSegment(p)| - |e|..]
  }

  /** `e` is empty, or a '.' followed by text with no '.' and no separator. */
  predicate IsExtension(e: string) {
    && (e == [] || e[0] == '.')
    && (forall i :: 1 <= i < |e| ==> e[i] != '.')
    && NoSeparator(e)
  }

  /**
    Node's `extname(p)`: from the last '.' of the last segment to its end, or
    the empty string when that segment has no '.', when its only candidate
    '.' is its first character (".bashrc") or when the segment is "..".
   */
  function ExtName(p: string): (e: string)
    ensures |e| == 0 || (e[0] == '.' && |e| < |p|)
  {
    var c := LastSegment(p);
    var d := LastDot(c);
    if d <= 0 || SameText(c, "..") then []
    else
      LastDotShape(c);
      c[d..]
  }

  /**
    `extname(p)` is an extension, and it ends the last segment of `p` without
    being all of it. It is empty exactly when that segment is ".." or has no
    '.' after its first character.
   */
  lemma ExtNameShape(p: string)
    ensures IsExtension(ExtName(p))
    ensures EndsSegment(p, ExtName(p))
    ensures ExtName(p) != [] <==>
              LastSegment(p) != ".." && exists i :: 0 < i < |LastSegment(p)| && LastSegment(p)[i] == '.'
  {
    var c := LastSegment(p);
    var d := LastDot(c);
    LastDotShape(c);
    SameTextIsEquality(c, "..");
    if !(d <= 0 || SameText(c, "..")) {
      LastSegmentShape(p);
      LastDotShape(c);
      TailFromDot(p, c, d);
    }
  }

  lemma TailFromDot(p: string, c: string, d: int)
    requires c == LastSegment(p) && 0 < d < |c| && c[d] == '.' && NoSeparator(c)
    requires forall i :: d < i < |c| ==> c[i] != '.'
    ensures IsExtension(c[d..]) && EndsSegment(p, c[d..])
  {
    var e := c[d..];
    forall i | 0 <= i < |e| ensures e[i] == c[d + i] && e[i] != SEPARATOR {
    }
    assert e == c[|c| - |e|..];
  }

  /**
    Node's `basename(p, suffix)`. The last segment of `p`, with `suffix` cut
    off its end when the segment ends with it and is longer than it. Node's
    scan also gives three answers that are not a plain segment: the empty
    string when `suffix` is all of `p`; `p` itself when `p` is nothing but
    separators; and the segment together with the trailing separators when
    the segment is a proper suffix of `suffix`. Lengths are counted in
    characters, where Node counts UTF-16 code units.
   */
  function BaseName(p: string, suffix: string): (b: string)
    ensures |b| <= |p|
  {
    var t := TrimTrailing(p);
    var c := AfterLastSeparator(t);
    if |suffix| == 0 || |suffix| > |p| then c
    else if SameText(suffix, p) then []
    else if |c| == 0 then p
    else if |suffix| <= |c| then
      (if SameText(c[|c| - |suffix|..], suffix) && |suffix| != |c| then c[..|c| - |suffix|] else c)
    else if SameText(suffix[|suffix| - |c|..], c) then p[|t| - |c|..]
    else c
  }

  /**
    The handler's use of the two together: `basename(p, extname(p))` is the
    last segment with its extension cut off. Putting the extension back gives
    the segment again, and no directory part survives.
   */
  lemma StemAndExtension(p: string)
    ensures BaseName(p, ExtName(p)) + ExtName(p) == LastSegment(p)
    ensures NoSeparator(BaseName(p, ExtName(p)))
    ensures ExtName(p) != [] ==> BaseName(p, ExtName(p)) != []
  {
    ExtNameShape(p);
    CutOffSuffix(p, ExtName(p));
  }

  /** `basename(p, suffix)` followed by `suffix` is the last segment, when the suffix is empty or ends it. */
  lemma CutOffSuffix(p: string, suffix: string)
    requires EndsSegment(p, suffix)
    ensures BaseName(p, suffix) + suffix == LastSegment(p)
    ensures NoSeparator(BaseName(p, suffix))
    ensures suffix != [] ==> BaseName(p, suffix) != []
  {
    LastSegmentShape(p);
    if suffix != [] {
      BaseNameCutsSuffix(p, suffix);
      SplitOffSuffix(LastSegment(p), suffix);
    }
  }

  /** A suffix shorter than the last segment, which the segment ends with, is cut off it. */
  lemma BaseNameCutsSuffix(p: string, suffix: string)
    requires suffix != [] && |suffix| < |LastSegment(p)|
    requires LastSegment(p)[|LastSegment(p)| - |suffix|..] == suffix
    ensures BaseName(p, suffix) == LastSegment(p)[..|LastSegment(p)| - |suffix|]
  {
    var t := TrimTrailing(p);
    var c := AfterLastSeparator(t);
    assert |c| <= |t| <= |p|;
    SameTextIsEquality(c[|c| - |suffix|..], suffix);
  }

  lemma SplitOffSuffix(c: string, suffix: string)
    requires |suffix| < |c| && c[|c| - |suffix|..] == suffix && NoSeparator(c)
    ensures c[..|c| - |suffix|] + suffix == c
    ensures NoSeparator(c[..|c| - |suffix|]) && c[..|c| - |suffix|] != []
  {
    var b := c[..|c| - |suffix|];
    assert b + c[|c| - |suffix|..] == c;
    forall i | 0 <= i < |b| ensures b[i] != SEPARATOR {
      assert b[i] == c[i];
    }
  }

  lemma NoSeparatorConcat(a: string, b: string)
    requires NoSeparator(a) && NoSeparator(b)
    ensures NoSeparator(a + b)
  {
    forall i | 0 <= i < |a + b| ensures (a + b)[i] != SEPARATOR {
      if i >= |a| { assert (a + b)[i] == b[i - |a|]; }
    }
  }

  /** Whatever precedes the last separator is not part of the last segment. */
  lemma {:induction false} AfterDirectory(dir: string, name: string)
    requires NoSeparator(name)
    ensures AfterLastSeparator(dir + [SEPARATOR] + name) == name
    decreases |name|
  {
    var t := dir + [SEPARATOR] + name;
    if name != [] {
      var init := name[..|name| - 1];
      assert t[..|t| - 1] == dir + [SEPARATOR] + init;
      AfterDirectory(dir, init);
      assert init + [name[|name| - 1]] == name;
    }
  }

  /** The last '.' of `name + "." + ext`, when `ext` has none, is the one added. */
  lemma {:induction false} DotBeforeExtension(name: string, ext: string)
    requires forall i :: 0 <= i < |ext| ==> ext[i] != '.'
    ensures LastDot(name + "." + ext) == |name|
    decreases |ext|
  {
    var c := name + "." + ext;
    if ext != [] {
      var init := ext[..|ext| - 1];
      assert c[..|c| - 1] == name + "." + init;
      DotBeforeExtension(name, init);
    }
  }

  /**
    For a key `dir/name.ext`, `basename(key, extname(key))` is `name`: the
    directory and the extension are both dropped.
   */
  lemma StemOfFilePath(dir: string, name: string, ext: string)
    requires name != [] && NoSeparator(name) && NoSeparator(ext)
    requires forall i :: 0 <= i < |ext| ==> ext[i] != '.'
    requires name + "." + ext != ".."
    ensures BaseName(dir + [SEPARATOR] + name + "." + ext, ExtName(dir + [SEPARATOR] + name + "." + ext)) == name
  {
    var c := name + "." + ext;
    var key := dir + [SEPARATOR] + c;
    assert key == dir + [SEPARATOR] + name + "." + ext;
    assert NoSeparator(c) by {
      NoSeparatorConcat(name, ".");
      NoSeparatorConcat(name + ".", ext);
    }
    LastSegmentAfterDirectory(dir, c);
    DotBeforeExtension(name, ext);
    ExtNameAtDot(key, c, |name|);
    StemBeforeExtension(key, c, |name|);
  }

  /**
    For a key `name.ext` at the root, with no directory, `basename(key,
    extname(key))` is `name`.
   */
  lemma StemOfFileName(name: string, ext: string)
    requires name != [] && NoSeparator(name) && NoSeparator(ext)
    requires forall i :: 0 <= i < |ext| ==> ext[i] != '.'
    requires name + "." + ext != ".."
    ensures BaseName(name + "." + ext, ExtName(name + "." + ext)) == name
  {
    var c := name + "." + ext;
    assert NoSeparator(c) by {
      NoSeparatorConcat(name, ".");
      NoSeparatorConcat(name + ".", ext);
    }
    LastSegmentOfPlainName(c);
    DotBeforeExtension(name, ext);
    ExtNameAtDot(c, c, |name|);
    StemBeforeExtension(c, c, |name|);
  }

  /** A key `dir/c`, with `c` a non-empty name, has `c` as its last segment. */
  lemma LastSegmentAfterDirectory(dir: string, c: string)
    requires c != [] && NoSeparator(c)
    ensures LastSegment(dir + [SEPARATOR] + c) == c
  {
    var key := dir + [SEPARATOR] + c;
    assert key[|key| - 1] == c[|c| - 1];
    assert TrimTrailing(key) == key;
    AfterDirectory(dir, c);
  }

  /** When the last '.' of the last segment is past its start, the extension runs from that '.'. */
  lemma ExtNameAtDot(key: string, c: string, d: int)
    requires LastSegment(key) == c && LastDot(c) == d && 0 < d && c != ".."
    ensures ExtName(key) == c[d..]
  {
    SameTextIsEquality(c, "..");
  }

  lemma StemBeforeExtension(key: string, c: string, n: nat)
    requires LastSegment(key) == c && n <= |c| && ExtName(key) == c[n..]
    ensures BaseName(key, ExtName(key)) == c[..n]
  {
    StemAndExtension(key);
    assert BaseName(key, ExtName(key)) + c[n..] == c[..n] + c[n..];
  }

  /** A key without any separator is its own last segment. */
  lemma LastSegmentOfPlainName(p: string)
    requires NoSeparator(p)
    ensures LastSegment(p) == p
  {
    if p != [] {
      assert p[|p| - 1] != SEPARATOR;
      assert TrimTrailing(p) == p;
      AfterLastSeparatorShape(p);
    }
  }
}
