/** String helpers standing in for the JavaScript string methods the crawler uses. */
module Text {
  import opened Wrappers

  /** `s` begins with `prefix` (JavaScript's `startsWith`). */
  predicate StartsWith(s: string, prefix: string) {
    |prefix| <= |s| && s[..|prefix|] == prefix
  }

  /** `s` ends with `suffix` (JavaScript's `endsWith`). */
  predicate EndsWith(s: string, suffix: string) {
    |suffix| <= |s| && s[|s| - |suffix|..] == suffix
  }

  /** `needle` occurs in `s` starting at index `i`. */
  predicate OccursAt(s: string, needle: string, i: int) {
    0 <= i && i + |needle| <= |s| && s[i..i + |needle|] == needle
  }

  /** JavaScript's `indexOf`: the first index at which `needle` occurs, if any. */
  function IndexOf(s: string, needle: string): (r: Option<nat>)
    ensures r.Some? ==> OccursAt(s, needle, r.value)
    ensures r.Some? ==> forall j :: 0 <= j < r.value ==> !OccursAt(s, needle, j)
    ensures r.None? ==> forall j :: !OccursAt(s, needle, j)
    decreases |s|
  {
    if StartsWith(s, needle) then Some(0)
    else if |s| == 0 then None
    else
      match IndexOf(s[1..], needle)
      case None =>
        assert forall j :: OccursAt(s, needle, j) ==> j == 0 || OccursAt(s[1..], needle, j - 1);
        None
      case Some(i) =>
        assert forall j :: 0 < j <= i ==> (OccursAt(s, needle, j) ==> OccursAt(s[1..], needle, j - 1));
        Some(i + 1)
  }

  /** JavaScript's `replace` with a string pattern: only the FIRST occurrence of `needle` is replaced. */
  function ReplaceFirst(s: string, needle: string, replacement: string): (r: string)
    ensures IndexOf(s, needle).None? ==> r == s
    ensures IndexOf(s, needle).Some? ==> |r| == |s| - |needle| + |replacement|
    ensures forall i :: OccursAt(s, needle, i) && (forall j :: 0 <= j < i ==> !OccursAt(s, needle, j)) ==>
              r == s[..i] + replacement + s[i + |needle|..]
  {
    match IndexOf(s, needle)
    case None => s
    case Some(i) => s[..i] + replacement + s[i + |needle|..]
  }

  /** When the only occurrence of `needle` is as a suffix, removing the first occurrence strips the suffix. */
  lemma ReplaceFirstStripsSoleSuffix(s: string, needle: string)
    requires EndsWith(s, needle)
    requires forall j :: 0 <= j < |s| - |needle| ==> !OccursAt(s, needle, j)
    ensures ReplaceFirst(s, needle, "") + needle == s
  {
    assert OccursAt(s, needle, |s| - |needle|);
    var i := IndexOf(s, needle);
    assert i == Some(|s| - |needle|);
  }

  /** Drops one trailing slash, if present. */
  function DropTrailingSlash(s: string): (r: string)
    ensures r + (if EndsWith(s, "/") then "/" else "") == s
  {
    if EndsWith(s, "/") then s[..|s| - 1] else s
  }

  /** JavaScript's `split` with a one-character separator: the pieces between separators. */
  function Split(s: string, sep: char): (parts: seq<string>)
    ensures |parts| >= 1
    ensures forall i :: 0 <= i < |parts| ==> sep !in parts[i]
    decreases |s|
  {
    if |s| == 0 then [""]
    else
      var rest := Split(s[1..], sep);
      if s[0] == sep then [""] + rest
      else [[s[0]] + rest[0]] + rest[1..]
  }

  /** A string without the separator splits into itself alone. */
  lemma {:induction false} SplitWithoutSeparator(s: string, sep: char)
    requires sep !in s
    ensures Split(s, sep) == [s]
    decreases |s|
  {
    if |s| > 0 {
      assert sep !in s[1..];
      SplitWithoutSeparator(s[1..], sep);
      assert [s[0]] + s[1..] == s;
    }
  }

  /** Splitting at the first separator: the piece before it, then the pieces of the rest. */
  lemma {:induction false} SplitAtSeparator(a: string, sep: char, b: string)
    requires sep !in a
    ensures Split(a + [sep] + b, sep) == [a] + Split(b, sep)
    decreases |a|
  {
    var s := a + [sep] + b;
    if |a| == 0 {
      assert s[0] == sep && s[1..] == b;
    } else {
      assert s[0] == a[0] && s[1..] == a[1..] + [sep] + b;
      assert sep !in a[1..];
      SplitAtSeparator(a[1..], sep, b);
      assert [a[0]] + a[1..] == a;
    }
  }

  /** JavaScript's `join`: the pieces with `sep` between consecutive ones. */
  function Join(parts: seq<string>, sep: string): string
    decreases |parts|
  {
    if |parts| == 0 then ""
    else if |parts| == 1 then parts[0]
    else parts[0] + sep + Join(parts[1..], sep)
  }

  /** Extending the first part extends the joined string by the same prefix. */
  lemma {:induction false} JoinExtendFirst(x: string, parts: seq<string>, sep: string)
    requires |parts| >= 1
    ensures Join([x + parts[0]] + parts[1..], sep) == x + Join(parts, sep)
  {
    var ps := [x + parts[0]] + parts[1..];
    assert ps[1..] == parts[1..];
  }

  /** Joining the pieces of a split with the separator restores the original string. */
  lemma {:induction false} SplitJoin(s: string, sep: char)
    ensures Join(Split(s, sep), [sep]) == s
    decreases |s|
  {
    if |s| == 0 {
    } else {
      var rest := Split(s[1..], sep);
      SplitJoin(s[1..], sep);
      if s[0] == sep {
        var ps := [""] + rest;
        assert ps[1..] == rest;
        assert Join(ps, [sep]) == "" + [sep] + Join(rest, [sep]);
        assert s == [s[0]] + s[1..];
      } else {
        JoinExtendFirst([s[0]], rest, [sep]);
        assert s == [s[0]] + s[1..];
      }
    }
  }

  /** Appending a part appends the separator and that part, unless the list was empty. */
  lemma {:induction false} JoinSnoc(parts: seq<string>, x: string, sep: string)
    ensures Join(parts + [x], sep) == if |parts| == 0 then x else Join(parts, sep) + sep + x
    decreases |parts|
  {
    if |parts| >= 1 {
      var ps := parts + [x];
      assert ps[1..] == parts[1..] + [x];
      JoinSnoc(parts[1..], x, sep);
    }
  }

  /** Splitting a join of separator-free parts restores the parts. */
  lemma {:induction false} JoinSplit(parts: seq<string>, sep: char)
    requires |parts| >= 1
    requires forall i :: 0 <= i < |parts| ==> sep !in parts[i]
    ensures Split(Join(parts, [sep]), sep) == parts
    decreases |parts|
  {
    if |parts| == 1 {
      SplitWithoutSeparator(parts[0], sep);
    } else {
      JoinSplit(parts[1..], sep);
      SplitAtSeparator(parts[0], sep, Join(parts[1..], [sep]));
      assert [parts[0]] + parts[1..] == parts;
    }
  }

  /** A join of non-empty parts is empty only when there are no parts. */
  lemma {:induction false} JoinEmptyIff(parts: seq<string>, sep: string)
    requires forall i :: 0 <= i < |parts| ==> parts[i] != ""
    ensures Join(parts, sep) == "" <==> |parts| == 0
  {
    if |parts| >= 1 {
      assert |parts[0]| > 0;
      if |parts| > 1 {
        assert |Join(parts, sep)| >= |parts[0]|;
      }
    }
  }
}
