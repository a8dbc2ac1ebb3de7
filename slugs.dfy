/**
 * The company list of `main`: the input line is split on commas, each
 * field is stripped of surrounding white space, and empty fields are
 * dropped.
 */
module Slugs {

  const SEPARATOR: char := ','

  /** The characters Python's `str.isspace` accepts, which `str.strip()` removes. */
  predicate IsSpace(c: char) {
    || c == ' '
    || '\t' <= c <= '\r'
    || '\U{1C}' <= c <= '\U{1F}'
    || c == '\U{85}' || c == '\U{A0}' || c == '\U{1680}'
    || '\U{2000}' <= c <= '\U{200A}'
    || c == '\U{2028}' || c == '\U{2029}' || c == '\U{202F}' || c == '\U{205F}' || c == '\U{3000}'
  }

  /** The position of the first `c` in `s`. */
  function IndexOf(s: string, c: char): (i: nat)
    requires c in s
    ensures i < |s| && s[i] == c && c !in s[..i]
  {
    if s[0] == c then 0
    else
      var j := IndexOf(s[1..], c);
      assert s[..j + 1] == [s[0]] + s[1..][..j];
      j + 1
  }

  /** `s.split(sep)`: the pieces between separators, at least one, possibly empty. */
  function Split(s: string, sep: char): (parts: seq<string>)
    ensures |parts| >= 1
    ensures forall i :: 0 <= i < |parts| ==> sep !in parts[i]
    decreases |s|
  {
    if sep !in s then [s]
    else
      var i := IndexOf(s, sep);
      [s[..i]] + Split(s[i + 1..], sep)
  }

  /** `sep.join(parts)`. */
  function Join(parts: seq<string>, sep: char): string {
    if parts == [] then []
    else if |parts| == 1 then parts[0]
    else parts[0] + [sep] + Join(parts[1..], sep)
  }

  /** A sequence is its part before `i`, its element at `i` and its part after. */
  lemma Reassemble<T>(s: seq<T>, i: nat)
    requires i < |s|
    ensures s == s[..i] + [s[i]] + s[i + 1..]
  {
  }

  /** A slice holds nothing its sequence does not. */
  lemma SliceOmits<T>(s: seq<T>, i: nat, j: nat, x: T)
    requires i <= j <= |s| && x !in s
    ensures x !in s[i..j]
  {
  }

  /** A split at the first separator. */
  lemma SplitAtFirst(a: string, sep: char, rest: string)
    requires sep !in a
    ensures Split(a + [sep] + rest, sep) == [a] + Split(rest, sep)
  {
    var s := a + [sep] + rest;
    assert s[|a|] == sep;
    assert s[..|a|] == a;
    assert IndexOf(s, sep) == |a|;
    assert s[|a| + 1..] == rest;
  }

  /** A join of two or more pieces. */
  lemma JoinCons(p: string, parts: seq<string>, sep: char)
    requires parts != []
    ensures Join([p] + parts, sep) == p + [sep] + Join(parts, sep)
  {
    assert ([p] + parts)[1..] == parts;
  }

  /** Joining the pieces of a split gives back the string. */
  lemma {:induction false} JoinSplit(s: string, sep: char)
    ensures Join(Split(s, sep), sep) == s
    decreases |s|
  {
    if sep in s {
      var i := IndexOf(s, sep);
      var rest := s[i + 1..];
      JoinSplit(rest, sep);
      JoinCons(s[..i], Split(rest, sep), sep);
      Reassemble(s, i);
    }
  }

  /** Splitting a join of separator-free pieces gives back the pieces. */
  lemma {:induction false} SplitJoin(parts: seq<string>, sep: char)
    requires |parts| >= 1
    requires forall i :: 0 <= i < |parts| ==> sep !in parts[i]
    ensures Split(Join(parts, sep), sep) == parts
  {
    if |parts| > 1 {
      var tail := parts[1..];
      SplitJoin(tail, sep);
      SplitAtFirst(parts[0], sep, Join(tail, sep));
      assert parts == [parts[0]] + tail;
    }
  }

  function StripStart(s: string): (r: string)
    ensures |r| <= |s| && r == s[|s| - |r|..]
    ensures forall k :: 0 <= k < |s| - |r| ==> IsSpace(s[k])
    ensures r != [] ==> !IsSpace(r[0])
  {
    if s != [] && IsSpace(s[0]) then StripStart(s[1..]) else s
  }

  function StripEnd(s: string): (r: string)
    ensures |r| <= |s| && r == s[..|r|]
    ensures forall k :: |r| <= k < |s| ==> IsSpace(s[k])
    ensures r != [] ==> !IsSpace(r[|r| - 1])
  {
    if s != [] && IsSpace(s[|s| - 1]) then StripEnd(s[..|s| - 1]) else s
  }

  /**
   * `s.strip()`: `s` with its leading and trailing white space removed: a
   * slice of `s`, starting where `StripStart` starts, outside which there
   * is only white space and which neither starts nor ends with white space.
   */
  function Strip(s: string): (r: string)
    ensures r != [] ==> !IsSpace(r[0]) && !IsSpace(r[|r| - 1])
    ensures var i := |s| - |StripStart(s)|;
            && i + |r| <= |s| && r == s[i..i + |r|]
            && (forall k :: 0 <= k < i ==> IsSpace(s[k]))
            && (forall k :: i + |r| <= k < |s| ==> IsSpace(s[k]))
  {
    StripEnd(StripStart(s))
  }

  /** A slug as `main` hands it on: not empty, no comma, no surrounding white space. */
  predicate IsClean(s: string) {
    s != [] && !IsSpace(s[0]) && !IsSpace(s[|s| - 1]) && SEPARATOR !in s
  }

  /** Stripping adds no character. */
  lemma StripKeepsOut(s: string, c: char)
    requires c !in s
    ensures c !in Strip(s)
  {
    var i := |s| - |StripStart(s)|;
    SliceOmits(s, i, i + |Strip(s)|, c);
  }

  /** Strip leaves a string with no surrounding white space as it is. */
  lemma StripKeeps(s: string)
    requires s != [] ==> !IsSpace(s[0]) && !IsSpace(s[|s| - 1])
    ensures Strip(s) == s
  {
  }

  /** The stripped fields that are not empty, in order. */
  function KeepNonEmpty(fields: seq<string>): (slugs: seq<string>)
    ensures |slugs| <= |fields|
    ensures forall i :: 0 <= i < |slugs| ==> slugs[i] != []
  {
    if fields == [] then []
    else
      var s := Strip(fields[0]);
      (if s != [] then [s] else []) + KeepNonEmpty(fields[1..])
  }

  /** `[c.strip() for c in text.split(",") if c.strip()]`: every slug it yields is clean. */
  function ParseSlugs(text: string): (slugs: seq<string>)
    ensures forall i :: 0 <= i < |slugs| ==> IsClean(slugs[i])
  {
    var fields := Split(text, SEPARATOR);
    KeepNonEmptyClean(fields);
    KeepNonEmpty(fields)
  }

  lemma {:induction false} KeepNonEmptyClean(fields: seq<string>)
    requires forall i :: 0 <= i < |fields| ==> SEPARATOR !in fields[i]
    ensures forall i :: 0 <= i < |KeepNonEmpty(fields)| ==> IsClean(KeepNonEmpty(fields)[i])
  {
    if fields != [] {
      KeepNonEmptyClean(fields[1..]);
      var s := Strip(fields[0]);
      var head := if s != [] then [s] else [];
      var rest := KeepNonEmpty(fields[1..]);
      assert KeepNonEmpty(fields) == head + rest;
      if s != [] {
        StripKeepsOut(fields[0], SEPARATOR);
      }
      forall i | 0 <= i < |head + rest|
        ensures IsClean((head + rest)[i])
      {
        if i >= |head| {
          assert (head + rest)[i] == rest[i - |head|];
        }
      }
    }
  }

  /** Clean slugs are what stripping and filtering them keeps. */
  lemma {:induction false} KeepNonEmptyKeeps(slugs: seq<string>)
    requires forall i :: 0 <= i < |slugs| ==> IsClean(slugs[i])
    ensures KeepNonEmpty(slugs) == slugs
  {
    if slugs != [] {
      StripKeeps(slugs[0]);
      KeepNonEmptyKeeps(slugs[1..]);
      assert slugs == [slugs[0]] + slugs[1..];
    }
  }

  // ------------------------------------------------------------------
  // Fields with white space around them
  // ------------------------------------------------------------------

  predicate AllSpace(s: string) {
    forall k :: 0 <= k < |s| ==> IsSpace(s[k])
  }

  /** The strings of `s` that are not empty, in order. */
  function DropEmpty(s: seq<string>): (r: seq<string>)
    ensures |r| <= |s|
  {
    if s == [] then [] else (if s[0] != [] then [s[0]] else []) + DropEmpty(s[1..])
  }

  /** Every field, stripped. */
  function StripAll(fields: seq<string>): (r: seq<string>)
    ensures |r| == |fields|
  {
    seq(|fields|, i requires 0 <= i < |fields| => Strip(fields[i]))
  }

  /** The filter yields exactly the stripped fields that are not empty, in the order of the fields. */
  lemma {:induction false} KeepNonEmptyIsStripThenDrop(fields: seq<string>)
    ensures KeepNonEmpty(fields) == DropEmpty(StripAll(fields))
  {
    if fields != [] {
      assert StripAll(fields)[1..] == StripAll(fields[1..]);
      KeepNonEmptyIsStripThenDrop(fields[1..]);
    }
  }

  /** Leading white space does not change where stripping starts. */
  lemma {:induction false} StripStartSkips(pre: string, x: string)
    requires AllSpace(pre)
    ensures StripStart(pre + x) == StripStart(x)
    decreases |pre|
  {
    if pre == [] {
      assert pre + x == x;
    } else {
      assert (pre + x)[0] == pre[0] && IsSpace(pre[0]);
      assert (pre + x)[1..] == pre[1..] + x;
      StripStartSkips(pre[1..], x);
    }
  }

  /** Trailing white space does not change where stripping ends. */
  lemma {:induction false} StripEndSkips(x: string, post: string)
    requires AllSpace(post)
    ensures StripEnd(x + post) == StripEnd(x)
    decreases |post|
  {
    if post == [] {
      assert x + post == x;
    } else {
      var init := post[..|post| - 1];
      assert (x + post)[|x + post| - 1] == post[|post| - 1] && IsSpace(post[|post| - 1]);
      assert (x + post)[..|x + post| - 1] == x + init;
      StripEndSkips(x, init);
    }
  }

  /** A clean slug, or nothing, with white space around it strips to the slug. */
  lemma StripPadded(pre: string, slug: string, post: string)
    requires AllSpace(pre) && AllSpace(post)
    requires slug == [] || IsClean(slug)
    ensures Strip(pre + slug + post) == slug
  {
    assert pre + slug + post == pre + (slug + post);
    StripStartSkips(pre, slug + post);
    if slug == [] {
      assert slug + post == post;
      StripStartSkips(post, []);
      assert post + [] == post;
    } else {
      assert (slug + post)[0] == slug[0];
      StripEndSkips(slug, post);
    }
  }

  /** Field `i` is `before[i] + slugs[i] + after[i]`. */
  function Pad(before: seq<string>, slugs: seq<string>, after: seq<string>): (fields: seq<string>)
    requires |before| == |slugs| == |after|
    ensures |fields| == |slugs|
  {
    seq(|slugs|, i requires 0 <= i < |slugs| => before[i] + slugs[i] + after[i])
  }

  /** White space around each field is dropped, and an all-blank field yields no slug. */
  lemma KeepNonEmptyPadded(before: seq<string>, slugs: seq<string>, after: seq<string>)
    requires |before| == |slugs| == |after|
    requires forall i :: 0 <= i < |slugs| ==>
               AllSpace(before[i]) && AllSpace(after[i]) && (slugs[i] == [] || IsClean(slugs[i]))
    ensures KeepNonEmpty(Pad(before, slugs, after)) == DropEmpty(slugs)
  {
    var fields := Pad(before, slugs, after);
    forall i | 0 <= i < |slugs|
      ensures StripAll(fields)[i] == slugs[i]
    {
      StripPadded(before[i], slugs[i], after[i]);
    }
    assert StripAll(fields) == slugs;
    KeepNonEmptyIsStripThenDrop(fields);
  }

  /** White space holds no comma. */
  lemma AllSpaceOmitsSeparator(s: string)
    requires AllSpace(s)
    ensures SEPARATOR !in s
  {
  }

  /** Padded fields hold no comma. */
  lemma PadOmitsSeparator(before: seq<string>, slugs: seq<string>, after: seq<string>)
    requires |before| == |slugs| == |after|
    requires forall i :: 0 <= i < |slugs| ==>
               AllSpace(before[i]) && AllSpace(after[i]) && (slugs[i] == [] || IsClean(slugs[i]))
    ensures forall i :: 0 <= i < |slugs| ==> SEPARATOR !in Pad(before, slugs, after)[i]
  {
    forall i | 0 <= i < |slugs|
      ensures SEPARATOR !in Pad(before, slugs, after)[i]
    {
      AllSpaceOmitsSeparator(before[i]);
      AllSpaceOmitsSeparator(after[i]);
    }
  }

  /**
   * A comma-separated line of slugs with white space around them, and
   * possibly blank fields between them, is read as those slugs, in order.
   */
  lemma ParseSlugsPadded(before: seq<string>, slugs: seq<string>, after: seq<string>)
    requires |before| == |slugs| == |after|
    requires forall i :: 0 <= i < |slugs| ==>
               AllSpace(before[i]) && AllSpace(after[i]) && (slugs[i] == [] || IsClean(slugs[i]))
    ensures ParseSlugs(Join(Pad(before, slugs, after), SEPARATOR)) == DropEmpty(slugs)
  {
    var fields := Pad(before, slugs, after);
    if slugs == [] {
      assert Split([], SEPARATOR) == [[]];
      assert Strip([]) == [];
    } else {
      PadOmitsSeparator(before, slugs, after);
      SplitJoin(fields, SEPARATOR);
      KeepNonEmptyPadded(before, slugs, after);
    }
  }

  /** The prompt's own example, "jira, notion", names two companies. */
  lemma PromptExample()
    ensures ParseSlugs("jira, notion") == ["jira", "notion"]
  {
    var before, slugs, after := ["", " "], ["jira", "notion"], ["", ""];
    assert Join(Pad(before, slugs, after), SEPARATOR) == "jira, notion";
    ParseSlugsPadded(before, slugs, after);
    assert DropEmpty(slugs) == slugs;
  }

  /** Clean slugs are read back from their comma-separated list, in order. */
  lemma ParseSlugsRoundTrip(slugs: seq<string>)
    requires forall i :: 0 <= i < |slugs| ==> IsClean(slugs[i])
    ensures ParseSlugs(Join(slugs, SEPARATOR)) == slugs
  {
    if slugs == [] {
      assert Split([], SEPARATOR) == [[]];
    } else {
      SplitJoin(slugs, SEPARATOR);
      KeepNonEmptyKeeps(slugs);
    }
  }
}
