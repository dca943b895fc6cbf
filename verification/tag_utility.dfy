/**
 * Tag normalisation: drop blank tags, trim, lower-case, remove duplicates.
 * Whitespace is the set of code points that .NET's `char.IsWhiteSpace` accepts; lower-casing
 * maps only 'A'..'Z'.
 */
module TagUtility {
  import opened Enumerable

  // The tag constants used by the seed data and the tests.
  const Bug := "bug"
  const Frontend := "frontend"
  const Backend := "backend"
  const Urgent := "urgent"
  const Api := "api"
  const Setup := "setup"
  const Infrastructure := "infrastructure"
  const Testing := "testing"
  const Reviewed := "reviewed"

  predicate IsWhiteSpace(c: char) {
    var n := c as int;
    || 0x09 <= n <= 0x0D || n == 0x20 || n == 0x85 || n == 0xA0 || n == 0x1680
    || 0x2000 <= n <= 0x200A || n == 0x2028 || n == 0x2029 || n == 0x202F || n == 0x205F || n == 0x3000
  }

  predicate IsUpper(c: char) {
    'A' <= c <= 'Z'
  }

  /** `string.IsNullOrWhiteSpace` (a missing string is modelled as the empty one). */
  predicate IsBlank(s: string) {
    forall i :: 0 <= i < |s| ==> IsWhiteSpace(s[i])
  }

  /** Neither end of `s` is whitespace. */
  predicate IsTrimmed(s: string) {
    s == [] || (!IsWhiteSpace(s[0]) && !IsWhiteSpace(s[|s| - 1]))
  }

  predicate IsLowerCase(s: string) {
    forall i :: 0 <= i < |s| ==> !IsUpper(s[i])
  }

  /** A tag as normalisation leaves it: non-empty, trimmed, lower-case. */
  predicate IsNormalTag(t: string) {
    t != [] && IsTrimmed(t) && IsLowerCase(t)
  }

  /** A tag list as normalisation leaves it. */
  predicate IsNormalized(tags: seq<string>) {
    NoDuplicates(tags) && forall t :: t in tags ==> IsNormalTag(t)
  }

  /** `string.TrimStart()`: drops leading whitespace (see TrimStartSpec). */
  function TrimStart(s: string): string {
    if s != [] && IsWhiteSpace(s[0]) then TrimStart(s[1..]) else s
  }

  /** `string.TrimEnd()`: drops trailing whitespace (see TrimEndSpec). */
  function TrimEnd(s: string): string {
    if s != [] && IsWhiteSpace(s[|s| - 1]) then TrimEnd(s[..|s| - 1]) else s
  }

  /** What TrimStart removes is a whitespace prefix, and what it keeps does not start with whitespace. */
  lemma {:induction false} TrimStartSpec(s: string)
    ensures var r := TrimStart(s);
      && |r| <= |s| && r == s[|s| - |r|..]
      && IsBlank(s[..|s| - |r|])
      && (r == [] || !IsWhiteSpace(r[0]))
  {
    if s != [] && IsWhiteSpace(s[0]) {
      TrimStartSpec(s[1..]);
      var r := TrimStart(s);
      assert s[..|s| - |r|] == [s[0]] + s[1..][..|s| - 1 - |r|];
    }
  }

  /** What TrimEnd removes is a whitespace suffix, and what it keeps does not end with whitespace. */
  lemma {:induction false} TrimEndSpec(s: string)
    ensures var r := TrimEnd(s);
      && |r| <= |s| && r == s[..|r|]
      && IsBlank(s[|r|..])
      && (r == [] || !IsWhiteSpace(r[|r| - 1]))
  {
    if s != [] && IsWhiteSpace(s[|s| - 1]) {
      TrimEndSpec(s[..|s| - 1]);
      var r := TrimEnd(s);
      assert s[|r|..] == s[..|s| - 1][|r|..] + [s[|s| - 1]];
    }
  }

  /** `string.Trim()`. */
  function Trim(s: string): string {
    TrimEnd(TrimStart(s))
  }

  /** Trim leaves no whitespace at either end; it yields the empty string exactly for blank input, and leaves a trimmed string alone. */
  lemma TrimSpec(s: string)
    ensures IsTrimmed(Trim(s))
    ensures Trim(s) == [] <==> IsBlank(s)
    ensures IsTrimmed(s) ==> Trim(s) == s
  {
    var a := TrimStart(s);
    var r := TrimEnd(a);
    TrimStartSpec(s);
    TrimEndSpec(a);
    if r != [] {
      assert r[0] == a[0] == s[|s| - |a|];
    } else {
      assert IsBlank(s[..|s| - |a|]) && IsBlank(a);
      assert s == s[..|s| - |a|] + a;
    }
    if IsTrimmed(s) && s != [] {
      assert a == s;
    }
  }

  function ToLowerChar(c: char): char {
    if IsUpper(c) then (c as int - 'A' as int + 'a' as int) as char else c
  }

  /** `string.ToLowerInvariant()` on the ASCII letters. */
  function ToLower(s: string): string {
    seq(|s|, i requires 0 <= i < |s| => ToLowerChar(s[i]))
  }

  /** Lower-casing keeps the length and the whitespace positions, leaves no upper-case letter, and leaves a lower-case string alone. */
  lemma ToLowerSpec(s: string)
    ensures |ToLower(s)| == |s| && IsLowerCase(ToLower(s))
    ensures forall i :: 0 <= i < |s| ==> IsWhiteSpace(ToLower(s)[i]) == IsWhiteSpace(s[i])
    ensures IsLowerCase(s) ==> ToLower(s) == s
  {
  }

  /** One tag as `NormalizeTags` rewrites it: `t.Trim().ToLowerInvariant()`. */
  function NormalizeTag(t: string): string {
    ToLower(Trim(t))
  }

  /** A non-blank tag normalises to a normal tag, a blank one to the empty string; a normal tag is unchanged. */
  lemma NormalizeTagSpec(t: string)
    ensures !IsBlank(t) <==> IsNormalTag(NormalizeTag(t))
    ensures IsNormalTag(t) ==> NormalizeTag(t) == t
  {
    var trimmed := Trim(t);
    TrimSpec(t);
    ToLowerSpec(trimmed);
    var r := ToLower(trimmed);
    if r != [] {
      assert IsWhiteSpace(r[0]) == IsWhiteSpace(trimmed[0]);
      assert IsWhiteSpace(r[|r| - 1]) == IsWhiteSpace(trimmed[|trimmed| - 1]);
    }
  }

  /** The `Where(...).Select(...)` part of `NormalizeTags`: blanks dropped, the rest rewritten. */
  function NormalizeEach(tags: seq<string>): (r: seq<string>)
    ensures |r| <= |tags|
  {
    if tags == [] then []
    else
      var rest := NormalizeEach(tags[1..]);
      if IsBlank(tags[0]) then rest else [NormalizeTag(tags[0])] + rest
  }

  /** NormalizeEach yields normal tags, exactly the normal forms of the non-blank inputs. */
  lemma {:induction false} NormalizeEachMembers(tags: seq<string>)
    ensures forall t :: t in NormalizeEach(tags) ==> IsNormalTag(t)
    ensures forall t :: t in NormalizeEach(tags) <==> exists u :: u in tags && !IsBlank(u) && NormalizeTag(u) == t
  {
    if tags != [] {
      NormalizeEachMembers(tags[1..]);
      NormalizeTagSpec(tags[0]);
      assert tags == [tags[0]] + tags[1..];
    }
  }

  /** `TagUtility.NormalizeTags`. */
  function NormalizeTags(tags: seq<string>): (r: seq<string>)
    ensures IsNormalized(r)
    ensures |r| <= |tags|
    ensures forall t :: t in r ==> exists u :: u in tags && !IsBlank(u) && NormalizeTag(u) == t
    ensures forall u :: u in tags && !IsBlank(u) ==> NormalizeTag(u) in r
  {
    NormalizeEachMembers(tags);
    Distinct(NormalizeEach(tags))
  }

  lemma {:induction false} NormalizeEachOfNormal(tags: seq<string>)
    requires forall t :: t in tags ==> IsNormalTag(t)
    ensures NormalizeEach(tags) == tags
  {
    if tags != [] {
      NormalizeEachOfNormal(tags[1..]);
      NormalizeTagSpec(tags[0]);
      assert !IsBlank(tags[0]) by { assert tags[0] in tags; assert !IsWhiteSpace(tags[0][0]); }
    }
  }

  /** A normalised list is left as it is. */
  lemma NormalizeTagsOfNormalized(tags: seq<string>)
    requires IsNormalized(tags)
    ensures NormalizeTags(tags) == tags
  {
    NormalizeEachOfNormal(tags);
    DistinctOfDistinct(tags);
  }

  /** Normalising twice is normalising once. */
  lemma NormalizeTagsIdempotent(tags: seq<string>)
    ensures NormalizeTags(NormalizeTags(tags)) == NormalizeTags(tags)
  {
    NormalizeTagsOfNormalized(NormalizeTags(tags));
  }
  // Worked examples: the two normalisation cases the repository's tests check.

  lemma {:induction false} TrimStartPadded(pre: string, rest: string)
    requires IsBlank(pre) && rest != [] && !IsWhiteSpace(rest[0])
    ensures TrimStart(pre + rest) == rest
  {
    if pre != [] {
      assert (pre + rest)[1..] == pre[1..] + rest;
      TrimStartPadded(pre[1..], rest);
    } else {
      assert pre + rest == rest;
    }
  }

  lemma {:induction false} TrimEndPadded(core: string, post: string)
    requires IsBlank(post) && core != [] && !IsWhiteSpace(core[|core| - 1])
    ensures TrimEnd(core + post) == core
  {
    if post != [] {
      assert (core + post)[..|core + post| - 1] == core + post[..|post| - 1];
      TrimEndPadded(core, post[..|post| - 1]);
    } else {
      assert core + post == core;
    }
  }

  lemma NormalizePadded(pre: string, core: string, post: string)
    requires IsBlank(pre) && IsBlank(post) && core != [] && IsTrimmed(core)
    ensures NormalizeTag(pre + core + post) == ToLower(core)
  {
    assert pre + core + post == pre + (core + post);
    TrimStartPadded(pre, core + post);
    TrimEndPadded(core, post);
  }

  lemma EachCons(t: string, rest: seq<string>)
    ensures NormalizeEach([t] + rest) == (if IsBlank(t) then [] else [NormalizeTag(t)]) + NormalizeEach(rest)
  {
    assert ([t] + rest)[1..] == rest;
  }
  lemma BugExamples()
    ensures NormalizeTag("  BUG  ") == Bug && NormalizeTag("Bug") == Bug
  {
    assert "  " + "BUG" + "  " == "  BUG  ";
    NormalizePadded("  ", "BUG", "  ");
    assert "" + "Bug" + "" == "Bug";
    NormalizePadded("", "Bug", "");
  }

  lemma FrontendExamples()
    ensures NormalizeTag("FRONTEND") == Frontend && NormalizeTag("frontend") == Frontend
  {
    assert "" + "FRONTEND" + "" == "FRONTEND";
    NormalizePadded("", "FRONTEND", "");
    assert "" + "frontend" + "" == "frontend";
    NormalizePadded("", "frontend", "");
  }

  lemma UrgentExamples()
    ensures NormalizeTag("  URGENT  ") == Urgent && NormalizeTag("urgent") == Urgent
  {
    assert "  " + "URGENT" + "  " == "  URGENT  ";
    NormalizePadded("  ", "URGENT", "  ");
    assert "" + "urgent" + "" == "urgent";
    NormalizePadded("", "urgent", "");
  }

  lemma NormalizeEachExample()
    ensures NormalizeEach(["  BUG  ", "Bug", "FRONTEND", "frontend", "  ", ""]) == [Bug, Bug, Frontend, Frontend]
  {
    BugExamples();
    FrontendExamples();
    assert IsBlank("  ") && IsBlank("");
    assert !IsBlank("  BUG  ") by { assert !IsWhiteSpace("  BUG  "[2]); }
    assert !IsBlank("Bug") by { assert !IsWhiteSpace("Bug"[0]); }
    assert !IsBlank("FRONTEND") by { assert !IsWhiteSpace("FRONTEND"[0]); }
    assert !IsBlank("frontend") by { assert !IsWhiteSpace("frontend"[0]); }
    EachCons("", []);
    EachCons("  ", [""]);
    EachCons("frontend", ["  ", ""]);
    EachCons("FRONTEND", ["frontend", "  ", ""]);
    EachCons("Bug", ["FRONTEND", "frontend", "  ", ""]);
    EachCons("  BUG  ", ["Bug", "FRONTEND", "frontend", "  ", ""]);
  }

  /** Upper-case, padded and repeated tags collapse to one lower-case tag each; blank ones vanish. */
  lemma NormalizeTagsExample()
    ensures NormalizeTags(["  BUG  ", "Bug", "FRONTEND", "frontend", "  ", ""]) == [Bug, Frontend]
  {
    NormalizeEachExample();
    assert Where([Bug, Frontend, Frontend], NotEqualTo(Bug)) == [Frontend, Frontend];
    assert Where([Frontend], NotEqualTo(Frontend)) == [];
  }

  /** The update case: a padded upper-case tag, its lower-case twin and an empty tag give one tag. */
  lemma NormalizeTagsUpdateExample()
    ensures NormalizeTags(["  URGENT  ", "urgent", ""]) == [Urgent]
  {
    UrgentExamples();
    assert IsBlank("");
    assert !IsBlank("  URGENT  ") by { assert !IsWhiteSpace("  URGENT  "[2]); }
    assert !IsBlank("urgent") by { assert !IsWhiteSpace("urgent"[0]); }
    EachCons("", []);
    EachCons("urgent", [""]);
    EachCons("  URGENT  ", ["urgent", ""]);
    assert Where([Urgent], NotEqualTo(Urgent)) == [];
  }
}
