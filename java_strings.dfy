/** The few `java.lang.String` operations the core relies on. */
module JavaStrings {
  import opened Wrappers

  /** `String.trim()` drops every character whose code is at most U+0020. */
  predicate IsTrimmed(c: char) { c <= ' ' }

  /** Every character of `s` is one that `trim()` removes. */
  predicate IsBlank(s: string) {
    forall i | 0 <= i < |s| :: IsTrimmed(s[i])
  }

  /** `s` without its leading trimmable characters. */
  function TrimStart(s: string): (r: string)
    ensures |r| <= |s| && r == s[|s| - |r|..]
    ensures r == [] || !IsTrimmed(r[0])
    ensures IsBlank(s[..|s| - |r|])
  {
    if s != [] && IsTrimmed(s[0]) then
      var r := TrimStart(s[1..]);
      assert s[..|s| - |r|] == [s[0]] + s[1..][..|s| - 1 - |r|];
      r
    else s
  }

  /** `s` without its trailing trimmable characters. */
  function TrimEnd(s: string): (r: string)
    ensures |r| <= |s| && r == s[..|r|]
    ensures r == [] || !IsTrimmed(r[|r| - 1])
    ensures IsBlank(s[|r|..])
  {
    if s != [] && IsTrimmed(s[|s| - 1]) then
      var r := TrimEnd(s[..|s| - 1]);
      assert s[|r|..] == s[..|s| - 1][|r|..] + [s[|s| - 1]];
      r
    else s
  }

  /** Java's `s.trim()`. */
  function Trim(s: string): string {
    TrimEnd(TrimStart(s))
  }

  /** `s.trim().isEmpty()` holds exactly when `s` consists of trimmable characters only. */
  lemma TrimEmptyIffBlank(s: string)
    ensures Trim(s) == [] <==> IsBlank(s)
  {
    var t := TrimStart(s);
    if Trim(s) == [] {
      // t is blank, yet it is empty or starts with a kept character
      assert IsBlank(t[0..]);
      assert t == [];
    } else {
      assert t != [] && !IsTrimmed(t[0]);
      assert t[0] == s[|s| - |t|];
    }
  }

  /** `s != null && !s.trim().isEmpty()`: the value is present and holds a non-blank character. */
  function NonBlank(s: Option<string>): (b: bool)
    ensures b <==> s.Some? && exists i | 0 <= i < |s.value| :: !IsTrimmed(s.value[i])
  {
    if s.Some? then TrimEmptyIffBlank(s.value); Trim(s.value) != [] else false
  }

  /** `Character.toLowerCase` restricted to the ASCII letters. */
  function ToLowerChar(c: char): char {
    if 'A' <= c <= 'Z' then (c as int + 32) as char else c
  }

  /** `String.toLowerCase()`, character by character. */
  function ToLower(s: string): (r: string)
    ensures |r| == |s|
    ensures forall i | 0 <= i < |s| :: r[i] == ToLowerChar(s[i])
  {
    seq(|s|, i requires 0 <= i < |s| => ToLowerChar(s[i]))
  }

  /** Lowercasing keeps every blank character and creates none: blankness is unchanged. */
  lemma ToLowerKeepsBlank(s: string)
    ensures IsBlank(ToLower(s)) <==> IsBlank(s)
  {
    var r := ToLower(s);
    forall i | 0 <= i < |s|
      ensures IsTrimmed(r[i]) <==> IsTrimmed(s[i])
    {
      assert r[i] == ToLowerChar(s[i]);
    }
  }

  /** `trim()` only removes characters, so a string without upper-case letters keeps none. */
  lemma TrimKeepsNoUpper(s: string)
    requires forall i | 0 <= i < |s| :: !('A' <= s[i] <= 'Z')
    ensures |Trim(s)| <= |s|
    ensures forall i | 0 <= i < |Trim(s)| :: !('A' <= Trim(s)[i] <= 'Z')
  {
    var t := TrimStart(s);
    var u := TrimEnd(t);
    forall i | 0 <= i < |u|
      ensures u[i] == s[|s| - |t| + i]
    {
      assert u[i] == t[i];
    }
  }

  /** `s.contains(t)`: `t` occurs in `s` at some position. */
  predicate Contains(s: string, t: string) {
    exists i | 0 <= i <= |s| - |t| :: OccursAt(s, t, i)
  }

  /** `t` occurs in `s` starting at index `i`. */
  predicate OccursAt(s: string, t: string, i: int)
    requires 0 <= i <= |s| - |t|
  {
    s[i..i + |t|] == t
  }

  /** Reads back the middle part of a string built as `prefix + x + suffix`. */
  function Unenclose(s: string, prefix: string, suffix: string): (r: Option<string>)
    ensures r.Some? ==> s == prefix + r.value + suffix
  {
    if |prefix| + |suffix| <= |s| && s[..|prefix|] == prefix && s[|s| - |suffix|..] == suffix
    then
      var x := s[|prefix|..|s| - |suffix|];
      assert s == s[..|prefix|] + x + s[|s| - |suffix|..];
      Some(x)
    else None
  }

  /** Concatenating around a value can always be undone, so the built string determines the value. */
  lemma UnencloseEnclose(prefix: string, x: string, suffix: string)
    ensures Unenclose(prefix + x + suffix, prefix, suffix) == Some(x)
  {
    var s := prefix + x + suffix;
    assert s[..|prefix|] == prefix;
    assert s[|s| - |suffix|..] == suffix;
    assert s[|prefix|..|s| - |suffix|] == x;
  }
}
