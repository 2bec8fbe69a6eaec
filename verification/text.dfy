/** The JavaScript string built-ins the application relies on, stated over
    `seq<char>`: the whitespace class shared by `String.prototype.trim` and
    the regular-expression escape `\s`, `trim`, `toLowerCase`, `includes`
    and `split`. */
module Text {

  /** The WhiteSpace and LineTerminator code points of ECMAScript; both
      `trim` and `\s` strip or match exactly these. */
  predicate IsSpace(c: char) {
    || c in {'\t', '\n', '\U{000B}', '\U{000C}', '\r', ' ', '\U{00A0}', '\U{1680}',
             '\U{2028}', '\U{2029}', '\U{202F}', '\U{205F}', '\U{3000}', '\U{FEFF}'}
    || '\U{2000}' <= c <= '\U{200A}'
  }

  /** Every character is whitespace (the empty string included). */
  predicate IsBlank(s: string) {
    forall i :: 0 <= i < |s| ==> IsSpace(s[i])
  }

  predicate HasNoSpace(s: string) {
    forall i :: 0 <= i < |s| ==> !IsSpace(s[i])
  }

  /** Drops leading whitespace: the result is the suffix of `s` that starts
      at its first non-space character. */
  function TrimStart(s: string): (r: string)
    ensures |r| <= |s| && r == s[|s| - |r|..]
    ensures |r| > 0 ==> !IsSpace(r[0])
    ensures forall i :: 0 <= i < |s| - |r| ==> IsSpace(s[i])
  {
    if |s| > 0 && IsSpace(s[0]) then TrimStart(s[1..]) else s
  }

  /** Drops trailing whitespace: the result is the prefix of `s` that ends
      at its last non-space character. */
  function TrimEnd(s: string): (r: string)
    ensures |r| <= |s| && r == s[..|r|]
    ensures |r| > 0 ==> !IsSpace(r[|r| - 1])
    ensures forall i :: |r| <= i < |s| ==> IsSpace(s[i])
  {
    if |s| > 0 && IsSpace(s[|s| - 1]) then TrimEnd(s[..|s| - 1]) else s
  }

  /** `String.prototype.trim`. */
  function Trim(s: string): (r: string)
    ensures |r| > 0 ==> !IsSpace(r[0]) && !IsSpace(r[|r| - 1])
  {
    TrimEnd(TrimStart(s))
  }

  /** `!s.trim()` in the source: a string trims to the empty string exactly
      when it consists of whitespace only. */
  lemma {:induction false} TrimEmptyIffBlank(s: string)
    ensures Trim(s) == "" <==> IsBlank(s)
  {
    var t := TrimStart(s);
    if Trim(s) != "" {
      var r := Trim(s);
      assert r[0] == t[0];
      assert t[0] == s[|s| - |t|];
    }
  }

  /** `toLowerCase` on the ASCII letters; every other character is kept. */
  function LowerChar(c: char): (r: char)
    ensures 'A' <= c <= 'Z' ==> r as int == c as int + 32
    ensures !('A' <= c <= 'Z') ==> r == c
  {
    if 'A' <= c <= 'Z' then (c as int + 32) as char else c
  }

  function ToLower(s: string): (r: string)
    ensures |r| == |s|
    ensures forall i :: 0 <= i < |s| ==> r[i] == LowerChar(s[i])
  {
    seq(|s|, i requires 0 <= i < |s| => LowerChar(s[i]))
  }

  /** `t` occurs in `s` starting at index `i`. */
  predicate OccursAt(s: string, t: string, i: int) {
    0 <= i && i + |t| <= |s| && s[i..i + |t|] == t
  }

  /** `s.includes(t)`: some window of `s` equals `t`. */
  function Includes(s: string, t: string): (r: bool)
    ensures r <==> exists i :: OccursAt(s, t, i)
    decreases |s|
  {
    if |t| > |s| then
      false
    else if s[..|t|] == t then
      assert OccursAt(s, t, 0);
      true
    else
      var rest := Includes(s[1..], t);
      assert forall i :: OccursAt(s[1..], t, i) <==> OccursAt(s, t, i + 1) by {
        forall i ensures OccursAt(s[1..], t, i) <==> OccursAt(s, t, i + 1) {
          if 0 <= i && i + |t| <= |s| - 1 {
            assert s[1..][i..i + |t|] == s[i + 1..i + 1 + |t|];
          }
        }
      }
      assert !OccursAt(s, t, 0);
      assert forall i :: OccursAt(s, t, i) ==> i == 0 || OccursAt(s[1..], t, i - 1);
      rest
  }

  /** A needle whose first character is absent from the haystack is not
      included in it. */
  lemma MissingFirstCharExcludes(s: string, t: string)
    requires |t| > 0 && t[0] !in s
    ensures !Includes(s, t)
  {
  }

  /** Every string includes the empty string. */
  lemma IncludesEmpty(s: string)
    ensures Includes(s, "")
  {
    assert OccursAt(s, "", 0);
  }

  /** `s.split(sep)` for a one-character separator: the maximal runs of
      non-separator characters, empty runs included; never empty. */
  function Split(s: string, sep: char): (parts: seq<string>)
    ensures |parts| >= 1
    ensures forall k :: 0 <= k < |parts| ==> sep !in parts[k]
    decreases |s|
  {
    if |s| == 0 then
      [""]
    else
      var rest := Split(s[1..], sep);
      if s[0] == sep then [""] + rest
      else [[s[0]] + rest[0]] + rest[1..]
  }

  /** `parts.join(sep)`. */
  function Join(parts: seq<string>, sep: char): string
    requires |parts| >= 1
  {
    if |parts| == 1 then parts[0] else parts[0] + [sep] + Join(parts[1..], sep)
  }

  /** Splitting loses nothing: joining the parts back gives the input. */
  lemma {:induction false} JoinSplit(s: string, sep: char)
    ensures Join(Split(s, sep), sep) == s
    decreases |s|
  {
    if |s| > 0 {
      var rest := Split(s[1..], sep);
      JoinSplit(s[1..], sep);
      if s[0] == sep {
        assert Split(s, sep)[1..] == rest;
      } else {
        var parts := Split(s, sep);
        assert parts[0] == [s[0]] + rest[0];
        if |rest| > 1 {
          assert parts[1..] == rest[1..];
        }
      }
    }
  }

  /** A string without the separator splits into itself alone. */
  lemma {:induction false} SplitWithoutSeparator(s: string, sep: char)
    ensures sep !in s ==> Split(s, sep) == [s]
    decreases |s|
  {
    if |s| > 0 && sep !in s {
      SplitWithoutSeparator(s[1..], sep);
      assert [s[0]] + s[1..] == s;
    }
  }
}
