/** String helpers for the JavaScript built-ins the core relies on:
    `toUpperCase`/`toLowerCase` (restricted to ASCII letters),
    `String.prototype.includes` and `String.prototype.split` on one character. */
module Strings {
  import Seqs

  predicate IsAsciiLower(c: char) { 'a' <= c <= 'z' }
  predicate IsAsciiUpper(c: char) { 'A' <= c <= 'Z' }

  function UpperChar(c: char): (u: char)
    ensures !IsAsciiLower(u)
    ensures IsAsciiUpper(c) || !IsAsciiLower(c) ==> u == c
  {
    if IsAsciiLower(c) then (c as int - 32) as char else c
  }

  function LowerChar(c: char): (l: char)
    ensures !IsAsciiUpper(l)
    ensures IsAsciiLower(c) || !IsAsciiUpper(c) ==> l == c
  {
    if IsAsciiUpper(c) then (c as int + 32) as char else c
  }

  /** `s.toUpperCase()`: no lower-case ASCII letter survives and the length is kept. */
  function ToUpper(s: string): (r: string)
    ensures |r| == |s|
    ensures forall k :: 0 <= k < |r| ==> !IsAsciiLower(r[k])
  {
    seq(|s|, k requires 0 <= k < |s| => UpperChar(s[k]))
  }

  /** `s.toLowerCase()`. */
  function ToLower(s: string): (r: string)
    ensures |r| == |s|
    ensures forall k :: 0 <= k < |r| ==> !IsAsciiUpper(r[k])
  {
    seq(|s|, k requires 0 <= k < |s| => LowerChar(s[k]))
  }

  /** `needle` occurs in `hay` starting at index `i`. */
  ghost predicate OccursAt(hay: string, needle: string, i: int) {
    0 <= i && i + |needle| <= |hay| && hay[i..i + |needle|] == needle
  }

  /** `hay.includes(needle)`: true exactly when `needle` occurs somewhere in
      `hay` (the empty needle occurs everywhere). */
  function Includes(hay: string, needle: string): (b: bool)
    ensures b <==> exists i :: OccursAt(hay, needle, i)
    decreases |hay|
  {
    if |needle| <= |hay| && hay[..|needle|] == needle then
      assert OccursAt(hay, needle, 0);
      true
    else if |hay| == 0 then
      false
    else
      var rest := Includes(hay[1..], needle);
      assert rest ==> exists i :: OccursAt(hay, needle, i) by {
        if rest {
          var i :| OccursAt(hay[1..], needle, i);
          assert hay[1..][i..i + |needle|] == hay[i + 1..i + 1 + |needle|];
          assert OccursAt(hay, needle, i + 1);
        }
      }
      assert (exists i :: OccursAt(hay, needle, i)) ==> rest by {
        if i :| OccursAt(hay, needle, i) {
          assert i != 0;
          assert hay[1..][i - 1..i - 1 + |needle|] == hay[i..i + |needle|];
          assert OccursAt(hay[1..], needle, i - 1);
        }
      }
      rest
  }

  /** `s.split(sep)`: the pieces between separators, never empty. */
  function Split(s: string, sep: char): (parts: seq<string>)
    ensures |parts| >= 1
    ensures SeparatorFree(parts, sep)
    ensures Join(parts, sep) == s
    decreases |s|
  {
    if sep !in s then [s]
    else
      var i := Seqs.IndexOf(s, sep);
      var rest := Split(s[i + 1..], sep);
      assert s == s[..i] + [sep] + s[i + 1..];
      [s[..i]] + rest
  }

  /** No piece contains the separator. */
  predicate SeparatorFree(parts: seq<string>, sep: char) {
    forall k :: 0 <= k < |parts| ==> sep !in parts[k]
  }

  lemma SeparatorFreeConcat(a: seq<string>, b: seq<string>, sep: char)
    requires SeparatorFree(a, sep) && SeparatorFree(b, sep)
    ensures SeparatorFree(a + b, sep)
  {
  }

  /** Inverse of `Split`: the pieces glued back with the separator. */
  function Join(parts: seq<string>, sep: char): string {
    if |parts| == 0 then ""
    else if |parts| == 1 then parts[0]
    else parts[0] + [sep] + Join(parts[1..], sep)
  }

  /** Splitting a join of separator-free pieces gives the pieces back. */
  lemma {:induction false} SplitJoin(parts: seq<string>, sep: char)
    requires |parts| >= 1
    requires SeparatorFree(parts, sep)
    ensures Split(Join(parts, sep), sep) == parts
  {
    if |parts| > 1 {
      var s := Join(parts, sep);
      var head := parts[0];
      var tail := Join(parts[1..], sep);
      assert s == head + [sep] + tail;
      assert s[..|head|] == head;
      assert s[|head|] == sep;
      Seqs.IndexOfFresh(s, |head|);
      assert s[|head| + 1..] == tail;
      SplitJoin(parts[1..], sep);
      assert Split(s, sep) == [head] + Split(tail, sep);
      assert parts == [head] + parts[1..];
    }
  }
}
