/**
 * String helpers the component relies on: ASCII lower-casing
 * (`toLowerCase`), substring search (`includes`), joining with a
 * separator (`join`) and the decimal rendering of a count inside a
 * template literal.
 */
module Text {

  /** Lower-cases one character; only the ASCII letters A-Z change. */
  function LowerChar(c: char): char {
    if 'A' <= c <= 'Z' then (c as int - 'A' as int + 'a' as int) as char else c
  }

  /** Not an upper-case ASCII letter: what `LowerChar` leaves unchanged. */
  predicate NotUpperChar(c: char) {
    !('A' <= c <= 'Z')
  }

  /** A string with no upper-case ASCII letter. */
  predicate IsLower(s: string) {
    forall i :: 0 <= i < |s| ==> NotUpperChar(s[i])
  }

  /** `toLowerCase`, restricted to ASCII: every character lower-cased, the length kept. */
  function Lower(s: string): (r: string)
    ensures |r| == |s|
    ensures forall i :: 0 <= i < |s| ==> r[i] == LowerChar(s[i])
    ensures IsLower(r)
  {
    seq(|s|, i requires 0 <= i < |s| => LowerChar(s[i]))
  }

  /** Lower-casing an already lower-case string changes nothing, so it is idempotent. */
  lemma LowerOfLower(s: string)
    requires IsLower(s)
    ensures Lower(s) == s
  {
    assert forall i :: 0 <= i < |s| ==> Lower(s)[i] == s[i];
  }

  lemma LowerIdempotent(s: string)
    ensures Lower(Lower(s)) == Lower(s)
  {
    LowerOfLower(Lower(s));
  }

  /** `needle` occurs in `hay` starting at position `i`. */
  predicate OccursAt(hay: string, needle: string, i: int) {
    0 <= i && i + |needle| <= |hay| && hay[i..i + |needle|] == needle
  }

  /** `String.prototype.includes`: some position of `hay` starts a copy of `needle`. */
  predicate Contains(hay: string, needle: string): (b: bool)
    ensures needle == [] ==> b
    ensures b ==> |needle| <= |hay|
  {
    assert needle == [] ==> OccursAt(hay, needle, 0);
    exists i :: 0 <= i <= |hay| - |needle| && OccursAt(hay, needle, i)
  }

  /** An occurrence in either part is an occurrence in the concatenation. */
  lemma ContainsAppend(a: string, b: string, needle: string)
    ensures Contains(a, needle) ==> Contains(a + b, needle)
    ensures Contains(b, needle) ==> Contains(a + b, needle)
  {
    if Contains(a, needle) {
      var i :| 0 <= i <= |a| - |needle| && OccursAt(a, needle, i);
      assert (a + b)[i..i + |needle|] == a[i..i + |needle|];
      assert OccursAt(a + b, needle, i);
    }
    if Contains(b, needle) {
      var i :| 0 <= i <= |b| - |needle| && OccursAt(b, needle, i);
      assert (a + b)[|a| + i..|a| + i + |needle|] == b[i..i + |needle|];
      assert OccursAt(a + b, needle, |a| + i);
    }
  }

  /** Lower-casing commutes with taking a slice. */
  lemma LowerSlice(s: string, i: nat, j: nat)
    requires i <= j <= |s|
    ensures Lower(s)[i..j] == Lower(s[i..j])
  {
  }

  /** Containment is transitive: an occurrence inside an occurrence. */
  lemma ContainsTransitive(a: string, b: string, needle: string)
    requires Contains(a, b) && Contains(b, needle)
    ensures Contains(a, needle)
  {
    var i :| 0 <= i <= |a| - |b| && OccursAt(a, b, i);
    var j :| 0 <= j <= |b| - |needle| && OccursAt(b, needle, j);
    assert forall k :: 0 <= k < |needle| ==> a[i + j + k] == b[j + k] == needle[k];
    assert OccursAt(a, needle, i + j);
  }

  /** A part of `s` lower-cases to a part of `Lower(s)`. */
  lemma LowerContains(s: string, part: string)
    requires Contains(s, part)
    ensures Contains(Lower(s), Lower(part))
  {
    var i :| 0 <= i <= |s| - |part| && OccursAt(s, part, i);
    LowerSlice(s, i, i + |part|);
    assert OccursAt(Lower(s), Lower(part), i);
  }

  /** Every string contains itself. */
  lemma ContainsSelf(s: string)
    ensures Contains(s, s)
  {
    assert s[0..|s|] == s;
    assert OccursAt(s, s, 0);
  }

  /** `Array.prototype.join`: the parts with `sep` between consecutive
      ones. No parts give the empty string, and every part occurs in the result. */
  function Join(parts: seq<string>, sep: string): (r: string)
    ensures parts == [] ==> r == ""
    ensures forall k :: 0 <= k < |parts| ==> Contains(r, parts[k])
  {
    if parts == [] then ""
    else if |parts| == 1 then
      ContainsSelf(parts[0]);
      parts[0]
    else
      var rest := Join(parts[1..], sep);
      var r := parts[0] + (sep + rest);
      ContainsSelf(parts[0]);
      ContainsAppend(parts[0], sep + rest, parts[0]);
      assert forall k :: 1 <= k < |parts| ==> Contains(r, parts[k]) by {
        forall k | 1 <= k < |parts|
          ensures Contains(r, parts[k])
        {
          assert parts[k] == parts[1..][k - 1];
          ContainsAppend(sep, rest, parts[k]);
          ContainsAppend(parts[0], sep + rest, parts[k]);
        }
      }
      r
  }

  /** The join read from left to right, as `Array.prototype.join` is
      defined: appending a part appends the separator and then the part. */
  lemma {:induction false} JoinAppend(parts: seq<string>, sep: string, p: string)
    ensures Join(parts + [p], sep) == if parts == [] then p else Join(parts, sep) + sep + p
    decreases |parts|
  {
    var all := parts + [p];
    if |parts| == 1 {
      assert all[1..] == [p];
      assert Join(all, sep) == parts[0] + (sep + Join([p], sep));
    } else if |parts| > 1 {
      assert all[1..] == parts[1..] + [p];
      var rest := Join(parts[1..], sep);
      JoinAppend(parts[1..], sep, p);
      assert Join(all, sep) == parts[0] + (sep + (rest + sep + p));
      assert Join(parts, sep) == parts[0] + (sep + rest);
    }
  }

  /** The joined length: all parts, and one separator between each two. */
  lemma {:induction false} JoinLength(parts: seq<string>, sep: string)
    requires parts != []
    ensures |Join(parts, sep)| == TotalLength(parts) + (|parts| - 1) * |sep|
  {
    if |parts| > 1 {
      JoinLength(parts[1..], sep);
    }
  }

  /** The sum of the lengths of the parts. */
  function TotalLength(parts: seq<string>): nat {
    if parts == [] then 0 else |parts[0]| + TotalLength(parts[1..])
  }

  /** The character of a decimal digit. */
  function DigitChar(d: nat): (c: char)
    requires d < 10
    ensures '0' <= c <= '9' && c as int - '0' as int == d
  {
    (d + '0' as int) as char
  }

  predicate IsDigits(s: string) {
    forall i :: 0 <= i < |s| ==> '0' <= s[i] <= '9'
  }

  /** The decimal rendering of a natural number, as `${n}` gives it. */
  function NatToString(n: nat): (s: string)
    ensures |s| >= 1 && IsDigits(s)
    ensures s[0] == '0' ==> n == 0
  {
    if n < 10 then [DigitChar(n)] else NatToString(n / 10) + [DigitChar(n % 10)]
  }

  /** Reads a string of decimal digits back as a number. */
  function DigitsValue(s: string): nat
    requires IsDigits(s)
  {
    if s == [] then 0
    else DigitsValue(s[..|s| - 1]) * 10 + (s[|s| - 1] as int - '0' as int)
  }

  /** Reading the rendering of `n` gives `n` back. */
  lemma {:induction false} NatToStringRoundTrip(n: nat)
    ensures DigitsValue(NatToString(n)) == n
  {
    var s := NatToString(n);
    if n >= 10 {
      NatToStringRoundTrip(n / 10);
      assert s[..|s| - 1] == NatToString(n / 10);
    } else {
      assert s[..|s| - 1] == [];
    }
  }

  /** Different numbers render differently. */
  lemma NatToStringInjective(m: nat, n: nat)
    requires NatToString(m) == NatToString(n)
    ensures m == n
  {
    NatToStringRoundTrip(m);
    NatToStringRoundTrip(n);
  }
}
