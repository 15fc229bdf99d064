/**
 * The JavaScript string operations the core relies on: `toLowerCase`,
 * `includes`, `split(' ')` (with its inverse, joining on the separator)
 * and the decimal rendering of a non-negative number.
 *
 * A string is a sequence of characters, each a Unicode scalar value. A
 * character outside the Basic Multilingual Plane is one character here,
 * where JavaScript counts two UTF-16 code units; a lone surrogate, which a
 * JavaScript string can hold, has no representation here.
 */
module Text {

  /** `toLowerCase` on one character, for the ASCII and Latin-1 letters: the result is never upper case. */
  function LowerChar(c: char): (d: char)
    ensures 'A' <= c <= 'Z' ==> d as int == c as int + 32
    ensures IsLatin1Upper(c) ==> d as int == c as int + 32
    ensures !IsUpper(c) ==> d == c
    ensures !IsUpper(d)
  {
    if IsUpper(c) then (c as int + 32) as char else c
  }

  /** Upper-case letters of the Latin-1 Supplement (À..Þ without the multiplication sign). */
  predicate IsLatin1Upper(c: char) {
    '\U{C0}' <= c <= '\U{DE}' && c != '\U{D7}'
  }

  /** The upper-case letters `LowerChar` maps. */
  predicate IsUpper(c: char) {
    'A' <= c <= 'Z' || IsLatin1Upper(c)
  }

  /** No character of `s` is an upper-case letter. */
  predicate IsLowerCase(s: string) {
    forall i :: 0 <= i < |s| ==> !IsUpper(s[i])
  }

  /** `s.toLowerCase()`, character by character. */
  function Lower(s: string): string {
    seq(|s|, i requires 0 <= i < |s| => LowerChar(s[i]))
  }

  /** Lower-casing yields a lower-case string. */
  lemma LowerIsLowerCase(s: string)
    ensures IsLowerCase(Lower(s))
  {
    forall i | 0 <= i < |s|
      ensures !IsUpper(Lower(s)[i])
    {
      assert Lower(s)[i] == LowerChar(s[i]);
    }
  }

  /** A string without upper-case letters is its own lower-casing. */
  lemma LowerOfLowerCase(t: string)
    requires IsLowerCase(t)
    ensures Lower(t) == t
  {
  }

  /** Lower-casing twice is lower-casing once. */
  lemma LowerIdempotent(s: string)
    ensures Lower(Lower(s)) == Lower(s)
  {
    LowerIsLowerCase(s);
    LowerOfLowerCase(Lower(s));
  }

  lemma LowerAppend(a: string, b: string)
    ensures Lower(a + b) == Lower(a) + Lower(b)
  {
  }

  /** `t` occurs in `s` starting at index `i`. */
  predicate OccursAt(s: string, t: string, i: int) {
    0 <= i && i + |t| <= |s| && s[i..i + |t|] == t
  }

  /** `s.includes(t)`. */
  predicate Contains(s: string, t: string) {
    exists i | 0 <= i <= |s| - |t| :: OccursAt(s, t, i)
  }

  /** An occurrence inside a middle part is an occurrence in the whole. */
  lemma ContainsInfix(a: string, b: string, c: string, t: string)
    requires Contains(b, t)
    ensures Contains(a + b + c, t)
  {
    var i :| 0 <= i <= |b| - |t| && OccursAt(b, t, i);
    assert (a + b + c)[|a| + i..|a| + i + |t|] == b[i..i + |t|];
    assert OccursAt(a + b + c, t, |a| + i);
  }

  /** Every string contains itself. */
  lemma ContainsSelf(s: string)
    ensures Contains(s, s)
  {
    assert OccursAt(s, s, 0);
  }

  /** If the lower-cased `s` has `t` at `i`, then so does the lower-cased `a + s + b`. */
  lemma LowerContainsInfix(a: string, s: string, b: string, t: string)
    requires Contains(Lower(s), t)
    ensures Contains(Lower(a + s + b), t)
  {
    LowerAppend(a + s, b);
    LowerAppend(a, s);
    ContainsInfix(Lower(a), Lower(s), Lower(b), t);
  }

  /** If the lower-cased `s` contains `t`, so does the lower-cased `s + b`. */
  lemma LowerContainsPrefix(s: string, b: string, t: string)
    requires Contains(Lower(s), t)
    ensures Contains(Lower(s + b), t)
  {
    LowerAppend(s, b);
    var i :| 0 <= i <= |Lower(s)| - |t| && OccursAt(Lower(s), t, i);
    assert (Lower(s) + Lower(b))[i..i + |t|] == Lower(s)[i..i + |t|];
    assert OccursAt(Lower(s + b), t, i);
  }

  /**
   * Lower-casing keeps occurrences: if `s` contains `t`, the lower-cased `s`
   * contains the lower-cased `t`. So a lower-case trigger word is found in a
   * prompt whatever the case the prompt writes it in.
   */
  lemma LowerContains(s: string, t: string)
    requires Contains(s, t)
    ensures Contains(Lower(s), Lower(t))
  {
    var i :| 0 <= i <= |s| - |t| && OccursAt(s, t, i);
    assert Lower(s)[i..i + |t|] == Lower(t) by {
      forall k | 0 <= k < |t|
        ensures Lower(s)[i..i + |t|][k] == Lower(t)[k]
      {
        assert s[i..i + |t|][k] == t[k];
      }
    }
    assert OccursAt(Lower(s), Lower(t), i);
  }

  /**
   * `s.split([sep])`: the maximal pieces between separators, in order. An
   * empty string gives one empty piece, and two adjacent separators give an
   * empty piece between them.
   */
  function Split(s: string, sep: char): (parts: seq<string>)
    ensures |parts| >= 1
    decreases |s|
  {
    if |s| == 0 then [""]
    else
      var rest := Split(s[1..], sep);
      if s[0] == sep then [""] + rest
      else [[s[0]] + rest[0]] + rest[1..]
  }

  /** `parts.join([sep])`. */
  function Join(parts: seq<string>, sep: char): string
    requires |parts| >= 1
    decreases |parts|
  {
    if |parts| == 1 then parts[0] else parts[0] + [sep] + Join(parts[1..], sep)
  }

  /** No piece of a split contains the separator. */
  lemma {:induction false} SplitPartsLackSeparator(s: string, sep: char)
    ensures forall k :: 0 <= k < |Split(s, sep)| ==> sep !in Split(s, sep)[k]
    decreases |s|
  {
    if |s| > 0 {
      SplitPartsLackSeparator(s[1..], sep);
    }
  }

  lemma {:induction false} JoinPrependToFirst(c: char, parts: seq<string>, sep: char)
    requires |parts| >= 1
    ensures Join([[c] + parts[0]] + parts[1..], sep) == [c] + Join(parts, sep)
  {
    var q := [[c] + parts[0]] + parts[1..];
    assert q[1..] == parts[1..];
  }

  /** Joining the pieces of a split on the same separator gives back the string. */
  lemma {:induction false} JoinSplit(s: string, sep: char)
    ensures Join(Split(s, sep), sep) == s
    decreases |s|
  {
    if |s| > 0 {
      var rest := Split(s[1..], sep);
      JoinSplit(s[1..], sep);
      if s[0] == sep {
        assert ([""] + rest)[1..] == rest;
        assert s == [s[0]] + s[1..];
      } else {
        JoinPrependToFirst(s[0], rest, sep);
        assert s == [s[0]] + s[1..];
      }
    }
  }

  /** Splitting a join of separator-free pieces gives back the pieces. */
  lemma {:induction false} SplitJoin(parts: seq<string>, sep: char)
    requires |parts| >= 1
    requires forall k :: 0 <= k < |parts| ==> sep !in parts[k]
    ensures Split(Join(parts, sep), sep) == parts
    decreases |parts|, |parts[0]|
  {
    var p := parts[0];
    if |p| == 0 {
      if |parts| > 1 {
        SplitJoin(parts[1..], sep);
        var j := Join(parts, sep);
        assert j == [sep] + Join(parts[1..], sep);
        assert j[1..] == Join(parts[1..], sep);
        assert [""] + parts[1..] == parts;
      }
    } else {
      var tail := [p[1..]] + parts[1..];
      assert tail[1..] == parts[1..];
      forall k | 0 <= k < |tail| ensures sep !in tail[k] {
        if k == 0 {
          assert sep !in p;
        } else {
          assert tail[k] == parts[k];
        }
      }
      SplitJoin(tail, sep);
      JoinPrependToFirst(p[0], tail, sep);
      assert [p[0]] + tail[0] == p;
      assert [[p[0]] + tail[0]] + tail[1..] == parts;
      var j := Join(parts, sep);
      assert j == [p[0]] + Join(tail, sep);
      assert j[0] == p[0] && j[1..] == Join(tail, sep);
      assert p[0] != sep;
    }
  }

  /**
   * `Split` is characterised by its two properties: the pieces of `s` are
   * exactly the separator-free pieces that join back to `s`.
   */
  lemma SplitCharacterised(s: string, sep: char, parts: seq<string>)
    requires |parts| >= 1
    ensures Split(s, sep) == parts <==>
      (Join(parts, sep) == s && forall k :: 0 <= k < |parts| ==> sep !in parts[k])
  {
    JoinSplit(s, sep);
    SplitPartsLackSeparator(s, sep);
    if Join(parts, sep) == s && forall k :: 0 <= k < |parts| ==> sep !in parts[k] {
      SplitJoin(parts, sep);
    }
  }

  /** The decimal digits of a non-negative integer, as `${n}` writes them. */
  function Decimal(n: nat): (r: string)
    ensures |r| >= 1
    ensures forall i :: 0 <= i < |r| ==> '0' <= r[i] <= '9'
  {
    if n < 10 then [('0' as int + n) as char]
    else Decimal(n / 10) + [('0' as int + n % 10) as char]
  }
}
