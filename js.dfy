/**
 * The JavaScript built-ins that the editor components rely on, with their
 * JavaScript meaning written out: `String.prototype.split` with a one-character
 * separator, `Array.prototype.join`, `indexOf(p) > -1`, `startsWith`,
 * `endsWith`, `substring` (which clamps and swaps its arguments), the
 * decimal rendering of an integer in `'bp-' + line`, and `a || b` on a value
 * that may be absent or the empty string.
 */
module Js {

  /** A value that may be `undefined`. */
  datatype Option<+T> = None | Some(value: T)

  /** `a || fallback` for a string that may be undefined: absent and `''` are falsy. */
  function OrElse(a: Option<string>, fallback: string): (r: string)
    ensures r == fallback <==> (a == None || a.value == "" || a.value == fallback)
    ensures r != fallback ==> a == Some(r)
  {
    if a.Some? && a.value != "" then a.value else fallback
  }

  predicate StartsWith(s: string, prefix: string)
  {
    prefix <= s
  }

  predicate EndsWith(s: string, suffix: string)
  {
    |suffix| <= |s| && s[|s| - |suffix|..] == suffix
  }

  /** `s.indexOf(p) > -1`. */
  predicate Contains(s: string, p: string)
  {
    exists i | 0 <= i <= |s| - |p| :: OccursAt(s, p, i)
  }

  predicate OccursAt(s: string, p: string, i: int)
  {
    0 <= i <= |s| - |p| && s[i..i + |p|] == p
  }

  /** `parts.join(sep)`; an empty array joins to `''`. */
  function Join(parts: seq<string>, sep: string): string
  {
    if |parts| == 0 then ""
    else if |parts| == 1 then parts[0]
    else parts[0] + sep + Join(parts[1..], sep)
  }

  /** `s.split(c)` for a one-character separator: never empty, `''` splits to `['']`. */
  function Split(s: string, c: char): (parts: seq<string>)
    ensures |parts| >= 1
  {
    if s == [] then [""]
    else
      var rest := Split(s[1..], c);
      if s[0] == c then [""] + rest else [[s[0]] + rest[0]] + rest[1..]
  }

  /** `s.split('\n').length`, the number of lines of an editor buffer. */
  function LineCount(s: string): nat
  {
    |Split(s, '\n')|
  }

  lemma {:induction false} SplitLength(s: string, c: char)
    ensures |Split(s, c)| == multiset(s)[c] + 1
  {
    if s != [] {
      assert s == [s[0]] + s[1..];
      SplitLength(s[1..], c);
    }
  }

  /** Joining the pieces back with the separator gives the original string. */
  lemma {:induction false} SplitJoin(s: string, c: char)
    ensures Join(Split(s, c), [c]) == s
  {
    if s != [] {
      var rest := Split(s[1..], c);
      SplitJoin(s[1..], c);
      if s[0] == c {
        assert ([""] + rest)[1..] == rest;
      } else if |rest| >= 2 {
        var parts := [[s[0]] + rest[0]] + rest[1..];
        assert parts[1..] == rest[1..];
        assert Join(rest, [c]) == rest[0] + [c] + Join(rest[1..], [c]);
      }
    }
  }

  /** No piece of a split contains the separator. */
  lemma {:induction false} SplitPiecesFree(s: string, c: char)
    ensures forall j :: 0 <= j < |Split(s, c)| ==> c !in Split(s, c)[j]
  {
    if s != [] {
      SplitPiecesFree(s[1..], c);
    }
  }

  /** One more trailing newline is one more line. */
  lemma LineCountAppendNewline(s: string)
    ensures LineCount(s + "\n") == LineCount(s) + 1
  {
    SplitLength(s, '\n');
    SplitLength(s + "\n", '\n');
    assert multiset(s + "\n") == multiset(s) + multiset{'\n'};
  }

  /** `s.substring(start, end)`: both bounds clamped to `[0, |s|]`, swapped when reversed. */
  function Substring(s: string, start: int, end: int): (r: string)
    ensures |r| <= |s|
  {
    var a := Clamp(start, |s|);
    var b := Clamp(end, |s|);
    if a <= b then s[a..b] else s[b..a]
  }

  function Clamp(x: int, len: nat): (r: nat)
    ensures r <= len
  {
    if x < 0 then 0 else if x > len then len else x
  }

  // ---------------------------------------------------------------------------
  // Substring search through a joined array.

  /** An occurrence in `a + [c] + b` of a pattern without `c` lies in `a` or in `b`. */
  lemma ContainsAround(a: string, c: char, b: string, p: string)
    requires c !in p
    ensures Contains(a + [c] + b, p) <==> Contains(a, p) || Contains(b, p)
  {
    var s := a + [c] + b;
    if Contains(s, p) {
      var i :| 0 <= i <= |s| - |p| && OccursAt(s, p, i);
      OccurrenceCovers(s, p, i, |a|);
      if i + |p| <= |a| {
        assert a[i..i + |p|] == s[i..i + |p|];
        assert OccursAt(a, p, i);
      } else if i > |a| {
        assert b[i - |a| - 1..i - |a| - 1 + |p|] == s[i..i + |p|];
        assert OccursAt(b, p, i - |a| - 1);
      }
    }
    ContainsExtend(a, [c] + b, p);
    assert a + ([c] + b) == s;
    if Contains(b, p) {
      ContainsShift(a + [c], b, p);
      assert a + [c] + b == (a + [c]) + b;
    }
  }

  /** An occurrence at `i` that covers position `k` puts `p[k - i]` there. */
  lemma OccurrenceCovers(s: string, p: string, i: int, k: int)
    requires OccursAt(s, p, i)
    ensures i <= k < i + |p| ==> s[k] == p[k - i]
  {
    if i <= k < i + |p| {
      assert s[i..i + |p|][k - i] == s[k];
    }
  }

  /** An occurrence survives appending text. */
  lemma ContainsExtend(a: string, t: string, p: string)
    ensures Contains(a, p) ==> Contains(a + t, p)
  {
    if Contains(a, p) {
      var i :| 0 <= i <= |a| - |p| && OccursAt(a, p, i);
      assert (a + t)[i..i + |p|] == a[i..i + |p|];
      assert OccursAt(a + t, p, i);
    }
  }

  /** An occurrence survives prepending text. */
  lemma ContainsShift(t: string, b: string, p: string)
    ensures Contains(b, p) ==> Contains(t + b, p)
  {
    if Contains(b, p) {
      var i :| 0 <= i <= |b| - |p| && OccursAt(b, p, i);
      assert (t + b)[|t| + i..|t| + i + |p|] == b[i..i + |p|];
      assert OccursAt(t + b, p, |t| + i);
    }
  }

  /**
   * A non-empty pattern without the separator occurs in the joined string
   * exactly when it occurs in one of the parts.
   */
  lemma {:induction false} ContainsJoin(parts: seq<string>, c: char, p: string)
    requires p != [] && c !in p
    ensures Contains(Join(parts, [c]), p) <==> exists j :: 0 <= j < |parts| && Contains(parts[j], p)
  {
    if |parts| == 0 {
      assert !Contains("", p);
    } else if |parts| == 1 {
    } else {
      ContainsJoin(parts[1..], c, p);
      ContainsAround(parts[0], c, Join(parts[1..], [c]), p);
      if exists j :: 1 <= j < |parts| && Contains(parts[j], p) {
        var j :| 1 <= j < |parts| && Contains(parts[j], p);
        assert parts[1..][j - 1] == parts[j];
      }
    }
  }

  // ---------------------------------------------------------------------------
  // Decimal rendering of a number, as in `'bp-' + line`.

  function DigitChar(d: nat): (ch: char)
    requires d < 10
    ensures '0' <= ch <= '9'
  {
    (48 + d) as char
  }

  function NatString(n: nat): (s: string)
    ensures |s| >= 1
    ensures forall i :: 0 <= i < |s| ==> '0' <= s[i] <= '9'
  {
    if n < 10 then [DigitChar(n)] else NatString(n / 10) + [DigitChar(n % 10)]
  }

  /** `String(n)` for an integer `n`. */
  function DecimalString(n: int): string
  {
    if n < 0 then "-" + NatString(-n) else NatString(n)
  }

  lemma {:induction false} NatStringInjective(a: nat, b: nat)
    requires NatString(a) == NatString(b)
    ensures a == b
  {
    if a >= 10 && b >= 10 {
      var sa, sb := NatString(a), NatString(b);
      assert sa[|sa| - 1] == DigitChar(a % 10) && sb[|sb| - 1] == DigitChar(b % 10);
      assert sa[..|sa| - 1] == NatString(a / 10) && sb[..|sb| - 1] == NatString(b / 10);
      NatStringInjective(a / 10, b / 10);
    }
  }

  /** The rendering starts with a minus sign exactly for negative numbers. */
  lemma DecimalStringSign(n: int)
    ensures DecimalString(n) != [] && (DecimalString(n)[0] == '-' <==> n < 0)
  {
  }

  /** Different numbers render differently. */
  lemma DecimalStringInjective(a: int, b: int)
    requires DecimalString(a) == DecimalString(b)
    ensures a == b
  {
    DecimalStringSign(a);
    DecimalStringSign(b);
    if a < 0 && b < 0 {
      assert NatString(-a) == DecimalString(a)[1..];
      NatStringInjective(-a, -b);
    } else if a >= 0 && b >= 0 {
      NatStringInjective(a, b);
    }
  }
}
