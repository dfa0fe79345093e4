/**
 * The `breakpoints` dictionary of both editor components: decorations keyed
 * by `'bp-<line>'` (a breakpoint glyph, flipped by `toggleBreakPoint`) and
 * `'hl-<line>'` (the highlighted line, replaced by `highlight`). The
 * decoration objects are reduced to their kind and line; the Monaco range
 * and CSS class names they carry follow from those two.
 */
module Decorations {
  import opened Js

  datatype Decoration = BreakpointGlyph(line: int) | HighlightLine(line: int)

  type Breakpoints = map<string, Decoration>

  function BreakpointKey(line: int): string
  {
    "bp-" + DecimalString(line)
  }

  function HighlightKey(line: int): string
  {
    "hl-" + DecimalString(line)
  }

  /** `k.startsWith('hl')`, the keys that `highlight` deletes. */
  predicate IsHighlightKey(k: string)
  {
    StartsWith(k, "hl")
  }

  /** `toggleBreakPoint(line)`: delete the entry under `bp-<line>` if present, insert a glyph otherwise. */
  function Toggled(bp: Breakpoints, line: int): (r: Breakpoints)
    ensures BreakpointKey(line) in r <==> BreakpointKey(line) !in bp
    ensures forall k :: k != BreakpointKey(line) ==> (k in r <==> k in bp)
    ensures forall k :: k in r && k != BreakpointKey(line) ==> r[k] == bp[k]
  {
    var key := BreakpointKey(line);
    if key in bp then bp - {key} else bp[key := BreakpointGlyph(line)]
  }

  /** The keys that remain after every `hl`-prefixed key of `highlight` is deleted. */
  function WithoutHighlights(bp: Breakpoints): (r: Breakpoints)
    ensures forall k :: k in r <==> k in bp && !IsHighlightKey(k)
    ensures forall k :: k in r ==> r[k] == bp[k]
  {
    map k | k in bp && !IsHighlightKey(k) :: bp[k]
  }

  /** `highlight(line)`: drop every `hl` key, then insert `hl-<line>`. */
  function Highlighted(bp: Breakpoints, line: int): (r: Breakpoints)
    ensures forall k :: k in r && IsHighlightKey(k) <==> k == HighlightKey(line)
    ensures r[HighlightKey(line)] == HighlightLine(line)
    ensures forall k :: !IsHighlightKey(k) ==> (k in r <==> k in bp)
    ensures forall k :: k in r && !IsHighlightKey(k) ==> r[k] == bp[k]
  {
    WithoutHighlights(bp)[HighlightKey(line) := HighlightLine(line)]
  }

  /**
   * The `Object.keys(…).forEach` loop of `highlight`, deleting the `hl` keys
   * one by one. The visiting order is arbitrary, as it does not change the result.
   */
  method RemoveHighlights(bp: Breakpoints) returns (r: Breakpoints)
    ensures r == WithoutHighlights(bp)
  {
    r := bp;
    var pending := bp.Keys;
    while pending != {}
      invariant pending <= bp.Keys
      invariant forall k :: k in r <==> k in bp && (k in pending || !IsHighlightKey(k))
      invariant forall k :: k in r ==> r[k] == bp[k]
      decreases pending
    {
      var k :| k in pending;
      if IsHighlightKey(k) {
        r := r - {k};
      }
      pending := pending - {k};
    }
  }

  // ---------------------------------------------------------------------------
  // Invariants that both operations keep.

  /** Every entry holds the decoration its key names, as the two operations create them. */
  ghost predicate WellFormed(bp: Breakpoints)
  {
    && (forall line :: BreakpointKey(line) in bp ==> bp[BreakpointKey(line)] == BreakpointGlyph(line))
    && (forall line :: HighlightKey(line) in bp ==> bp[HighlightKey(line)] == HighlightLine(line))
  }

  /** At most one highlighted line. */
  ghost predicate AtMostOneHighlight(bp: Breakpoints)
  {
    forall k1, k2 :: k1 in bp && k2 in bp && IsHighlightKey(k1) && IsHighlightKey(k2) ==> k1 == k2
  }

  lemma BreakpointKeyInjective(a: int, b: int)
    requires BreakpointKey(a) == BreakpointKey(b)
    ensures a == b
  {
    assert DecimalString(a) == BreakpointKey(a)[3..];
    assert DecimalString(b) == BreakpointKey(b)[3..];
    DecimalStringInjective(a, b);
  }

  lemma HighlightKeyInjective(a: int, b: int)
    requires HighlightKey(a) == HighlightKey(b)
    ensures a == b
  {
    assert DecimalString(a) == HighlightKey(a)[3..];
    assert DecimalString(b) == HighlightKey(b)[3..];
    DecimalStringInjective(a, b);
  }

  /** Breakpoint keys are never touched by `highlight`, and the two key families are disjoint. */
  lemma KeyFamilies(a: int, b: int)
    ensures !IsHighlightKey(BreakpointKey(a))
    ensures IsHighlightKey(HighlightKey(b))
    ensures BreakpointKey(a) != HighlightKey(b)
  {
    assert BreakpointKey(a)[0] == 'b';
  }

  lemma ToggledWellFormed(bp: Breakpoints, line: int)
    requires WellFormed(bp)
    ensures WellFormed(Toggled(bp, line))
  {
    var r := Toggled(bp, line);
    forall l | BreakpointKey(l) in r
      ensures r[BreakpointKey(l)] == BreakpointGlyph(l)
    {
      if BreakpointKey(l) == BreakpointKey(line) {
        BreakpointKeyInjective(l, line);
      }
    }
    forall l | HighlightKey(l) in r
      ensures r[HighlightKey(l)] == HighlightLine(l)
    {
      KeyFamilies(line, l);
    }
  }

  lemma ToggledAtMostOneHighlight(bp: Breakpoints, line: int)
    requires AtMostOneHighlight(bp)
    ensures AtMostOneHighlight(Toggled(bp, line))
  {
    KeyFamilies(line, 0);
  }

  lemma HighlightedWellFormed(bp: Breakpoints, line: int)
    requires WellFormed(bp)
    ensures WellFormed(Highlighted(bp, line))
    ensures AtMostOneHighlight(Highlighted(bp, line))
  {
    var r := Highlighted(bp, line);
    forall l | BreakpointKey(l) in r
      ensures r[BreakpointKey(l)] == BreakpointGlyph(l)
    {
      KeyFamilies(l, line);
    }
    forall l | HighlightKey(l) in r
      ensures r[HighlightKey(l)] == HighlightLine(l)
    {
      KeyFamilies(0, l);
      HighlightKeyInjective(l, line);
    }
  }

  // ---------------------------------------------------------------------------
  // How the operations combine.

  /** Toggling the same line twice restores the dictionary. */
  lemma ToggleTwiceRestores(bp: Breakpoints, line: int)
    requires WellFormed(bp)
    ensures Toggled(Toggled(bp, line), line) == bp
  {
  }

  /** Toggling one line leaves the breakpoint of every other line as it was. */
  lemma ToggleOtherLine(bp: Breakpoints, a: int, b: int)
    requires a != b
    ensures BreakpointKey(b) in Toggled(bp, a) <==> BreakpointKey(b) in bp
  {
    if BreakpointKey(b) == BreakpointKey(a) {
      BreakpointKeyInjective(a, b);
    }
  }

  /** Toggles of two lines commute. */
  lemma ToggleCommutes(bp: Breakpoints, a: int, b: int)
    ensures Toggled(Toggled(bp, a), b) == Toggled(Toggled(bp, b), a)
  {
    if a != b {
      ToggleOtherLine(bp, a, b);
      ToggleOtherLine(bp, b, a);
      ToggleOtherLine(Toggled(bp, a), b, a);
      ToggleOtherLine(Toggled(bp, b), a, b);
    }
  }

  /** Only the last highlight counts. */
  lemma HighlightLastWins(bp: Breakpoints, a: int, b: int)
    ensures Highlighted(Highlighted(bp, a), b) == Highlighted(bp, b)
  {
  }

  /** Highlighting and toggling a breakpoint do not interfere. */
  lemma HighlightToggleCommute(bp: Breakpoints, a: int, b: int)
    ensures Highlighted(Toggled(bp, a), b) == Toggled(Highlighted(bp, b), a)
  {
    KeyFamilies(a, b);
  }
}
