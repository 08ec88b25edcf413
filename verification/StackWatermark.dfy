/** The stack half of the runtime memory monitor: a painted stretch of stack, and the scan that finds
    how much of it was used. */
module StackWatermark {
  import opened Common

  const STACK_PAINT_WORD: nat := 0xA55A3CC3
  const STACK_GUARD_WORD: nat := 0xD15EA5ED
  const STACK_PAINT_GUARD_BYTES: nat := 128
  const STACK_LIMIT_GUARD_BYTES: nat := 64

  /** The linker's `__StackBottom` and `__StackTop`, and the address of a local variable when
      painting begins. The stack grows down. */
  datatype Layout = Layout(bottom: nat, top: nat, current: nat) {

    function PaintBegin(): nat { (bottom + 3) / 4 }

    function PaintEnd(): nat {
      (if current > STACK_PAINT_GUARD_BYTES then current - STACK_PAINT_GUARD_BYTES else current) / 4
    }

    function GuardEnd(): nat {
      Min((bottom + STACK_LIMIT_GUARD_BYTES + 3) / 4, PaintEnd())
    }

    function Capacity(): int { top - bottom }

    /** The test that lets painting happen at all. */
    predicate Paintable() {
      bottom <= current <= top && PaintBegin() <= PaintEnd()
    }
  }

  // Addresses of words are counted in words throughout: `mem[w]` is the word at byte address 4 * w.

  /** The bounds, in byte addresses: a word is painted exactly when it lies wholly between the bottom of
      the stack and 128 bytes below the current frame, and it is a guard word exactly when, besides, it
      starts less than 64 bytes above the bottom. */
  lemma PaintCovers(l: Layout, w: nat)
    requires l.Paintable() && l.current > 128
    ensures l.PaintBegin() <= w < l.PaintEnd() <==> l.bottom <= 4 * w && 4 * w + 4 <= l.current - 128
    ensures l.PaintBegin() <= w < l.GuardEnd() <==>
              l.bottom <= 4 * w < l.bottom + 64 && 4 * w + 4 <= l.current - 128
    ensures STACK_GUARD_WORD != STACK_PAINT_WORD
  {
  }

  predicate Painted(l: Layout, mem: seq<nat>)
    requires l.Paintable() && l.PaintEnd() <= |mem|
  {
    && (forall w :: l.PaintBegin() <= w < l.GuardEnd() ==> mem[w] == STACK_GUARD_WORD)
    && (forall w :: l.GuardEnd() <= w < l.PaintEnd() ==> mem[w] == STACK_PAINT_WORD)
  }

  /** A word was changed between two snapshots. */
  predicate Changed(was: seq<nat>, now: seq<nat>, w: nat)
    requires w < |was| && w < |now|
  {
    was[w] != now[w]
  }

  /** The lowest painted word that changed, or the end of the paint if none did. */
  ghost predicate LowestChanged(l: Layout, was: seq<nat>, now: seq<nat>, p: nat)
    requires l.Paintable() && l.PaintEnd() <= |was| && l.PaintEnd() <= |now|
  {
    && l.GuardEnd() <= p <= l.PaintEnd()
    && (p < l.PaintEnd() ==> Changed(was, now, p))
    && forall w :: l.GuardEnd() <= w < p ==> !Changed(was, now, w)
  }

  datatype Reading = Reading(highWater: int, unused: int, corrupted: bool)

  /** What a reading has to be, in terms of the words that changed since the paint was laid. */
  ghost predicate ReadingIsExact(l: Layout, was: seq<nat>, now: seq<nat>, r: Reading)
    requires l.Paintable() && l.PaintEnd() <= |was| && l.PaintEnd() <= |now|
  {
    && (r.corrupted <==> exists w :: l.PaintBegin() <= w < l.GuardEnd() && Changed(was, now, w))
    && (r.corrupted ==> r.highWater == l.Capacity())
    && (!r.corrupted ==> exists p: nat :: LowestChanged(l, was, now, p) && r.highWater == l.top - 4 * p)
    && r.highWater + r.unused == l.Capacity()
  }

  /** Two exact readings of the same paint: the one taken after more words had changed is not the
      smaller. */
  lemma DepthIsMonotone(l: Layout, was: seq<nat>, now: seq<nat>, later: seq<nat>, r: Reading, s: Reading)
    requires l.Paintable() && l.PaintEnd() <= |was| && l.PaintEnd() <= |now| && l.PaintEnd() <= |later|
    requires ReadingIsExact(l, was, now, r) && ReadingIsExact(l, was, later, s)
    requires forall w :: l.PaintBegin() <= w < l.PaintEnd() && Changed(was, now, w) ==> Changed(was, later, w)
    ensures r.highWater <= s.highWater
    ensures r.corrupted ==> s.corrupted
  {
    if r.corrupted {
      var w :| l.PaintBegin() <= w < l.GuardEnd() && Changed(was, now, w);
      assert Changed(was, later, w);
    } else {
      var p: nat :| LowestChanged(l, was, now, p) && r.highWater == l.top - 4 * p;
      if !s.corrupted {
        var q: nat :| LowestChanged(l, was, later, q) && s.highWater == l.top - 4 * q;
        assert p < l.PaintEnd() ==> Changed(was, later, p);
      }
    }
  }

  /** A window that could be painted never reports less than the frame it was opened from, nor more
      than the stack holds. A window that could not be painted reports nothing used. */
  lemma DepthCoversCaller(l: Layout, was: seq<nat>, now: seq<nat>, r: Reading)
    requires l.Paintable() && l.PaintEnd() <= |was| && l.PaintEnd() <= |now|
    requires ReadingIsExact(l, was, now, r)
    ensures l.top - l.current <= r.highWater <= l.Capacity()
  {
  }

  /** `runtime_memory_begin` and `runtime_memory_end`, as far as the stack is concerned. */
  class StackMonitor {
    const layout: Layout
    var paint: Option<(nat, nat, nat)>

    constructor (layout: Layout)
      ensures this.layout == layout && paint == None
    {
      this.layout := layout;
      paint := None;
    }

    ghost predicate Open()
      reads this
    {
      paint == if layout.Paintable() then Some((layout.PaintBegin(), layout.PaintEnd(), layout.GuardEnd())) else None
    }

    method Begin(mem: array<nat>)
      requires layout.top <= 4 * mem.Length
      modifies this, mem
      ensures Open()
      ensures layout.Paintable() ==> Painted(layout, mem[..])
      ensures forall w :: 0 <= w < mem.Length && !(layout.Paintable() && layout.PaintBegin() <= w < layout.PaintEnd())
                ==> mem[w] == old(mem[w])
    {
      var bottom, top, current := layout.bottom, layout.top, layout.current;
      var safeEnd := if current > STACK_PAINT_GUARD_BYTES then current - STACK_PAINT_GUARD_BYTES else current;
      var paintBegin, paintEnd := (bottom + 3) / 4, safeEnd / 4;
      var guardEnd := (bottom + STACK_LIMIT_GUARD_BYTES + 3) / 4;
      if current < bottom || current > top || paintEnd < paintBegin {
        paint := None;
      } else {
        if guardEnd > paintEnd {
          guardEnd := paintEnd;
        }
        for p := paintBegin to guardEnd
          invariant forall w :: paintBegin <= w < p ==> mem[w] == STACK_GUARD_WORD
          invariant forall w :: 0 <= w < mem.Length && !(paintBegin <= w < p) ==> mem[w] == old(mem[w])
        {
          mem[p] := STACK_GUARD_WORD;
        }
        for p := guardEnd to paintEnd
          invariant forall w :: paintBegin <= w < guardEnd ==> mem[w] == STACK_GUARD_WORD
          invariant forall w :: guardEnd <= w < p ==> mem[w] == STACK_PAINT_WORD
          invariant forall w :: 0 <= w < mem.Length && !(paintBegin <= w < p) ==> mem[w] == old(mem[w])
        {
          mem[p] := STACK_PAINT_WORD;
        }
        paint := Some((paintBegin, paintEnd, guardEnd));
      }
    }

    /** `painted` is the memory as `Begin` left it. */
    method End(mem: array<nat>, ghost painted: seq<nat>) returns (r: Reading)
      requires Open() && layout.top <= 4 * mem.Length
      requires layout.Paintable() ==> layout.PaintEnd() <= |painted| && Painted(layout, painted)
      ensures layout.Paintable() ==> ReadingIsExact(layout, painted, mem[..], r)
      ensures !layout.Paintable() ==> r == Reading(0, Max(layout.Capacity(), 0), false)
    {
      var highWater, corrupted := 0, false;
      if paint.Some? {
        var (paintBegin, paintEnd, guardEnd) := paint.value;
        for g := paintBegin to guardEnd
          invariant corrupted <==> exists w :: paintBegin <= w < g && Changed(painted, mem[..], w)
        {
          if mem[g] != STACK_GUARD_WORD {
            assert Changed(painted, mem[..], g);
            corrupted := true;
          }
        }
        var p := guardEnd;
        while p < paintEnd && mem[p] == STACK_PAINT_WORD
          invariant guardEnd <= p <= paintEnd
          invariant forall w :: guardEnd <= w < p ==> !Changed(painted, mem[..], w)
        {
          p := p + 1;
        }
        assert p < paintEnd ==> Changed(painted, mem[..], p);
        assert LowestChanged(layout, painted, mem[..], p);
        assert 4 * p >= 4 * layout.PaintBegin() >= layout.bottom;
        highWater := layout.top - 4 * p;
        if corrupted {
          highWater := layout.top - layout.bottom;
        }
      }
      var capacity := layout.top - layout.bottom;
      r := Reading(highWater, if capacity > highWater then capacity - highWater else 0, corrupted);
    }
  }

  /** The reported depth is zero exactly when painting was refused: either the stack pointer was
      outside the stack, or fewer than about 128 bytes were left, which is when the stack is deepest. */
  lemma DepthZeroIffNotPainted(l: Layout, was: seq<nat>, now: seq<nat>, r: Reading)
    requires l.bottom < l.top && l.current > STACK_PAINT_GUARD_BYTES
    requires l.Paintable() ==> l.PaintEnd() <= |was| && l.PaintEnd() <= |now| && ReadingIsExact(l, was, now, r)
    requires !l.Paintable() ==> r == Reading(0, Max(l.Capacity(), 0), false)
    ensures r.highWater == 0 <==> !l.Paintable()
  {
  }

  lemma PaintRefusedIff(l: Layout)
    requires l.current > STACK_PAINT_GUARD_BYTES
    ensures !l.Paintable() <==>
              || l.current < l.bottom || l.current > l.top
              || l.current / 4 < (l.bottom + 3) / 4 + STACK_PAINT_GUARD_BYTES / 4
  {
  }
}
