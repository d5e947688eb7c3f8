/**
  The lines a terminal model keeps for its owner as they scroll off the screen
  (src/common/terminal_model.c): a ring that overwrites its oldest line, and is
  emptied oldest first.
 */
module Scrollback {
  import opened Bytes

  datatype Cell = Cell(text: bytes, sgr: bytes)

  type Line = seq<Cell>

  /** The last `n` of some lines. */
  function Newest(n: nat, lines: seq<Line>): (kept: seq<Line>)
    ensures |kept| <= n && |kept| <= |lines|
  {
    if |lines| <= n then lines else lines[|lines| - n..]
  }

  /** Where the ring keeps its i-th oldest line. */
  function Slot(head: nat, i: nat, capacity: nat): (slot: nat)
    requires capacity > 0
    ensures slot < capacity
  {
    (head + i) % capacity
  }

  lemma ModSmall(x: nat, c: nat)
    requires x < c
    ensures x % c == x
  {
  }

  lemma ModOnce(x: nat, c: nat)
    requires c <= x < 2 * c
    ensures x % c == x - c
  {
    var q := x / c;
    assert x == q * c + x % c;
    assert q >= 2 ==> q * c >= 2 * c;
    assert q <= 0 ==> q * c <= 0;
  }

  lemma SlotWraps(head: nat, i: nat, capacity: nat)
    requires head < capacity && i <= capacity
    ensures Slot(head, i, capacity) == if head + i < capacity then head + i else head + i - capacity
  {
    if head + i < capacity {
      ModSmall(head + i, capacity);
    } else {
      ModOnce(head + i, capacity);
    }
  }

  lemma SlotsWrap(head: nat, capacity: nat)
    requires head < capacity
    ensures forall i: nat | i <= capacity ::
      Slot(head, i, capacity) == if head + i < capacity then head + i else head + i - capacity
  {
    hide Slot;
    forall i: nat | i <= capacity
      ensures Slot(head, i, capacity) == if head + i < capacity then head + i else head + i - capacity
    {
      SlotWraps(head, i, capacity);
    }
  }

  /** The lines of a ring, oldest first. */
  function Unrolled(ring: seq<Line>, head: nat, count: nat): (lines: seq<Line>)
    requires count <= |ring|
    ensures |lines| == count
    ensures forall i | 0 <= i < count :: lines[i] == ring[Slot(head, i, |ring|)]
  {
    seq(count, i requires 0 <= i < count => ring[Slot(head, i, |ring|)])
  }

  lemma Overwritten(ring: seq<Line>, head: nat, line: Line)
    requires head < |ring|
    ensures Unrolled(ring[head := line], Slot(head, 1, |ring|), |ring|)
         == Newest(|ring|, Unrolled(ring, head, |ring|) + [line])
  {
    hide Slot, Unrolled;
    SlotsWrap(head, |ring|);
    var next := Slot(head, 1, |ring|);
    SlotsWrap(next, |ring|);
    var was, now := Unrolled(ring, head, |ring|), Unrolled(ring[head := line], next, |ring|);
    forall i | 0 <= i < |ring|
      ensures now[i] == (was + [line])[i + 1]
    {
    }
  }

  lemma Added(ring: seq<Line>, head: nat, count: nat, line: Line)
    requires head < |ring| && count < |ring|
    ensures Unrolled(ring[Slot(head, count, |ring|) := line], head, count + 1)
         == Unrolled(ring, head, count) + [line]
  {
    hide Slot, Unrolled;
    SlotsWrap(head, |ring|);
  }

  class Ring {
    var ring: array<Line>
    var head: nat
    var count: nat

    ghost predicate Valid()
      reads this
    {
      && count <= ring.Length
      && (if ring.Length == 0 then head == 0 else head < ring.Length)
    }

    ghost function Contents(): (lines: seq<Line>)
      requires Valid()
      reads this, ring
    {
      Unrolled(ring[..], head, count)
    }

    constructor ()
      ensures Valid() && Contents() == [] && ring.Length == 0
    {
      ring, head, count := new Line[0], 0, 0;
    }

    /** cubicle_terminal_model_set_scrollback_capture_limit: what was kept is gone;
        without memory nothing changes. */
    method SetLimit(limit: nat, granted: bool) returns (ok: bool)
      requires Valid()
      modifies this
      ensures Valid() && ok == (limit == 0 || granted)
      ensures if ok then ring.Length == limit && Contents() == [] && fresh(ring)
        else ring == old(ring) && Contents() == old(Contents())
    {
      if limit > 0 && !granted {
        return false;
      }
      ring, head, count := new Line[limit], 0, 0;
      return true;
    }

    /** capture_scrollback_line: a full ring loses its oldest line for the new one. */
    method Capture(line: Line, granted: bool) returns (ok: bool)
      requires Valid()
      modifies this, ring
      ensures Valid() && ring == old(ring)
      ensures ok == (ring.Length == 0 || line == [] || granted)
      ensures Contents() == if line == [] || !ok then old(Contents()) else Newest(ring.Length, old(Contents()) + [line])
    {
      if ring.Length == 0 || line == [] {
        return true;
      }
      if !granted {
        return false;
      }
      hide Slot, Unrolled;
      ghost var lines := ring[..];
      var slot;
      if count == ring.Length {
        Overwritten(lines, head, line);
        slot := head;
        head := Slot(head, 1, ring.Length);
      } else {
        Added(lines, head, count, line);
        slot := Slot(head, count, ring.Length);
        count := count + 1;
      }
      ring[slot] := line;
      assert ring[..] == lines[slot := line];
      return true;
    }

    /** cubicle_terminal_model_take_scrollback: every kept line, oldest first, once. */
    method Take(granted: bool) returns (ok: bool, lines: seq<Line>)
      requires Valid()
      modifies this, ring
      ensures Valid() && ring == old(ring)
      ensures ok == (old(count) == 0 || granted)
      ensures if ok then lines == old(Contents()) && Contents() == [] else lines == [] && Contents() == old(Contents())
    {
      if count == 0 {
        return true, [];
      }
      if !granted {
        return false, [];
      }
      hide Slot, Unrolled;
      ghost var was := ring[..];
      SlotsWrap(head, ring.Length);
      lines := [];
      for i := 0 to count
        invariant Valid() && ring == old(ring) && count == old(count) && head == old(head)
        invariant lines == old(Contents())[..i]
        invariant forall j: nat | i <= j < count :: ring[Slot(head, j, ring.Length)] == was[Slot(head, j, ring.Length)]
      {
        var slot := Slot(head, i, ring.Length);
        lines := lines + [ring[slot]];
        ring[slot] := [];
      }
      head, count := 0, 0;
      ok := true;
    }
  }

  // ---------------------------------------------------------------------------
  // Whole runs
  // ---------------------------------------------------------------------------

  function Captured(limit: nat, kept: seq<Line>, lines: seq<Line>): (now: seq<Line>)
    decreases lines
  {
    if lines == [] then kept else Captured(limit, Newest(limit, kept + [lines[0]]), lines[1..])
  }

  lemma NewestOnly(limit: nat, kept: seq<Line>, line: Line)
    ensures Newest(limit, Newest(limit, kept) + [line]) == Newest(limit, kept + [line])
  {
  }

  /** Keeping the newest after every line is keeping the newest of all of them. */
  lemma {:induction false} CapturedIsNewest(limit: nat, kept: seq<Line>, lines: seq<Line>)
    ensures Captured(limit, Newest(limit, kept), lines) == Newest(limit, kept + lines)
    decreases lines
  {
    hide Newest;
    if lines == [] {
      assert kept + lines == kept;
    } else {
      NewestOnly(limit, kept, lines[0]);
      CapturedIsNewest(limit, kept + [lines[0]], lines[1..]);
      assert kept + [lines[0]] + lines[1..] == kept + lines;
    }
  }
}
