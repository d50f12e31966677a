/**
 * The scrolling wheel of one segment (wheel.js). The visible list is the alphabet with a copy of
 * its last symbol in front and a copy of its first symbol at the end; a move across the ends of
 * the alphabet scrolls onto such a copy and a deferred "snap" then jumps to the real item.
 * Only the list index the wheel scrolls to is modelled, not the pixel translation.
 */
module Wheels {
  import opened Symbols

  /** The list of displayed items: `[last, ...alphabet, first]`. */
  function AlphabetPlus(alphabet: seq<Symbol>): (items: seq<Symbol>)
    requires alphabet != []
    ensures |items| == |alphabet| + 2
    ensures items[0] == alphabet[|alphabet| - 1] && items[|alphabet| + 1] == alphabet[0]
    ensures forall i :: 0 <= i < |alphabet| ==> items[i + 1] == alphabet[i]
  {
    [alphabet[|alphabet| - 1]] + alphabet + [alphabet[0]]
  }

  /** Where setPosition scrolls (`index`) and the snap it schedules, if any. */
  datatype Move = Move(index: int, snap: Option<int>)

  /**
   * The `oldIndex` logic of setPosition for an alphabet of n symbols: a boundary crossing scrolls
   * to a sentinel copy and schedules a snap; every other move scrolls straight to position + 1.
   * Either way the wheel comes to rest on position + 1.
   */
  function Target(oldIndex: int, position: int, n: int): (m: Move)
    ensures m.snap.Some? <==> (oldIndex == 1 && position == n - 1) || (oldIndex == n && position == 0)
    ensures m.snap.Some? ==> m.index == 0 || m.index == n + 1
    ensures (if m.snap.Some? then m.snap.value else m.index) == position + 1
    ensures oldIndex == 1 && position == n - 1 ==> m == Move(0, Some(n))
    ensures oldIndex == n && position == 0 && !(oldIndex == 1 && position == n - 1) ==> m == Move(n + 1, Some(1))
    ensures m.snap.None? ==> m.index == position + 1
  {
    if oldIndex - 1 == 0 && position == n - 1 then
      Move(0, Some(n))           // overflow scrolling up: onto the copy of the last symbol
    else if oldIndex == n && position == 0 then
      Move(n + 1, Some(1))       // overflow scrolling down: onto the copy of the first symbol
    else
      Move(position + 1, None)
  }

  /**
   * Display agreement: for a position inside the alphabet, the item scrolled to shows
   * alphabet[position], and so does the item the scheduled snap jumps to.
   */
  lemma DisplayAgreement(alphabet: seq<Symbol>, oldIndex: int, position: int)
    requires 0 <= position < |alphabet|
    ensures var m := Target(oldIndex, position, |alphabet|);
      && 0 <= m.index < |alphabet| + 2
      && AlphabetPlus(alphabet)[m.index] == alphabet[position]
      && (m.snap.Some? ==> 0 <= m.snap.value < |alphabet| + 2 && AlphabetPlus(alphabet)[m.snap.value] == alphabet[position])
  {
    var items := AlphabetPlus(alphabet);
    assert items[position + 1] == alphabet[position];
  }

  /** The wheel's state: its `oldIndex`, the snaps still waiting on their timers, the last scroll target. */
  datatype WheelState = WheelState(oldIndex: int, pendingSnaps: seq<int>, scrolledTo: Option<int>)

  /** setPosition: scroll to the target and queue its snap (earlier snaps are never cancelled). */
  function SetPositionState(w: WheelState, position: int, n: int): WheelState
  {
    var m := Target(w.oldIndex, position, n);
    WheelState(m.index, w.pendingSnaps + (if m.snap.Some? then [m.snap.value] else []), Some(m.index))
  }

  /** The oldest pending snap timer fires: it jumps to its index without animation. */
  function FireSnapState(w: WheelState): WheelState
    requires w.pendingSnaps != []
  {
    WheelState(w.pendingSnaps[0], w.pendingSnaps[1..], Some(w.pendingSnaps[0]))
  }

  /** Every pending snap fires, oldest first (all snaps use the same 250 ms delay). */
  function Settle(w: WheelState): (s: WheelState)
    ensures s.pendingSnaps == []
    ensures w.pendingSnaps == [] ==> s == w
    ensures w.pendingSnaps != [] ==>
      s.oldIndex == w.pendingSnaps[|w.pendingSnaps| - 1] && s.scrolledTo == Some(s.oldIndex)
    decreases |w.pendingSnaps|
  {
    if w.pendingSnaps == [] then w else Settle(FireSnapState(w))
  }

  /**
   * Settled state: when no stale snap was waiting (or the move itself crossed a boundary), once
   * the snaps have fired the wheel rests on position + 1, the item showing alphabet[position].
   */
  lemma SettlesOnPosition(alphabet: seq<Symbol>, w: WheelState, position: int)
    requires 0 <= position < |alphabet|
    requires w.pendingSnaps == [] || Target(w.oldIndex, position, |alphabet|).snap.Some?
    ensures Settle(SetPositionState(w, position, |alphabet|)).oldIndex == position + 1
    ensures Settle(SetPositionState(w, position, |alphabet|)).scrolledTo == Some(position + 1)
    ensures AlphabetPlus(alphabet)[position + 1] == alphabet[position]
  {
    DisplayAgreement(alphabet, -1, position);
  }

  /**
   * Calling setPosition(p) a second time is an ordinary move to p + 1 and settles exactly where a
   * single call settles.
   */
  lemma SetPositionTwice(w: WheelState, position: int, n: int)
    requires n >= 3 && 0 <= position < n
    ensures Target(SetPositionState(w, position, n).oldIndex, position, n) == Move(position + 1, None)
    ensures Settle(SetPositionState(SetPositionState(w, position, n), position, n))
         == Settle(SetPositionState(w, position, n))
  {
    var w1 := SetPositionState(w, position, n);
    var w2 := SetPositionState(w1, position, n);
    assert w2.pendingSnaps == w1.pendingSnaps;
  }

  /**
   * Snaps are never cancelled: with three symbols, a wrap from 0 to 2 followed, before its snap
   * fires, by a move back to 0 leaves the stale snap in the queue, and once it fires the wheel
   * shows the last symbol although the position is 0.
   */
  lemma StaleSnapOverridesNewerPosition(alphabet: seq<Symbol>)
    requires |alphabet| == 3 && NoDuplicates(alphabet)
    ensures var w := SetPositionState(SetPositionState(WheelState(1, [], Some(1)), 2, 3), 0, 3);
      && w.oldIndex == 1 && AlphabetPlus(alphabet)[w.oldIndex] == alphabet[0]
      && Settle(w).oldIndex == 3 && AlphabetPlus(alphabet)[Settle(w).oldIndex] != alphabet[0]
  {
    var items := AlphabetPlus(alphabet);
    assert items[0 + 1] == alphabet[0];
    assert items[2 + 1] == alphabet[2];
  }

  /**
   * The constructor's `oldIndex` is the position itself, one less than the index that shows it:
   * the initial index shows the previous symbol.
   */
  lemma InitialIndexShowsPreviousSymbol(alphabet: seq<Symbol>, position: int)
    requires 1 <= position <= |alphabet|
    ensures AlphabetPlus(alphabet)[position] == alphabet[position - 1]
  {
    assert AlphabetPlus(alphabet)[(position - 1) + 1] == alphabet[position - 1];
  }

  /**
   * Because of that, with three symbols a first move from position 1 down to 2 is taken for an
   * upward overflow (scroll to the sentinel at 0, snap to 3) instead of the ordinary scroll to 3.
   */
  lemma FirstMoveFromInitialIndexWrapsWrongWay()
    ensures Target(1, 2, 3) == Move(0, Some(3))
    ensures Target(1 + 1, 2, 3) == Move(3, None)
  {
  }

  class Wheel {
    const alphabet: seq<Symbol>
    var oldIndex: int
    var pendingSnaps: seq<int>
    var scrolledTo: Option<int>

    ghost function State(): WheelState
      reads this
    {
      WheelState(oldIndex, pendingSnaps, scrolledTo)
    }

    /** The wheel starts on `oldIndex = position` (not position + 1), nothing scrolled yet. */
    constructor (alphabet: seq<Symbol>, position: int)
      ensures this.alphabet == alphabet
      ensures State() == WheelState(position, [], None)
    {
      this.alphabet := alphabet;
      oldIndex := position;
      pendingSnaps := [];
      scrolledTo := None;
    }

    /** setPosition (wheel.js:61-90): the new state is SetPositionState of the old one. */
    method SetPosition(position: int)
      modifies this
      ensures State() == SetPositionState(old(State()), position, |alphabet|)
    {
      var n := |alphabet|;
      if oldIndex - 1 == 0 && position == n - 1 {
        oldIndex := 0;
        pendingSnaps := pendingSnaps + [n];
      } else if oldIndex == n && position == 0 {
        oldIndex := n + 1;
        pendingSnaps := pendingSnaps + [1];
      } else {
        oldIndex := position + 1;
      }
      ScrollTo(oldIndex);
    }

    /** The oldest snap timer fires (wheel.js:72-75 and 80-83). */
    method FireSnap()
      requires pendingSnaps != []
      modifies this
      ensures State() == FireSnapState(old(State()))
    {
      oldIndex := pendingSnaps[0];
      pendingSnaps := pendingSnaps[1..];
      ScrollTo(oldIndex);
    }

    /** scrollTo, reduced to the list index it targets. */
    method ScrollTo(index: int)
      modifies this
      ensures scrolledTo == Some(index)
      ensures oldIndex == old(oldIndex) && pendingSnaps == old(pendingSnaps)
    {
      scrolledTo := Some(index);
    }
  }
}
