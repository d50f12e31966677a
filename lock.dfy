/**
 * The lock (lock.js): one segment per solution symbol, all over the same alphabet. It joins the
 * segments' symbols into the response, snapshots their positions, and fans enable, disable,
 * reset and showSolutions out to every segment. It also holds the advisory message the widget
 * announces (the widget calls setMessage/getMessage on it, which lock.js does not define; here
 * the message is a plain field).
 */
module Locks {
  import opened Symbols
  import opened LockSegments

  /** The advisory messages, as tags rather than localised text. */
  datatype Message =
    | NoMessage
    | AttemptsLeft(count: int)
    | LockOpen
    | WrongCombination
    | LockDisabled
    | CorrectCombination

  /** The persisted part of the lock: one position per segment. */
  datatype LockSnapshot = LockSnapshot(positions: seq<int>)

  /**
   * The response for the given positions: each segment's `alphabet[position]`, joined in order;
   * a position outside the alphabet yields `undefined`, which `join('')` turns into nothing.
   */
  function ResponseOf(alphabet: seq<Symbol>, positions: seq<int>): (r: seq<Symbol>)
    ensures |r| <= |positions|
  {
    if positions == [] then []
    else
      (if 0 <= positions[0] < |alphabet| then [alphabet[positions[0]]] else [])
      + ResponseOf(alphabet, positions[1..])
  }

  /** The response is as long as the lock exactly when every position lies inside the alphabet. */
  lemma {:induction false} ResponseLength(alphabet: seq<Symbol>, positions: seq<int>)
    ensures |ResponseOf(alphabet, positions)| == |positions| <==>
      forall i :: 0 <= i < |positions| ==> 0 <= positions[i] < |alphabet|
  {
    if positions != [] {
      ResponseLength(alphabet, positions[1..]);
      assert forall i :: 1 <= i < |positions| ==> positions[i] == positions[1..][i - 1];
    }
  }

  /** With every position inside the alphabet, symbol i of the response is `alphabet[positions[i]]`. */
  lemma {:induction false} ResponseInRange(alphabet: seq<Symbol>, positions: seq<int>)
    requires forall i :: 0 <= i < |positions| ==> 0 <= positions[i] < |alphabet|
    ensures |ResponseOf(alphabet, positions)| == |positions|
    ensures forall i :: 0 <= i < |positions| ==> ResponseOf(alphabet, positions)[i] == alphabet[positions[i]]
  {
    if positions != [] {
      ResponseInRange(alphabet, positions[1..]);
    }
  }

  /**
   * The lock opens exactly when every segment shows its solution symbol; in particular a segment
   * restored to a position outside the alphabet keeps the lock shut.
   */
  lemma OpensIffEverySymbolMatches(alphabet: seq<Symbol>, solution: seq<Symbol>, positions: seq<int>)
    requires |positions| == |solution|
    ensures ResponseOf(alphabet, positions) == solution <==>
      forall i :: 0 <= i < |positions| ==> 0 <= positions[i] < |alphabet| && alphabet[positions[i]] == solution[i]
  {
    ResponseLength(alphabet, positions);
    if forall i :: 0 <= i < |positions| ==> 0 <= positions[i] < |alphabet| {
      ResponseInRange(alphabet, positions);
    }
  }

  /**
   * Moving every segment to the first index of its solution symbol opens the lock, as long as
   * every solution symbol is in the alphabet.
   */
  lemma SolutionPositionsOpen(alphabet: seq<Symbol>, solution: seq<Symbol>, positions: seq<int>)
    requires |positions| == |solution|
    requires forall i :: 0 <= i < |solution| ==> solution[i] in alphabet
    requires forall i :: 0 <= i < |solution| ==> positions[i] == IndexOf(alphabet, solution[i])
    ensures ResponseOf(alphabet, positions) == solution
  {
    OpensIffEverySymbolMatches(alphabet, solution, positions);
  }

  /** The saved position handed to segment i: `positions[i]` when a position list was saved and is long enough. */
  function SavedAt(saved: Option<seq<int>>, i: nat): (p: Option<int>)
    ensures p.Some? <==> saved.Some? && i < |saved.value|
    ensures p.Some? ==> p.value == saved.value[i]
  {
    if saved.Some? && i < |saved.value| then Some(saved.value[i]) else None
  }

  /**
   * Restoring a lock from a snapshot: segment i starts on the saved position when that is not 0,
   * and on its random draw otherwise.
   */
  lemma RestoreFromSnapshot(snapshot: LockSnapshot, randoms: seq<int>, i: nat)
    requires |randoms| == |snapshot.positions| && i < |snapshot.positions|
    ensures InitialPosition(SavedAt(Some(snapshot.positions), i), randoms[i])
         == if snapshot.positions[i] != 0 then snapshot.positions[i] else randoms[i]
  {
  }

  /** The positions a new lock starts on: segment i's saved position, or its draw when that is absent or 0. */
  function InitialPositions(saved: Option<seq<int>>, randoms: seq<int>): (ps: seq<int>)
    ensures |ps| == |randoms|
    ensures forall i {:trigger ps[i]} :: 0 <= i < |randoms| ==> ps[i] == InitialPosition(SavedAt(saved, i), randoms[i])
  {
    seq(|randoms|, i requires 0 <= i < |randoms| => InitialPosition(SavedAt(saved, i), randoms[i]))
  }

  /** The states a new lock's segments start in. */
  function InitialStates(saved: Option<seq<int>>, randoms: seq<int>): (ss: seq<SegmentState>)
    ensures |ss| == |randoms|
    ensures forall i {:trigger ss[i]} :: 0 <= i < |randoms| ==> ss[i] == InitialState(SavedAt(saved, i), randoms[i])
  {
    seq(|randoms|, i requires 0 <= i < |randoms| => InitialState(SavedAt(saved, i), randoms[i]))
  }

  /** Positions of a sequence of segments, in order. */
  function PositionsOf(segs: seq<LockSegment>): (ps: seq<int>)
    reads segs
    ensures |ps| == |segs|
    ensures forall i {:trigger ps[i]} :: 0 <= i < |segs| ==> ps[i] == segs[i].position
  {
    if segs == [] then [] else [segs[0].GetPosition()] + PositionsOf(segs[1..])
  }

  /** Joins the segments' responses, each `undefined` contributing nothing. */
  function JoinResponses(alphabet: seq<Symbol>, segs: seq<LockSegment>): (r: seq<Symbol>)
    requires forall i :: 0 <= i < |segs| ==> segs[i].alphabet == alphabet
    reads segs
    ensures r == ResponseOf(alphabet, PositionsOf(segs))
  {
    if segs == [] then []
    else
      assert PositionsOf(segs)[1..] == PositionsOf(segs[1..]);
      (match segs[0].GetResponse() case Some(x) => [x] case None => [])
      + JoinResponses(alphabet, segs[1..])
  }

  /** Every segment's state after enable. */
  function EnabledAll(ss: seq<SegmentState>): (r: seq<SegmentState>)
    ensures |r| == |ss| && forall i {:trigger r[i]} :: 0 <= i < |ss| ==> r[i] == EnabledState(ss[i])
  {
    seq(|ss|, i requires 0 <= i < |ss| => EnabledState(ss[i]))
  }

  /** Every segment's state after disable. */
  function DisabledAll(ss: seq<SegmentState>): (r: seq<SegmentState>)
    ensures |r| == |ss| && forall i {:trigger r[i]} :: 0 <= i < |ss| ==> r[i] == DisabledState(ss[i])
  {
    seq(|ss|, i requires 0 <= i < |ss| => DisabledState(ss[i]))
  }

  /** Every segment's state after setPosition(ps[i]). */
  function MovedAll(ss: seq<SegmentState>, ps: seq<int>, n: int): (r: seq<SegmentState>)
    requires |ps| == |ss|
    ensures |r| == |ss| && forall i {:trigger r[i]} :: 0 <= i < |ss| ==> r[i] == MovedState(ss[i], ps[i], n)
  {
    seq(|ss|, i requires 0 <= i < |ss| => MovedState(ss[i], ps[i], n))
  }

  /** The position showSolutions moves each segment to: the first index of its solution symbol. */
  function SolutionPositions(alphabet: seq<Symbol>, solution: seq<Symbol>): (ps: seq<int>)
    ensures |ps| == |solution| && forall i {:trigger ps[i]} :: 0 <= i < |solution| ==> ps[i] == IndexOf(alphabet, solution[i])
  {
    seq(|solution|, i requires 0 <= i < |solution| => IndexOf(alphabet, solution[i]))
  }

  /** The positions recorded in a sequence of segment states. */
  function PositionsOfStates(ss: seq<SegmentState>): (ps: seq<int>)
    ensures |ps| == |ss| && forall i {:trigger ps[i]} :: 0 <= i < |ss| ==> ps[i] == ss[i].position
  {
    seq(|ss|, i requires 0 <= i < |ss| => ss[i].position)
  }

  /** A new lock's segments sit on its initial positions. */
  lemma InitialStatesPositions(saved: Option<seq<int>>, randoms: seq<int>)
    ensures PositionsOfStates(InitialStates(saved, randoms)) == InitialPositions(saved, randoms)
  {
  }

  /** A wheel's snap timer moves only the wheel's list: no segment's position, and so not the response, changes. */
  lemma SnapKeepsResponse(alphabet: seq<Symbol>, ss: seq<SegmentState>, i: int)
    requires 0 <= i < |ss| && ss[i].wheel.pendingSnaps != []
    ensures PositionsOfStates(ss[i := SnapFiredState(ss[i])]) == PositionsOfStates(ss)
    ensures ResponseOf(alphabet, PositionsOfStates(ss[i := SnapFiredState(ss[i])])) == ResponseOf(alphabet, PositionsOfStates(ss))
  {
    var moved := ss[i := SnapFiredState(ss[i])];
    assert forall k :: 0 <= k < |ss| ==> PositionsOfStates(moved)[k] == PositionsOfStates(ss)[k];
  }

  /** After reset every segment is enabled and inside the alphabet. */
  lemma ResetLeavesEveryoneEnabledInRange(ss: seq<SegmentState>, randoms: seq<int>, n: int)
    requires |randoms| == |ss| && forall i :: 0 <= i < |randoms| ==> 0 <= randoms[i] < n
    ensures forall i :: 0 <= i < |ss| ==>
      var t := MovedAll(EnabledAll(ss), randoms, n)[i];
      0 <= t.position < n && !t.nextDisabled && !t.previousDisabled && t.position == randoms[i]
  {
  }

  /**
   * showSolutions opens the lock: once every segment has moved to its solution position, the
   * response is the solution, as long as the alphabet holds every solution symbol.
   */
  lemma SolutionStatesOpen(alphabet: seq<Symbol>, solution: seq<Symbol>, ss: seq<SegmentState>)
    requires |ss| == |solution|
    requires forall k :: 0 <= k < |solution| ==> solution[k] in alphabet
    ensures ResponseOf(alphabet, PositionsOfStates(MovedAll(ss, SolutionPositions(alphabet, solution), |alphabet|)))
         == solution
  {
    var ps := PositionsOfStates(MovedAll(ss, SolutionPositions(alphabet, solution), |alphabet|));
    SolutionPositionsOpen(alphabet, solution, ps);
  }

  /** `owner` maps segment `s` and its buttons and wheel to `i`. */
  ghost predicate OwnedBy(owner: map<object, int>, i: int, s: LockSegment)
  {
    && s in owner && owner[s] == i
    && s.buttonNext in owner && owner[s.buttonNext] == i
    && s.buttonPrevious in owner && owner[s.buttonPrevious] == i
    && s.wheel in owner && owner[s.wheel] == i
  }

  /**
   * The segments a new lock creates: one per solution symbol, in order, all over the same
   * alphabet, segment i starting on its saved position or its draw. Each owns fresh objects,
   * recorded in `own`.
   */
  method NewSegments(alphabet: seq<Symbol>, solution: seq<Symbol>, savedPositions: Option<seq<int>>, randoms: seq<int>)
    returns (segs: seq<LockSegment>, ghost own: map<object, int>)
    requires |alphabet| >= 3 && |randoms| == |solution|
    requires forall i :: 0 <= i < |randoms| ==> 0 <= randoms[i] < |alphabet|
    ensures |segs| == |solution| && fresh(own.Keys)
    ensures forall j :: 0 <= j < |segs| ==>
      && segs[j].Valid() && segs[j].alphabet == alphabet && segs[j].solution == solution[j]
      && segs[j].State() == InitialStates(savedPositions, randoms)[j]
      && segs[j].Repr() <= own.Keys && OwnedBy(own, j, segs[j])
  {
    segs := [];
    own := map[];
    var i := 0;
    while i < |solution|
      invariant 0 <= i <= |solution| && |segs| == i
      invariant forall j :: 0 <= j < i ==>
        && segs[j].Valid() && segs[j].alphabet == alphabet && segs[j].solution == solution[j]
        && segs[j].State() == InitialStates(savedPositions, randoms)[j]
      invariant forall j :: 0 <= j < i ==> segs[j].Repr() <= own.Keys && OwnedBy(own, j, segs[j])
      invariant fresh(own.Keys)
    {
      var segment := new LockSegment(alphabet, solution[i], SavedAt(savedPositions, i), randoms[i]);
      segs := segs + [segment];
      own := own[segment := i][segment.buttonNext := i][segment.buttonPrevious := i][segment.wheel := i];
      i := i + 1;
    }
  }

  class Lock {
    const alphabet: seq<Symbol>
    const solution: seq<Symbol>
    const segments: seq<LockSegment>
    var message: Option<Message>

    /** Which segment owns each object: segment i owns itself, its two buttons and its wheel. */
    ghost const owner: map<object, int>
    /** The objects of all segments. */
    ghost const parts: set<object>

    /** The segments' states, in order. */
    ghost function States(): (ss: seq<SegmentState>)
      requires Valid()
      reads parts
      ensures |ss| == |segments| && forall i {:trigger ss[i]} :: 0 <= i < |segments| ==> ss[i] == segments[i].State()
    {
      seq(|segments|, i requires 0 <= i < |segments| reads parts => segments[i].State())
    }

    /** One valid segment per solution symbol, over the lock's alphabet, owning disjoint objects. */
    ghost predicate Valid()
    {
      && |segments| == |solution|
      && |alphabet| >= 3
      && parts == owner.Keys && this !in parts
      && (forall i :: 0 <= i < |segments| ==>
            && segments[i].Valid() && segments[i].alphabet == alphabet && segments[i].solution == solution[i]
            && segments[i].Repr() <= parts && OwnedBy(owner, i, segments[i]))
    }

    /**
     * One segment per solution symbol, in order; segment i starts on the saved `positions[i]`
     * (unless absent or 0) or on its random draw.
     */
    constructor (alphabet: seq<Symbol>, solution: seq<Symbol>, savedPositions: Option<seq<int>>, randoms: seq<int>)
      requires |alphabet| >= 3 && |randoms| == |solution|
      requires forall i :: 0 <= i < |randoms| ==> 0 <= randoms[i] < |alphabet|
      ensures Valid() && fresh(parts)
      ensures this.alphabet == alphabet && this.solution == solution && message == None
      ensures States() == InitialStates(savedPositions, randoms)
      ensures GetPositions() == InitialPositions(savedPositions, randoms)
    {
      var segs: seq<LockSegment>;
      ghost var own: map<object, int>;
      segs, own := NewSegments(alphabet, solution, savedPositions, randoms);
      this.alphabet := alphabet;
      this.solution := solution;
      segments := segs;
      owner := own;
      parts := own.Keys;
      message := None;
    }

    /** Distinct segments own disjoint objects. */
    lemma SegmentsDisjoint(i: int, j: int)
      requires Valid() && 0 <= i < |segments| && 0 <= j < |segments| && i != j
      ensures segments[i].Repr() !! segments[j].Repr()
    {
    }

    /** getPositions: one position per segment, in segment order. */
    function GetPositions(): (ps: seq<int>)
      reads segments
      ensures |ps| == |segments|
      ensures forall i {:trigger ps[i]} :: 0 <= i < |segments| ==> ps[i] == segments[i].position
    {
      PositionsOf(segments)
    }

    /** getResponse: the segments' symbols joined in order. */
    function GetResponse(): (r: seq<Symbol>)
      requires Valid()
      reads segments
      ensures r == ResponseOf(alphabet, GetPositions())
    {
      JoinResponses(alphabet, segments)
    }

    /** The response is determined by the segments' states. */
    lemma ResponseOfStates()
      requires Valid()
      ensures GetResponse() == ResponseOf(alphabet, PositionsOfStates(States()))
    {
      assert GetPositions() == PositionsOfStates(States());
    }

    /** getCurrentState: `{ positions }`, from which a new lock restores every non-zero position. */
    function GetCurrentState(): (snapshot: LockSnapshot)
      reads segments
      ensures snapshot.positions == GetPositions()
      ensures |snapshot.positions| == |segments|
      ensures forall i, r :: 0 <= i < |segments| && segments[i].position != 0 ==>
        InitialPosition(SavedAt(Some(snapshot.positions), i), r) == segments[i].position
    {
      LockSnapshot(GetPositions())
    }

    /** The message slot the widget writes through setMessage. */
    method SetMessage(m: Message)
      modifies this
      ensures message == Some(m)
    {
      message := Some(m);
    }

    /** enable: every segment's buttons are enabled; no position changes. */
    method Enable()
      requires Valid()
      modifies parts
      ensures Valid()
      ensures States() == EnabledAll(old(States()))
    {
      var i := 0;
      while i < |segments|
        invariant 0 <= i <= |segments|
        invariant Valid()
        invariant forall j :: 0 <= j < i ==> segments[j].State() == EnabledState(old(segments[j].State()))
        invariant forall j :: i <= j < |segments| ==> segments[j].State() == old(segments[j].State())
      {
        label before:
        segments[i].Enable();
        forall j | 0 <= j < |segments| && j != i
          ensures segments[j].State() == old@before(segments[j].State())
        {
          SegmentsDisjoint(i, j);
        }
        i := i + 1;
      }
    }

    /** disable: every segment's buttons are disabled; no position changes, no cooldown is cancelled. */
    method Disable()
      requires Valid()
      modifies parts
      ensures Valid()
      ensures States() == DisabledAll(old(States()))
    {
      var i := 0;
      while i < |segments|
        invariant 0 <= i <= |segments|
        invariant Valid()
        invariant forall j :: 0 <= j < i ==> segments[j].State() == DisabledState(old(segments[j].State()))
        invariant forall j :: i <= j < |segments| ==> segments[j].State() == old(segments[j].State())
      {
        label before:
        segments[i].Disable();
        forall j | 0 <= j < |segments| && j != i
          ensures segments[j].State() == old@before(segments[j].State())
        {
          SegmentsDisjoint(i, j);
        }
        i := i + 1;
      }
    }

    /** reset: enable, then reset every segment onto its random draw; all end enabled and in range. */
    method Reset(randoms: seq<int>)
      requires Valid() && |randoms| == |segments|
      requires forall i :: 0 <= i < |randoms| ==> 0 <= randoms[i] < |alphabet|
      modifies parts
      ensures Valid()
      ensures States() == MovedAll(EnabledAll(old(States())), randoms, |alphabet|)
    {
      Enable();
      ghost var enabled := States();
      var i := 0;
      while i < |segments|
        invariant 0 <= i <= |segments|
        invariant Valid()
        invariant forall j :: 0 <= j < i ==> segments[j].State() == MovedState(enabled[j], randoms[j], |alphabet|)
        invariant forall j :: i <= j < |segments| ==> segments[j].State() == enabled[j]
      {
        assert EnabledState(enabled[i]) == enabled[i];
        label before:
        segments[i].Reset(randoms[i]);
        forall j | 0 <= j < |segments| && j != i
          ensures segments[j].State() == old@before(segments[j].State())
        {
          SegmentsDisjoint(i, j);
        }
        i := i + 1;
      }
    }

    /**
     * showSolutions: every segment moves to the first index of its solution symbol, whatever its
     * buttons say; when the alphabet holds every solution symbol the response is the solution.
     */
    method ShowSolutions()
      requires Valid()
      modifies parts
      ensures Valid()
      ensures States() == MovedAll(old(States()), SolutionPositions(alphabet, solution), |alphabet|)
    {
      var i := 0;
      while i < |segments|
        invariant 0 <= i <= |segments|
        invariant Valid()
        invariant forall j :: 0 <= j < i ==>
          segments[j].State() == MovedState(old(segments[j].State()), IndexOf(alphabet, solution[j]), |alphabet|)
        invariant forall j :: i <= j < |segments| ==> segments[j].State() == old(segments[j].State())
      {
        label before:
        segments[i].ShowSolutions();
        forall j | 0 <= j < |segments| && j != i
          ensures segments[j].State() == old@before(segments[j].State())
        {
          SegmentsDisjoint(i, j);
        }
        i := i + 1;
      }
    }

    /**
     * A click on segment i's next (`next`) or previous button: segment i changes as ClickState
     * says, the others not at all. `fired` tells whether the segment's change callback runs.
     */
    method ClickSegment(i: int, next: bool) returns (fired: bool)
      requires Valid() && 0 <= i < |segments|
      modifies parts
      ensures Valid()
      ensures var c := ClickState(old(States())[i], next, |alphabet|);
        fired == c.fired && States() == old(States())[i := c.after]
    {
      fired := segments[i].Click(next);
      forall j | 0 <= j < |segments| && j != i
        ensures segments[j].State() == old(segments[j].State())
      {
        SegmentsDisjoint(i, j);
      }
    }

    /** Segment i's cooldown after a click; the other segments do not change. */
    method CooldownSegment(i: int)
      requires Valid() && 0 <= i < |segments|
      modifies parts
      ensures Valid()
      ensures States() == old(States())[i := CooldownState(old(States())[i])]
    {
      segments[i].Cooldown();
      forall j | 0 <= j < |segments| && j != i
        ensures segments[j].State() == old(segments[j].State())
      {
        SegmentsDisjoint(i, j);
      }
    }

    /** The oldest snap timer of segment i's wheel fires; the other segments do not change. */
    method FireSnapSegment(i: int)
      requires Valid() && 0 <= i < |segments| && segments[i].wheel.pendingSnaps != []
      modifies parts
      ensures Valid()
      ensures States() == old(States())[i := SnapFiredState(old(States())[i])]
    {
      segments[i].FireSnap();
      forall j | 0 <= j < |segments| && j != i
        ensures segments[j].State() == old(segments[j].State())
      {
        SegmentsDisjoint(i, j);
      }
    }

    /** Segment i's cooldown timer fires; the other segments do not change. */
    method CooldownSegmentElapsed(i: int)
      requires Valid() && 0 <= i < |segments| && segments[i].isCoolingDown
      modifies parts
      ensures Valid()
      ensures States() == old(States())[i := CooldownElapsedState(old(States())[i])]
    {
      segments[i].CooldownElapsed();
      forall j | 0 <= j < |segments| && j != i
        ensures segments[j].State() == old(segments[j].State())
      {
        SegmentsDisjoint(i, j);
      }
    }
  }
}
