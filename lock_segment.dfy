/**
 * One rotating cell of the lock (lock-segment.js): a position into the alphabet, a ▲ button that
 * decrements it and a ▼ button that increments it, both modulo the alphabet's length, a wheel that
 * displays it, and a cooldown that disables both buttons for a short while after every accepted click.
 */
module LockSegments {
  import opened Symbols
  import opened Buttons
  import opened Wheels

  /** JavaScript's `%` truncates toward zero: a negative dividend leaves a remainder in (-n, 0]. */
  function JsRemainder(a: int, n: int): (r: int)
    requires n > 0
    ensures a >= 0 ==> r == a % n
    ensures a < 0 ==> -n < r <= 0 && r == -((-a) % n)
  {
    if a >= 0 then a % n else -((-a) % n)
  }

  /** Adding the divisor does not change a Euclidean remainder. */
  lemma ModAddDivisor(a: int, n: int)
    requires n > 0
    ensures (a + n) % n == a % n
  {
    var d, r := a / n, a % n;
    assert (d + 1) * n == d * n + n;
    ModUnique(a + n, n, d + 1, r);
  }

  /** Euclidean division is unique: `x == d * n + r` with `0 <= r < n` fixes `x % n` as `r`. */
  lemma ModUnique(x: int, n: int, d: int, r: int)
    requires n > 0 && 0 <= r < n && x == d * n + r
    ensures x % n == r
  {
    var k := x / n - d;
    assert k * n == (x / n) * n - d * n;
    assert k * n == r - x % n;
  }

  /** The ▲ ("next") click: `(position + n - 1) % n`, one step back with wrap-around. */
  function NextPosition(p: int, n: int): (q: int)
    requires n > 0
    ensures p >= 0 ==> 0 <= q < n
    ensures p >= 0 ==> q == (p - 1) % n
    ensures 0 <= p < n ==> q == if p == 0 then n - 1 else p - 1
  {
    ModAddDivisor(p - 1, n);
    JsRemainder(p + n - 1, n)
  }

  /** The ▼ ("previous") click: `(position + 1) % n`, one step forward with wrap-around. */
  function PreviousPosition(p: int, n: int): (q: int)
    requires n > 0
    ensures p >= -1 ==> 0 <= q < n
    ensures p >= -1 ==> q == (p + 1) % n
    ensures 0 <= p < n ==> q == if p == n - 1 then 0 else p + 1
  {
    JsRemainder(p + 1, n)
  }

  /** ▲ then ▼, or ▼ then ▲, puts a segment back where it was. */
  lemma NextPreviousInverse(p: int, n: int)
    requires 0 <= p < n
    ensures PreviousPosition(NextPosition(p, n), n) == p
    ensures NextPosition(PreviousPosition(p, n), n) == p
  {
  }

  /** k consecutive ▲ clicks. */
  function NextTimes(p: int, n: int, k: nat): int
    requires n > 0
  {
    if k == 0 then p else NextPosition(NextTimes(p, n, k - 1), n)
  }

  /** k ▲ clicks from p land on p - k, wrapping once below zero. */
  lemma {:induction false} NextTimesLanding(p: int, n: int, k: nat)
    requires 0 <= p < n && k <= p + n
    ensures NextTimes(p, n, k) == if k <= p then p - k else p - k + n
  {
    if k > 0 {
      NextTimesLanding(p, n, k - 1);
    }
  }

  /** Cyclic closure: n ▲ clicks (one of them across the boundary) return to the start. */
  lemma NextCycle(p: int, n: int)
    requires 0 <= p < n
    ensures NextTimes(p, n, n) == p
  {
    NextTimesLanding(p, n, n);
  }

  /**
   * A negative saved position is never range-checked. JavaScript's `%` brings it back within one
   * alphabet length of 0, but not necessarily into the alphabet: from -n or below it lands on 0 or
   * a negative position.
   */
  lemma NegativeLandsWithinOneLength(p: int, n: int)
    requires n > 0 && p < 0
    ensures -n < NextPosition(p, n) < n
    ensures p <= -n ==> NextPosition(p, n) <= 0
  {
  }

  /** A witness that ▲ can leave a position outside the alphabet: with three symbols, -7 lands on -2. */
  lemma NegativePositionStaysOutside()
    ensures NextPosition(-7, 3) == -2
  {
  }

  /**
   * The initial position (`params.position || random`): a saved position is used unchecked
   * unless it is absent or 0, which are falsy and replaced by the random draw.
   */
  function InitialPosition(saved: Option<int>, random: int): (p: int)
    ensures saved.Some? && saved.value != 0 ==> p == saved.value
    ensures saved.None? || saved.value == 0 ==> p == random
  {
    if saved.Some? && saved.value != 0 then saved.value else random
  }

  /** Restoring a saved 0 loses it: the segment starts wherever the random draw says. */
  lemma SavedZeroIsDiscarded(random: int)
    requires random != 0
    ensures InitialPosition(Some(0), random) != 0
  {
  }

  /** A segment's observable state. */
  datatype SegmentState = SegmentState(
    position: int,
    nextDisabled: bool,
    previousDisabled: bool,
    isCoolingDown: bool,
    wheel: WheelState)

  /** State right after construction, before any move. */
  function InitialState(saved: Option<int>, random: int): SegmentState
  {
    var p := InitialPosition(saved, random);
    SegmentState(p, false, false, false, WheelState(p, [], None))
  }

  function EnabledState(s: SegmentState): SegmentState
  {
    s.(nextDisabled := false, previousDisabled := false)
  }

  function DisabledState(s: SegmentState): SegmentState
  {
    s.(nextDisabled := true, previousDisabled := true)
  }

  /** setPosition: the position and the wheel move together. */
  function MovedState(s: SegmentState, p: int, n: int): SegmentState
  {
    s.(position := p, wheel := Wheels.SetPositionState(s.wheel, p, n))
  }

  /** cooldown: a no-op while cooling down; otherwise both buttons are disabled and the timer starts. */
  function CooldownState(s: SegmentState): SegmentState
  {
    if s.isCoolingDown then s
    else s.(isCoolingDown := true, nextDisabled := true, previousDisabled := true)
  }

  /** The cooldown timer fires: both buttons are enabled again, whatever happened meanwhile. */
  function CooldownElapsedState(s: SegmentState): SegmentState
    requires s.isCoolingDown
  {
    s.(isCoolingDown := false, nextDisabled := false, previousDisabled := false)
  }

  /** One of the wheel's snap timers fires: only the wheel moves; position, buttons and cooldown stay. */
  function SnapFiredState(s: SegmentState): (r: SegmentState)
    requires s.wheel.pendingSnaps != []
    ensures r.position == s.position && r.nextDisabled == s.nextDisabled
    ensures r.previousDisabled == s.previousDisabled && r.isCoolingDown == s.isCoolingDown
    ensures |r.wheel.pendingSnaps| == |s.wheel.pendingSnaps| - 1
  {
    s.(wheel := FireSnapState(s.wheel))
  }

  /** Whether a click reaches the segment and the state it leaves. */
  datatype Click = Click(fired: bool, after: SegmentState)

  /** A click on ▲ (`next`) or ▼: gated by that button, it moves the position one step. */
  function ClickState(s: SegmentState, next: bool, n: int): (c: Click)
    requires n > 0
    ensures c.fired <==> !(if next then s.nextDisabled else s.previousDisabled)
    ensures !c.fired ==> c.after == s
    ensures c.fired ==> c.after.position == (if next then NextPosition(s.position, n) else PreviousPosition(s.position, n))
    ensures c.after.nextDisabled == s.nextDisabled && c.after.previousDisabled == s.previousDisabled
    ensures c.after.isCoolingDown == s.isCoolingDown
  {
    var enabled := if next then !s.nextDisabled else !s.previousDisabled;
    if !enabled then Click(false, s)
    else Click(true, MovedState(s, if next then NextPosition(s.position, n) else PreviousPosition(s.position, n), n))
  }

  /**
   * Cooldown paces input: after an accepted click and its cooldown, no second click (on either
   * button) is accepted until the timer fires; after it fires, clicks are accepted again.
   */
  lemma CooldownAcceptsOneClick(s: SegmentState, first: bool, second: bool, n: int)
    requires n > 0 && !s.isCoolingDown
    requires ClickState(s, first, n).fired
    ensures var cooling := CooldownState(ClickState(s, first, n).after);
      && cooling.isCoolingDown
      && ClickState(cooling, second, n) == Click(false, cooling)
      && ClickState(CooldownElapsedState(cooling), second, n).fired
  {
  }

  /** cooldown is a no-op while cooling down, so calling it twice is calling it once. */
  lemma CooldownIdempotent(s: SegmentState)
    ensures CooldownState(CooldownState(s)) == CooldownState(s)
  {
  }

  /**
   * disable does not cancel the cooldown: a segment disabled (by an auto-check that opened the
   * lock, say) while cooling down has both buttons enabled again once the timer fires.
   */
  lemma DisableDoesNotCancelCooldown(s: SegmentState)
    requires !s.isCoolingDown
    ensures var later := CooldownElapsedState(DisabledState(CooldownState(s)));
      !later.nextDisabled && !later.previousDisabled
    ensures var later := CooldownElapsedState(CooldownState(DisabledState(s)));
      !later.nextDisabled && !later.previousDisabled
  {
  }

  class LockSegment {
    const alphabet: seq<Symbol>
    const solution: Symbol
    const buttonNext: Button
    const buttonPrevious: Button
    const wheel: Wheel
    var position: int
    var isCoolingDown: bool

    /** The objects this segment owns. */
    ghost function Repr(): set<object>
    {
      {this, buttonNext, buttonPrevious, wheel}
    }

    /** The two buttons are distinct and the wheel shows this alphabet. */
    ghost predicate Valid()
    {
      && buttonNext != buttonPrevious
      && |alphabet| >= 3
      && wheel.alphabet == alphabet
    }

    ghost function State(): SegmentState
      reads Repr()
    {
      SegmentState(position, buttonNext.isDisabled, buttonPrevious.isDisabled, isCoolingDown, wheel.State())
    }

    /** Position from the saved state or the random draw; buttons enabled; not cooling down. */
    constructor (alphabet: seq<Symbol>, solution: Symbol, saved: Option<int>, random: int)
      requires |alphabet| >= 3 && 0 <= random < |alphabet|
      ensures Valid() && fresh(buttonNext) && fresh(buttonPrevious) && fresh(wheel)
      ensures this.alphabet == alphabet && this.solution == solution
      ensures State() == InitialState(saved, random)
    {
      this.alphabet := alphabet;
      this.solution := solution;
      var p := InitialPosition(saved, random);
      position := p;
      buttonNext := new Button();
      wheel := new Wheel(alphabet, p);
      buttonPrevious := new Button();
      isCoolingDown := false;
    }

    /** getResponse: `alphabet[position]`, undefined (None) when the position lies outside it. */
    function GetResponse(): (r: Option<Symbol>)
      reads this
      ensures r.Some? <==> 0 <= position < |alphabet|
      ensures r.Some? ==> r.value == alphabet[position]
    {
      if 0 <= position < |alphabet| then Some(alphabet[position]) else None
    }

    /** getPosition: the position as it is, in range or not. */
    function GetPosition(): (r: int)
      reads this
      ensures r == position
    {
      position
    }

    method Enable()
      modifies buttonNext, buttonPrevious
      ensures State() == EnabledState(old(State()))
    {
      buttonNext.Enable();
      buttonPrevious.Enable();
    }

    /** disable touches only the buttons: the position and a running cooldown stay as they are. */
    method Disable()
      modifies buttonNext, buttonPrevious
      ensures State() == DisabledState(old(State()))
    {
      buttonNext.Disable();
      buttonPrevious.Disable();
    }

    /** setPosition: no range check, the wheel follows. */
    method SetPosition(p: int)
      requires Valid()
      modifies this, wheel
      ensures Valid()
      ensures State() == MovedState(old(State()), p, |alphabet|)
    {
      position := p;
      wheel.SetPosition(position);
    }

    /** reset: enable both buttons and move to a fresh random position; the cooldown is left alone. */
    method Reset(random: int)
      requires Valid() && 0 <= random < |alphabet|
      modifies this, buttonNext, buttonPrevious, wheel
      ensures Valid()
      ensures State() == MovedState(EnabledState(old(State())), random, |alphabet|)
    {
      Enable();
      SetPosition(random);
    }

    /** showSolutions: move to the first index of this segment's symbol, enabled or not, cooling or not. */
    method ShowSolutions()
      requires Valid()
      modifies this, wheel
      ensures Valid()
      ensures State() == MovedState(old(State()), IndexOf(alphabet, solution), |alphabet|)
    {
      SetPosition(IndexOf(alphabet, solution));
    }

    /**
     * The click on ▲ (`next`) or ▼ up to the change notification: the button gates it, then
     * handleButtonClicked sets the new position. The notification and the cooldown that follow
     * are sequenced by the widget, which owns the callback (CombinationLocks.CombinationLock.HandleSegmentClicked).
     */
    method Click(next: bool) returns (fired: bool)
      requires Valid()
      modifies this, wheel
      ensures Valid()
      ensures fired == ClickState(old(State()), next, |alphabet|).fired
      ensures State() == ClickState(old(State()), next, |alphabet|).after
    {
      var button := if next then buttonNext else buttonPrevious;
      fired := button.HandleClicked();
      if fired {
        var n := |alphabet|;
        SetPosition(if next then NextPosition(position, n) else PreviousPosition(position, n));
      }
    }

    /** cooldown (lock-segment.js:152-167). */
    method Cooldown()
      requires Valid()
      modifies this, buttonNext, buttonPrevious
      ensures Valid()
      ensures State() == CooldownState(old(State()))
    {
      if isCoolingDown {
        return;
      }
      isCoolingDown := true;
      buttonPrevious.Disable();
      buttonNext.Disable();
    }

    /** The oldest snap timer of this segment's wheel fires. */
    method FireSnap()
      requires Valid() && wheel.pendingSnaps != []
      modifies wheel
      ensures Valid()
      ensures State() == SnapFiredState(old(State()))
    {
      wheel.FireSnap();
    }

    /** The cooldown timer's callback; the timer is pending exactly while the segment is cooling down. */
    method CooldownElapsed()
      requires Valid() && isCoolingDown
      modifies this, buttonNext, buttonPrevious
      ensures Valid()
      ensures State() == CooldownElapsedState(old(State()))
    {
      buttonPrevious.Enable();
      buttonNext.Enable();
      isCoolingDown := false;
    }
  }
}
