/**
 * The widget itself (h5p-combination-lock.js): it sanitises its parameters, builds the lock,
 * and runs the attempt and scoring state machine over the fields `viewState`, `attemptsLeft`,
 * `maxAttempts`, `score` and `wasAnswerGiven`. The host question type's buttons, xAPI and
 * read-aloud calls are not modelled; the announced message is the lock's message slot.
 */
module CombinationLocks {
  import opened Symbols
  import opened Sanitization
  import opened LockSegments
  import opened Locks

  /** VIEW_STATES: task 0, results 1, solutions 2. */
  const TASK := 0
  const RESULTS := 1
  const SOLUTIONS := 2

  /** The string branch of setViewState: only the keys of VIEW_STATES select a state. */
  function ViewStateOf(key: string): (code: Option<int>)
    ensures code.Some? <==> key == "task" || key == "results" || key == "solutions"
    ensures code == Some(TASK) <==> key == "task"
    ensures code == Some(RESULTS) <==> key == "results"
    ensures code == Some(SOLUTIONS) <==> key == "solutions"
  {
    if key == "task" then Some(TASK)
    else if key == "results" then Some(RESULTS)
    else if key == "solutions" then Some(SOLUTIONS)
    else None
  }

  /** A number of attempts, or JavaScript's Infinity. */
  datatype Limit = Finite(n: int) | Infinite

  /** The configured behaviour that reaches the state machine (retry and solution buttons only affect buttons). */
  datatype Behaviour = Behaviour(autoCheck: bool, maxAttempts: Option<int>)

  /** The previous state handed over by the host; absent fields fall back to their defaults. */
  datatype SavedState = SavedState(
    viewState: Option<int>,
    wasAnswerGiven: Option<bool>,
    attemptsLeft: Option<int>,
    positions: Option<seq<int>>)

  /** getCurrentState. */
  datatype Snapshot = Snapshot(
    wasAnswerGiven: bool,
    attemptsLeft: Limit,
    viewState: int,
    message: Option<Message>,
    lock: LockSnapshot)

  /** `autoCheck ? Infinity : behaviour.maxAttempts ?? Infinity`. */
  function MaxAttempts(b: Behaviour): (m: Limit)
    ensures b.autoCheck ==> m == Infinite
    ensures !b.autoCheck && b.maxAttempts.Some? ==> m == Finite(b.maxAttempts.value)
    ensures !b.autoCheck && b.maxAttempts.None? ==> m == Infinite
  {
    if b.autoCheck then Infinite
    else if b.maxAttempts.Some? then Finite(b.maxAttempts.value)
    else Infinite
  }

  /** getMaxScore: 1 for unlimited attempts, the number of attempts otherwise. */
  function MaxScore(maxAttempts: Limit): int
  {
    match maxAttempts
    case Infinite => 1
    case Finite(n) => n
  }

  /** `Math.max(0, attemptsLeft - 1)`, with `Infinity - 1 == Infinity`. */
  function Decremented(a: Limit): (r: Limit)
    ensures a.Infinite? ==> r.Infinite?
    ensures a.Finite? ==> r.Finite? && r.n >= 0 && (a.n >= 1 ==> r.n == a.n - 1) && (a.n < 1 ==> r.n == 0)
  {
    match a
    case Infinite => Infinite
    case Finite(n) => Finite(if n - 1 > 0 then n - 1 else 0)
  }

  /** The fields the state machine changes, with the lock's message. */
  datatype Status = Status(
    viewState: int,
    attemptsLeft: Limit,
    score: int,
    wasAnswerGiven: bool,
    message: Option<Message>)

  /** A step's new status and whether it disabled the lock. */
  datatype Outcome = Outcome(status: Status, disablesLock: bool)

  /** The message shown in the task view: attempts left in manual mode with limited attempts. */
  function TaskMessage(autoCheck: bool, maxAttempts: Limit, attemptsLeft: Limit): (m: Message)
    ensures m.AttemptsLeft? <==> !autoCheck && maxAttempts.Finite? && attemptsLeft.Finite?
    ensures m.AttemptsLeft? ==> m.count == attemptsLeft.n
    ensures !m.AttemptsLeft? ==> m == NoMessage
  {
    if !autoCheck && maxAttempts.Finite? && attemptsLeft.Finite? then AttemptsLeft(attemptsLeft.n) else NoMessage
  }

  /**
   * checkAnswer, given whether the lock's response equals the solution. Limited attempts always
   * come with a limited count (`maxAttempts` finite implies `attemptsLeft` finite).
   */
  function CheckAnswerStep(s: Status, maxAttempts: Limit, autoCheck: bool, correct: bool): (o: Outcome)
    requires maxAttempts.Finite? ==> s.attemptsLeft.Finite?
    ensures o.status.wasAnswerGiven
    // the right combination opens the lock
    ensures correct ==>
      && o.disablesLock && o.status.viewState == RESULTS && o.status.attemptsLeft == s.attemptsLeft
      && o.status.score == (if maxAttempts.Infinite? then 1 else s.attemptsLeft.n)
      && o.status.message == Some(LockOpen)
    // manual checking with unlimited attempts: practice forever
    ensures !correct && !autoCheck && s.attemptsLeft.Infinite? ==>
      && !o.disablesLock && o.status == s.(wasAnswerGiven := true, message := Some(WrongCombination))
    // auto-checking with unlimited attempts: nothing but the answer-given flag changes
    ensures !correct && autoCheck && s.attemptsLeft.Infinite? ==>
      !o.disablesLock && o.status == s.(wasAnswerGiven := true)
    // limited attempts: one is used up; the last one locks the widget with score 0
    ensures !correct && s.attemptsLeft.Finite? ==>
      && o.status.attemptsLeft == Decremented(s.attemptsLeft)
      && (o.disablesLock <==> s.attemptsLeft.n <= 1)
      && (s.attemptsLeft.n <= 1 ==>
            o.status.viewState == RESULTS && o.status.score == 0 && o.status.message == Some(LockDisabled))
      && (s.attemptsLeft.n > 1 ==>
            && o.status.viewState == s.viewState && o.status.score == s.score
            && o.status.message == (if autoCheck then s.message else Some(AttemptsLeft(s.attemptsLeft.n - 1))))
  {
    var s := s.(wasAnswerGiven := true);
    if correct then
      Outcome(s.(viewState := RESULTS, score := if maxAttempts.Infinite? then 1 else s.attemptsLeft.n,
                 message := Some(LockOpen)), true)
    else if !autoCheck && s.attemptsLeft.Infinite? then
      Outcome(s.(message := Some(WrongCombination)), false)
    else
      var left := Decremented(s.attemptsLeft);
      if left == Finite(0) then
        Outcome(s.(attemptsLeft := left, viewState := RESULTS, score := 0, message := Some(LockDisabled)), true)
      else if !autoCheck then
        Outcome(s.(attemptsLeft := left, message := Some(AttemptsLeft(left.n))), false)
      else
        Outcome(s.(attemptsLeft := left), false)
  }

  /** checkAnswer sets the answer-given flag first, so it does not matter whether it was set before. */
  lemma CheckAnswerStepAfterAnswerGiven(s: Status, maxAttempts: Limit, autoCheck: bool, correct: bool)
    requires maxAttempts.Finite? ==> s.attemptsLeft.Finite?
    ensures CheckAnswerStep(s.(wasAnswerGiven := true), maxAttempts, autoCheck, correct)
         == CheckAnswerStep(s, maxAttempts, autoCheck, correct)
  {
  }

  /** handleLockChanged: the answer counts as given; in auto-check mode the answer is checked. */
  function LockChangedStep(s: Status, maxAttempts: Limit, autoCheck: bool, correct: bool): (o: Outcome)
    requires maxAttempts.Finite? ==> s.attemptsLeft.Finite?
    ensures o.status.wasAnswerGiven
    ensures autoCheck ==> o == CheckAnswerStep(s, maxAttempts, autoCheck, correct)
    ensures !autoCheck ==> o == Outcome(s.(wasAnswerGiven := true), false)
  {
    var s' := s.(wasAnswerGiven := true);
    if autoCheck then CheckAnswerStep(s', maxAttempts, autoCheck, correct) else Outcome(s', false)
  }

  /** Attempts within the limit and a score no higher than the maximum score. */
  predicate WithinLimits(s: Status, maxAttempts: Limit)
  {
    && (maxAttempts.Finite? ==> s.attemptsLeft.Finite? && 0 <= s.attemptsLeft.n <= maxAttempts.n)
    && 0 <= s.score <= MaxScore(maxAttempts)
  }

  /**
   * checkAnswer keeps attempts within the limit and the score within [0, getMaxScore()], as long
   * as they were within it before (a restored `attemptsLeft` is not clamped, so they may not be).
   */
  lemma CheckAnswerKeepsLimits(s: Status, maxAttempts: Limit, autoCheck: bool, correct: bool)
    requires WithinLimits(s, maxAttempts)
    requires maxAttempts.Infinite? ==> s.attemptsLeft.Infinite? || s.attemptsLeft.n >= 0
    ensures WithinLimits(CheckAnswerStep(s, maxAttempts, autoCheck, correct).status, maxAttempts)
  {
  }

  /** checkAnswer never returns to the task view: it stays where it is or moves to results. */
  lemma CheckAnswerOnlyMovesToResults(s: Status, maxAttempts: Limit, autoCheck: bool, correct: bool)
    requires maxAttempts.Finite? ==> s.attemptsLeft.Finite?
    ensures var v := CheckAnswerStep(s, maxAttempts, autoCheck, correct).status.viewState;
      v == s.viewState || v == RESULTS
    ensures CheckAnswerStep(s, maxAttempts, autoCheck, correct).disablesLock ==>
      CheckAnswerStep(s, maxAttempts, autoCheck, correct).status.viewState == RESULTS
    ensures CheckAnswerStep(s, maxAttempts, autoCheck, correct).disablesLock <==>
      correct || (s.attemptsLeft.Finite? && s.attemptsLeft.n <= 1)
  {
  }

  /** A restored `attemptsLeft` above the limit yields a score above getMaxScore(). */
  lemma UnclampedRestoreExceedsMaxScore()
    ensures var s := Status(TASK, Finite(5), 0, false, None);
      CheckAnswerStep(s, Finite(3), false, true).status.score == 5 > MaxScore(Finite(3))
  {
  }

  /**
   * Manual checking with three attempts: three wrong combinations count down 3, 2, 1, 0 and the
   * third one ends in the results view with score 0; the right one with two attempts left scores 2.
   */
  lemma ThreeAttemptsScenario(s: Status)
    requires s.viewState == TASK && s.attemptsLeft == Finite(3) && s.score == 0
    ensures var o1 := CheckAnswerStep(s, Finite(3), false, false);
      var o2 := CheckAnswerStep(o1.status, Finite(3), false, false);
      var o3 := CheckAnswerStep(o2.status, Finite(3), false, false);
      && o1.status.attemptsLeft == Finite(2) && o1.status.viewState == TASK && !o1.disablesLock
      && o2.status.attemptsLeft == Finite(1) && o2.status.viewState == TASK && !o2.disablesLock
      && o3.status.attemptsLeft == Finite(0) && o3.status.viewState == RESULTS && o3.status.score == 0
      && o3.disablesLock
      && CheckAnswerStep(o1.status, Finite(3), false, true).status.score == 2
  {
  }

  /** Auto-check mode: the right combination reached by a change opens the lock at once with score 1. */
  lemma AutoCheckOpensAtOnce(s: Status)
    requires s.attemptsLeft.Infinite?
    ensures var o := LockChangedStep(s, Infinite, true, true);
      o.disablesLock && o.status.viewState == RESULTS && o.status.score == 1 && o.status.wasAnswerGiven
  {
  }

  /** The status the constructor restores: absent saved fields fall back to task, `maxAttempts` and false. */
  function Restored(saved: SavedState, maxAttempts: Limit): (s: Status)
    ensures s.score == 0 && s.message == None
    ensures s.viewState == (if saved.viewState.Some? then saved.viewState.value else TASK)
    ensures saved.attemptsLeft.Some? ==> s.attemptsLeft == Finite(saved.attemptsLeft.value)
    ensures saved.attemptsLeft.None? ==> s.attemptsLeft == maxAttempts
    ensures maxAttempts.Finite? ==> s.attemptsLeft.Finite?
    ensures s.wasAnswerGiven <==> saved.wasAnswerGiven == Some(true)
  {
    Status(
      if saved.viewState.Some? then saved.viewState.value else TASK,
      if saved.attemptsLeft.Some? then Finite(saved.attemptsLeft.value) else maxAttempts,
      0,
      saved.wasAnswerGiven == Some(true),
      None)
  }

  /**
   * Entering the restored view: the task view announces the attempts left (or nothing), the
   * results view checks the restored combination, the solutions view announces the solution;
   * any other view code leaves everything as it is.
   */
  function EnterViewStep(s: Status, maxAttempts: Limit, autoCheck: bool, correct: bool): (r: Status)
    requires maxAttempts.Finite? ==> s.attemptsLeft.Finite?
    ensures s.viewState == TASK ==>
      r.message == Some(TaskMessage(autoCheck, maxAttempts, s.attemptsLeft)) && r.(message := s.message) == s
    ensures s.viewState == SOLUTIONS ==> r.message == Some(CorrectCombination) && r.(message := s.message) == s
    ensures s.viewState !in {TASK, RESULTS, SOLUTIONS} ==> r == s
  {
    if s.viewState == TASK then s.(message := Some(TaskMessage(autoCheck, maxAttempts, s.attemptsLeft)))
    else if s.viewState == RESULTS then CheckAnswerStep(s, maxAttempts, autoCheck, correct).status
    else if s.viewState == SOLUTIONS then s.(message := Some(CorrectCombination))
    else s
  }
  /**
   * The lock's segment states once the view is entered: the results view disables them when its
   * check disables the lock, the solutions view disables them and moves them to the solution,
   * the task view and an unknown view leave them as they are.
   */
  function EnterViewStates(s: Status, maxAttempts: Limit, autoCheck: bool, correct: bool,
                           states: seq<SegmentState>, solutionPositions: seq<int>, n: int): (r: seq<SegmentState>)
    requires maxAttempts.Finite? ==> s.attemptsLeft.Finite?
    requires |solutionPositions| == |states|
    ensures |r| == |states|
    ensures forall i {:trigger r[i]} :: 0 <= i < |r| ==> r[i].isCoolingDown == states[i].isCoolingDown
    ensures s.viewState != SOLUTIONS ==> forall i {:trigger r[i]} :: 0 <= i < |r| ==> r[i].position == states[i].position
    ensures s.viewState == SOLUTIONS ==> forall i {:trigger r[i]} :: 0 <= i < |r| ==>
      r[i].position == solutionPositions[i] && r[i].nextDisabled && r[i].previousDisabled
    ensures s.viewState !in {RESULTS, SOLUTIONS} ==> r == states
  {
    if s.viewState == RESULTS then
      if CheckAnswerStep(s, maxAttempts, autoCheck, correct).disablesLock then DisabledAll(states) else states
    else if s.viewState == SOLUTIONS then MovedAll(DisabledAll(states), solutionPositions, n)
    else states
  }


  /**
   * Restoring a view re-enters that same view, and a restored results view counts the answer as
   * given; attempts and score change only in the results view.
   */
  lemma EnterViewKeepsView(s: Status, maxAttempts: Limit, autoCheck: bool, correct: bool)
    requires maxAttempts.Finite? ==> s.attemptsLeft.Finite?
    ensures EnterViewStep(s, maxAttempts, autoCheck, correct).viewState == s.viewState
    ensures s.viewState == RESULTS ==> EnterViewStep(s, maxAttempts, autoCheck, correct).wasAnswerGiven
    ensures s.viewState != RESULTS ==>
      && EnterViewStep(s, maxAttempts, autoCheck, correct).attemptsLeft == s.attemptsLeft
      && EnterViewStep(s, maxAttempts, autoCheck, correct).score == s.score
  {
    if s.viewState == RESULTS {
      CheckAnswerOnlyMovesToResults(s, maxAttempts, autoCheck, correct);
    }
  }

  class CombinationLock {
    const autoCheck: bool
    const maxAttempts: Limit
    const alphabet: seq<Symbol>
    const solution: seq<Symbol>
    const lock: Lock
    var viewState: int
    var attemptsLeft: Limit
    var score: int
    var wasAnswerGiven: bool
    /** showSolutions timers that have not fired yet; each sets the solutions view when it fires. */
    var pendingSolutionsViews: nat

    ghost function Repr(): set<object>
    {
      {this, lock} + lock.parts
    }

    /** The lock is built over the sanitised alphabet and solution; limited attempts keep a finite count. */
    ghost predicate Valid()
      reads this
    {
      && lock.Valid() && lock.alphabet == alphabet && lock.solution == solution
      && this !in lock.parts
      && (forall k :: 0 <= k < |solution| ==> solution[k] in alphabet)
      && (maxAttempts.Finite? ==> attemptsLeft.Finite?)
    }

    ghost function CurrentStatus(): Status
      reads this, lock
    {
      Status(viewState, attemptsLeft, score, wasAnswerGiven, lock.message)
    }

    /** Whether the lock's current response opens it. */
    ghost predicate Opens()
      requires Valid()
      reads this, lock.segments
    {
      lock.GetResponse() == solution
    }

    /**
     * The constructor: sanitise, derive `maxAttempts`, restore or initialise the fields, build the
     * lock, then enter the restored view (task: announce; results: check; solutions: show the solution).
     * `randoms` are the segments' `Math.random` draws.
     */
    constructor (alphabetText: seq<Symbol>, solutionText: seq<Symbol>, behaviour: Behaviour,
                 saved: SavedState, randoms: seq<int>)
      requires |randoms| == |if solutionText == [] then DefaultSolution else solutionText|
      requires forall i :: 0 <= i < |randoms| ==> 0 <= randoms[i] < SanitizedLength(alphabetText, solutionText)
      ensures Valid() && fresh(lock) && fresh(lock.parts)
      ensures solution == if solutionText == [] then DefaultSolution else solutionText
      ensures |alphabet| == SanitizedLength(alphabetText, solutionText)
      ensures alphabet == Padded(Dedup(alphabetText + solution))
      ensures forall x :: x in alphabet <==> x in alphabetText || x in solution
      ensures autoCheck == behaviour.autoCheck && maxAttempts == MaxAttempts(behaviour)
      ensures CurrentStatus()
           == EnterViewStep(Restored(saved, maxAttempts), maxAttempts, autoCheck,
                            ResponseOf(alphabet, InitialPositions(saved.positions, randoms)) == solution)
      ensures pendingSolutionsViews == if Restored(saved, maxAttempts).viewState == SOLUTIONS then 1 else 0
      ensures Restored(saved, maxAttempts).viewState == SOLUTIONS ==> lock.GetResponse() == solution
      ensures lock.States()
           == EnterViewStates(Restored(saved, maxAttempts), maxAttempts, autoCheck,
                              ResponseOf(alphabet, InitialPositions(saved.positions, randoms)) == solution,
                              InitialStates(saved.positions, randoms), SolutionPositions(alphabet, solution), |alphabet|)
    {
      var a, sol := Sanitize(alphabetText, solutionText);
      alphabet, solution := a, sol;
      autoCheck := behaviour.autoCheck;
      var max := MaxAttempts(behaviour);
      maxAttempts := max;
      viewState := if saved.viewState.Some? then saved.viewState.value else TASK;
      score := 0;
      wasAnswerGiven := saved.wasAnswerGiven == Some(true);
      attemptsLeft := if saved.attemptsLeft.Some? then Finite(saved.attemptsLeft.value) else max;
      pendingSolutionsViews := 0;
      lock := new Lock(a, sol, saved.positions, randoms);
      new;
      assert lock.States() == InitialStates(saved.positions, randoms);
      assert CurrentStatus() == Restored(saved, maxAttempts);
      InitialStatesPositions(saved.positions, randoms);
      EnterView();
    }

    /**
     * The constructor's last step: the task view announces the attempts left (or nothing), the
     * results view checks the restored answer, the solutions view shows the solution.
     */
    method EnterView()
      requires Valid()
      modifies this, lock, lock.parts
      ensures Valid()
      ensures var correct := ResponseOf(alphabet, PositionsOfStates(old(lock.States()))) == solution;
        CurrentStatus() == EnterViewStep(old(CurrentStatus()), maxAttempts, autoCheck, correct)
      ensures var correct := ResponseOf(alphabet, PositionsOfStates(old(lock.States()))) == solution;
        lock.States()
           == EnterViewStates(old(CurrentStatus()), maxAttempts, autoCheck, correct,
                              old(lock.States()), SolutionPositions(alphabet, solution), |alphabet|)
      ensures old(viewState) == SOLUTIONS ==> lock.GetResponse() == solution
      ensures pendingSolutionsViews == old(pendingSolutionsViews) + if old(viewState) == SOLUTIONS then 1 else 0
    {
      lock.ResponseOfStates();
      if viewState == TASK {
        lock.SetMessage(TaskMessage(autoCheck, maxAttempts, attemptsLeft));
      } else if viewState == RESULTS {
        CheckAnswer();
      } else if viewState == SOLUTIONS {
        ShowSolutions();
      }
    }

    /** getScore. */
    function GetScore(): (r: int)
      reads this
      ensures r == score
    {
      score
    }

    /** getMaxScore: a score of at most this is reached from attempts within the limit. */
    function GetMaxScore(): (r: int)
      ensures maxAttempts.Infinite? ==> r == 1
      ensures maxAttempts.Finite? ==> r == maxAttempts.n
    {
      MaxScore(maxAttempts)
    }

    /** getAnswerGiven. */
    function GetAnswerGiven(): (r: bool)
      reads this
      ensures r == wasAnswerGiven
    {
      wasAnswerGiven
    }

    /** getCurrentState: the fields the host persists, with the lock's positions. */
    function GetCurrentState(): (s: Snapshot)
      reads this, lock, lock.segments
      ensures s.wasAnswerGiven == wasAnswerGiven && s.attemptsLeft == attemptsLeft && s.viewState == viewState
      ensures s.message == lock.message && s.lock.positions == lock.GetPositions()
    {
      Snapshot(wasAnswerGiven, attemptsLeft, viewState, lock.message, lock.GetCurrentState())
    }

    /** setViewState with a string: a key of VIEW_STATES selects its state, any other key is ignored. */
    method SetViewState(key: string)
      modifies this
      ensures viewState == if ViewStateOf(key).Some? then ViewStateOf(key).value else old(viewState)
      ensures attemptsLeft == old(attemptsLeft) && score == old(score) && wasAnswerGiven == old(wasAnswerGiven)
      ensures pendingSolutionsViews == old(pendingSolutionsViews)
    {
      var code := ViewStateOf(key);
      if code.Some? {
        viewState := code.value;
      }
    }

    /** handleAnswerGiven. */
    method HandleAnswerGiven()
      modifies this
      ensures wasAnswerGiven
      ensures viewState == old(viewState) && attemptsLeft == old(attemptsLeft) && score == old(score)
      ensures pendingSolutionsViews == old(pendingSolutionsViews)
    {
      wasAnswerGiven := true;
    }

    /** checkAnswer: CheckAnswerStep on the lock's response; the lock is disabled when the step says so. */
    method CheckAnswer()
      requires Valid()
      modifies this, lock, lock.parts
      ensures Valid()
      ensures var o := CheckAnswerStep(old(CurrentStatus()), maxAttempts, autoCheck, old(Opens()));
        && CurrentStatus() == o.status
        && lock.States() == if o.disablesLock then DisabledAll(old(lock.States())) else old(lock.States())
      ensures pendingSolutionsViews == old(pendingSolutionsViews)
    {
      CheckAnswerStepAfterAnswerGiven(CurrentStatus(), maxAttempts, autoCheck, Opens());
      HandleAnswerGiven();
      var response := lock.GetResponse();
      if response == solution {
        OpenLock();
      } else {
        RejectCombination();
      }
    }

    /** The branch of checkAnswer for the right combination. */
    method OpenLock()
      requires Valid() && wasAnswerGiven
      modifies this, lock, lock.parts
      ensures Valid()
      ensures var o := CheckAnswerStep(old(CurrentStatus()), maxAttempts, autoCheck, true);
        CurrentStatus() == o.status && o.disablesLock && lock.States() == DisabledAll(old(lock.States()))
      ensures pendingSolutionsViews == old(pendingSolutionsViews)
    {
      lock.Disable();
      SetViewState("results");
      score := if maxAttempts.Infinite? then 1 else attemptsLeft.n;
      lock.SetMessage(LockOpen);
    }

    /** The branches of checkAnswer for a wrong combination: practise on, or use up an attempt. */
    method RejectCombination()
      requires Valid() && wasAnswerGiven
      modifies this, lock, lock.parts
      ensures Valid()
      ensures var o := CheckAnswerStep(old(CurrentStatus()), maxAttempts, autoCheck, false);
        && CurrentStatus() == o.status
        && lock.States() == if o.disablesLock then DisabledAll(old(lock.States())) else old(lock.States())
      ensures pendingSolutionsViews == old(pendingSolutionsViews)
    {
      if !autoCheck && attemptsLeft.Infinite? {
        lock.SetMessage(WrongCombination);
        return;
      }
      attemptsLeft := Decremented(attemptsLeft);
      if attemptsLeft == Finite(0) {
        SetViewState("results");
        lock.Disable();
        score := 0;
        lock.SetMessage(LockDisabled);
      } else if !autoCheck {
        lock.SetMessage(AttemptsLeft(attemptsLeft.n));
      }
    }

    /**
     * showSolutions: disable the lock, announce the combination, turn every segment to its
     * solution symbol (so the response is the solution); the solutions view follows when the
     * 50 ms timer fires.
     */
    method ShowSolutions()
      requires Valid()
      modifies this, lock, lock.parts
      ensures Valid()
      ensures CurrentStatus() == old(CurrentStatus()).(message := Some(CorrectCombination))
      ensures pendingSolutionsViews == old(pendingSolutionsViews) + 1
      ensures lock.States() == MovedAll(DisabledAll(old(lock.States())), SolutionPositions(alphabet, solution), |alphabet|)
      ensures lock.GetResponse() == solution
    {
      lock.Disable();
      ghost var disabled := lock.States();
      lock.SetMessage(CorrectCombination);
      assert lock.States() == disabled;
      lock.ShowSolutions();
      pendingSolutionsViews := pendingSolutionsViews + 1;
      lock.ResponseOfStates();
      SolutionStatesOpen(alphabet, solution, disabled);
    }

    /** The showSolutions timer fires: the view becomes solutions, even after a reset in between. */
    method SolutionsViewTimerElapsed()
      requires Valid() && pendingSolutionsViews > 0
      modifies this
      ensures Valid()
      ensures CurrentStatus() == old(CurrentStatus()).(viewState := SOLUTIONS)
      ensures pendingSolutionsViews == old(pendingSolutionsViews) - 1
    {
      SetViewState("solutions");
      pendingSolutionsViews := pendingSolutionsViews - 1;
    }

    /**
     * resetTask: back to the task view with all attempts, score 0 and no answer given; every
     * segment enabled on its random draw.
     */
    method ResetTask(randoms: seq<int>)
      requires Valid() && |randoms| == |lock.segments|
      requires forall i :: 0 <= i < |randoms| ==> 0 <= randoms[i] < |alphabet|
      modifies this, lock, lock.parts
      ensures Valid()
      ensures CurrentStatus() == Status(TASK, maxAttempts, 0, false, Some(TaskMessage(autoCheck, maxAttempts, maxAttempts)))
      ensures pendingSolutionsViews == old(pendingSolutionsViews)
      ensures lock.States() == MovedAll(EnabledAll(old(lock.States())), randoms, |alphabet|)
    {
      SetViewState("task");
      attemptsLeft := maxAttempts;
      score := 0;
      wasAnswerGiven := false;
      lock.SetMessage(TaskMessage(autoCheck, maxAttempts, attemptsLeft));
      lock.Reset(randoms);
    }

    /** handleLockChanged: the answer counts as given, and in auto-check mode it is checked. */
    method HandleLockChanged()
      requires Valid()
      modifies this, lock, lock.parts
      ensures Valid()
      ensures var o := LockChangedStep(old(CurrentStatus()), maxAttempts, autoCheck, old(Opens()));
        && CurrentStatus() == o.status
        && lock.States() == if o.disablesLock then DisabledAll(old(lock.States())) else old(lock.States())
      ensures pendingSolutionsViews == old(pendingSolutionsViews)
    {
      HandleAnswerGiven();
      if autoCheck {
        CheckAnswer();
      }
    }

    /**
     * A click on segment i's next or previous button, end to end: the segment moves, the lock
     * reports the change to handleLockChanged, and only then does the segment cool down. A
     * click on a disabled button changes nothing.
     */
    method HandleSegmentClicked(i: int, next: bool) returns (fired: bool)
      requires Valid() && 0 <= i < |lock.segments|
      modifies this, lock, lock.parts
      ensures Valid()
      ensures pendingSolutionsViews == old(pendingSolutionsViews)
      ensures fired == ClickState(old(lock.States())[i], next, |alphabet|).fired
      ensures !fired ==> CurrentStatus() == old(CurrentStatus()) && lock.States() == old(lock.States())
      ensures fired ==>
        var moved := old(lock.States())[i := ClickState(old(lock.States())[i], next, |alphabet|).after];
        var o := LockChangedStep(old(CurrentStatus()), maxAttempts, autoCheck,
                                 ResponseOf(alphabet, PositionsOfStates(moved)) == solution);
        var changed := if o.disablesLock then DisabledAll(moved) else moved;
        CurrentStatus() == o.status && lock.States() == changed[i := CooldownState(changed[i])]
    {
      fired := lock.ClickSegment(i, next);
      if fired {
        lock.ResponseOfStates();
        HandleLockChanged();
        lock.CooldownSegment(i);
      }
    }
  }
}
