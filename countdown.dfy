/**
 The event countdown of the athlete showcase page: a {days, hours, minutes}
 display that an interval callback decrements once a minute with cascading
 borrow (base 60 for minutes, base 24 for hours, unbounded days).

 The pure part (Clock, Step, Iterate) states what one tick and a run of ticks
 do; the class Timer holds the three state fields the page updates in place,
 together with the bookkeeping of the interval that drives them.
 */
module Countdown {

  /** The three displayed units. */
  datatype Clock = Clock(days: int, hours: int, minutes: int)

  const MinutesPerHour: int := 60
  const HoursPerDay: int := 24
  const MinutesPerDay: int := HoursPerDay * MinutesPerHour

  /** The initial state the page mounts with. */
  const Start: Clock := Clock(3, 12, 40)

  /** The bottom state, where the callback clears its interval. */
  const Zero: Clock := Clock(0, 0, 0)

  /** The state the bottom tick leaves behind: both borrows are written before days is tested. */
  const Wrapped: Clock := Clock(0, 23, 59)

  /** A well-formed display: no negative days, hours within a day, minutes within an hour. */
  predicate InRange(c: Clock) {
    c.days >= 0 && 0 <= c.hours < HoursPerDay && 0 <= c.minutes < MinutesPerHour
  }

  /** The mixed-radix value of the display, in minutes. */
  function TotalMinutes(c: Clock): int {
    c.days * MinutesPerDay + c.hours * MinutesPerHour + c.minutes
  }

  /**
   The branch of the callback that calls clearInterval. It is reached only
   after both borrows have been written, so the tick that takes it still
   shows 23 hours and 59 minutes and leaves days alone.
   */
  predicate ClearsInterval(c: Clock): (b: bool)
    ensures b ==> Step(c) == Clock(c.days, 23, 59)
  {
    c.minutes <= 0 && c.hours <= 0 && c.days <= 0
  }

  /**
   One firing of the interval callback, as written: the minutes borrow sets 59
   and the hours borrow sets 23 before days is looked at, so the bottom state
   also rolls over.
   */
  function Step(c: Clock): (r: Clock)
    ensures InRange(c) ==> InRange(r)
    ensures InRange(c) && c != Zero ==> TotalMinutes(r) == TotalMinutes(c) - 1
    ensures c == Zero ==> r == Wrapped
    ensures r != c
  {
    if c.minutes > 0 then Clock(c.days, c.hours, c.minutes - 1)
    else if c.hours > 0 then Clock(c.days, c.hours - 1, 59)
    else if c.days > 0 then Clock(c.days - 1, 23, 59)
    else Clock(c.days, 23, 59)
  }

  /** On a well-formed display, the callback clears its interval exactly at the bottom state. */
  lemma ClearsOnlyAtZero(c: Clock)
    requires InRange(c)
    ensures ClearsInterval(c) <==> c == Zero
  {
  }

  /** A tick with minutes left only decrements minutes. */
  lemma StepMinutes(c: Clock)
    requires c.minutes > 0
    ensures Step(c) == Clock(c.days, c.hours, c.minutes - 1)
    ensures !ClearsInterval(c)
  {
  }

  /** A tick with no minutes but hours left borrows one hour. */
  lemma StepBorrowHour(c: Clock)
    requires c.minutes == 0 && c.hours > 0
    ensures Step(c) == Clock(c.days, c.hours - 1, 59)
    ensures !ClearsInterval(c)
  {
  }

  /** A tick with no minutes and no hours but days left borrows one day and keeps the interval. */
  lemma StepBorrowDay(c: Clock)
    requires c.minutes == 0 && c.hours == 0 && c.days > 0
    ensures Step(c) == Clock(c.days - 1, 23, 59)
    ensures !ClearsInterval(c)
  {
  }

  /** n successive firings of the callback; a well-formed display stays well-formed however many there are. */
  function Iterate(c: Clock, n: nat): (r: Clock)
    ensures InRange(c) ==> InRange(r)
    decreases n
  {
    if n == 0 then c else Iterate(Step(c), n - 1)
  }

  lemma {:induction false} IterateAdd(c: Clock, a: nat, b: nat)
    ensures Iterate(c, a + b) == Iterate(Iterate(c, a), b)
    decreases a
  {
    if a > 0 {
      IterateAdd(Step(c), a - 1, b);
    }
  }

  /** Until the bottom is reached, every tick lowers the total by exactly one and keeps the bounds. */
  lemma {:induction false} IterateCountsDown(c: Clock, n: nat)
    requires InRange(c) && n <= TotalMinutes(c)
    ensures InRange(Iterate(c, n))
    ensures TotalMinutes(Iterate(c, n)) == TotalMinutes(c) - n
    decreases n
  {
    if n > 0 {
      assert c != Zero;
      IterateCountsDown(Step(c), n - 1);
    }
  }

  /** A well-formed display is determined by its total: the units are its mixed-radix digits. */
  lemma DigitsDetermined(c: Clock, d: Clock)
    requires InRange(c) && InRange(d) && TotalMinutes(c) == TotalMinutes(d)
    ensures c == d
  {
  }

  /**
   The countdown from the initial state: 40 ticks reach {3,12,0}, 41 reach
   {3,11,59}, 4960 ticks still show two hours, and the bottom state is
   reached after 3*1440 + 12*60 + 40 = 5080 ticks.
   */
  lemma CountdownFromStart()
    ensures TotalMinutes(Start) == 5080
    ensures Iterate(Start, 40) == Clock(3, 12, 0)
    ensures Iterate(Start, 41) == Clock(3, 11, 59)
    ensures Iterate(Start, 4960) == Clock(0, 2, 0)
    ensures Iterate(Start, 5080) == Zero
    ensures forall n: nat :: n < 5080 ==> Iterate(Start, n) != Zero
  {
    forall n: nat | n < 5080
      ensures Iterate(Start, n) != Zero
    {
      IterateCountsDown(Start, n);
    }
    IterateCountsDown(Start, 4960);
    DigitsDetermined(Iterate(Start, 4960), Clock(0, 2, 0));
    IterateCountsDown(Start, 40);
    DigitsDetermined(Iterate(Start, 40), Clock(3, 12, 0));
    IterateCountsDown(Start, 41);
    DigitsDetermined(Iterate(Start, 41), Clock(3, 11, 59));
    IterateCountsDown(Start, 5080);
    DigitsDetermined(Iterate(Start, 5080), Zero);
  }

  /** As written, the bottom state is not terminal: one day of ticks later the display is at zero again. */
  lemma ZeroRecursDaily()
    ensures Iterate(Zero, MinutesPerDay) == Zero
  {
    IterateAdd(Zero, 1, MinutesPerDay - 1);
    assert Iterate(Zero, 1) == Wrapped;
    IterateCountsDown(Wrapped, MinutesPerDay - 1);
    DigitsDetermined(Iterate(Wrapped, MinutesPerDay - 1), Zero);
  }

  /**
   As written, ticks past the bottom keep counting down a fresh day: the tick
   after zero shows {0,23,59}, and 5120 ticks show {0,23,20} rather than zero.
   */
  lemma PastZeroAsWritten()
    ensures Iterate(Start, 5081) == Wrapped
    ensures Iterate(Start, 5120) == Clock(0, 23, 20)
    ensures Iterate(Start, 5120) != Zero
  {
    CountdownFromStart();
    IterateAdd(Start, 5080, 1);
    IterateAdd(Start, 5081, 39);
    IterateCountsDown(Wrapped, 39);
    DigitsDetermined(Iterate(Wrapped, 39), Clock(0, 23, 20));
  }

  /** As written, from the initial state the display returns to zero once every day of ticks. */
  lemma {:induction false} ZeroEveryDay(k: nat)
    ensures Iterate(Start, 5080 + k * MinutesPerDay) == Zero
    decreases k
  {
    if k == 0 {
      CountdownFromStart();
    } else {
      ZeroEveryDay(k - 1);
      IterateAdd(Start, 5080 + (k - 1) * MinutesPerDay, MinutesPerDay);
      ZeroRecursDaily();
    }
  }

  /** The corrected tick: the bottom state stays where it is. */
  function SettledStep(c: Clock): (r: Clock)
    ensures InRange(c) ==> InRange(r)
    ensures InRange(c) ==> TotalMinutes(r) == if c == Zero then 0 else TotalMinutes(c) - 1
    ensures InRange(c) && c != Zero ==> r == Step(c)
    ensures c == Zero ==> r == Zero
  {
    if ClearsInterval(c) then c else Step(c)
  }

  function SettledIterate(c: Clock, n: nat): Clock
    decreases n
  {
    if n == 0 then c else SettledIterate(SettledStep(c), n - 1)
  }

  /** Under the corrected tick, the total after n ticks is the initial total less n, floored at zero. */
  lemma {:induction false} SettledCountsDown(c: Clock, n: nat)
    requires InRange(c)
    ensures InRange(SettledIterate(c, n))
    ensures TotalMinutes(SettledIterate(c, n)) == if n <= TotalMinutes(c) then TotalMinutes(c) - n else 0
    decreases n
  {
    if n > 0 {
      SettledCountsDown(SettledStep(c), n - 1);
    }
  }

  /** Under the corrected tick, from the initial state the display reaches zero after 5080 ticks and stays there. */
  lemma SettlesAtZero(n: nat)
    ensures SettledIterate(Start, 40) == Clock(3, 12, 0)
    ensures SettledIterate(Start, 41) == Clock(3, 11, 59)
    ensures n >= 5080 ==> SettledIterate(Start, n) == Zero
  {
    SettledCountsDown(Start, 40);
    DigitsDetermined(SettledIterate(Start, 40), Clock(3, 12, 0));
    SettledCountsDown(Start, 41);
    DigitsDetermined(SettledIterate(Start, 41), Clock(3, 11, 59));
    SettledCountsDown(Start, n);
    if n >= 5080 {
      DigitsDetermined(SettledIterate(Start, n), Zero);
    }
  }

  /**
   The countdown state of the page. `stopped` records that the running
   interval's callback called clearInterval; `armedFor` is the display the
   effect that scheduled the current interval was run for (its dependency
   list), which decides whether the effect runs again after a render.
   */
  class Timer {
    var days: int
    var hours: int
    var minutes: int
    var stopped: bool
    var armedFor: Clock

    function Display(): Clock
      reads this
    {
      Clock(days, hours, minutes)
    }

    ghost predicate Valid()
      reads this
    {
      InRange(Display())
    }

    /** An interval is scheduled and its callback sees the current display. */
    ghost predicate Armed()
      reads this
    {
      !stopped && armedFor == Display()
    }

    /** Mount: the initial state and the first run of the effect. */
    constructor ()
      ensures Valid() && Armed()
      ensures Display() == Start
    {
      days, hours, minutes := 3, 12, 40;
      stopped := false;
      armedFor := Clock(3, 12, 40);
    }

    /** One firing of the interval callback. */
    method Tick()
      requires Valid() && Armed()
      modifies this
      ensures Valid()
      ensures Display() == Step(old(Display()))
      ensures stopped <==> old(Display()) == Zero
      ensures armedFor == old(armedFor)
    {
      if minutes > 0 {
        minutes := minutes - 1;
      } else {
        minutes := 59;
        if hours > 0 {
          hours := hours - 1;
        } else {
          hours := 23;
          if days > 0 {
            days := days - 1;
          } else {
            stopped := true;
          }
        }
      }
    }

    /**
     The render after a state change: when the display differs from the one
     the effect last ran for, the old interval is cleaned up and a fresh one
     is scheduled; otherwise nothing happens.
     */
    method Rerender()
      modifies this
      ensures Display() == old(Display())
      ensures armedFor == Display()
      ensures stopped == if old(Display()) != old(armedFor) then false else old(stopped)
    {
      if Display() != armedFor {
        stopped := false;
        armedFor := Display();
      }
    }

    /**
     One minute of the page: the callback fires and the page re-renders. Every
     tick changes the display, so the effect always re-arms, even after the
     callback cleared its own interval at the bottom state.
     */
    method Minute()
      requires Valid() && Armed()
      modifies this
      ensures Valid() && Armed()
      ensures Display() == Step(old(Display()))
    {
      Tick();
      Rerender();
    }
  }

  /**
   The page mounted and left running for n minutes: the timer holds the
   display that n ticks of `Iterate` give from the initial state, with an
   interval armed. Together with the lemmas above this ties the class to the
   whole run, for instance `{0,23,59}` after 5081 minutes.
   */
  method MountAndRun(n: nat) returns (t: Timer)
    ensures t.Valid() && t.Armed()
    ensures t.Display() == Iterate(Start, n)
  {
    t := new Timer();
    var i := 0;
    while i < n
      invariant 0 <= i <= n
      invariant t.Valid() && t.Armed()
      invariant t.Display() == Iterate(Start, i)
    {
      t.Minute();
      IterateAdd(Start, i, 1);
      i := i + 1;
    }
  }
}
