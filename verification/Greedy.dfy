/**
 Counting one visitor's unique visits with a memory of the last counted one: the cost of
 forgetting it.
*/
module Greedy {
  import opened Text

  /** A visit, judged at one instant and logged, if it counts, at a later one; or a loss of memory. */
  datatype Mark = Seen(judge: int, log: int) | Reset

  predicate Fresh(last: Option<int>, now: int, window: int) {
    last.None? || last.value <= now - window
  }

  /** Unique visits when every reset forgets the last counted visit. */
  function Forgetful(last: Option<int>, marks: seq<Mark>, window: int): nat
    decreases |marks|
  {
    if marks == [] then 0
    else match marks[0]
      case Reset => Forgetful(None, marks[1..], window)
      case Seen(judge, log) =>
        if Fresh(last, judge, window) then 1 + Forgetful(Some(log), marks[1..], window)
        else Forgetful(last, marks[1..], window)
  }

  /** Unique visits when nothing is ever forgotten. */
  function Mindful(last: Option<int>, marks: seq<Mark>, window: int): nat
    decreases |marks|
  {
    if marks == [] then 0
    else match marks[0]
      case Reset => Mindful(last, marks[1..], window)
      case Seen(judge, log) =>
        if Fresh(last, judge, window) then 1 + Mindful(Some(log), marks[1..], window)
        else Mindful(last, marks[1..], window)
  }

  function Resets(marks: seq<Mark>): nat {
    if marks == [] then 0 else (if marks[0].Reset? then 1 else 0) + Resets(marks[1..])
  }

  /** The clock readings of the marks never go back. */
  predicate Ordered(marks: seq<Mark>, now: int) {
    marks == []
    || match marks[0]
       case Reset => Ordered(marks[1..], now)
       case Seen(judge, log) => now <= judge <= log && Ordered(marks[1..], log)
  }

  predicate Before(a: Option<int>, b: Option<int>) {
    a.None? || (b.Some? && a.value <= b.value)
  }

  /**
   Exchange: remembering an earlier visit, or none, counts as many visits as remembering
   a later one, and at most one more. Whenever the two disagree they change places.
  */
  lemma {:induction false} Exchange(a: Option<int>, b: Option<int>, marks: seq<Mark>, window: int, now: int)
    requires Ordered(marks, now) && Before(a, b) && Before(b, Some(now))
    ensures Mindful(b, marks, window) <= Mindful(a, marks, window) <= Mindful(b, marks, window) + 1
    decreases |marks|
  {
    if marks != [] {
      match marks[0]
      case Reset => Exchange(a, b, marks[1..], window, now);
      case Seen(judge, log) =>
        if Fresh(a, judge, window) && !Fresh(b, judge, window) {
          Exchange(b, Some(log), marks[1..], window, log);
        } else if !Fresh(b, judge, window) {
          Exchange(a, b, marks[1..], window, log);
        }
    }
  }

  /** Each reset costs the visitor at most one extra count, and never loses one. */
  lemma {:induction false} ResetsCostAtMostOneEach(last: Option<int>, marks: seq<Mark>, window: int, now: int)
    requires Ordered(marks, now) && Before(last, Some(now))
    ensures Mindful(last, marks, window) <= Forgetful(last, marks, window)
    ensures Forgetful(last, marks, window) <= Mindful(last, marks, window) + Resets(marks)
    decreases |marks|
  {
    if marks != [] {
      var rest := marks[1..];
      match marks[0]
      case Reset =>
        ResetsCostAtMostOneEach(None, rest, window, now);
        Exchange(None, last, rest, window, now);
      case Seen(judge, log) =>
        ResetsCostAtMostOneEach(if Fresh(last, judge, window) then Some(log) else last, rest, window, log);
    }
  }
}
