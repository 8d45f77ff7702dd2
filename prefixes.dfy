/**
 * The shape of a loop that leaves at its first failure: `for x in xs {
 * out.push(f(x)?) }` keeps the results of the leading run of successes and
 * nothing after the first `None`. Every step may have a precondition (a
 * panic in the source); only the steps the loop reaches must meet it.
 */
module Prefixes {
  import opened Wrappers

  /** Every element the loop reaches meets the step's precondition. */
  ghost predicate Reached<T, R>(xs: seq<T>, f: T --> Option<R>)
  {
    xs == [] || (f.requires(xs[0]) && (f(xs[0]).Some? ==> Reached(xs[1..], f)))
  }

  /** The results of the leading successes of `f` over `xs`. */
  function TakeWhileSome<T, R>(xs: seq<T>, f: T --> Option<R>): seq<R>
    requires Reached(xs, f)
  {
    if xs == [] then []
    else match f(xs[0])
      case None => []
      case Some(r) => [r] + TakeWhileSome(xs[1..], f)
  }

  /** One step of the loop: stop at a failure, keep a success and go on. */
  lemma TakeWhileSomeStep<T, R>(xs: seq<T>, f: T --> Option<R>)
    requires Reached(xs, f) && xs != []
    ensures f.requires(xs[0])
    ensures f(xs[0]).None? ==> TakeWhileSome(xs, f) == []
    ensures f(xs[0]).Some? ==>
      Reached(xs[1..], f) && TakeWhileSome(xs, f) == [f(xs[0]).value] + TakeWhileSome(xs[1..], f)
  {
  }

  /** The same step, with the results collected so far in front. */
  lemma TakeWhileSomeAfter<T, R>(done: seq<R>, xs: seq<T>, f: T --> Option<R>)
    requires Reached(xs, f) && xs != []
    ensures f.requires(xs[0])
    ensures f(xs[0]).None? ==> done + TakeWhileSome(xs, f) == done
    ensures f(xs[0]).Some? ==>
      Reached(xs[1..], f) && done + TakeWhileSome(xs, f) == (done + [f(xs[0]).value]) + TakeWhileSome(xs[1..], f)
  {
    TakeWhileSomeStep(xs, f);
    assert done + [] == done;
    if f(xs[0]).Some? {
      var r := f(xs[0]).value;
      assert (done + [r]) + TakeWhileSome(xs[1..], f) == done + ([r] + TakeWhileSome(xs[1..], f));
    }
  }

  /** The step at index `i` of a loop over `xs`. */
  lemma TakeWhileSomeNext<T, R>(xs: seq<T>, f: T --> Option<R>, i: nat)
    requires i < |xs| && Reached(xs[i..], f)
    ensures f.requires(xs[i])
    ensures f(xs[i]).None? ==> TakeWhileSome(xs[i..], f) == []
    ensures f(xs[i]).Some? ==>
      Reached(xs[i + 1..], f) && TakeWhileSome(xs[i..], f) == [f(xs[i]).value] + TakeWhileSome(xs[i + 1..], f)
  {
    TakeWhileSomeStep(xs[i..], f);
    assert xs[i..][0] == xs[i] && xs[i..][1..] == xs[i + 1..];
  }

  /** The loop keeps no more results than it has inputs. */
  lemma {:induction false} TakeWhileSomeLength<T, R>(xs: seq<T>, f: T --> Option<R>)
    requires Reached(xs, f)
    ensures |TakeWhileSome(xs, f)| <= |xs|
  {
    if xs != [] && f(xs[0]).Some? {
      TakeWhileSomeLength(xs[1..], f);
    }
  }

  /** The i-th result is the success of the i-th input. */
  lemma {:induction false} TakeWhileSomeAt<T, R>(xs: seq<T>, f: T --> Option<R>, i: nat)
    requires Reached(xs, f) && i < |TakeWhileSome(xs, f)|
    ensures i < |xs| && f.requires(xs[i]) && f(xs[i]) == Some(TakeWhileSome(xs, f)[i])
  {
    if i > 0 {
      TakeWhileSomeAt(xs[1..], f, i - 1);
      assert xs[1..][i - 1] == xs[i];
    }
  }

  /** If the loop keeps fewer results than inputs, it stopped at an input that failed. */
  lemma {:induction false} TakeWhileSomeStops<T, R>(xs: seq<T>, f: T --> Option<R>)
    requires Reached(xs, f)
    ensures var n := |TakeWhileSome(xs, f)|;
      n < |xs| ==> f.requires(xs[n]) && f(xs[n]).None?
  {
    if xs != [] && f(xs[0]).Some? {
      TakeWhileSomeStops(xs[1..], f);
      var n := |TakeWhileSome(xs[1..], f)|;
      assert |TakeWhileSome(xs, f)| == n + 1;
      if n < |xs[1..]| {
        assert xs[1..][n] == xs[n + 1];
      }
    }
  }

  /**
   * Characterisation: the results are exactly the successes of a leading run
   * of inputs, and the run ends only at the end of the input or at a failure.
   */
  lemma TakeWhileSomeIsLeadingRun<T, R>(xs: seq<T>, f: T --> Option<R>)
    requires Reached(xs, f)
    ensures |TakeWhileSome(xs, f)| <= |xs|
    ensures forall i :: 0 <= i < |TakeWhileSome(xs, f)| ==>
      f.requires(xs[i]) && f(xs[i]) == Some(TakeWhileSome(xs, f)[i])
    ensures var n := |TakeWhileSome(xs, f)|;
      n < |xs| ==> f.requires(xs[n]) && f(xs[n]).None?
  {
    TakeWhileSomeLength(xs, f);
    forall i | 0 <= i < |TakeWhileSome(xs, f)|
      ensures f.requires(xs[i]) && f(xs[i]) == Some(TakeWhileSome(xs, f)[i])
    {
      TakeWhileSomeAt(xs, f, i);
    }
    TakeWhileSomeStops(xs, f);
  }

  /** When every input succeeds, every input has its result. */
  lemma {:induction false} TakeWhileSomeAllSucceed<T, R>(xs: seq<T>, f: T --> Option<R>)
    requires forall i :: 0 <= i < |xs| ==> f.requires(xs[i]) && f(xs[i]).Some?
    ensures Reached(xs, f)
    ensures |TakeWhileSome(xs, f)| == |xs|
  {
    if xs != [] {
      forall i | 0 <= i < |xs[1..]| ensures f.requires(xs[1..][i]) && f(xs[1..][i]).Some? {
        assert xs[1..][i] == xs[i + 1];
      }
      TakeWhileSomeAllSucceed(xs[1..], f);
    }
  }

  /** A step that cannot fail its precondition is reached everywhere. */
  lemma {:induction false} ReachedTotal<T, R>(xs: seq<T>, f: T -> Option<R>)
    ensures Reached(xs, f)
  {
    if xs != [] {
      ReachedTotal(xs[1..], f);
    }
  }

  // ---- Loops that may also skip an element: `continue` and `?` in one body ----

  /** What one pass of such a loop does with its element. */
  datatype Step<+R> = Skip | Keep(value: R) | Stop

  /** The kept results of a loop that skips some elements and leaves at the first `Stop`. */
  function Scan<T, R>(xs: seq<T>, f: T -> Step<R>): (r: seq<R>)
    ensures |r| <= |xs|
  {
    if xs == [] then []
    else match f(xs[0])
      case Skip => Scan(xs[1..], f)
      case Keep(r) => [r] + Scan(xs[1..], f)
      case Stop => []
  }

  /** Reference: every kept result, paying no attention to `Stop`. */
  function Kept<T, R>(xs: seq<T>, f: T -> Step<R>): (r: seq<R>)
    ensures |r| <= |xs|
  {
    if xs == [] then []
    else if f(xs[0]).Keep? then [f(xs[0]).value] + Kept(xs[1..], f)
    else Kept(xs[1..], f)
  }

  /** The index of the first element whose step is `Stop`, or the length if there is none. */
  function FirstStop<T, R>(xs: seq<T>, f: T -> Step<R>): (k: nat)
    ensures k <= |xs|
  {
    if xs == [] || f(xs[0]).Stop? then 0 else 1 + FirstStop(xs[1..], f)
  }

  /** `FirstStop` is the first stop: no earlier element stops, and the one there does. */
  lemma {:induction false} FirstStopIsFirst<T, R>(xs: seq<T>, f: T -> Step<R>)
    ensures forall i :: 0 <= i < FirstStop(xs, f) ==> !f(xs[i]).Stop?
    ensures FirstStop(xs, f) < |xs| ==> f(xs[FirstStop(xs, f)]).Stop?
  {
    if xs != [] && !f(xs[0]).Stop? {
      FirstStopIsFirst(xs[1..], f);
      forall i | 0 <= i < FirstStop(xs, f) ensures !f(xs[i]).Stop? {
        if i > 0 {
          assert xs[i] == xs[1..][i - 1];
        }
      }
      if FirstStop(xs, f) < |xs| {
        assert xs[FirstStop(xs, f)] == xs[1..][FirstStop(xs[1..], f)];
      }
    }
  }

  /** The loop keeps exactly what the elements before the first `Stop` keep. */
  lemma {:induction false} ScanIsKeptBeforeStop<T, R>(xs: seq<T>, f: T -> Step<R>)
    ensures Scan(xs, f) == Kept(xs[..FirstStop(xs, f)], f)
  {
    if xs != [] {
      var k := FirstStop(xs, f);
      if f(xs[0]).Stop? {
        assert xs[..k] == [];
      } else {
        ScanIsKeptBeforeStop(xs[1..], f);
        assert xs[..k][0] == xs[0] && xs[..k][1..] == xs[1..][..k - 1];
      }
    }
  }

  /** Without any `Stop`, nothing is lost: the loop keeps every kept result. */
  lemma ScanWithoutStop<T, R>(xs: seq<T>, f: T -> Step<R>)
    requires forall i :: 0 <= i < |xs| ==> !f(xs[i]).Stop?
    ensures Scan(xs, f) == Kept(xs, f)
  {
    ScanIsKeptBeforeStop(xs, f);
    FirstStopIsFirst(xs, f);
    assert xs[..FirstStop(xs, f)] == xs;
  }

  /** The step at index `i` of a loop over `xs`. */
  lemma ScanNext<T, R>(xs: seq<T>, f: T -> Step<R>, i: nat)
    requires i < |xs|
    ensures f(xs[i]).Skip? ==> Scan(xs[i..], f) == Scan(xs[i + 1..], f)
    ensures f(xs[i]).Keep? ==> Scan(xs[i..], f) == [f(xs[i]).value] + Scan(xs[i + 1..], f)
    ensures f(xs[i]).Stop? ==> Scan(xs[i..], f) == []
  {
    assert xs[i..][0] == xs[i] && xs[i..][1..] == xs[i + 1..];
  }

  /** `TakeWhileSome` for a step without precondition. */
  function LeadingSome<T, R>(xs: seq<T>, f: T -> Option<R>): (r: seq<R>)
    ensures |r| <= |xs|
  {
    ReachedTotal(xs, f);
    TakeWhileSomeLength(xs, f);
    TakeWhileSome(xs, f)
  }

  /** The step at index `i` of a loop over `xs` whose step cannot panic. */
  lemma LeadingSomeNext<T, R>(xs: seq<T>, f: T -> Option<R>, i: nat)
    requires i < |xs|
    ensures f(xs[i]).None? ==> LeadingSome(xs[i..], f) == []
    ensures f(xs[i]).Some? ==> LeadingSome(xs[i..], f) == [f(xs[i]).value] + LeadingSome(xs[i + 1..], f)
  {
    ReachedTotal(xs[i..], f);
    ReachedTotal(xs[i + 1..], f);
    TakeWhileSomeNext(xs, f, i);
  }

  /** A step that never fails keeps one result per element. */
  lemma {:induction false} LeadingSomeOfTotal<T, R>(xs: seq<T>, f: T -> Option<R>)
    requires forall i :: 0 <= i < |xs| ==> f(xs[i]).Some?
    ensures |LeadingSome(xs, f)| == |xs|
    ensures forall i :: 0 <= i < |xs| ==> LeadingSome(xs, f)[i] == f(xs[i]).value
  {
    ReachedTotal(xs, f);
    TakeWhileSomeIsLeadingRun(xs, f);
    TakeWhileSomeAllSucceed(xs, f);
  }

  /** A value is kept exactly when some element's step keeps it. */
  lemma {:induction false} KeptMembers<T, R>(xs: seq<T>, f: T -> Step<R>)
    ensures forall r :: r in Kept(xs, f) ==> exists i :: 0 <= i < |xs| && f(xs[i]) == Keep(r)
    ensures forall i :: 0 <= i < |xs| && f(xs[i]).Keep? ==> f(xs[i]).value in Kept(xs, f)
  {
    if xs != [] {
      KeptMembers(xs[1..], f);
      forall i | 0 <= i < |xs| && f(xs[i]).Keep? ensures f(xs[i]).value in Kept(xs, f) {
        if i > 0 {
          assert xs[i] == xs[1..][i - 1];
        }
      }
      forall r | r in Kept(xs, f) ensures exists i :: 0 <= i < |xs| && f(xs[i]) == Keep(r) {
        if f(xs[0]) != Keep(r) {
          assert r in Kept(xs[1..], f);
          var j :| 0 <= j < |xs[1..]| && f(xs[1..][j]) == Keep(r);
          assert f(xs[j + 1]) == Keep(r);
        }
      }
    }
  }

  /** The step at index `i` of a loop that only skips or keeps. */
  lemma KeptNext<T, R>(xs: seq<T>, f: T -> Step<R>, i: nat)
    requires i < |xs|
    ensures f(xs[i]).Keep? ==> Kept(xs[i..], f) == [f(xs[i]).value] + Kept(xs[i + 1..], f)
    ensures !f(xs[i]).Keep? ==> Kept(xs[i..], f) == Kept(xs[i + 1..], f)
  {
    assert xs[i..][0] == xs[i] && xs[i..][1..] == xs[i + 1..];
  }
}
