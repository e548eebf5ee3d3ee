/**
 * The shape shared by every listing loop of the repositories and services:
 * walk the rows in order, skip some, keep the decoded value of others, and
 * abort the whole listing on the first row whose handling raises.
 */
module Listing {
  import opened Wrappers

  /** What one loop iteration does with its row. */
  datatype Step<T, E> = Skip | Keep(value: T) | Stop(error: E)

  /**
   * The outcome of the loop after the given steps, defined by peeling the
   * last step so that it follows a left-to-right loop one iteration at a time.
   */
  function Collect<T, E>(steps: seq<Step<T, E>>): Result<seq<T>, E>
    decreases |steps|
  {
    if steps == [] then Ok([])
    else
      var prev := Collect(steps[..|steps| - 1]);
      if prev.Err? then prev
      else match steps[|steps| - 1]
        case Skip => prev
        case Keep(v) => Ok(prev.value + [v])
        case Stop(e) => Err(e)
  }

  /** The kept values, defined front to back: the reference for Collect. */
  function Kept<T, E>(steps: seq<Step<T, E>>): seq<T>
    decreases |steps|
  {
    if steps == [] then []
    else (if steps[0].Keep? then [steps[0].value] else []) + Kept(steps[1..])
  }

  predicate NoStop<T, E>(steps: seq<Step<T, E>>) {
    forall i | 0 <= i < |steps| :: !steps[i].Stop?
  }

  lemma KeptSnoc<T, E>(steps: seq<Step<T, E>>, s: Step<T, E>)
    ensures Kept(steps + [s]) == Kept(steps) + (if s.Keep? then [s.value] else [])
    decreases |steps|
  {
    if steps != [] {
      assert (steps + [s])[1..] == steps[1..] + [s];
      KeptSnoc(steps[1..], s);
    }
  }

  /** Without a raising row the loop returns exactly the kept values, in order. */
  lemma {:induction false} CollectNoStop<T, E>(steps: seq<Step<T, E>>)
    requires NoStop(steps)
    ensures Collect(steps) == Ok(Kept(steps))
    decreases |steps|
  {
    if steps != [] {
      var init := steps[..|steps| - 1];
      var last := steps[|steps| - 1];
      assert steps == init + [last];
      assert NoStop(init) by {
        forall i | 0 <= i < |init| ensures !init[i].Stop? {
          assert init[i] == steps[i];
        }
      }
      CollectNoStop(init);
      KeptSnoc(init, last);
      assert !last.Stop?;
      if !last.Keep? {
        assert Kept(init) + [] == Kept(init);
      }
    }
  }

  /** A raising row makes the whole loop raise: the first such row's error. */
  lemma {:induction false} CollectStop<T, E>(steps: seq<Step<T, E>>, i: nat)
    requires i < |steps| && steps[i].Stop? && NoStop(steps[..i])
    ensures Collect(steps) == Err(steps[i].error)
    decreases |steps|
  {
    var init := steps[..|steps| - 1];
    if i == |steps| - 1 {
      assert init == steps[..i];
      CollectNoStop(init);
    } else {
      assert init[..i] == steps[..i];
      CollectStop(init, i);
    }
  }

  /** The loop succeeds exactly when no row raises. */
  lemma CollectOk<T, E>(steps: seq<Step<T, E>>)
    ensures Collect(steps).Ok? <==> NoStop(steps)
  {
    if NoStop(steps) {
      CollectNoStop(steps);
    } else {
      var i := FirstStop(steps);
      CollectStop(steps, i);
    }
  }

  /** The position of the first raising row. */
  lemma FirstStop<T, E>(steps: seq<Step<T, E>>) returns (i: nat)
    requires !NoStop(steps)
    ensures i < |steps| && steps[i].Stop? && NoStop(steps[..i])
  {
    var j :| 0 <= j < |steps| && steps[j].Stop?;
    i := 0;
    while !steps[i].Stop?
      invariant i <= j && NoStop(steps[..i])
      decreases j - i
    {
      i := i + 1;
    }
  }

  /** x is kept exactly when some step keeps it. */
  lemma {:induction false} KeptMember<T, E>(steps: seq<Step<T, E>>, x: T)
    ensures x in Kept(steps) <==> exists i | 0 <= i < |steps| :: steps[i] == Keep(x)
    decreases |steps|
  {
    if steps != [] {
      KeptMember(steps[1..], x);
      if exists i | 0 <= i < |steps[1..]| :: steps[1..][i] == Keep(x) {
        var i :| 0 <= i < |steps[1..]| && steps[1..][i] == Keep(x);
        assert steps[i + 1] == Keep(x);
      }
      if exists i | 0 <= i < |steps| :: steps[i] == Keep(x) {
        var i :| 0 <= i < |steps| && steps[i] == Keep(x);
        if i > 0 {
          assert steps[1..][i - 1] == Keep(x);
        }
      }
    }
  }

  /** One loop iteration: the loop state after steps[..i+1] from the state after steps[..i]. */
  lemma CollectNext<T, E>(steps: seq<Step<T, E>>, i: nat)
    requires i < |steps|
    ensures Collect(steps[..i + 1]) ==
      (var prev := Collect(steps[..i]);
       if prev.Err? then prev
       else match steps[i]
         case Skip => prev
         case Keep(v) => Ok(prev.value + [v])
         case Stop(e) => Err(e))
  {
    assert steps[..i + 1][..i] == steps[..i];
  }

  /**
   * One iteration from a loop state that has not raised: a skip keeps the
   * state, a keep appends, and a stop decides the whole listing.
   */
  lemma CollectAdvance<T, E>(steps: seq<Step<T, E>>, i: nat, acc: seq<T>)
    requires i < |steps| && Collect(steps[..i]) == Ok(acc)
    ensures steps[i].Skip? ==> Collect(steps[..i + 1]) == Ok(acc)
    ensures steps[i].Keep? ==> Collect(steps[..i + 1]) == Ok(acc + [steps[i].value])
    ensures steps[i].Stop? ==> Collect(steps) == Err(steps[i].error)
  {
    CollectNext(steps, i);
    if steps[i].Stop? {
      CollectErrSticky(steps, i + 1);
    }
  }

  /** Once the loop has raised, later rows do not matter. */
  lemma {:induction false} CollectErrSticky<T, E>(steps: seq<Step<T, E>>, i: nat)
    requires i <= |steps| && Collect(steps[..i]).Err?
    ensures Collect(steps) == Collect(steps[..i])
    decreases |steps| - i
  {
    if i < |steps| {
      CollectNext(steps, i);
      CollectErrSticky(steps, i + 1);
    } else {
      assert steps[..i] == steps;
    }
  }
}
