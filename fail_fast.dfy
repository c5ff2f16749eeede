/**
 * Runs that stop at the first failure. Parse walks the files of a module and FindAndParse the
 * module directories in the same way: each step would panic (Unsafe), returns an error
 * (Failed), or yields a value (Done); the run returns at the first error, and a step is
 * reached only if every step before it yielded a value.
 */
module FailFast {
  import opened TfDocs

  datatype Step<T> = Unsafe | Failed(err: ParseError) | Done(value: T)

  /** Every step yields a value. */
  predicate Clean<T>(steps: seq<Step<T>>) {
    forall k :: 0 <= k < |steps| ==> steps[k].Done?
  }

  /** Every step that is reached, after only clean steps, is safe. */
  predicate SafeFrom<T>(steps: seq<Step<T>>) {
    forall k :: 0 <= k < |steps| && Clean(steps[..k]) ==> !steps[k].Unsafe?
  }

  lemma CleanPrefix<T>(steps: seq<Step<T>>, i: int)
    requires Clean(steps) && 0 <= i <= |steps|
    ensures Clean(steps[..i])
  {
    forall k | 0 <= k < i ensures steps[..i][k] == steps[k] { }
  }

  lemma CleanExtend<T>(steps: seq<Step<T>>, i: int)
    requires 0 <= i < |steps| && Clean(steps[..i]) && steps[i].Done?
    ensures Clean(steps[..i + 1])
  {
    var grown := steps[..i + 1];
    forall k | 0 <= k < |grown| ensures grown[k].Done? {
      if k < i {
        assert steps[..i][k] == steps[k];
      }
    }
  }

  /** The index of the step at which the run stops. */
  function FirstFailing<T>(steps: seq<Step<T>>): (k: nat)
    requires SafeFrom(steps) && !Clean(steps)
    ensures k < |steps| && Clean(steps[..k]) && steps[k].Failed?
  {
    assert steps[..|steps|] == steps;
    assert [] == steps[..0];
    FirstFailingFrom(steps, 0)
  }

  function FirstFailingFrom<T>(steps: seq<Step<T>>, i: nat): (k: nat)
    requires SafeFrom(steps) && i <= |steps| && Clean(steps[..i]) && !Clean(steps)
    ensures i <= k < |steps| && Clean(steps[..k]) && steps[k].Failed?
    decreases |steps| - i
  {
    assert steps[..|steps|] == steps;
    if steps[i].Failed? then i
    else
      CleanExtend(steps, i);
      FirstFailingFrom(steps, i + 1)
  }

  /** A step that fails after only clean steps is the one the run stops at. */
  lemma FirstFailingAt<T>(steps: seq<Step<T>>, i: int)
    requires SafeFrom(steps) && 0 <= i < |steps| && Clean(steps[..i]) && steps[i].Failed?
    ensures !Clean(steps) && FirstFailing(steps) == i
  {
    var k := FirstFailing(steps);
  }

  /** The values of a clean run, in order. */
  function DoneValues<T>(steps: seq<Step<T>>): (vs: seq<T>)
    requires Clean(steps)
    ensures |vs| == |steps| && forall k :: 0 <= k < |steps| ==> Done(vs[k]) == steps[k]
  {
    if |steps| == 0 then [] else [steps[0].value] + DoneValues(steps[1..])
  }
}
