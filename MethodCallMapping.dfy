/**
 * MethodCallMultiValueMapping: maps a collection of values by calling a
 * configured mapping method. The configured string parameters are stored
 * shifted by one place, so that slot 0 of the argument array stays free for
 * the values being mapped.
 */
module MethodCallMapping {
  import opened Wrappers

  /** An argument slot of the stored parameter array: null, or a string. */
  type Slot = Option<string>

  /** The reflective method call: given the values and the stored parameter
      array, the mapped values, or the exception the call throws. */
  type MethodCall = (seq<string>, seq<Slot>) -> Result<seq<string>, string>

  /** The layout of the stored array for the given parameters: a free slot 0,
      then the parameters in order. */
  function Shifted(parameters: seq<string>): (slots: seq<Slot>)
    ensures |slots| == |parameters| + 1
    ensures slots[0] == None
    ensures forall i :: 1 <= i < |slots| ==> slots[i] == Some(parameters[i - 1])
    decreases |parameters|
  {
    if parameters == [] then [None]
    else Shifted(parameters[..|parameters| - 1]) + [Some(parameters[|parameters| - 1])]
  }

  /** The parameters a stored array carries after its free slot. */
  function Parameters(slots: seq<Slot>): (parameters: seq<string>)
    requires |slots| >= 1 && forall i :: 1 <= i < |slots| ==> slots[i].Some?
    ensures |parameters| == |slots| - 1
    ensures forall i :: 0 <= i < |parameters| ==> parameters[i] == slots[i + 1].value
    decreases |slots|
  {
    if |slots| == 1 then []
    else Parameters(slots[..|slots| - 1]) + [slots[|slots| - 1].value]
  }

  /** The stored layout loses nothing: the parameters can be read back from it. */
  lemma {:induction false} ParametersOfShifted(parameters: seq<string>)
    ensures Parameters(Shifted(parameters)) == parameters
    decreases |parameters|
  {
    if parameters != [] {
      var init := parameters[..|parameters| - 1];
      assert Shifted(parameters)[..|parameters|] == Shifted(init);
      ParametersOfShifted(init);
    }
  }

  class MethodCallMultiValueMapping {
    const methodCall: MethodCall
    /** The stored argument array, one longer than the configured parameters. */
    const parameters: array<Slot>
    /** The parameters given to the constructor. */
    ghost const configured: seq<string>

    /** The stored array holds the configured parameters behind a free slot 0. */
    ghost predicate Valid()
      reads parameters
    {
      parameters[..] == Shifted(configured)
    }

    /** The constructor allocates a new array one longer than the given
        parameters and copies them in from slot 1, leaving slot 0 null. */
    constructor (methodCall: MethodCall, parameters: array<string>)
      ensures this.methodCall == methodCall
      ensures fresh(this.parameters)
      ensures configured == parameters[..] && Valid()
    {
      this.methodCall := methodCall;
      var stored := new Slot[parameters.Length + 1](_ => None);
      var i := 0;
      while i < parameters.Length
        invariant 0 <= i <= parameters.Length
        invariant stored[0] == None
        invariant forall k :: 1 <= k <= i ==> stored[k] == Some(parameters[k - 1])
        invariant forall k :: i < k <= parameters.Length ==> stored[k] == None
      {
        stored[i + 1] := Some(parameters[i]);
        i := i + 1;
      }
      this.parameters := stored;
      configured := parameters[..];
    }

    /** map: the result of the method call on the values and the stored array
        (slot 0 null, then the configured parameters), passed through unchanged. */
    method Map(value: seq<string>) returns (r: Result<seq<string>, string>)
      requires Valid()
      ensures r == methodCall(value, Shifted(configured))
    {
      r := methodCall(value, parameters[..]);
    }
  }
}
