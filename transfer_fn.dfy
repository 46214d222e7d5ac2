/** Transfer functions as the control loops see them: stateful operators
    that take one input per tick, keep their own history, and answer with
    an output. Their internals (second-order responses, decaying sinusoids,
    first-order lags) belong to other code, so each operator's response to
    its history is a parameter fixed when it is created. */
module TransferFunctions {
  import opened Wrappers

  /** One input fed to an operator, with the time (in seconds) it was fed. */
  datatype Sample = Sample(input: real, timeS: real)

  /** A `TransferFn` of the process-control crate: `set_user_input_and_calc`
      returns a `Result`, here `None` when the crate reports an error. */
  class TransferFn {
    /** The operator's output after it has been fed the given samples. */
    const response: seq<Sample> -> Option<real>
    /** The samples fed so far, oldest first. */
    var history: seq<Sample>

    constructor (response: seq<Sample> -> Option<real>)
      ensures this.response == response && history == []
    {
      this.response := response;
      history := [];
    }

    /** Feeds one input at time `timeS` and returns the new output. */
    method SetUserInputAndCalc(input: real, timeS: real) returns (output: Option<real>)
      modifies this
      ensures history == old(history) + [Sample(input, timeS)]
      ensures output == response(history)
    {
      history := history + [Sample(input, timeS)];
      output := response(history);
    }
  }

  /** The clients' own transfer functions (first- and second-order,
      decaying sinusoid): `set_user_input_and_calc_output` cannot fail. */
  class LocalTransferFn {
    /** The operator's output after it has been fed the given samples. */
    const response: seq<Sample> -> real
    /** The samples fed so far, oldest first. */
    var history: seq<Sample>

    constructor (response: seq<Sample> -> real)
      ensures this.response == response && history == []
    {
      this.response := response;
      history := [];
    }

    /** Feeds one input at time `timeS` and returns the new output. */
    method SetUserInputAndCalcOutput(timeS: real, input: real) returns (output: real)
      modifies this
      ensures history == old(history) + [Sample(input, timeS)]
      ensures output == response(history)
    {
      history := history + [Sample(input, timeS)];
      output := response(history);
    }
  }
}
