/** Small shared vocabulary: optional values, and the Python exceptions that
    can escape a remediation cycle. */
module Common {

  datatype Option<+T> = None | Some(value: T)

  /** The exceptions the agent's cycle can raise and not catch. */
  datatype Fault =
    | IndexError      // `steps[-1]` on an empty step list
    | AttributeError  // `None.get(...)` when no restart step was found
    | TypeError       // `t * 0.95` on a threshold that is not a number

  /** What a Python call either returns or raises. */
  datatype Outcome<+T> = Done(value: T) | Raised(fault: Fault)
}
