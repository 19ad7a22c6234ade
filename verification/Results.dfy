/** Outcomes shared by the modules. */
module Results {

  datatype Option<+T> = None | Some(value: T) {
    function GetOr(default: T): T {
      match this
      case Some(v) => v
      case None => default
    }
  }

  /** What a piece of the assembler comes back with.
      `Abort` is asmerr called with its abort flag set, which ends the process.
      `Corrupt` is a step in which the C code would leave the part of memory it
      owns, or call a function as one of another type; nothing is claimed after it. */
  datatype Result<+T> = Ok(value: T) | Abort | Corrupt

  /** How a method that updates things in place reports the same. */
  datatype Outcome = Fine | Aborted | Broken

  function OutcomeOf<T>(r: Result<T>): Outcome {
    match r
    case Ok(_) => Fine
    case Abort => Aborted
    case Corrupt => Broken
  }

  /** The result of a run that is over. */
  function Failure<T>(o: Outcome): (r: Result<T>)
    requires o != Fine
    ensures OutcomeOf(r) == o
  {
    match o
    case Aborted => Abort
    case Broken => Corrupt
  }

  /** What is carried from one call to the next stays folded up there, as something that holds
      for every key that is opened: it is seen only where Opened is mentioned. */
  datatype Layer = OfTable | OfHandler | OfLister | OfRun | OfFile | OfImage | OfHunk

  predicate Opened(layer: Layer, key: nat) { true }
}
