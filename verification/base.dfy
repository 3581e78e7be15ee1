/** Shared vocabulary: the Python exceptions the modelled code raises or
    catches, a Result type that carries them, Option for Python's None, and
    Num for a floating-point cell that may hold NaN. */
module Base {

  /** The exception classes that appear in the modelled code. The message
      text is kept where the code builds it itself. */
  datatype Exc =
    | ValueError(msg: string)
    | KeyError(key: string)
    | TypeError(msg: string)
    | IndexError(msg: string)
    | AttributeError(msg: string)
    | ZeroDivisionError
    | FileNotFoundError(msg: string)
    | GenericException(msg: string)
    | UpdateConfigException(msg: string)
    | WrongConfigurationException(msg: string)
    | SetupException(cause: Exc)
    | RunException(cause: Exc)

  /** Either the value a Python function returns or the exception it raises. */
  datatype Result<+T> = Ok(value: T) | Raise(exc: Exc) {
    predicate IsFailure() {
      Raise?
    }

    function PropagateFailure<U>(): Result<U>
      requires Raise?
    {
      Raise(exc)
    }

    function Extract(): T
      requires Ok?
    {
      value
    }
  }

  /** Python's None next to an ordinary value. */
  datatype Option<+T> = None | Some(value: T)

  /** A float that is either an ordinary (finite) value or NaN. */
  datatype Num = Num(v: real) | NaN

  /** The `try: ... except Exception: return None` wrapper used throughout
      the service layer: any raised exception becomes None. */
  function Swallow<T>(r: Result<T>): (o: Option<T>)
    ensures o.Some? <==> r.Ok?
    ensures o.Some? ==> o.value == r.value
  {
    match r
    case Ok(v) => Some(v)
    case Raise(_) => None
  }
  /** Python's `str(e)` for the exceptions whose text the model carries. */
  function Describe(e: Exc): string {
    match e
    case ValueError(m) => m
    case KeyError(k) => "'" + k + "'"
    case TypeError(m) => m
    case IndexError(m) => m
    case AttributeError(m) => m
    case ZeroDivisionError => "division by zero"
    case FileNotFoundError(m) => m
    case GenericException(m) => m
    case UpdateConfigException(m) => m
    case WrongConfigurationException(m) => m
    case SetupException(c) => Describe(c)
    case RunException(c) => Describe(c)
  }
}
