/**
 * The values a scraped job record holds, as the Python program sees them.
 * A job record is a Python dict whose values are strings, lists of
 * strings, ints, floats, bools, or the missing-value marker, which the
 * program represents as the plain integer -1.
 */
module PyValues {
  /** One value of a job record. `NA` is the integer -1 used as "not available". */
  datatype Value =
    | NA
    | Str(s: string)
    | StrList(items: seq<string>)
    | Int(i: int)
    | Num(r: real)
    | Bool(b: bool)

  /** The exceptions the modelled code raises or lets through. */
  datatype PyError =
    | KeyError(key: string)
    | AttributeError       // `.replace` called on a value that is not a string
    | TypeError            // a non-string handed to `str.replace` or `re.search`
    | ValueError
    | IndexError
    | NoSuchElement        // Selenium's NoSuchElementException
    | Timeout              // an explicit wait that never saw its element
    | ClickIntercepted     // Selenium's ElementClickInterceptedException
    | FileNotFound(path: string)
    | OSError(path: string)

  /**
   * Python `v == -1`. Besides the marker itself, the integer -1 and the
   * float -1.0 compare equal to it; `True` and `False` are 1 and 0.
   */
  predicate EqualsNA(v: Value)
  {
    match v
    case NA => true
    case Int(i) => i == -1
    case Num(r) => r == -1.0
    case _ => false
  }

  /** Python `bool(v)`: -1 is true, empty strings and lists and zero are false. */
  predicate Truthy(v: Value)
  {
    match v
    case NA => true
    case Str(s) => s != []
    case StrList(items) => items != []
    case Int(i) => i != 0
    case Num(r) => r != 0.0
    case Bool(b) => b
  }
}
