/** Value types shared by every module: optional values, the exceptions the
    .NET runtime can raise on the modelled paths, and the fixed-width integer
    types of the C# records. */
module Base {

  datatype Option<+T> = None | Some(value: T)

  /** The .NET exception kinds that the modelled code can raise or catch. */
  datatype Fault =
    | InvalidOperation(what: string)   // JsonElement accessor used on the wrong ValueKind
    | KeyNotFound(name: string)        // JsonElement.GetProperty on a missing member
    | BadFormat(what: string)          // JsonElement.GetDateTime on a text that is not a date
    | ArgumentOutOfRange(what: string) // DateTime arithmetic or Task.Delay out of range
    | HttpRequest                      // HttpClient could not reach the server
    | JsonParse                        // a response or file body that is not JSON
    | FileRead                         // a file that could not be opened or read
    | DirectoryNotFound(path: string)  // a search in a directory that does not exist

  /** A computation that either yields a value or raises a .NET exception.
      The members make it usable with `:-`. */
  datatype Result<+T> = Ok(value: T) | Err(error: Fault) {
    predicate IsFailure() { Err? }

    function PropagateFailure<U>(): Result<U>
      requires Err?
    {
      Err(error)
    }

    function Extract(): T
      requires Ok?
    {
      value
    }
  }

  /** HttpResponseMessage.IsSuccessStatusCode: the 2xx (Successful) class of
      section 15.3 of RFC 9110. */
  predicate IsSuccessStatusCode(status: int) { 200 <= status <= 299 }

  const Int32Min: int := -0x8000_0000
  const Int32Max: int := 0x7FFF_FFFF
  const Int64Min: int := -0x8000_0000_0000_0000
  const Int64Max: int := 0x7FFF_FFFF_FFFF_FFFF

  /** C# `int` */
  type int32 = x: int | Int32Min <= x <= Int32Max
  /** C# `long` */
  type int64 = x: int | Int64Min <= x <= Int64Max
  /** An octet of a UTF-8 encoding */
  type byte = x: int | 0 <= x < 256

  /** Unchecked C# `int` arithmetic: the mathematical result reduced to 32 bits. */
  function Wrap32(x: int): (r: int32)
    ensures (r - x) % 0x1_0000_0000 == 0
    ensures Int32Min <= x <= Int32Max ==> r == x
  {
    (x - Int32Min) % 0x1_0000_0000 + Int32Min
  }
}
