/** Loading `recipients.json` beside the script. A missing file, a file that is
    not valid JSON, and a top-level value that is not an array all fall back to
    the empty list. Only JSON decoding errors are caught: an error while opening
    or reading the file (permissions, bytes that are not UTF-8) ends the script. */
module RecipientSource {
  import opened PyValues

  /** What `json.load` on the opened file yields. */
  datatype Load =
    | Decoded(value: Value)
    | DecodeError(message: string)   // json.JSONDecodeError, caught
    | ReadError(message: string)     // any exception other than JSONDecodeError, not caught

  /** The state of the recipients path: not a regular file, or a file whose load gives `load`. */
  datatype Source = NotAFile | File(load: Load)

  datatype Loaded = Recipients(items: seq<Value>) | Crashed(message: string)

  function LoadRecipients(src: Source): (l: Loaded)
    ensures l.Crashed? <==> src.File? && src.load.ReadError?
    ensures l.Recipients? && l.items != [] ==>
      src.File? && src.load.Decoded? && src.load.value == Array(l.items)
    ensures src.File? && src.load.Decoded? && src.load.value.Array? ==>
      l == Recipients(src.load.value.items)
    ensures src.NotAFile? || (src.File? && src.load.DecodeError?) ==> l == Recipients([])
    ensures src.File? && src.load.Decoded? && !src.load.value.Array? ==> l == Recipients([])
  {
    match src
    case NotAFile => Recipients([])
    case File(Decoded(Array(items))) => Recipients(items)
    case File(Decoded(_)) => Recipients([])
    case File(DecodeError(_)) => Recipients([])
    case File(ReadError(e)) => Crashed(e)
  }
}
