/** Failure-carrying values shared by every component of the feed service. */
module Results {

  /** A value that may be absent (a nil pointer, a missing map key). */
  datatype Option<+T> = None | Some(value: T)

  /** The error conditions the service distinguishes. Go wraps each of these
      in a different message; only the condition matters to the model. */
  datatype Error =
    | NotFound         // the record file does not exist
    | ReadFailed       // the path exists but cannot be read as a file
    | Corrupt          // the file was read but does not decode
    | WriteFailed      // a write, create or remove was refused by the file system
    | ListFailed       // the directory exists but cannot be listed
    | BotMissing       // the monitor has no bot client yet
    | InvalidIndex     // a filter index that is not a positive integer
    | IndexOutOfRange  // a filter index larger than the filter list

  /** Either a value or the error that prevented computing it. */
  datatype Result<+T> = Ok(value: T) | Err(error: Error)
}
