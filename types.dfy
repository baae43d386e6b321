/** Shared vocabulary of the disk-share processor: bytes, optional values,
    and the outcome of a request handler. */
module Types {

  newtype byte = x: int | 0 <= x < 256

  datatype Option<+T> = None | Some(value: T)

  /** Why a handler did not produce its success response.
      The first four are error responses carrying an NTSTATUS code; the
      others stand for the Ruby exceptions the handler lets escape. */
  datatype Error =
    | ObjectNameNotFound   // STATUS_OBJECT_NAME_NOT_FOUND
    | InvalidParameter     // STATUS_INVALID_PARAMETER
    | NoMoreFiles          // STATUS_NO_MORE_FILES
    | EndOfFile            // STATUS_END_OF_FILE
    | NotImplemented       // NotImplementedError
    | PathEscape           // RuntimeError raised by the containment guard
    | InvalidHandle        // an unknown file id: the handler dereferences nil
    | FileSystemFault      // an Errno error from the host filesystem

  datatype Result<+T> = Ok(value: T) | Err(error: Error)

  /** An SMB2 file id: a 64-bit persistent part and a 64-bit volatile part.
      Two ids are the same table key exactly when both parts are equal. */
  datatype FileId = FileId(persistent: nat, volatile: nat)
}
