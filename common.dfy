/** Values shared by both touchpoint actions: optional values and the status an action returns. */
module Common {

  /** A Java reference that may be null. */
  datatype Option<T> = None | Some(value: T)

  /** Which branch of an action produced a non-OK status (the message texts are not modelled). */
  datatype Cause =
    | MissingIncomingFile      // no 'incomingFile' key in the parameters
    | NullIncomingFile         // 'incomingFile' maps to null
    | MissingArtifactLocation  // 'artifact.location' missing or null
    | NoWritePermission        // the marker file cannot be written
    | WriteFailed              // an IOException while creating or appending
    | SavingFailed             // save after setting the property threw
    | RemovingFailed           // save after removing the property threw

  /** The severity of an IStatus, with the branch that fired. */
  datatype Status = Ok | Warning(cause: Cause) | Error(cause: Cause)
}
