/** The ways a mirror run fails. */
module Errors {

  /** Why `download` gave up. */
  datatype FetchError =
    | Network    // connection or read failures on every one of the allowed attempts
    | NotFound   // the response declared no content length; never retried

  /**
   * Every failure that aborts the run. The source reaches each of them
   * through a panic (`unwrap`, `assert_eq!`, `panic!`).
   */
  datatype SyncError =
    | DownloadFailed(cause: FetchError)
    | ChecksumMismatch        // an artifact kept its wrong digest on every attempt
    | SignatureMismatch       // the manifest's digest is not the head of its signature file
    | VersionMismatch         // `manifest-version` is not "2" or `schema-version` is not "1"
    | Malformed(field: string) // a field is missing or has the wrong type, or a URL does not parse
    | BadDate(name: string)   // a directory under `dist` that is not a date, while a cutoff is set
}
