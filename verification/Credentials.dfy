/** The one-blob credentials the windows of the program share. */
module Credentials {
  import opened Wrappers
  import opened Bytes

  datatype MailProvider = Microsoft | Google

  /** A credential's payload may not be longer. */
  const BLOB_LIMIT: nat := 2560

  /** The stored blob; absent until the first save. */
  class Credential {
    var blob: Option<Bytes>

    constructor ()
      ensures blob == None
    {
      blob := None;
    }
  }

  /** An absent blob compares as an empty one. */
  function Held(stored: Option<Bytes>): Bytes { if stored.Some? then stored.value else [] }
}
