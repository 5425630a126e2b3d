/** What the IMAP transport reports. */
module ImapErrors {
  datatype ImapError =
    | InvalidConfiguration | Authentication | NotFound | MissingMessageSize | MessageTooLarge | MissingUidValidity
    | InvalidStableId | InvalidCursor | Connection | Protocol | CommandTimeout
}

/** What the SQLite cache reports. */
module StorageErrors {
  datatype StorageError = Sqlite | InvalidData | InvalidCursor | NotFound
}
