/**
 * The error type of the `password` module, as far as the unlock flow in
 * src/password_store.rs matches on it. The module itself (container format,
 * key derivation, ciphers, `v2::PasswordStore`) is not part of this model.
 */
module Password {

  /** The I/O error carried by `PasswordError::Io`, reduced to its cause. */
  datatype IoError =
    | UnexpectedEof          // the reply script ran out (see Terminal.NextReply)
    | IoFailure(reason: string)

  /**
   * The variants the unlock flow names, plus `Other` for every variant it
   * only reaches through a catch-all arm (for example a wrong master password).
   */
  datatype PasswordError =
    | CorruptionError
    | CorruptionLikelyError
    | OutdatedRoosterBinaryError
    | NeedUpgradeErrorFromV1
    | NoUpgradeError
    | Io(cause: IoError)
    | Other(name: string)
}
