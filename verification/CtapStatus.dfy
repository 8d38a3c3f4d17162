/** The CTAP status codes the modelled commands return. */
module CtapStatus {
  datatype CtapStatus =
    | Success
    | InvalidCommand
    | InvalidParameter
    | InvalidLength
    | Other
    | InvalidCbor
    | CborUnexpectedType
    | MissingParameter
    | CredentialExcluded
    | UnsupportedOption
    | InvalidOption
    | KeepaliveCancel
    | NoCredentials
    | UserActionTimeout
    | NotAllowed
    | PinInvalid
    | PinBlocked
    | PinAuthInvalid
    | PinAuthBlocked
    | PinNotSet
    | PuatRequired
    | PinPolicyViolation
    | RequestTooLarge
    | OperationDenied
    | KeyStoreFull
    | InvalidSubcommand
    | UnauthorizedPermission

  type CtapError = s: CtapStatus | s != Success witness Other
}
