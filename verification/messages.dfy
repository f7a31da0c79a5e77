/**
 * The user-facing message constants, kept symbolic: the model records which
 * message is produced, not its text.
 */
module Messages {

  /** The usage texts a command can embed in an error. */
  datatype Usage = HelpUsage | DeletePolicyUsage
}
