/** The error type of sdb's command framework. */
module CommandErrors {

  /** The error a command raises: the command's name and a readable cause. */
  datatype CommandError = CommandError(command: string, message: string)
}
