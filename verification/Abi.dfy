/** Result codes and outcomes that cross the C ABI (hegel-c/include/hegel.h). */
module Abi {

  datatype ResultCode =
    | OK
    | NotComplete
    | AlreadyComplete
    | ConcurrentUse
    | InvalidArg
    | InvalidHandle
    | StopTest
    | Assume
    | Internal

  /** How a test case ended; a failure carries the origin it is grouped by. */
  datatype Outcome = Valid | Invalid | Overrun | Interesting(origin: string)
}
