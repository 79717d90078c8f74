/** The sentinel errors of the package (errors.go). They carry no behaviour of
    their own: callers only test which one was returned. */
module Errors {

  datatype ErrorKind =
    | NotFound      // a line, or a train's segment on its route, does not exist
    | WrongLine     // a train was routed with a line that is not its own
    | InvalidRoute  // the route a train turns onto at a terminus is empty
}
