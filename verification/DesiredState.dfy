/** What the gateway wants a session to be. */
module DesiredState {
  datatype Desired = Running | Stopped
}
