/** The error codes of lwip/include/lwip/err.h that the modelled operations return. */
module Errors {

  datatype Err = Ok | OutOfMemory | NoRoute | InProgress | BadValue | WouldBlock | Already | IsConnected | NotConnected | Aborted | Reset | Closed | BadArgument
}
