/** What identifies one attempt of a request to the authority and to every provider. */
module Requests {
  datatype Identity = Identity(requester: string, requestId: string, attempt: nat)
}
