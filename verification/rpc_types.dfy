/** What travels on a GeeRPC connection, shared by the client and the server. */
module RpcTypes {
  /** Arguments and replies are opaque to the protocol. */
  type Value = string

  /** One RPC issued by a user of the client. */
  type CallId = nat

  /** codec.Header: an empty `error` means success. */
  datatype Header = Header(target: string, seqno: nat, error: string)

  /** What a service method returns: a reply, or a Go error with its text. */
  datatype Outcome = Ok(reply: Value) | Err(text: string)

  /** A server's registered methods, by full "Service.Method" name. */
  datatype Service = Service(known: set<string>, run: (string, Value) -> Outcome)
}
