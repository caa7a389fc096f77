/** Values shared by the three agents: the Option wrapper, the two JSON
    records they exchange, the HTTP status codes their handlers write and the
    fixed address of the directory service. */
module Common {

  datatype Option<+T> = None | Some(value: T) {

    /** The wrapped value, or `default` when there is none. */
    function GetOr(default: T): T {
      match this
      case Some(v) => v
      case None => default
    }
  }

  /** A registered agent: a directory entry (SLD name to transfer agent) or a
      transfer agent's record of one of its mailbox agents. */
  datatype Server = Server(name: string, address: string)

  /** A message as the mailbox agent stores it and the agents pass it on.
      `uuid` is the canonical text of the message's UUID. */
  datatype EMail = EMail(uuid: string, from: string, to: string, subject: string, body: string)

  const StatusOK := 200
  const StatusCreated := 201
  const StatusBadRequest := 400
  const StatusForbidden := 403
  const StatusNotFound := 404
  const StatusMethodNotAllowed := 405
  const StatusInternalServerError := 500

  predicate Is2xx(code: int) {
    200 <= code <= 299
  }

  predicate Is5xx(code: int) {
    500 <= code <= 599
  }

  /** The directory's base URL, hard-coded in both the mailbox and the
      transfer agent. */
  const DirectoryUrl := "http://192.168.1.3:8888/bluebook/"
}
