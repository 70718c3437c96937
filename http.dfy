/** The part of an HTTP reply that the handlers decide: its status code and its body. */
module Http {

  const StatusOK := 200
  const StatusCreated := 201
  const StatusBadRequest := 400
  const StatusForbidden := 403
  const StatusInternalServerError := 500

  datatype Response = Response(status: int, body: string)

  /** Go's `http.Error`: the status with the message and a line break as the body. */
  function HttpError(status: int, message: string): Response
  {
    Response(status, message + "\n")
  }
}
