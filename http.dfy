/** The HTTP status codes the service uses, with the values of Go's net/http constants. */
module Http {

  const StatusOK := 200
  const StatusCreated := 201
  const StatusBadRequest := 400
  const StatusNotFound := 404
  const StatusInternalServerError := 500
}
