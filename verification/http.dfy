/** What a handler answers: a status code and a JSON body. */
module Http {
  import opened Models

  /** Why `save()` rejects a document: a schema validator failed, or the
      unique email index already holds that email. */
  datatype SaveError = ValidationFailed | DuplicateKey

  /** The `user` object of a login reply; the server.js variant carries no id. */
  datatype LoginView = LoginView(id: Option<Id>, name: string, role: Role)

  /** The JSON bodies the handlers send. `SaveFailed` and `TypeErrorThrown`
      stand for `{message: err.message}` of a caught error. */
  datatype Body =
    | Message(text: string)
    | SaveFailed(error: SaveError)
    | TypeErrorThrown
    | LoginOk(token: string, user: LoginView)
    | Rated(text: string, averageRating: int)

  datatype Response = Response(status: nat, body: Body)

  /** `expiresIn: "1d"`, in seconds. */
  const OneDay: nat := 86400
}
