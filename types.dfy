/** The records the client exchanges with the server. */
module Types {

  /** One timeline entry: a numeric id, its text and its creation timestamp as sent by the server. */
  datatype Message = Message(id: int, body: string, createdAt: string)

  /** The signed-in account. */
  datatype User = User(id: string, username: string)

  datatype Option<+T> = None | Some(value: T)
}
