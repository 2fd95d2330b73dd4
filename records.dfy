/** The documents of the `users`, `sessions` and `notes` collections. */
module Records {

  /** Store-generated document identifiers (`_id`). */
  type UserId = nat
  type NoteId = nat

  /** Opaque bearer token carried in the `sessionId` cookie. */
  type SessionId = string

  /** Milliseconds since 1970-01-01T00:00:00Z. */
  type Timestamp = int

  datatype User = User(id: UserId, userName: string, passwordHash: string)

  datatype Session = Session(sessionId: SessionId, userId: UserId)

  datatype Note = Note(
    id: NoteId,
    userId: UserId,
    title: string,
    text: string,
    html: string,
    created: Timestamp,
    isArchived: bool)
}
