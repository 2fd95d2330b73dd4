/**
 * The `users`, `sessions` and `notes` collections and the helper functions
 * of the application that read and write them (`createUser`,
 * `findUserByUsername`, `findUserBySessionId`, `createSession`,
 * `deleteSesion`, `createNote`, `findNote`, `updateNote`, `deleteNote`,
 * `deleteNoteAll`).
 */
module Database {
  import opened Wrappers
  import opened Seqs
  import opened Records

  /** The keys the application looks documents up by. */
  function IdOfUser(u: User): UserId { u.id }
  function NameOfUser(u: User): string { u.userName }
  function IdOfSession(s: Session): SessionId { s.sessionId }
  function IdOfNote(n: Note): NoteId { n.id }

  /** The `$set` documents of the note routes: new content, or a new archive flag. */
  datatype Patch =
    | SetContent(title: string, text: string, html: string)
    | SetArchived(isArchived: bool)

  /** A note after `{ $set: patch }`: the fields named by the patch change, nothing else does. */
  function Patched(n: Note, patch: Patch): (r: Note)
    ensures r.id == n.id && r.userId == n.userId && r.created == n.created
    ensures patch.SetContent? ==>
              && r.title == patch.title && r.text == patch.text && r.html == patch.html
              && r.isArchived == n.isArchived
    ensures patch.SetArchived? ==>
              && r.isArchived == patch.isArchived
              && r.title == n.title && r.text == n.text && r.html == n.html
  {
    match patch
    case SetContent(title, text, html) => n.(title := title, text := text, html := html)
    case SetArchived(flag) => n.(isArchived := flag)
  }

  /**
   * The notes left by `deleteMany({ userId, isArchived: true })`: exactly the
   * archived notes of that user are gone; every other note keeps its
   * multiplicity and its place.
   */
  function WithoutArchivedOf(notes: seq<Note>, userId: UserId): (r: seq<Note>)
    ensures forall n :: multiset(r)[n] == if n.userId == userId && n.isArchived then 0 else multiset(notes)[n]
    ensures forall n :: n in r <==> n in notes && !(n.userId == userId && n.isArchived)
    ensures DistinctKeys(notes, IdOfNote) ==> DistinctKeys(r, IdOfNote)
  {
    var keep := (n: Note) => !(n.userId == userId && n.isArchived);
    FilterDistinct(notes, keep, IdOfNote);
    Filter(notes, keep)
  }

  class Db {
    var users: seq<User>
    var sessions: seq<Session>
    var notes: seq<Note>

    /** Store-generated `_id`s and `nanoid` session tokens never repeat. */
    ghost predicate Valid()
      reads this
    {
      && DistinctKeys(users, IdOfUser)
      && DistinctKeys(sessions, IdOfSession)
      && DistinctKeys(notes, IdOfNote)
    }

    constructor ()
      ensures Valid()
      ensures users == [] && sessions == [] && notes == []
    {
      users, sessions, notes := [], [], [];
    }

    ghost predicate HasUser(id: UserId)
      reads this
    {
      exists u :: u in users && u.id == id
    }

    ghost predicate HasSession(sessionId: SessionId)
      reads this
    {
      exists s :: s in sessions && s.sessionId == sessionId
    }

    ghost predicate HasNote(id: NoteId)
      reads this
    {
      exists n :: n in notes && n.id == id
    }

    /** `findUserByUsername`: the first user registered under that name. */
    function FindUserByUsername(userName: string): (r: Option<User>)
      reads this
      ensures r.Some? ==> r.value in users && r.value.userName == userName
      ensures r.None? <==> forall u :: u in users ==> u.userName != userName
    {
      match FindFirst(users, NameOfUser, userName)
      case Some(i) => Some(users[i])
      case None => None
    }

    /** `users.findOne({ _id: id })`. */
    function FindUserById(id: UserId): (r: Option<User>)
      reads this
      ensures r.Some? ==> r.value in users && r.value.id == id
      ensures r.None? <==> !HasUser(id)
      ensures DistinctKeys(users, IdOfUser) ==> forall u :: u in users && u.id == id ==> r == Some(u)
    {
      match FindFirst(users, IdOfUser, id)
      case Some(i) => Some(users[i])
      case None => None
    }

    /**
     * `findUserBySessionId`: the user the session points at; no user when
     * the token is unknown or the session's user no longer exists.
     */
    function FindUserBySessionId(sessionId: SessionId): (r: Option<User>)
      reads this
      requires Valid()
      ensures r.Some? <==> exists s :: s in sessions && s.sessionId == sessionId && HasUser(s.userId)
      ensures r.Some? ==> r.value in users && Session(sessionId, r.value.id) in sessions
    {
      match FindFirst(sessions, IdOfSession, sessionId)
      case None => None
      case Some(i) => FindUserById(sessions[i].userId)
    }

    /** Position of the note with that `_id`. */
    function NoteIndex(id: NoteId): (r: Option<nat>)
      reads this
      ensures r.Some? ==> r.value < |notes| && notes[r.value].id == id
      ensures r.None? <==> !HasNote(id)
    {
      FindFirst(notes, IdOfNote, id)
    }

    /** `findNote` / `findNoteCustomId`: `notes.findOne({ _id: id })`, whoever owns it. */
    function FindNote(id: NoteId): (r: Option<Note>)
      reads this
      ensures r.Some? ==> r.value in notes && r.value.id == id
      ensures r.None? <==> !HasNote(id)
    {
      match NoteIndex(id)
      case Some(i) => Some(notes[i])
      case None => None
    }

    /** `createUser`: store the user name with `hash(password)` under a fresh `_id`. */
    method CreateUser(userName: string, password: string, hash: string -> string, newId: UserId)
      returns (insertedId: UserId)
      requires Valid() && !HasUser(newId)
      modifies this
      ensures Valid()
      ensures insertedId == newId
      ensures users == old(users) + [User(newId, userName, hash(password))]
      ensures sessions == old(sessions) && notes == old(notes)
      ensures FindUserById(newId) == Some(User(newId, userName, hash(password)))
    {
      users := users + [User(newId, userName, hash(password))];
      insertedId := newId;
    }

    /** `createSession`: record a fresh token for the user and hand it back. */
    method CreateSession(userId: UserId, freshId: SessionId) returns (sessionId: SessionId)
      requires Valid() && !HasSession(freshId)
      modifies this
      ensures Valid()
      ensures sessionId == freshId
      ensures sessions == old(sessions) + [Session(freshId, userId)]
      ensures users == old(users) && notes == old(notes)
      ensures FindUserBySessionId(sessionId) == FindUserById(userId)
    {
      sessions := sessions + [Session(freshId, userId)];
      sessionId := freshId;
    }

    /** `deleteSesion`: `sessions.deleteOne({ sessionId })`; nothing happens for an unknown token. */
    method DeleteSession(sessionId: SessionId)
      requires Valid()
      modifies this
      ensures Valid()
      ensures sessions == RemoveFirst(old(sessions), IdOfSession, sessionId)
      ensures forall s :: s in sessions <==> s in old(sessions) && s.sessionId != sessionId
      ensures !old(HasSession(sessionId)) ==> sessions == old(sessions)
      ensures FindUserBySessionId(sessionId).None?
      ensures users == old(users) && notes == old(notes)
    {
      RemoveFirstDistinct(sessions, IdOfSession, sessionId);
      sessions := RemoveFirst(sessions, IdOfSession, sessionId);
    }

    /** `createNote`: `notes.insertOne(note)` under a fresh `_id`. */
    method InsertNote(note: Note) returns (insertedId: NoteId)
      requires Valid() && !HasNote(note.id)
      modifies this
      ensures Valid()
      ensures insertedId == note.id
      ensures notes == old(notes) + [note]
      ensures users == old(users) && sessions == old(sessions)
      ensures FindNote(insertedId) == Some(note)
    {
      notes := notes + [note];
      insertedId := note.id;
    }

    /**
     * `updateNote`: `notes.updateOne({ _id: id }, { $set: patch })`. The
     * modified count is 1 when a note has that `_id` and 0 otherwise.
     */
    method UpdateNote(id: NoteId, patch: Patch) returns (modifiedCount: nat)
      requires Valid()
      modifies this
      ensures Valid()
      ensures modifiedCount == if old(HasNote(id)) then 1 else 0
      ensures !old(HasNote(id)) ==> notes == old(notes)
      ensures old(HasNote(id)) ==>
                var i := old(NoteIndex(id)).value;
                notes == old(notes)[i := Patched(old(notes)[i], patch)]
      ensures FindNote(id) == if old(HasNote(id)) then Some(Patched(old(FindNote(id)).value, patch)) else None
      ensures users == old(users) && sessions == old(sessions)
    {
      match NoteIndex(id)
      case None =>
        modifiedCount := 0;
      case Some(i) =>
        var patched := Patched(notes[i], patch);
        notes := notes[i := patched];
        modifiedCount := 1;
        assert notes[i] == patched;
    }

    /** `deleteNote`: `notes.deleteOne({ _id: id })`; nothing happens for an unknown id. */
    method DeleteNote(id: NoteId)
      requires Valid()
      modifies this
      ensures Valid()
      ensures notes == RemoveFirst(old(notes), IdOfNote, id)
      ensures forall n :: n in notes <==> n in old(notes) && n.id != id
      ensures !HasNote(id)
      ensures users == old(users) && sessions == old(sessions)
    {
      RemoveFirstDistinct(notes, IdOfNote, id);
      notes := RemoveFirst(notes, IdOfNote, id);
    }

    /** `deleteNoteAll`: `notes.deleteMany({ userId, isArchived: true })`. */
    method DeleteNoteAll(userId: UserId)
      requires Valid()
      modifies this
      ensures Valid()
      ensures notes == WithoutArchivedOf(old(notes), userId)
      ensures users == old(users) && sessions == old(sessions)
    {
      notes := WithoutArchivedOf(notes, userId);
    }
  }
}
