/** The documents of the event collection and the values the event
    controller exchanges with its callers. */
module EventTypes {

  datatype Option<T> = None | Some(value: T) {
    /** The value, or `default` when absent (JavaScript's `x || default`). */
    function GetOr(default: T): T {
      if Some? then value else default
    }
  }

  /** Why a request ends without the normal answer. */
  datatype Failure =
    | EventNotFound   // eventById: the id names no stored event
    | NotAuthorized   // isPoster: the caller is neither the poster nor an admin
    | SaveRejected    // save refused by the store (schema validators, unique _id)
    | WriteFailed     // findByIdAndUpdate reported an error
  {
    /** The HTTP status the controller answers with. */
    function Status(): int {
      if NotAuthorized? then 403 else 400
    }
  }

  datatype Result<T> = Ok(value: T) | Err(failure: Failure)

  /** Identities are MongoDB object ids in their hexadecimal string form. */
  type UserId = string
  type EventId = string
  type CommentId = string

  /** The uploaded attachment: raw bytes and the declared content type. */
  datatype Photo = Photo(data: seq<bv8>, contentType: string)

  /** A comment embedded in an event; `id` is the subdocument's `_id`. */
  datatype Comment = Comment(id: CommentId, text: string, postedBy: UserId)

  /** One document of the event collection. Timestamps are milliseconds
      since the epoch. `likes` is an array, not a set: nothing keeps it
      free of duplicates. */
  datatype Event = Event(
    id: EventId,
    title: Option<string>,
    body: Option<string>,
    created: int,
    updated: Option<int>,
    postedBy: UserId,
    photo: Option<Photo>,
    likes: seq<UserId>,
    comments: seq<Comment>)

  /** The signed-in caller as the token decodes it (`req.auth`). */
  datatype Auth = Auth(id: UserId, role: string)

  /** The text fields of a submitted form. Every present field is copied
      onto the document; `postedBy` is one of them. */
  datatype Fields = Fields(
    title: Option<string>,
    body: Option<string>,
    created: Option<int>,
    postedBy: Option<UserId>)

  /** Only the authorization gate answers 403; every other failure is 400. */
  lemma OnlyTheGateAnswersForbidden(f: Failure)
    ensures f.Status() == 403 <==> f == NotAuthorized
    ensures f.Status() != 403 ==> f.Status() == 400
  {
  }
}
