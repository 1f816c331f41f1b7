/** The gate in front of updateEvent and deleteEvent: only the event's
    poster or an admin may go on. */
module Authorization {
  import opened EventTypes
  import opened Documents

  const AdminRole: string := "admin"

  /** isPoster: the loaded event and the signed-in caller must both be
      present, and the caller must be the poster or have the admin role.
      Either one missing denies. */
  predicate IsPoster(event: Option<Event>, auth: Option<Auth>) {
    var sameUser := event.Some? && auth.Some? && event.value.postedBy == auth.value.id;
    var adminUser := event.Some? && auth.Some? && auth.value.role == AdminRole;
    sameUser || adminUser
  }

  /** The gate lets a request through exactly when the caller posted the
      event or is an admin; without an event or a caller it always denies. */
  lemma GateAdmitsPosterOrAdmin(e: Event, a: Auth)
    ensures IsPoster(Some(e), Some(a)) <==> a.id == e.postedBy || a.role == AdminRole
    ensures !IsPoster(None, Some(a)) && !IsPoster(Some(e), None)
  {
  }

  /** Likes and comments never change who may update or delete an event. */
  lemma EngagementKeepsGate(e: Event, a: Option<Auth>, userId: UserId, c: Comment, id: CommentId)
    ensures IsPoster(Some(LikeDoc(e, userId)), a) == IsPoster(Some(e), a)
    ensures IsPoster(Some(UnlikeDoc(e, userId)), a) == IsPoster(Some(e), a)
    ensures IsPoster(Some(CommentDoc(e, c, userId)), a) == IsPoster(Some(e), a)
    ensures IsPoster(Some(UncommentDoc(e, id)), a) == IsPoster(Some(e), a)
    ensures IsPoster(Some(EditCommentDoc(e, c)), a) == IsPoster(Some(e), a)
  {
  }

  /** The user a new event is created for passes the gate on it, whatever
      the form said about `postedBy`. */
  lemma CreatorPassesGate(id: EventId, fields: Fields, profile: UserId, upload: Option<Photo>, now: int, role: string)
    ensures IsPoster(Some(NewDoc(id, fields, profile, upload, now)), Some(Auth(profile, role)))
  {
  }

  /** Because the merge copies `postedBy`, a poster who submits another
      user's id hands the event over: the new owner passes the gate and
      the former one, unless an admin, no longer does. */
  lemma UpdateTransfersOwnership(e: Event, fields: Fields, upload: Option<Photo>, now: int, a: Auth, heir: Auth)
    requires IsPoster(Some(e), Some(a))
    requires fields.postedBy == Some(heir.id) && heir.id != a.id && a.role != AdminRole
    ensures IsPoster(Some(MergeFields(e, fields, upload, now)), Some(heir))
    ensures !IsPoster(Some(MergeFields(e, fields, upload, now)), Some(a))
  {
  }
}
