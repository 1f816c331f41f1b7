/** The event collection and the controller's handlers that read and change
    it. Each `findByIdAndUpdate` is one atomic step on one document. */
module EventStore {
  import opened EventTypes
  import opened Documents
  import opened Authorization
  import opened Paging

  /** The documents named by `ids`, in that order. */
  function Collect(ids: seq<EventId>, m: map<EventId, Event>): (r: seq<Event>)
    requires forall id :: id in ids ==> id in m
    ensures |r| == |ids|
    ensures forall i :: 0 <= i < |ids| ==> r[i] == m[ids[i]]
  {
    if ids == [] then [] else [m[ids[0]]] + Collect(ids[1..], m)
  }

  class Store {
    /** The stored events by `_id`. */
    var events: map<EventId, Event>
    /** The collection's natural order: the ids in insertion order. */
    var order: seq<EventId>

    ghost predicate Valid()
      reads this
    {
      && (forall id :: multiset(order)[id] <= 1)
      && (forall id :: id in order <==> id in events)
      && (forall id :: id in events ==> events[id].id == id)
    }

    constructor ()
      ensures Valid() && events == map[] && order == []
    {
      events := map[];
      order := [];
    }

    /** `Event.find()`: every stored event once, in natural order. */
    function Collection(): (r: seq<Event>)
      reads this
      requires Valid()
      ensures |r| == |order|
      ensures forall i :: 0 <= i < |r| ==> r[i].id in events && events[r[i].id] == r[i]
      ensures forall id :: id in events ==> events[id] in r
    {
      var r := Collect(order, events);
      assert forall id :: id in events ==> events[id] in r by {
        forall id | id in events ensures events[id] in r {
          var i :| 0 <= i < |order| && order[i] == id;
          assert r[i] == events[id];
        }
      }
      r
    }

    /** eventById: a missing id ends the request with a 400 before any
        handler behind it runs. */
    function EventById(id: EventId): (r: Result<Event>)
      reads this
      ensures r.Ok? <==> id in events
      ensures r.Ok? ==> r.value == events[id]
      ensures r.Err? ==> r.failure == EventNotFound && r.failure.Status() == 400
    {
      if id in events then Ok(events[id]) else Err(EventNotFound)
    }

    /** getEvents: page `page` (default 1) of the collection, newest
        first, six per page. The total count it computes is never sent. */
    function GetEvents(page: Option<int>): (r: Option<seq<Event>>)
      reads this
      requires Valid()
      ensures r.Some? <==> page.None? || page.value >= 1
      ensures r.Some? ==> |r.value| <= PerPage && SortedByCreatedDesc(r.value)
      ensures r.Some? ==> forall i :: 0 <= i < |r.value| ==>
                r.value[i].id in events && events[r.value[i].id] == r.value[i]
    {
      PageOf(Collection(), page)
    }

    /** eventsByUser: the events whose `postedBy` is `user`. */
    function EventsByUser(user: UserId): (r: seq<Event>)
      reads this
      requires Valid()
      ensures forall e :: e in r ==> e.postedBy == user && e.id in events && events[e.id] == e
      ensures forall id :: id in events && events[id].postedBy == user ==> events[id] in r
    {
      FilterByPoster(Collection(), user)
    }

    /** createEvent: the new document is inserted at the end of the
        natural order unless the store refuses the save (`accepted` false:
        a schema validator failed) or the id is taken. */
    method CreateEvent(id: EventId, profile: UserId, fields: Fields, upload: Option<Photo>, now: int, accepted: bool)
      returns (r: Result<Event>)
      requires Valid()
      modifies this
      ensures Valid()
      ensures id in old(events) || !accepted ==>
                r == Err(SaveRejected) && events == old(events) && order == old(order)
      ensures id !in old(events) && accepted ==>
                r == Ok(NewDoc(id, fields, profile, upload, now)) &&
                events == old(events)[id := NewDoc(id, fields, profile, upload, now)] &&
                order == old(order) + [id]
    {
      if id in events || !accepted {
        return Err(SaveRejected);
      }
      var doc := NewDoc(id, fields, profile, upload, now);
      events := events[id := doc];
      order := order + [id];
      r := Ok(doc);
    }

    /** PUT /event/:eventId: eventById, then isPoster, then updateEvent.
        A refused request writes nothing. */
    method UpdateEvent(eventId: EventId, auth: Auth, fields: Fields, upload: Option<Photo>, now: int, accepted: bool)
      returns (r: Result<Event>)
      requires Valid()
      modifies this
      ensures Valid() && order == old(order)
      ensures eventId !in old(events) ==> r == Err(EventNotFound) && events == old(events)
      ensures eventId in old(events) && !IsPoster(Some(old(events)[eventId]), Some(auth)) ==>
                r == Err(NotAuthorized) && events == old(events)
      ensures eventId in old(events) && IsPoster(Some(old(events)[eventId]), Some(auth)) && !accepted ==>
                r == Err(SaveRejected) && events == old(events)
      ensures eventId in old(events) && IsPoster(Some(old(events)[eventId]), Some(auth)) && accepted ==>
                r == Ok(MergeFields(old(events)[eventId], fields, upload, now)) &&
                events == old(events)[eventId := MergeFields(old(events)[eventId], fields, upload, now)]
    {
      var loaded := EventById(eventId);
      if loaded.Err? {
        return Err(loaded.failure);
      }
      if !IsPoster(Some(loaded.value), Some(auth)) {
        return Err(NotAuthorized);
      }
      if !accepted {
        return Err(SaveRejected);
      }
      var doc := MergeFields(loaded.value, fields, upload, now);
      events := events[eventId := doc];
      r := Ok(doc);
    }

    /** DELETE /event/:eventId: eventById, then isPoster, then deleteEvent,
        which removes the document with its likes and comments. */
    method DeleteEvent(eventId: EventId, auth: Auth) returns (r: Result<EventId>)
      requires Valid()
      modifies this
      ensures Valid()
      ensures eventId !in old(events) ==> r == Err(EventNotFound) && events == old(events) && order == old(order)
      ensures eventId in old(events) && !IsPoster(Some(old(events)[eventId]), Some(auth)) ==>
                r == Err(NotAuthorized) && events == old(events) && order == old(order)
      ensures eventId in old(events) && IsPoster(Some(old(events)[eventId]), Some(auth)) ==>
                r == Ok(eventId) && events == old(events) - {eventId} && order == Pull(old(order), eventId)
    {
      var loaded := EventById(eventId);
      if loaded.Err? {
        return Err(loaded.failure);
      }
      if !IsPoster(Some(loaded.value), Some(auth)) {
        return Err(NotAuthorized);
      }
      events := events - {eventId};
      order := Pull(order, eventId);
      r := Ok(eventId);
    }

    /** like: `$push` of the user onto `likes`. The answer is the updated
        document, or null when no event has the id. */
    method Like(eventId: EventId, userId: UserId) returns (r: Option<Event>)
      requires Valid()
      modifies this
      ensures Valid() && order == old(order)
      ensures eventId !in old(events) ==> r == None && events == old(events)
      ensures eventId in old(events) ==>
                events == old(events)[eventId := LikeDoc(old(events)[eventId], userId)] &&
                r == Some(events[eventId])
    {
      if eventId !in events {
        return None;
      }
      events := events[eventId := LikeDoc(events[eventId], userId)];
      r := Some(events[eventId]);
    }

    /** unlike: `$pull` of the user from `likes`. */
    method Unlike(eventId: EventId, userId: UserId) returns (r: Option<Event>)
      requires Valid()
      modifies this
      ensures Valid() && order == old(order)
      ensures eventId !in old(events) ==> r == None && events == old(events)
      ensures eventId in old(events) ==>
                events == old(events)[eventId := UnlikeDoc(old(events)[eventId], userId)] &&
                r == Some(events[eventId])
    {
      if eventId !in events {
        return None;
      }
      events := events[eventId := UnlikeDoc(events[eventId], userId)];
      r := Some(events[eventId]);
    }

    /** `$push` of a comment as it is given. */
    method PushComment(eventId: EventId, c: Comment) returns (r: Option<Event>)
      requires Valid()
      modifies this
      ensures Valid() && order == old(order)
      ensures eventId !in old(events) ==> r == None && events == old(events)
      ensures eventId in old(events) ==>
                events == old(events)[eventId := PushCommentDoc(old(events)[eventId], c)] &&
                r == Some(events[eventId])
    {
      if eventId !in events {
        return None;
      }
      events := events[eventId := PushCommentDoc(events[eventId], c)];
      r := Some(events[eventId]);
    }

    /** comment: the comment's author becomes the request's `userId`, then
        it is pushed. */
    method AddComment(eventId: EventId, userId: UserId, c: Comment) returns (r: Option<Event>)
      requires Valid()
      modifies this
      ensures Valid() && order == old(order)
      ensures eventId !in old(events) ==> r == None && events == old(events)
      ensures eventId in old(events) ==>
                events == old(events)[eventId := CommentDoc(old(events)[eventId], c, userId)] &&
                r == Some(events[eventId])
    {
      r := PushComment(eventId, c.(postedBy := userId));
    }

    /** uncomment: `$pull` of the comments carrying the given `_id`. */
    method Uncomment(eventId: EventId, id: CommentId) returns (r: Option<Event>)
      requires Valid()
      modifies this
      ensures Valid() && order == old(order)
      ensures eventId !in old(events) ==> r == None && events == old(events)
      ensures eventId in old(events) ==>
                events == old(events)[eventId := UncommentDoc(old(events)[eventId], id)] &&
                r == Some(events[eventId])
    {
      if eventId !in events {
        return None;
      }
      events := events[eventId := UncommentDoc(events[eventId], id)];
      r := Some(events[eventId]);
    }

    /** updateComment: two writes, the pull by id and then the push of the
        submitted comment. The second write is sent only when the first
        reports no error; when the second fails, the first stays done and
        the comment is gone. */
    method UpdateComment(eventId: EventId, c: Comment, firstWriteFails: bool, secondWriteFails: bool)
      returns (r: Result<Option<Event>>)
      requires Valid()
      modifies this
      ensures Valid() && order == old(order)
      ensures eventId !in old(events) ==> events == old(events)
      ensures firstWriteFails ==> r == Err(WriteFailed) && events == old(events)
      ensures !firstWriteFails && secondWriteFails ==>
                r == Err(WriteFailed) &&
                (eventId in old(events) ==>
                   events == old(events)[eventId := UncommentDoc(old(events)[eventId], c.id)])
      ensures !firstWriteFails && !secondWriteFails ==>
                (eventId !in old(events) ==> r == Ok(None)) &&
                (eventId in old(events) ==>
                   events == old(events)[eventId := EditCommentDoc(old(events)[eventId], c)] &&
                   r == Ok(Some(events[eventId])))
    {
      if firstWriteFails {
        return Err(WriteFailed);
      }
      var _ := Uncomment(eventId, c.id);
      if secondWriteFails {
        return Err(WriteFailed);
      }
      var pushed := PushComment(eventId, c);
      r := Ok(pushed);
    }
  }

  /** A run of the handlers on an empty store: user u1 posts an event, u2
      likes it twice, u3 comments, and the comment is then edited. Both
      likes are kept and the edited comment is the only one. The model
      leaves `updated` untouched on the comment edit, so it stays as the
      creation left it. */
  method LikeCommentEditRun() returns (e: Event)
    ensures e.postedBy == "u1" && e.title == Some("A")
    ensures e.likes == ["u2", "u2"]
    ensures e.comments == [Comment("c1", "nicer", "u3")]
    ensures e.updated == None
  {
    var store := new Store();
    var fields := Fields(Some("A"), Some("b"), None, Some("u9"));
    var created := store.CreateEvent("e1", "u1", fields, None, 1000, true);
    var _ := store.Like("e1", "u2");
    var _ := store.Like("e1", "u2");
    var _ := store.AddComment("e1", "u3", Comment("c1", "nice", "u9"));
    var edited := store.UpdateComment("e1", Comment("c1", "nicer", "u3"), false, false);
    var loaded := store.EventById("e1");
    assert PullComment([Comment("c1", "nice", "u3")], "c1") == [];
    e := loaded.value;
  }
}
