/** The effect of each update the event controller sends to the store, as a
    function from the stored document to the new one. MongoDB's `$push`
    appends one element to an array; `$pull` removes every element that
    matches and keeps the others in order. */
module Documents {
  import opened EventTypes

  /** `$pull: { field: x }`: drop every element equal to `x`. */
  function Pull<T(==,!new)>(s: seq<T>, x: T): (r: seq<T>)
    ensures forall y :: y in r <==> y in s && y != x
    ensures multiset(r) == multiset(s)[x := 0]
  {
    if s == [] then []
    else
      assert s == [s[0]] + s[1..];
      if s[0] == x then Pull(s[1..], x) else [s[0]] + Pull(s[1..], x)
  }

  /** `$pull` keeps the relative order: it works element by element. */
  lemma {:induction false} PullAppend<T(!new)>(s: seq<T>, t: seq<T>, x: T)
    ensures Pull(s + t, x) == Pull(s, x) + Pull(t, x)
  {
    if s == [] {
      assert s + t == t;
    } else {
      assert (s + t)[1..] == s[1..] + t;
      PullAppend(s[1..], t, x);
    }
  }

  /** `$pull` of a value that is not there changes nothing. */
  lemma {:induction false} PullAbsent<T(!new)>(s: seq<T>, x: T)
    requires x !in s
    ensures Pull(s, x) == s
  {
    if s != [] {
      PullAbsent(s[1..], x);
    }
  }

  /** No comment of `cs` carries the id `id`. */
  predicate NoComment(cs: seq<Comment>, id: CommentId) {
    forall i :: 0 <= i < |cs| ==> cs[i].id != id
  }

  /** `$pull: { comments: { _id: id } }`: drop every comment with that id. */
  function PullComment(cs: seq<Comment>, id: CommentId): (r: seq<Comment>)
    ensures NoComment(r, id)
    ensures forall c :: multiset(r)[c] == if c.id == id then 0 else multiset(cs)[c]
  {
    if cs == [] then []
    else
      assert cs == [cs[0]] + cs[1..];
      if cs[0].id == id then PullComment(cs[1..], id)
      else [cs[0]] + PullComment(cs[1..], id)
  }

  lemma {:induction false} PullCommentAppend(s: seq<Comment>, t: seq<Comment>, id: CommentId)
    ensures PullComment(s + t, id) == PullComment(s, id) + PullComment(t, id)
  {
    if s == [] {
      assert s + t == t;
    } else {
      assert (s + t)[1..] == s[1..] + t;
      PullCommentAppend(s[1..], t, id);
    }
  }

  lemma {:induction false} PullCommentAbsent(cs: seq<Comment>, id: CommentId)
    requires NoComment(cs, id)
    ensures PullComment(cs, id) == cs
  {
    if cs != [] {
      PullCommentAbsent(cs[1..], id);
    }
  }

  /** The first comment with the given id: what a reader looking the
      comment up by id sees. */
  function FindComment(cs: seq<Comment>, id: CommentId): (r: Option<Comment>)
    ensures r.None? <==> NoComment(cs, id)
    ensures r.Some? ==> r.value in cs && r.value.id == id
  {
    if cs == [] then None
    else if cs[0].id == id then Some(cs[0])
    else FindComment(cs[1..], id)
  }

  lemma {:induction false} FindAppended(cs: seq<Comment>, c: Comment)
    requires NoComment(cs, c.id)
    ensures FindComment(cs + [c], c.id) == Some(c)
  {
    if cs != [] {
      assert (cs + [c])[1..] == cs[1..] + [c];
      FindAppended(cs[1..], c);
    }
  }

  // ---------------------------------------------------------------------
  // The update each handler sends.

  /** like: `$push: { likes: userId }`. */
  function LikeDoc(e: Event, userId: UserId): Event {
    e.(likes := e.likes + [userId])
  }

  /** unlike: `$pull: { likes: userId }`. */
  function UnlikeDoc(e: Event, userId: UserId): Event {
    e.(likes := Pull(e.likes, userId))
  }

  /** `$push: { comments: c }`, the comment stored as submitted. */
  function PushCommentDoc(e: Event, c: Comment): Event {
    e.(comments := e.comments + [c])
  }

  /** comment: the submitted comment's `postedBy` is replaced by the
      request's `userId`, then the comment is pushed. */
  function CommentDoc(e: Event, c: Comment, userId: UserId): Event {
    PushCommentDoc(e, c.(postedBy := userId))
  }

  /** uncomment: `$pull: { comments: { _id: id } }`. */
  function UncommentDoc(e: Event, id: CommentId): Event {
    e.(comments := PullComment(e.comments, id))
  }

  /** updateComment when both of its writes succeed: the pull by id, then
      the push of the submitted comment as it is. */
  function EditCommentDoc(e: Event, c: Comment): Event {
    PushCommentDoc(UncommentDoc(e, c.id), c)
  }

  /** createEvent: the form fields, then `postedBy` set to the profile
      named by the request, then the photo when one was uploaded. */
  function NewDoc(id: EventId, fields: Fields, profile: UserId, upload: Option<Photo>, now: int): Event {
    Event(id, fields.title, fields.body, fields.created.GetOr(now), None,
          profile, upload, [], [])
  }

  /** updateEvent: every submitted field copied over the loaded document
      (postedBy included), `updated` set to the clock, the photo replaced
      only by an upload. */
  function MergeFields(e: Event, fields: Fields, upload: Option<Photo>, now: int): Event {
    e.(title := if fields.title.Some? then fields.title else e.title,
       body := if fields.body.Some? then fields.body else e.body,
       created := fields.created.GetOr(e.created),
       postedBy := fields.postedBy.GetOr(e.postedBy),
       updated := Some(now),
       photo := if upload.Some? then upload else e.photo)
  }

  // ---------------------------------------------------------------------
  // Likes.

  /** A like adds one more copy of the user at the end, even when the user
      has already liked: liking twice stores the id twice. */
  lemma LikeAppendsCopy(e: Event, userId: UserId)
    ensures |LikeDoc(e, userId).likes| == |e.likes| + 1
    ensures LikeDoc(e, userId).likes[|e.likes|] == userId
    ensures LikeDoc(e, userId).likes[..|e.likes|] == e.likes
    ensures multiset(LikeDoc(LikeDoc(e, userId), userId).likes)[userId] == multiset(e.likes)[userId] + 2
    ensures LikeDoc(e, userId).comments == e.comments
  {
  }

  /** Unlike removes every copy of the user, keeps every other id with its
      multiplicity, and is a no-op when the user is absent. */
  lemma {:induction false} UnlikeRemovesEveryCopy(e: Event, userId: UserId)
    ensures userId !in UnlikeDoc(e, userId).likes
    ensures forall v :: v != userId ==> multiset(UnlikeDoc(e, userId).likes)[v] == multiset(e.likes)[v]
    ensures userId !in e.likes ==> UnlikeDoc(e, userId) == e
    ensures UnlikeDoc(e, userId).comments == e.comments
  {
    if userId !in e.likes {
      PullAbsent(e.likes, userId);
    }
  }

  /** Unlike keeps the remaining likes in their order: pulling from a
      split list is pulling from each part. */
  lemma {:induction false} UnlikeKeepsOrder(e: Event, userId: UserId, k: nat)
    requires k <= |e.likes|
    ensures UnlikeDoc(e, userId).likes == Pull(e.likes[..k], userId) + Pull(e.likes[k..], userId)
  {
    assert e.likes == e.likes[..k] + e.likes[k..];
    PullAppend(e.likes[..k], e.likes[k..], userId);
  }

  /** Liking and then unliking by a user not already among the likers
      restores the event. */
  lemma {:induction false} UnlikeUndoesLike(e: Event, userId: UserId)
    requires userId !in e.likes
    ensures UnlikeDoc(LikeDoc(e, userId), userId) == e
  {
    assert Pull([userId], userId) == [] by {
      assert [userId][1..] == [];
    }
    PullAppend(e.likes, [userId], userId);
    PullAbsent(e.likes, userId);
  }

  /** One unlike undoes any number of likes: after two likes the pull
      leaves what a pull of the original list leaves. */
  lemma {:induction false} UnlikeUndoesDoubleLike(e: Event, userId: UserId)
    ensures UnlikeDoc(LikeDoc(LikeDoc(e, userId), userId), userId) == UnlikeDoc(e, userId)
  {
    var once := e.likes + [userId];
    assert Pull([userId], userId) == [] by {
      assert [userId][1..] == [];
    }
    PullAppend(e.likes, [userId], userId);
    assert Pull(once, userId) == Pull(e.likes, userId);
    PullAppend(once, [userId], userId);
    assert LikeDoc(LikeDoc(e, userId), userId).likes == once + [userId];
  }

  lemma {:induction false} UnlikeIdempotent(e: Event, userId: UserId)
    ensures UnlikeDoc(UnlikeDoc(e, userId), userId) == UnlikeDoc(e, userId)
  {
    PullAbsent(Pull(e.likes, userId), userId);
  }

  // ---------------------------------------------------------------------
  // Comments.

  /** comment appends exactly one comment, at the end, attributed to the
      request's user whatever `postedBy` it was submitted with; earlier
      comments and the likes are kept. When no earlier comment carries its
      id, a lookup by that id finds it. */
  lemma {:induction false} CommentAttributedToCaller(e: Event, c: Comment, userId: UserId)
    ensures var r := CommentDoc(e, c, userId).comments;
      |r| == |e.comments| + 1 && r[|e.comments|] == Comment(c.id, c.text, userId) &&
      r[..|e.comments|] == e.comments
    ensures CommentDoc(e, c, userId).likes == e.likes
    ensures NoComment(e.comments, c.id) ==>
      FindComment(CommentDoc(e, c, userId).comments, c.id) == Some(Comment(c.id, c.text, userId))
  {
    if NoComment(e.comments, c.id) {
      FindAppended(e.comments, c.(postedBy := userId));
    }
  }

  /** Adding a comment with a fresh id and removing it by that id restores
      the event. */
  lemma {:induction false} UncommentUndoesComment(e: Event, c: Comment, userId: UserId)
    requires NoComment(e.comments, c.id)
    ensures UncommentDoc(CommentDoc(e, c, userId), c.id) == e
  {
    var added := c.(postedBy := userId);
    PullCommentAppend(e.comments, [added], c.id);
    PullCommentAbsent(e.comments, c.id);
    assert PullComment([added], c.id) == [];
  }

  /** Uncomment leaves no comment with the id, keeps every other comment
      with its multiplicity and order, and is a no-op without a match. */
  lemma {:induction false} UncommentRemovesMatches(e: Event, id: CommentId, k: nat)
    requires k <= |e.comments|
    ensures NoComment(UncommentDoc(e, id).comments, id)
    ensures forall c: Comment :: c.id != id ==> multiset(UncommentDoc(e, id).comments)[c] == multiset(e.comments)[c]
    ensures UncommentDoc(e, id).comments == PullComment(e.comments[..k], id) + PullComment(e.comments[k..], id)
    ensures NoComment(e.comments, id) ==> UncommentDoc(e, id) == e
    ensures UncommentDoc(e, id).likes == e.likes
  {
    assert e.comments == e.comments[..k] + e.comments[k..];
    PullCommentAppend(e.comments[..k], e.comments[k..], id);
    if NoComment(e.comments, id) {
      PullCommentAbsent(e.comments, id);
    }
  }

  /** After an edit the comment is the last one, it is the only one with
      its id, and a lookup by that id returns the submitted comment. */
  lemma {:induction false} EditedCommentIsLastAndUnique(e: Event, c: Comment)
    ensures var r := EditCommentDoc(e, c).comments;
      |r| > 0 && r[|r| - 1] == c &&
      (forall i :: 0 <= i < |r| - 1 ==> r[i].id != c.id) &&
      FindComment(r, c.id) == Some(c)
    ensures EditCommentDoc(e, c).likes == e.likes
  {
    FindAppended(PullComment(e.comments, c.id), c);
  }

  /** Editing an id that no comment carries appends the comment: there is
      no not-found case. */
  lemma {:induction false} EditUnknownIdAppends(e: Event, c: Comment)
    requires NoComment(e.comments, c.id)
    ensures EditCommentDoc(e, c) == PushCommentDoc(e, c)
  {
    PullCommentAbsent(e.comments, c.id);
  }

  /** Pulling the one comment that carries an id out of the middle of a
      list joins the parts around it. */
  lemma {:induction false} PullCommentBetween(p: seq<Comment>, m: Comment, q: seq<Comment>)
    requires NoComment(p, m.id) && NoComment(q, m.id)
    ensures PullComment(p + [m] + q, m.id) == p + q
  {
    assert PullComment([m], m.id) == [] by {
      assert [m][1..] == [];
    }
    PullCommentAppend(p, [m], m.id);
    PullCommentAbsent(p, m.id);
    assert PullComment(p + [m], m.id) == p;
    PullCommentAppend(p + [m], q, m.id);
    PullCommentAbsent(q, m.id);
  }

  /** Editing the comment at position `k`, the only one with its id, moves
      it to the end; the others keep their order. */
  lemma {:induction false} EditMovesToEnd(e: Event, c: Comment, k: nat)
    requires k < |e.comments| && e.comments[k].id == c.id
    requires forall i :: 0 <= i < |e.comments| && i != k ==> e.comments[i].id != c.id
    ensures EditCommentDoc(e, c).comments == e.comments[..k] + e.comments[k + 1..] + [c]
  {
    var cs := e.comments;
    var p, q := cs[..k], cs[k + 1..];
    assert cs == p + [cs[k]] + q;
    assert NoComment(q, c.id) by {
      forall i | 0 <= i < |q| ensures q[i].id != c.id {
        assert q[i] == cs[k + 1 + i];
      }
    }
    PullCommentBetween(p, cs[k], q);
  }

  // ---------------------------------------------------------------------
  // Creation and field merge.

  /** The fields a document shares with every engagement update. */
  predicate SameHeader(a: Event, b: Event) {
    a.id == b.id && a.title == b.title && a.body == b.body &&
    a.created == b.created && a.updated == b.updated &&
    a.postedBy == b.postedBy && a.photo == b.photo
  }

  /** Likes and comments never touch the document's other fields. */
  lemma EngagementKeepsHeader(e: Event, userId: UserId, c: Comment, id: CommentId)
    ensures SameHeader(LikeDoc(e, userId), e) && SameHeader(UnlikeDoc(e, userId), e)
    ensures SameHeader(CommentDoc(e, c, userId), e) && SameHeader(UncommentDoc(e, id), e)
    ensures SameHeader(EditCommentDoc(e, c), e)
  {
  }

  /** A new event belongs to the profile of the request: a `postedBy` in
      the form has no effect, because it is overwritten after the copy. */
  lemma CreatorIsOwner(id: EventId, fields: Fields, profile: UserId, upload: Option<Photo>, now: int)
    ensures NewDoc(id, fields, profile, upload, now).postedBy == profile
    ensures NewDoc(id, fields, profile, upload, now) == NewDoc(id, fields.(postedBy := None), profile, upload, now)
    ensures NewDoc(id, fields, profile, upload, now).likes == [] && NewDoc(id, fields, profile, upload, now).comments == []
    ensures NewDoc(id, fields, profile, upload, now).updated.None?
  {
  }

  /** The merge has no allow-list: every submitted field, `postedBy`
      included, replaces the stored one. Absent fields keep their values,
      the engagement arrays are untouched, `updated` is the clock, and the
      photo is replaced exactly when one is uploaded. */
  lemma MergeOverwritesSubmittedFields(e: Event, fields: Fields, upload: Option<Photo>, now: int)
    ensures var r := MergeFields(e, fields, upload, now);
      (fields.postedBy.Some? ==> r.postedBy == fields.postedBy.value) &&
      (fields.postedBy.None? ==> r.postedBy == e.postedBy) &&
      (fields.title.Some? ==> r.title == fields.title) &&
      (fields.title.None? ==> r.title == e.title) &&
      (fields.body.Some? ==> r.body == fields.body) &&
      (fields.body.None? ==> r.body == e.body) &&
      (fields.created.Some? ==> r.created == fields.created.value) &&
      (fields.created.None? ==> r.created == e.created) &&
      (upload.Some? ==> r.photo == upload) &&
      (upload.None? ==> r.photo == e.photo) &&
      r.updated == Some(now) && r.id == e.id &&
      r.likes == e.likes && r.comments == e.comments
  {
  }

  /** Submitting the same form again at the same instant changes nothing
      more. */
  lemma MergeIdempotent(e: Event, fields: Fields, upload: Option<Photo>, now: int)
    ensures MergeFields(MergeFields(e, fields, upload, now), fields, upload, now) == MergeFields(e, fields, upload, now)
  {
  }
}
