/** Likes and comments of the layered service. A like is a (user, promo) pair of
    `user_liked_promos` and a comment a row of `comments`; each promo keeps a
    `like_count` and a `comment_count` beside them. The invariant the handlers are
    meant to keep is that each counter equals the number of rows it counts. */
module Social {
  import opened Base
  import opened Store
  import opened Schemas

  /** The three tables these handlers touch. */
  datatype Tables = Tables(promos: map<Uuid, PromoRow>, likes: set<(Uuid, Uuid)>, comments: map<Uuid, CommentRow>)

  /** The users who like the promo. */
  function Likers(likes: set<(Uuid, Uuid)>, promoId: Uuid): set<Uuid>
  {
    set q | q in likes && q.1 == promoId :: q.0
  }

  /** The ids of the comments on the promo. */
  function CommentsOn(comments: map<Uuid, CommentRow>, promoId: Uuid): set<Uuid>
  {
    set c | c in comments && comments[c].promoId == promoId
  }

  /** Every like and every comment refers to a promo of the table. */
  predicate Referenced(s: Tables)
  {
    (forall q :: q in s.likes ==> q.1 in s.promos) &&
    (forall c :: c in s.comments ==> s.comments[c].promoId in s.promos)
  }

  /** Each promo's counters equal the number of its likes and comments. */
  predicate Counted(s: Tables)
  {
    forall p :: p in s.promos ==>
      s.promos[p].likeCount == |Likers(s.likes, p)| &&
      s.promos[p].commentCount == |CommentsOn(s.comments, p)|
  }

  predicate Consistent(s: Tables)
  {
    Referenced(s) && Counted(s)
  }

  function WithLikeCount(s: Tables, promoId: Uuid, n: int): map<Uuid, PromoRow>
    requires promoId in s.promos
  {
    s.promos[promoId := s.promos[promoId].(likeCount := n)]
  }

  function WithCommentCount(s: Tables, promoId: Uuid, n: int): map<Uuid, PromoRow>
    requires promoId in s.promos
  {
    s.promos[promoId := s.promos[promoId].(commentCount := n)]
  }

  // ---------------------------------------------------------------------------------
  // The transitions: `Err` carries the status of a refusal, which changes nothing

  /** `like_promo`: 404 for an unknown promo; an existing like changes nothing; a new
      one adds the pair and one to `like_count`. */
  function Like(s: Tables, user: Uuid, promoId: Uuid): Result<Tables>
  {
    if promoId !in s.promos then Err(NotFound)
    else if (user, promoId) in s.likes then Ok(s)
    else Ok(Tables(WithLikeCount(s, promoId, s.promos[promoId].likeCount + 1), s.likes + {(user, promoId)}, s.comments))
  }

  /** `unlike_promo`: 404 for an unknown promo; no like changes nothing; otherwise the
      pair goes and `like_count` drops by one, but not below 0. */
  function Unlike(s: Tables, user: Uuid, promoId: Uuid): Result<Tables>
  {
    if promoId !in s.promos then Err(NotFound)
    else if (user, promoId) !in s.likes then Ok(s)
    else Ok(Tables(WithLikeCount(s, promoId, Max(0, s.promos[promoId].likeCount - 1)), s.likes - {(user, promoId)}, s.comments))
  }

  function Max(a: int, b: int): int
  {
    if a >= b then a else b
  }

  /** `create_comment`: 400 (validation) for a text outside 10..1000 characters, 404 for an unknown
      promo; otherwise the comment is stored under the id the database hands out and
      `comment_count` grows by one. */
  function AddComment(s: Tables, user: Uuid, promoId: Uuid, commentId: Uuid, text: string, now: Instant): Result<Tables>
  {
    if !ValidCommentText(text) then Err(InvalidRequest)
    else if promoId !in s.promos then Err(NotFound)
    else if commentId in s.comments then Err(ServerError)
    else Ok(Tables(WithCommentCount(s, promoId, s.promos[promoId].commentCount + 1), s.likes,
                   s.comments[commentId := CommentRow(promoId, user, text, now)]))
  }

  /** The checks shared by editing and deleting: 404 for an unknown promo, 404 for a
      comment that is not one of this promo's, 403 for a comment of another author. */
  function OwnComment(s: Tables, user: Uuid, promoId: Uuid, commentId: Uuid): (r: Result<CommentRow>)
    ensures r.Ok? <==> promoId in s.promos && commentId in s.comments &&
                       s.comments[commentId].promoId == promoId && s.comments[commentId].authorId == user
    ensures r.Ok? ==> r.value == s.comments[commentId]
    ensures r.Err? ==> (r.error == Forbidden <==> promoId in s.promos && commentId in s.comments &&
                                                  s.comments[commentId].promoId == promoId)
    ensures r.Err? ==> r.error in {NotFound, Forbidden}
  {
    if promoId !in s.promos then Err(NotFound)
    else if commentId !in s.comments || s.comments[commentId].promoId != promoId then Err(NotFound)
    else if s.comments[commentId].authorId != user then Err(Forbidden)
    else Ok(s.comments[commentId])
  }

  /** `edit_comment`: after the validation (400) and the ownership checks only the text changes. */
  function EditComment(s: Tables, user: Uuid, promoId: Uuid, commentId: Uuid, text: string): Result<Tables>
  {
    if !ValidCommentText(text) then Err(InvalidRequest)
    else
      var c := OwnComment(s, user, promoId, commentId);
      if c.Err? then Err(c.error)
      else Ok(s.(comments := s.comments[commentId := c.value.(text := text)]))
  }

  /** `delete_comment` of the service: after the ownership checks the comment goes
      and `comment_count` drops by one, but not below 0. */
  function DeleteComment(s: Tables, user: Uuid, promoId: Uuid, commentId: Uuid): Result<Tables>
  {
    var c := OwnComment(s, user, promoId, commentId);
    if c.Err? then Err(c.error)
    else Ok(Tables(WithCommentCount(s, promoId, Max(0, s.promos[promoId].commentCount - 1)), s.likes,
                   s.comments - {commentId}))
  }

  /** `delete_comment` of the router: the same, with no floor on the counter. */
  function DeleteCommentRouter(s: Tables, user: Uuid, promoId: Uuid, commentId: Uuid): Result<Tables>
  {
    var c := OwnComment(s, user, promoId, commentId);
    if c.Err? then Err(c.error)
    else Ok(Tables(WithCommentCount(s, promoId, s.promos[promoId].commentCount - 1), s.likes,
                   s.comments - {commentId}))
  }

  // ---------------------------------------------------------------------------------
  // The handlers, on the database

  method LikePromo(db: Db, user: Uuid, promoId: Uuid) returns (r: Result<()>)
    modifies db`promos, db`likes
    ensures var t := Like(Tables(old(db.promos), old(db.likes), db.comments), user, promoId);
            (t.Err? ==> r == Err(t.error) && db.promos == old(db.promos) && db.likes == old(db.likes)) &&
            (t.Ok? ==> r == Ok(()) && Tables(db.promos, db.likes, db.comments) == t.value)
  {
    if promoId !in db.promos {
      return Err(NotFound);
    }
    if (user, promoId) in db.likes {
      return Ok(());
    }
    db.likes := db.likes + {(user, promoId)};
    var promo := db.promos[promoId];
    db.promos := db.promos[promoId := promo.(likeCount := promo.likeCount + 1)];
    r := Ok(());
  }

  method UnlikePromo(db: Db, user: Uuid, promoId: Uuid) returns (r: Result<()>)
    modifies db`promos, db`likes
    ensures var t := Unlike(Tables(old(db.promos), old(db.likes), db.comments), user, promoId);
            (t.Err? ==> r == Err(t.error) && db.promos == old(db.promos) && db.likes == old(db.likes)) &&
            (t.Ok? ==> r == Ok(()) && Tables(db.promos, db.likes, db.comments) == t.value)
  {
    if promoId !in db.promos {
      return Err(NotFound);
    }
    if (user, promoId) !in db.likes {
      return Ok(());
    }
    db.likes := db.likes - {(user, promoId)};
    var promo := db.promos[promoId];
    db.promos := db.promos[promoId := promo.(likeCount := Max(0, promo.likeCount - 1))];
    r := Ok(());
  }

  /** The new comment's id is whatever the database generates, passed in. */
  method CreateComment(db: Db, user: Uuid, promoId: Uuid, commentId: Uuid, text: string, now: Instant)
    returns (r: Result<CommentRow>)
    modifies db`promos, db`comments
    ensures var t := AddComment(Tables(old(db.promos), db.likes, old(db.comments)), user, promoId, commentId, text, now);
            (t.Err? ==> r == Err(t.error) && db.promos == old(db.promos) && db.comments == old(db.comments)) &&
            (t.Ok? ==> r == Ok(CommentRow(promoId, user, text, now)) &&
                       Tables(db.promos, db.likes, db.comments) == t.value)
  {
    if !ValidCommentText(text) {
      return Err(InvalidRequest);
    }
    if promoId !in db.promos {
      return Err(NotFound);
    }
    if commentId in db.comments {
      return Err(ServerError);
    }
    var comment := CommentRow(promoId, user, text, now);
    db.comments := db.comments[commentId := comment];
    var promo := db.promos[promoId];
    db.promos := db.promos[promoId := promo.(commentCount := promo.commentCount + 1)];
    r := Ok(comment);
  }

  method EditCommentText(db: Db, user: Uuid, promoId: Uuid, commentId: Uuid, text: string)
    returns (r: Result<CommentRow>)
    modifies db`comments
    ensures var t := EditComment(Tables(db.promos, db.likes, old(db.comments)), user, promoId, commentId, text);
            (t.Err? ==> r == Err(t.error) && db.comments == old(db.comments)) &&
            (t.Ok? ==> r.Ok? && r.value == t.value.comments[commentId] &&
                       Tables(db.promos, db.likes, db.comments) == t.value)
  {
    if !ValidCommentText(text) {
      return Err(InvalidRequest);
    }
    var c := OwnComment(Tables(db.promos, db.likes, db.comments), user, promoId, commentId);
    if c.Err? {
      return Err(c.error);
    }
    var comment := c.value.(text := text);
    db.comments := db.comments[commentId := comment];
    r := Ok(comment);
  }

  method RemoveComment(db: Db, user: Uuid, promoId: Uuid, commentId: Uuid) returns (r: Result<()>)
    modifies db`promos, db`comments
    ensures var t := DeleteComment(Tables(old(db.promos), db.likes, old(db.comments)), user, promoId, commentId);
            (t.Err? ==> r == Err(t.error) && db.promos == old(db.promos) && db.comments == old(db.comments)) &&
            (t.Ok? ==> r == Ok(()) && Tables(db.promos, db.likes, db.comments) == t.value)
  {
    var c := OwnComment(Tables(db.promos, db.likes, db.comments), user, promoId, commentId);
    if c.Err? {
      return Err(c.error);
    }
    db.comments := db.comments - {commentId};
    var promo := db.promos[promoId];
    db.promos := db.promos[promoId := promo.(commentCount := Max(0, promo.commentCount - 1))];
    r := Ok(());
  }

  // ---------------------------------------------------------------------------------
  // Counting

  lemma LikersAdd(likes: set<(Uuid, Uuid)>, user: Uuid, promoId: Uuid, p: Uuid)
    requires (user, promoId) !in likes
    ensures Likers(likes + {(user, promoId)}, p) == if p == promoId then Likers(likes, p) + {user} else Likers(likes, p)
    ensures p == promoId ==> user !in Likers(likes, p)
    ensures |Likers(likes + {(user, promoId)}, p)| == |Likers(likes, p)| + if p == promoId then 1 else 0
  {
    if p == promoId {
      assert (user, promoId) in likes + {(user, promoId)};
    }
  }

  lemma LikersRemove(likes: set<(Uuid, Uuid)>, user: Uuid, promoId: Uuid, p: Uuid)
    requires (user, promoId) in likes
    ensures Likers(likes - {(user, promoId)}, p) == if p == promoId then Likers(likes, p) - {user} else Likers(likes, p)
    ensures p == promoId ==> user in Likers(likes, p)
    ensures |Likers(likes - {(user, promoId)}, p)| == |Likers(likes, p)| - if p == promoId then 1 else 0
  {
    if p == promoId {
      assert (user, promoId).0 == user;
      forall u | u in Likers(likes, p) - {user}
        ensures u in Likers(likes - {(user, promoId)}, p)
      {
        var q :| q in likes && q.1 == p && q.0 == u;
        assert q != (user, promoId);
      }
    }
  }

  lemma CommentsOnAdd(comments: map<Uuid, CommentRow>, commentId: Uuid, row: CommentRow, p: Uuid)
    requires commentId !in comments
    ensures CommentsOn(comments[commentId := row], p) ==
              if p == row.promoId then CommentsOn(comments, p) + {commentId} else CommentsOn(comments, p)
    ensures commentId !in CommentsOn(comments, p)
  {
  }

  lemma CommentsOnRemove(comments: map<Uuid, CommentRow>, commentId: Uuid, p: Uuid)
    requires commentId in comments
    ensures CommentsOn(comments - {commentId}, p) ==
              if p == comments[commentId].promoId then CommentsOn(comments, p) - {commentId} else CommentsOn(comments, p)
    ensures p == comments[commentId].promoId ==> commentId in CommentsOn(comments, p)
  {
  }

  /** Liking keeps the counters right. */
  lemma LikeKeepsConsistent(s: Tables, user: Uuid, promoId: Uuid)
    requires Consistent(s) && Like(s, user, promoId).Ok?
    ensures Consistent(Like(s, user, promoId).value)
  {
    if (user, promoId) !in s.likes {
      var likes := s.likes + {(user, promoId)};
      var t := Tables(WithLikeCount(s, promoId, s.promos[promoId].likeCount + 1), likes, s.comments);
      assert Like(s, user, promoId) == Ok(t);
      forall p | p in t.promos
        ensures t.promos[p].likeCount == |Likers(likes, p)|
        ensures t.promos[p].commentCount == |CommentsOn(s.comments, p)|
      {
        LikersAdd(s.likes, user, promoId, p);
      }
      assert Referenced(t);
    }
  }

  /** Unliking keeps the counters right; the floor never comes into play. */
  lemma UnlikeKeepsConsistent(s: Tables, user: Uuid, promoId: Uuid)
    requires Consistent(s) && Unlike(s, user, promoId).Ok?
    ensures Consistent(Unlike(s, user, promoId).value)
  {
    if (user, promoId) in s.likes {
      var t := Unlike(s, user, promoId).value;
      assert t.comments == s.comments && t.promos.Keys == s.promos.Keys;
      forall p | p in t.promos
        ensures t.promos[p].likeCount == |Likers(t.likes, p)|
        ensures t.promos[p].commentCount == |CommentsOn(t.comments, p)|
      {
        LikersRemove(s.likes, user, promoId, p);
      }
      assert Referenced(t);
    }
  }

  /** Liking twice is liking once. */
  lemma LikeIdempotent(s: Tables, user: Uuid, promoId: Uuid)
    requires Like(s, user, promoId).Ok?
    ensures Like(Like(s, user, promoId).value, user, promoId) == Like(s, user, promoId)
  {
  }

  /** Unliking undoes a fresh like of a promo whose counter is not negative. */
  lemma UnlikeUndoesLike(s: Tables, user: Uuid, promoId: Uuid)
    requires promoId in s.promos && (user, promoId) !in s.likes && s.promos[promoId].likeCount >= 0
    ensures Unlike(Like(s, user, promoId).value, user, promoId) == Ok(s)
  {
    var t := Like(s, user, promoId).value;
    assert t.likes - {(user, promoId)} == s.likes;
    assert t.promos[promoId := t.promos[promoId].(likeCount := s.promos[promoId].likeCount)] == s.promos;
  }

  /** A new comment keeps the counters right. */
  lemma AddCommentKeepsConsistent(s: Tables, user: Uuid, promoId: Uuid, commentId: Uuid, text: string, now: Instant)
    requires Consistent(s) && AddComment(s, user, promoId, commentId, text, now).Ok?
    ensures Consistent(AddComment(s, user, promoId, commentId, text, now).value)
  {
    var t := AddComment(s, user, promoId, commentId, text, now).value;
    forall p | p in t.promos
      ensures t.promos[p].commentCount == |CommentsOn(t.comments, p)|
    {
      CommentsOnAdd(s.comments, commentId, CommentRow(promoId, user, text, now), p);
    }
  }

  /** An edit changes the text of the author's own comment and nothing else. */
  lemma EditChangesOnlyText(s: Tables, user: Uuid, promoId: Uuid, commentId: Uuid, text: string)
    requires EditComment(s, user, promoId, commentId, text).Ok?
    ensures var t := EditComment(s, user, promoId, commentId, text).value;
            commentId in s.comments && s.comments[commentId].authorId == user &&
            t.promos == s.promos && t.likes == s.likes && t.comments.Keys == s.comments.Keys &&
            t.comments[commentId] == s.comments[commentId].(text := text) &&
            forall c :: c in s.comments && c != commentId ==> t.comments[c] == s.comments[c]
  {
  }

  /** An edit keeps the counters right. */
  lemma EditKeepsConsistent(s: Tables, user: Uuid, promoId: Uuid, commentId: Uuid, text: string)
    requires Consistent(s) && EditComment(s, user, promoId, commentId, text).Ok?
    ensures Consistent(EditComment(s, user, promoId, commentId, text).value)
  {
    var t := EditComment(s, user, promoId, commentId, text).value;
    forall p | p in t.promos
      ensures CommentsOn(t.comments, p) == CommentsOn(s.comments, p)
    {
    }
  }

  /** A deletion keeps the counters right. */
  lemma DeleteKeepsConsistent(s: Tables, user: Uuid, promoId: Uuid, commentId: Uuid)
    requires Consistent(s) && DeleteComment(s, user, promoId, commentId).Ok?
    ensures Consistent(DeleteComment(s, user, promoId, commentId).value)
  {
    var t := DeleteComment(s, user, promoId, commentId).value;
    forall p | p in t.promos
      ensures t.promos[p].commentCount == |CommentsOn(t.comments, p)|
    {
      CommentsOnRemove(s.comments, commentId, p);
    }
  }

  /** While the counters are right the router's unfloored decrement and the service's
      floored one agree. */
  lemma DeleteVariantsAgree(s: Tables, user: Uuid, promoId: Uuid, commentId: Uuid)
    requires Counted(s)
    ensures DeleteCommentRouter(s, user, promoId, commentId) == DeleteComment(s, user, promoId, commentId)
  {
    if OwnComment(s, user, promoId, commentId).Ok? {
      CommentsOnRemove(s.comments, commentId, promoId);
    }
  }

  /** Without the invariant the router's counter can go below zero. */
  lemma RouterDeleteCanGoNegative()
    ensures var promo := PromoRow(1, 2, "Shop", Common, Some("SALE2025"), None, "Sale", None, NoTarget,
                                  None, None, 10, 10, 0, 0, 0, 0, true, 0);
            var s := Tables(map[1 := promo], {}, map[5 := CommentRow(1, 7, "Great deal!", 0)]);
            var t := DeleteCommentRouter(s, 7, 1, 5);
            t.Ok? && t.value.promos[1].commentCount == -1
  {
  }

  /** A new promo, whose counters start at 0, joins a consistent table consistently. */
  lemma NewPromoKeepsConsistent(s: Tables, promo: PromoRow)
    requires Consistent(s) && promo.promoId !in s.promos
    requires promo.likeCount == 0 && promo.commentCount == 0
    ensures Consistent(s.(promos := s.promos[promo.promoId := promo]))
  {
    var p := promo.promoId;
    assert Likers(s.likes, p) == {};
    assert CommentsOn(s.comments, p) == {};
  }
}
