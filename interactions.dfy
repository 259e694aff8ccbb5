/**
 * Two small views of main/views.py: the like toggle (`toggle_like_api`) and
 * the one-click unsubscribe (`unsubscribe_email`).
 */
module Interactions {
  import opened Common
  import opened Models
  import Signals

  // ---------------------------------------------------------------------
  // toggle_like_api
  // ---------------------------------------------------------------------

  /** The likes of one piece. */
  function LikesOf(likes: set<LikeRow>, piece: PieceId): set<LikeRow> {
    set l | l in likes && l.piece == piece
  }

  /** `Like.objects.filter(art_piece=art_piece).count()`. */
  function LikeCount(likes: set<LikeRow>, piece: PieceId): nat {
    |LikesOf(likes, piece)|
  }

  /** The like table after a toggle by `user` on `piece`. */
  function Toggled(likes: set<LikeRow>, user: UserId, piece: PieceId): (r: set<LikeRow>)
    ensures LikeRow(user, piece) in r <==> LikeRow(user, piece) !in likes
    ensures forall l :: l != LikeRow(user, piece) ==> (l in r <==> l in likes)
  {
    if LikeRow(user, piece) in likes then likes - {LikeRow(user, piece)} else likes + {LikeRow(user, piece)}
  }

  /** Toggling twice restores the table. */
  lemma ToggleTwice(likes: set<LikeRow>, user: UserId, piece: PieceId)
    ensures Toggled(Toggled(likes, user, piece), user, piece) == likes
  {
  }

  /** The count moves by exactly one: up on a like, down on an unlike; other pieces' counts stay. */
  lemma ToggleCount(likes: set<LikeRow>, user: UserId, piece: PieceId)
    ensures LikeRow(user, piece) in likes ==> LikeCount(Toggled(likes, user, piece), piece) + 1 == LikeCount(likes, piece)
    ensures LikeRow(user, piece) !in likes ==> LikeCount(Toggled(likes, user, piece), piece) == LikeCount(likes, piece) + 1
    ensures forall q :: q != piece ==> LikeCount(Toggled(likes, user, piece), q) == LikeCount(likes, q)
  {
    var row := LikeRow(user, piece);
    if row in likes {
      assert LikesOf(Toggled(likes, user, piece), piece) == LikesOf(likes, piece) - {row};
    } else {
      assert LikesOf(Toggled(likes, user, piece), piece) == LikesOf(likes, piece) + {row};
    }
    forall q | q != piece ensures LikeCount(Toggled(likes, user, piece), q) == LikeCount(likes, q) {
      assert LikesOf(Toggled(likes, user, piece), q) == LikesOf(likes, q);
    }
  }

  datatype LikeResponse = LikeResponse(liked: bool, likesCount: nat)

  datatype HttpError = BadRequest | Forbidden | NotFound

  /**
   * `toggle_like_api`: 404 for an unknown piece; otherwise the like is created
   * or deleted, a creation fires the post-save signal, and the response
   * reports the new state and the piece's like count.
   */
  method ToggleLikeApi(db: Db, user: UserId, piece: PieceId) returns (r: Result<LikeResponse, HttpError>)
    requires db.Valid()
    modifies db`likes, db`notifications
    ensures db.Valid()
    ensures piece >= |db.pieces| ==> r == Err(NotFound) && db.likes == old(db.likes) && db.notifications == old(db.notifications)
    ensures piece < |db.pieces| ==>
      && db.likes == Toggled(old(db.likes), user, piece)
      && r == Ok(LikeResponse(LikeRow(user, piece) in db.likes, LikeCount(db.likes, piece)))
    ensures piece < |db.pieces| && LikeRow(user, piece) in old(db.likes) ==> db.notifications == old(db.notifications)
    ensures piece < |db.pieces| && LikeRow(user, piece) !in old(db.likes) ==>
      var owner := db.pieces[piece].owner;
      db.notifications == old(db.notifications)
        + (if user != owner then [Signals.LikeNotification(|old(db.notifications)|, LikeRow(user, piece), owner)] else [])
  {
    if piece >= |db.pieces| {
      return Err(NotFound);
    }
    var like := LikeRow(user, piece);
    var liked: bool;
    if like in db.likes {
      db.likes := db.likes - {like};
      liked := false;
    } else {
      db.likes := db.likes + {like};
      Signals.CreateLikeNotification(db, like, true);
      liked := true;
    }
    r := Ok(LikeResponse(liked, LikeCount(db.likes, piece)));
  }

  // ---------------------------------------------------------------------
  // unsubscribe_email
  // ---------------------------------------------------------------------

  /** The boolean preference fields of CustomUser an unsubscribe link can clear. */
  datatype EmailField = EmailOnArtShared | EmailOnComment | EmailOnLike

  /** `KIND_TO_FIELD.get(kind)`. */
  function KindToField(kind: Option<string>): (r: Option<EmailField>)
    ensures r == Some(EmailOnArtShared) <==> kind == Some("art")
    ensures r == Some(EmailOnComment) <==> kind == Some("comment")
    ensures r == Some(EmailOnLike) <==> kind == Some("like")
  {
    if kind == Some("art") then Some(EmailOnArtShared)
    else if kind == Some("comment") then Some(EmailOnComment)
    else if kind == Some("like") then Some(EmailOnLike)
    else None
  }

  /** `KIND_LABELS`, for the kinds that reach the success page. */
  function FieldLabel(f: EmailField): string {
    match f
    case EmailOnArtShared => "new art shared"
    case EmailOnComment => "comments & replies"
    case EmailOnLike => "likes"
  }

  function Preference(u: UserRow, f: EmailField): bool {
    match f
    case EmailOnArtShared => u.emailOnArtShared
    case EmailOnComment => u.emailOnComment
    case EmailOnLike => u.emailOnLike
  }

  /** `setattr(user, field_name, False)`: that preference off, every other field kept. */
  function TurnOff(u: UserRow, f: EmailField): (r: UserRow)
    ensures !Preference(r, f)
    ensures forall g :: g != f ==> Preference(r, g) == Preference(u, g)
    ensures r.id == u.id && r.email == u.email && r.receiveArtPaused == u.receiveArtPaused
  {
    match f
    case EmailOnArtShared => u.(emailOnArtShared := false)
    case EmailOnComment => u.(emailOnComment := false)
    case EmailOnLike => u.(emailOnLike := false)
  }

  /** What loading the signed token gives: the signature check itself is not modelled. */
  datatype TokenLoad = Expired | BadSignature | Payload(uid: Option<int>, kind: Option<string>)

  datatype UnsubscribeResponse =
    | LinkExpired       // 400, "This unsubscribe link has expired."
    | LinkInvalid       // 400, "Invalid unsubscribe link."
    | InvalidData       // HttpResponseBadRequest
    | UserNotFound      // 404
    | Unsubscribed(categoryLabel: string)

  /** The position of the user with primary key `uid`, if any. */
  function FindUser(users: seq<UserRow>, uid: int): (r: Option<nat>)
    ensures r.Some? ==> r.value < |users| && users[r.value].id == uid
    ensures r.None? ==> forall i :: 0 <= i < |users| ==> users[i].id != uid
  {
    if |users| == 0 then None
    else if users[|users| - 1].id == uid then Some(|users| - 1)
    else FindUser(users[..|users| - 1], uid)
  }

  /**
   * `unsubscribe_email`.  Token errors come first; a missing or zero uid or an
   * unknown kind is a bad request; an unknown user is a 404; otherwise exactly
   * that user's preference for that kind is switched off.
   */
  method UnsubscribeEmail(db: Db, token: TokenLoad) returns (resp: UnsubscribeResponse)
    requires db.Valid()
    modifies db`users
    ensures db.Valid()
    ensures token.Expired? ==> resp == LinkExpired
    ensures token.BadSignature? ==> resp == LinkInvalid
    ensures token.Payload? && (token.uid.None? || token.uid == Some(0) || KindToField(token.kind).None?) ==>
      resp == InvalidData
    ensures token.Payload? && token.uid.Some? && token.uid != Some(0) && KindToField(token.kind).Some? ==>
      var f := KindToField(token.kind).value;
      match FindUser(old(db.users), token.uid.value)
      case None => resp == UserNotFound
      case Some(i) => resp == Unsubscribed(FieldLabel(f)) && db.users == old(db.users)[i := TurnOff(old(db.users)[i], f)]
    ensures !resp.Unsubscribed? ==> db.users == old(db.users)
  {
    match token {
      case Expired => return LinkExpired;
      case BadSignature => return LinkInvalid;
      case Payload(uid, kind) =>
        var field := KindToField(kind);
        if uid.None? || uid.value == 0 || field.None? {
          return InvalidData;
        }
        var found := FindUser(db.users, uid.value);
        if found.None? {
          return UserNotFound;
        }
        var i := found.value;
        db.users := db.users[i := TurnOff(db.users[i], field.value)];
        resp := Unsubscribed(FieldLabel(field.value));
    }
  }
}
