/**
 * The persistent entities of main/models.py and the database that holds them.
 *
 * Each table is a field of class `Db`.  Rows that are never changed in place
 * are datatypes; the uniqueness constraints declared in the models' `Meta`
 * classes are the predicates that make up `Db.Valid()`.  Primary keys are
 * positions: the row with id `i` is at index `i` of its table.
 */
module Models {
  import opened Common
  import Username

  type UserId = nat
  type PieceId = nat
  type CommentId = nat
  type NotificationId = nat
  /** A point in time, in seconds. */
  type Time = int

  const SecondsPerDay: int := 86400
  /** `settings.NEW_BADGE_WINDOW_DAYS`, which the settings leave at its default. */
  const NewBadgeWindowDays: nat := 30
  /** `ArtPiece.delete_reason` is a `CharField(max_length=200)`. */
  const DeleteReasonMaxLength: nat := 200

  datatype Source = Weekly | Welcome | Reciprocal | Manual

  datatype UserRow = UserRow(
    id: UserId,
    email: string,
    receiveArtPaused: bool,
    emailOnArtShared: bool,
    emailOnComment: bool,
    emailOnLike: bool)

  datatype PieceRow = PieceRow(
    id: PieceId,
    owner: UserId,
    approvedStatus: bool,
    welcomeEligible: bool,
    welcomeWeight: nat,
    isDeleted: bool,
    deletedAt: Option<Time>,
    deletedBy: Option<UserId>,
    deleteReason: string)

  /** A `SentArtPiece`: the piece `piece` was given to `user`. */
  datatype SentRow = SentRow(user: UserId, piece: PieceId, source: Source, sentTime: Time, seenAt: Option<Time>)

  /** A `ReciprocalGrant`; the table is keyed by its one-to-one trigger piece. */
  datatype ReciprocalGrantRow = ReciprocalGrantRow(user: UserId, sentPiece: Option<PieceId>)

  datatype CommentRow = CommentRow(
    id: CommentId,
    sender: UserId,
    recipient: UserId,
    piece: PieceId,
    text: string,
    parent: Option<CommentId>,
    createdAt: Time)

  datatype LikeRow = LikeRow(user: UserId, piece: PieceId)

  datatype NotificationType = LikeNote | CommentNote | SharedArtNote

  datatype NotificationRow = NotificationRow(
    id: NotificationId,
    recipient: UserId,
    sender: UserId,
    kind: NotificationType,
    piece: Option<PieceId>,
    comment: Option<CommentId>,
    isRead: bool)

  /** A request handed to the e-mail dispatcher once the database writes are done. */
  datatype Event =
    | SharedArtEmail(recipient: UserId, sender: UserId, piece: PieceId, notification: NotificationId)
    | CommentEmail(recipient: UserId, comment: CommentId)

  // ---------------------------------------------------------------------
  // Table constraints
  // ---------------------------------------------------------------------

  predicate PiecesIndexed(pieces: seq<PieceRow>) {
    forall i :: 0 <= i < |pieces| ==> pieces[i].id == i
  }

  /** Users in increasing id order, so `order_by('id')` is the table order. */
  predicate UsersOrdered(users: seq<UserRow>) {
    forall i, j :: 0 <= i < j < |users| ==> users[i].id < users[j].id
  }

  /** `unique_together = ('user', 'art_piece')` on SentArtPiece. */
  predicate SentUnique(sent: seq<SentRow>) {
    forall i, j :: 0 <= i < j < |sent| ==> !(sent[i].user == sent[j].user && sent[i].piece == sent[j].piece)
  }

  /**
   * Comment ids are positions, a parent precedes its replies, and every
   * parent is a top-level comment on the same piece.
   */
  predicate CommentsWellFormed(cs: seq<CommentRow>) {
    forall i :: 0 <= i < |cs| ==>
      cs[i].id == i &&
      (cs[i].parent.Some? ==>
         cs[i].parent.value < i && cs[cs[i].parent.value].parent.None? && cs[cs[i].parent.value].piece == cs[i].piece)
  }

  /** `uniq_comment_top_thread_piece_sender_recipient`: one root per (piece, sender, recipient). */
  predicate RootsUnique(cs: seq<CommentRow>) {
    forall i, j :: 0 <= i < j < |cs| && cs[i].parent.None? && cs[j].parent.None? ==>
      !(cs[i].piece == cs[j].piece && cs[i].sender == cs[j].sender && cs[i].recipient == cs[j].recipient)
  }

  predicate NotificationsIndexed(ns: seq<NotificationRow>) {
    forall i :: 0 <= i < |ns| ==> ns[i].id == i
  }

  /**
   * At most one shared-art notification per (recipient, sender, piece): the
   * weekly share's `get_or_create` relies on it.
   */
  predicate SharedArtUnique(ns: seq<NotificationRow>) {
    forall i, j :: 0 <= i < j < |ns| && ns[i].kind == SharedArtNote && ns[j].kind == SharedArtNote ==>
      !(ns[i].recipient == ns[j].recipient && ns[i].sender == ns[j].sender && ns[i].piece == ns[j].piece)
  }

  /** A reciprocal grant's trigger is a foreign key to an existing piece. */
  predicate GrantTriggersExist(grants: map<PieceId, ReciprocalGrantRow>, pieces: seq<PieceRow>) {
    forall t :: t in grants ==> t < |pieces|
  }

  /** The database.  Welcome grants are keyed by user (a one-to-one field). */
  class Db {
    var users: seq<UserRow>
    var pieces: seq<PieceRow>
    var sent: seq<SentRow>
    var welcomeGrants: map<UserId, Option<PieceId>>
    var reciprocalGrants: map<PieceId, ReciprocalGrantRow>
    var comments: seq<CommentRow>
    var likes: set<LikeRow>
    var notifications: seq<NotificationRow>
    var outbox: seq<Event>

    ghost predicate Valid()
      reads this`pieces, this`users, this`sent, this`comments, this`notifications, this`reciprocalGrants
    {
      && PiecesIndexed(pieces)
      && UsersOrdered(users)
      && SentUnique(sent)
      && CommentsWellFormed(comments)
      && RootsUnique(comments)
      && NotificationsIndexed(notifications)
      && SharedArtUnique(notifications)
      && GrantTriggersExist(reciprocalGrants, pieces)
    }

    constructor ()
      ensures Valid()
      ensures users == [] && pieces == [] && sent == [] && welcomeGrants == map[]
      ensures reciprocalGrants == map[] && comments == [] && likes == {}
      ensures notifications == [] && outbox == []
    {
      users, pieces, sent := [], [], [];
      welcomeGrants, reciprocalGrants := map[], map[];
      comments, likes, notifications, outbox := [], {}, [], [];
    }
  }

  /** The SentArtPiece row for (user, piece), if there is one. */
  function FindSent(sent: seq<SentRow>, user: UserId, piece: PieceId): (r: Option<SentRow>)
    ensures r.Some? ==> r.value in sent && r.value.user == user && r.value.piece == piece
    ensures r.None? <==> forall s :: s in sent ==> !(s.user == user && s.piece == piece)
  {
    if |sent| == 0 then None
    else if sent[|sent| - 1].user == user && sent[|sent| - 1].piece == piece then Some(sent[|sent| - 1])
    else
      assert forall s :: s in sent ==> s in sent[..|sent| - 1] || s == sent[|sent| - 1];
      FindSent(sent[..|sent| - 1], user, piece)
  }

  /** The number of SentArtPiece rows for (user, piece). */
  function SentCount(sent: seq<SentRow>, user: UserId, piece: PieceId): nat {
    |Filter(sent, (s: SentRow) => s.user == user && s.piece == piece)|
  }

  /** The uniqueness constraint, restated as a count: never two rows for one (user, piece). */
  lemma {:induction false} SentUniqueCount(sent: seq<SentRow>, user: UserId, piece: PieceId)
    requires SentUnique(sent)
    ensures SentCount(sent, user, piece) == if FindSent(sent, user, piece).Some? then 1 else 0
  {
    if |sent| > 0 {
      var front := sent[..|sent| - 1];
      var last := sent[|sent| - 1];
      assert SentUnique(front);
      SentUniqueCount(front, user, piece);
      if last.user == user && last.piece == piece {
        assert FindSent(front, user, piece).None? by {
          forall s | s in front ensures !(s.user == user && s.piece == piece) {
            var k :| 0 <= k < |front| && front[k] == s;
            assert sent[k] == s;
          }
        }
      }
    }
  }

  // ---------------------------------------------------------------------
  // ArtPiece: the in-memory instance and its soft-delete life cycle
  // ---------------------------------------------------------------------

  /** The fields `soft_delete` and `restore` pass as `update_fields`. */
  function SaveDeleteFields(stored: PieceRow, mem: PieceRow): PieceRow {
    stored.(isDeleted := mem.isDeleted, deletedAt := mem.deletedAt,
            deletedBy := mem.deletedBy, deleteReason := mem.deleteReason)
  }

  /** `s[:n]`. */
  function Truncate(s: string, n: nat): (r: string)
    ensures |r| <= n && r <= s
    ensures |s| <= n ==> r == s
    ensures |s| > n ==> r == s[..n]
  {
    if |s| <= n then s else s[..n]
  }

  /**
   * A loaded ArtPiece instance.  Its fields are the in-memory values; `stored`
   * is the database row as of the last save.
   */
  class ArtPiece {
    var id: PieceId
    var owner: UserId
    var approvedStatus: bool
    var welcomeEligible: bool
    var welcomeWeight: nat
    var isDeleted: bool
    var deletedAt: Option<Time>
    var deletedBy: Option<UserId>
    var deleteReason: string
    var stored: PieceRow

    /** The in-memory values as a row. */
    function Row(): PieceRow
      reads this
    {
      PieceRow(id, owner, approvedStatus, welcomeEligible, welcomeWeight, isDeleted, deletedAt, deletedBy, deleteReason)
    }

    /** `ArtPiece.objects.get(...)`: memory and database agree. */
    constructor Load(row: PieceRow)
      ensures Row() == row && stored == row
    {
      id, owner, approvedStatus, welcomeEligible, welcomeWeight := row.id, row.owner, row.approvedStatus, row.welcomeEligible, row.welcomeWeight;
      isDeleted, deletedAt, deletedBy, deleteReason := row.isDeleted, row.deletedAt, row.deletedBy, row.deleteReason;
      stored := row;
    }

    /**
     * `soft_delete`: a no-op on a deleted piece; otherwise marks it deleted,
     * clears `approved_status` in memory, and saves only the deletion fields.
     */
    method SoftDelete(now: Time, user: Option<UserId>, reason: string)
      modifies this
      ensures old(isDeleted) ==> Row() == old(Row()) && stored == old(stored)
      ensures !old(isDeleted) ==>
        && Row() == old(Row()).(isDeleted := true, deletedAt := Some(now), deletedBy := user,
                                deleteReason := Truncate(reason, DeleteReasonMaxLength), approvedStatus := false)
        && stored == SaveDeleteFields(old(stored), Row())
      ensures |deleteReason| <= DeleteReasonMaxLength || deleteReason == old(deleteReason)
      ensures stored.approvedStatus == old(stored.approvedStatus)
    {
      if isDeleted {
        return;
      }
      isDeleted := true;
      deletedAt := Some(now);
      deletedBy := user;
      deleteReason := Truncate(reason, DeleteReasonMaxLength);
      approvedStatus := false;
      stored := SaveDeleteFields(stored, Row());
    }

    /** `restore`: a no-op unless deleted; clears the deletion fields and leaves approval alone. */
    method Restore()
      modifies this
      ensures !old(isDeleted) ==> Row() == old(Row()) && stored == old(stored)
      ensures old(isDeleted) ==>
        && Row() == old(Row()).(isDeleted := false, deletedAt := None, deletedBy := None, deleteReason := "")
        && stored == SaveDeleteFields(old(stored), Row())
      ensures approvedStatus == old(approvedStatus) && stored.approvedStatus == old(stored.approvedStatus)
      ensures !isDeleted
    {
      if !isDeleted {
        return;
      }
      isDeleted := false;
      deletedAt := None;
      deletedBy := None;
      deleteReason := "";
      stored := SaveDeleteFields(stored, Row());
    }
  }

  /** What the database holds for a piece after `soft_delete` on an instance loaded from `row`. */
  function SoftDeletedRow(row: PieceRow, now: Time, user: Option<UserId>, reason: string): PieceRow {
    if row.isDeleted then row
    else SaveDeleteFields(row, row.(isDeleted := true, deletedAt := Some(now), deletedBy := user,
                                    deleteReason := Truncate(reason, DeleteReasonMaxLength), approvedStatus := false))
  }

  /** A client of the class: soft-deleting a freshly loaded piece stores exactly `SoftDeletedRow`. */
  method SoftDeleteStored(row: PieceRow, now: Time, user: Option<UserId>, reason: string) returns (saved: PieceRow)
    ensures saved == SoftDeletedRow(row, now, user, reason)
    ensures saved.isDeleted && saved.approvedStatus == row.approvedStatus
  {
    var piece := new ArtPiece.Load(row);
    piece.SoftDelete(now, user, reason);
    saved := piece.stored;
  }

  /** Soft-deleting twice stores the same row as soft-deleting once. */
  lemma SoftDeleteIdempotent(row: PieceRow, now1: Time, now2: Time, u1: Option<UserId>, u2: Option<UserId>, r1: string, r2: string)
    ensures SoftDeletedRow(SoftDeletedRow(row, now1, u1, r1), now2, u2, r2) == SoftDeletedRow(row, now1, u1, r1)
  {
  }

  // ---------------------------------------------------------------------
  // SentArtPiece.is_new, Notification.get_redirect_url
  // ---------------------------------------------------------------------

  /** `SentArtPiece.is_new` at time `now`. */
  function IsNew(row: SentRow, now: Time): (r: bool)
    ensures row.seenAt.Some? ==> !r
    ensures row.seenAt.None? ==> (r <==> now - row.sentTime <= NewBadgeWindowDays * SecondsPerDay)
  {
    row.seenAt.None? && row.sentTime >= now - NewBadgeWindowDays * SecondsPerDay
  }

  /** The badge only goes away: a piece that is not new stays not new later. */
  lemma IsNewExpires(row: SentRow, now: Time, later: Time)
    requires now <= later && !IsNew(row, now)
    ensures !IsNew(row, later)
  {
  }

  datatype QueryParam = QueryParam(key: string, value: string)

  /** Where a notification sends its reader: the notification list, or a piece's page with query parameters. */
  datatype Redirect = NotificationsPage | ArtDetail(piece: PieceId, params: seq<QueryParam>)

  function GetRedirectUrl(n: NotificationRow): (r: Redirect)
    ensures n.piece.None? <==> r == NotificationsPage
    ensures r.ArtDetail? ==> r.piece == n.piece.value && |r.params| >= 1 && r.params[0] == QueryParam("n", NatToString(n.id))
    ensures r.ArtDetail? && n.kind == CommentNote ==>
      r.params[1..] == [QueryParam("focus", "thread"), QueryParam("other", NatToString(n.sender))]
    ensures r.ArtDetail? && n.kind != CommentNote ==> r.params[1..] == [QueryParam("focus", "piece")]
  {
    if n.piece.None? then NotificationsPage
    else
      var base := [QueryParam("n", NatToString(n.id))];
      match n.kind
      case CommentNote => ArtDetail(n.piece.value, base + [QueryParam("focus", "thread"), QueryParam("other", NatToString(n.sender))])
      case LikeNote => ArtDetail(n.piece.value, base + [QueryParam("focus", "piece")])
      case SharedArtNote => ArtDetail(n.piece.value, base + [QueryParam("focus", "piece")])
  }

  // ---------------------------------------------------------------------
  // CustomUser.save
  // ---------------------------------------------------------------------

  /** `if value: value = value.strip()`: an empty value is left as it is, which is what stripping gives anyway. */
  function StripIfSet(s: string): (r: string)
    ensures r == Strip(s)
  {
    assert Strip("") == "";
    if s == "" then s else Strip(s)
  }

  /** `if email: email = email.strip().lower()`. */
  function NormaliseEmail(s: string): (r: string)
    ensures r == Lower(Strip(s))
  {
    assert Strip("") == "" && Lower("") == "";
    if s == "" then s else Lower(Strip(s))
  }

  /** The fields of a CustomUser instance that `save` normalises. */
  class CustomUser {
    var email: string
    var firstName: string
    var lastName: string
    var username: string

    constructor (email: string, firstName: string, lastName: string, username: string)
      ensures this.email == email && this.firstName == firstName
      ensures this.lastName == lastName && this.username == username
    {
      this.email, this.firstName, this.lastName, this.username := email, firstName, lastName, username;
    }

    /** The normalising half of `save`: strip and lower-case the e-mail, strip the names. */
    method Normalise()
      modifies this`email, this`firstName, this`lastName
      ensures email == Lower(Strip(old(email)))
      ensures firstName == Strip(old(firstName)) && lastName == Strip(old(lastName))
    {
      email, firstName, lastName := NormaliseEmail(email), StripIfSet(firstName), StripIfSet(lastName);
    }

    /** `if not self.username: self.username = generate_unique_username(...)`, from the current fields. */
    method FillUsername(existing: set<string>, slugify: string -> string, draw: nat -> nat)
      modifies this`username
      ensures old(username) != "" ==> username == old(username)
      ensures old(username) == "" ==> username == Username.GeneratedHandle(firstName, lastName, email, existing, slugify, draw)
    {
      if username == "" {
        username := Username.GenerateUniqueUsername(firstName, lastName, email, existing, slugify, draw);
      }
    }

    /**
     * `save`: strip and lower-case the e-mail, strip the names, and fill an
     * empty username from the generator (which sees the normalised values).
     */
    method Save(existing: set<string>, slugify: string -> string, draw: nat -> nat)
      modifies this
      ensures email == Lower(Strip(old(email)))
      ensures firstName == Strip(old(firstName)) && lastName == Strip(old(lastName))
      ensures old(username) != "" ==> username == old(username)
      ensures old(username) == "" ==> username == Username.GeneratedHandle(firstName, lastName, email, existing, slugify, draw)
    {
      Normalise();
      FillUsername(existing, slugify, draw);
    }
  }
}
