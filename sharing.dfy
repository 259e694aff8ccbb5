/**
 * The weekly share unit (`share_weekly_to_user` in main/services/sharing.py):
 * choose a piece, record it idempotently, get-or-create the shared-art
 * notification, and hand an e-mail request to the dispatcher.
 *
 * The dispatcher may raise after the database writes are committed; whether
 * it does is the parameter `mailerFails`.
 */
module Sharing {
  import opened Common
  import opened Models
  import Distribution

  /** The shared-art notification for (recipient, sender, piece), if there is one. */
  function FindSharedArtNote(ns: seq<NotificationRow>, recipient: UserId, sender: UserId, piece: PieceId)
    : (r: Option<NotificationRow>)
    ensures r.Some? ==> r.value in ns && IsSharedArtNote(r.value, recipient, sender, piece)
    ensures r.None? <==> forall n :: n in ns ==> !IsSharedArtNote(n, recipient, sender, piece)
  {
    if |ns| == 0 then None
    else if IsSharedArtNote(ns[|ns| - 1], recipient, sender, piece) then Some(ns[|ns| - 1])
    else
      assert forall n :: n in ns ==> n in ns[..|ns| - 1] || n == ns[|ns| - 1];
      FindSharedArtNote(ns[..|ns| - 1], recipient, sender, piece)
  }

  predicate IsSharedArtNote(n: NotificationRow, recipient: UserId, sender: UserId, piece: PieceId) {
    n.kind == SharedArtNote && n.recipient == recipient && n.sender == sender && n.piece == Some(piece)
  }

  /** The number of shared-art notifications for (recipient, sender, piece). */
  function SharedArtNoteCount(ns: seq<NotificationRow>, recipient: UserId, sender: UserId, piece: PieceId): nat {
    |Filter(ns, (n: NotificationRow) => IsSharedArtNote(n, recipient, sender, piece))|
  }

  /** Under the table invariant there is never more than one such notification. */
  lemma {:induction false} SharedArtUniqueCount(ns: seq<NotificationRow>, recipient: UserId, sender: UserId, piece: PieceId)
    requires SharedArtUnique(ns)
    ensures SharedArtNoteCount(ns, recipient, sender, piece) == if FindSharedArtNote(ns, recipient, sender, piece).Some? then 1 else 0
  {
    if |ns| > 0 {
      var front := ns[..|ns| - 1];
      var last := ns[|ns| - 1];
      assert SharedArtUnique(front);
      SharedArtUniqueCount(front, recipient, sender, piece);
      if IsSharedArtNote(last, recipient, sender, piece) {
        assert FindSharedArtNote(front, recipient, sender, piece).None? by {
          forall n | n in front ensures !IsSharedArtNote(n, recipient, sender, piece) {
            var k :| 0 <= k < |front| && front[k] == n;
            assert ns[k] == n;
          }
        }
      }
    }
  }

  /**
   * `SentArtPiece.objects.get_or_create(user, art_piece, defaults={"source": "weekly"})`:
   * an existing row is returned unchanged (its source included).
   */
  method GetOrCreateSent(db: Db, user: UserId, piece: PieceId, now: Time) returns (row: SentRow)
    requires db.Valid()
    modifies db`sent
    ensures db.Valid()
    ensures FindSent(db.sent, user, piece) == Some(row)
    ensures old(FindSent(db.sent, user, piece)).Some? ==> row == old(FindSent(db.sent, user, piece)).value && db.sent == old(db.sent)
    ensures old(FindSent(db.sent, user, piece)).None? ==>
      row == SentRow(user, piece, Weekly, now, None) && db.sent == old(db.sent) + [row]
  {
    var found := FindSent(db.sent, user, piece);
    if found.Some? {
      return found.value;
    }
    row := SentRow(user, piece, Weekly, now, None);
    db.sent := db.sent + [row];
    assert db.sent[|db.sent| - 1] == row;
  }

  /** `Notification.objects.get_or_create(recipient, sender, notification_type="shared_art", art_piece)`. */
  method GetOrCreateSharedArtNote(db: Db, recipient: UserId, sender: UserId, piece: PieceId) returns (n: NotificationRow)
    requires db.Valid()
    modifies db`notifications
    ensures db.Valid()
    ensures FindSharedArtNote(db.notifications, recipient, sender, piece) == Some(n)
    ensures n.id < |db.notifications| && db.notifications[n.id] == n
    ensures old(FindSharedArtNote(db.notifications, recipient, sender, piece)).Some? ==>
      n == old(FindSharedArtNote(db.notifications, recipient, sender, piece)).value
      && db.notifications == old(db.notifications)
    ensures old(FindSharedArtNote(db.notifications, recipient, sender, piece)).None? ==>
      n == NotificationRow(|old(db.notifications)|, recipient, sender, SharedArtNote, Some(piece), None, false)
      && db.notifications == old(db.notifications) + [n]
  {
    var found := FindSharedArtNote(db.notifications, recipient, sender, piece);
    if found.Some? {
      var k :| 0 <= k < |db.notifications| && db.notifications[k] == found.value;
      return found.value;
    }
    n := NotificationRow(|db.notifications|, recipient, sender, SharedArtNote, Some(piece), None, false);
    forall i | 0 <= i < |db.notifications| ensures !IsSharedArtNote(db.notifications[i], recipient, sender, piece) {
      assert db.notifications[i] in db.notifications;
    }
    db.notifications := db.notifications + [n];
    assert db.notifications[|db.notifications| - 1] == n;
  }

  /**
   * The notifications table after a get-or-create of the shared-art
   * notification for (recipient, sender, piece): unchanged when one exists,
   * otherwise the old table plus the new unread row.
   */
  predicate SharedArtNoteWritten(before: seq<NotificationRow>, after: seq<NotificationRow>,
                                 recipient: UserId, sender: UserId, piece: PieceId) {
    if FindSharedArtNote(before, recipient, sender, piece).Some? then after == before
    else after == before + [NotificationRow(|before|, recipient, sender, SharedArtNote, Some(piece), None, false)]
  }

  datatype Failure = MailerError

  /**
   * `share_weekly_to_user`.  A paused user, an empty pool and a dry run write
   * nothing; otherwise the chosen piece gets exactly one SentArtPiece row and
   * exactly one shared-art notification from its owner, an e-mail request is
   * queued, and the call returns the piece unless the mailer raised.
   */
  method ShareWeeklyToUser(db: Db, user: UserRow, dryRun: bool, pick: nat, now: Time, mailerFails: bool)
    returns (r: Result<Option<PieceId>, Failure>)
    requires db.Valid()
    modifies db`sent, db`notifications, db`outbox
    ensures db.Valid()
    ensures var choice := Distribution.ChooseArtPiece(db.pieces, old(db.sent), user.id, pick);
      (user.receiveArtPaused || choice.None? || dryRun) ==>
        && r == (if user.receiveArtPaused then Ok(None) else Ok(choice))
        && db.sent == old(db.sent) && db.notifications == old(db.notifications) && db.outbox == old(db.outbox)
    ensures var choice := Distribution.ChooseArtPiece(db.pieces, old(db.sent), user.id, pick);
      (!user.receiveArtPaused && choice.Some? && !dryRun) ==>
        var art := choice.value;
        && art < |db.pieces|
        && var owner := db.pieces[art].owner;
        && SentCount(db.sent, user.id, art) == 1
        && db.sent == old(db.sent) + [SentRow(user.id, art, Weekly, now, None)]
        && SharedArtNoteCount(db.notifications, user.id, owner, art) == 1
        && SharedArtNoteWritten(old(db.notifications), db.notifications, user.id, owner, art)
        && FindSharedArtNote(db.notifications, user.id, owner, art).Some?
        && db.outbox == old(db.outbox) + [SharedArtEmail(user.id, owner, art, FindSharedArtNote(db.notifications, user.id, owner, art).value.id)]
        && r == (if mailerFails then Err(MailerError) else Ok(Some(art)))
  {
    if user.receiveArtPaused {
      return Ok(None);
    }
    var art := Distribution.ChooseArtPiece(db.pieces, db.sent, user.id, pick);
    if art.None? {
      return Ok(None);
    }
    if dryRun {
      return Ok(art);
    }
    Distribution.ChosenIsRow(db.pieces, db.sent, user.id, pick);
    Distribution.NotSentHasNoRow(db.sent, user.id, art.value);
    var noteId := DeliverWeekly(db, user.id, art.value, now);
    if mailerFails {
      return Err(MailerError);
    }
    r := Ok(art);
  }

  /**
   * The writes of a weekly share: the SentArtPiece row, the shared-art
   * notification from the owner, and the e-mail request.
   */
  method DeliverWeekly(db: Db, user: UserId, art: PieceId, now: Time) returns (noteId: NotificationId)
    requires db.Valid() && art < |db.pieces| && FindSent(db.sent, user, art).None?
    modifies db`sent, db`notifications, db`outbox
    ensures db.Valid()
    ensures SentCount(db.sent, user, art) == 1
    ensures db.sent == old(db.sent) + [SentRow(user, art, Weekly, now, None)]
    ensures SharedArtNoteCount(db.notifications, user, db.pieces[art].owner, art) == 1
    ensures SharedArtNoteWritten(old(db.notifications), db.notifications, user, db.pieces[art].owner, art)
    ensures noteId < |db.notifications| && FindSharedArtNote(db.notifications, user, db.pieces[art].owner, art) == Some(db.notifications[noteId])
    ensures db.outbox == old(db.outbox) + [SharedArtEmail(user, db.pieces[art].owner, art, noteId)]
  {
    RecordWeeklySent(db, user, art, now);
    noteId := NotifySharedArt(db, user, db.pieces[art].owner, art);
  }

  /** The SentArtPiece half of a weekly share, for a piece not yet sent to the user. */
  method RecordWeeklySent(db: Db, user: UserId, art: PieceId, now: Time)
    requires db.Valid() && FindSent(db.sent, user, art).None?
    modifies db`sent
    ensures db.Valid()
    ensures SentCount(db.sent, user, art) == 1
    ensures db.sent == old(db.sent) + [SentRow(user, art, Weekly, now, None)]
  {
    var _ := GetOrCreateSent(db, user, art, now);
    SentUniqueCount(db.sent, user, art);
  }

  /** The notification and e-mail half of a weekly share. */
  method NotifySharedArt(db: Db, user: UserId, owner: UserId, art: PieceId) returns (noteId: NotificationId)
    requires db.Valid()
    modifies db`notifications, db`outbox
    ensures db.Valid()
    ensures SharedArtNoteCount(db.notifications, user, owner, art) == 1
    ensures SharedArtNoteWritten(old(db.notifications), db.notifications, user, owner, art)
    ensures noteId < |db.notifications| && FindSharedArtNote(db.notifications, user, owner, art) == Some(db.notifications[noteId])
    ensures db.outbox == old(db.outbox) + [SharedArtEmail(user, owner, art, noteId)]
  {
    var n := GetOrCreateSharedArtNote(db, user, owner, art);
    SharedArtUniqueCount(db.notifications, user, owner, art);
    noteId := n.id;
    db.outbox := db.outbox + [SharedArtEmail(user, owner, art, noteId)];
  }
}
