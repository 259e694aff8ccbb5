/** The `post_save` receiver on Like (`create_like_notification` in main/signals.py). */
module Signals {
  import opened Common
  import opened Models

  /** The notification a new like sends to the piece's owner. */
  function LikeNotification(id: NotificationId, like: LikeRow, owner: UserId): NotificationRow {
    NotificationRow(id, owner, like.user, LikeNote, Some(like.piece), None, false)
  }

  /**
   * Only a newly created like by someone other than the owner produces a
   * notification, and then exactly one: to the owner, from the liker, of
   * type "like", about the liked piece.
   */
  method CreateLikeNotification(db: Db, like: LikeRow, created: bool)
    requires db.Valid() && like.piece < |db.pieces|
    modifies db`notifications
    ensures db.Valid()
    ensures var owner := db.pieces[like.piece].owner;
      if created && like.user != owner
      then db.notifications == old(db.notifications) + [LikeNotification(|old(db.notifications)|, like, owner)]
      else db.notifications == old(db.notifications)
  {
    if created {
      var recipient := db.pieces[like.piece].owner;
      if like.user != recipient {
        db.notifications := db.notifications + [LikeNotification(|db.notifications|, like, recipient)];
      }
    }
  }
}
