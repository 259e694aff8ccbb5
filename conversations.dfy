/**
 * Comment threads: the rules of the `comments_create` handler as
 * main/tests/test_comments.py pins them down, the reply path of
 * `my_shared_art`, and the read side of `my_shared_art` and
 * `art_piece_detail` (main/views.py).
 *
 * A thread is a root comment (no parent) plus its replies.  There is at most
 * one root per (piece, sender, recipient) and every reply's parent is a root
 * on the same piece; both facts are part of `Db.Valid()`.
 */
module Conversations {
  import opened Common
  import opened Models

  // ---------------------------------------------------------------------
  // Lookups
  // ---------------------------------------------------------------------

  predicate IsRootOf(c: CommentRow, piece: PieceId, sender: UserId, recipient: UserId) {
    c.parent.None? && c.piece == piece && c.sender == sender && c.recipient == recipient
  }

  /** The root comment for (piece, sender, recipient), if there is one. */
  function FindRoot(cs: seq<CommentRow>, piece: PieceId, sender: UserId, recipient: UserId): (r: Option<CommentId>)
    ensures r.Some? ==> r.value < |cs| && IsRootOf(cs[r.value], piece, sender, recipient)
    ensures r.None? <==> forall i :: 0 <= i < |cs| ==> !IsRootOf(cs[i], piece, sender, recipient)
  {
    if |cs| == 0 then None
    else if IsRootOf(cs[|cs| - 1], piece, sender, recipient) then Some(|cs| - 1)
    else FindRoot(cs[..|cs| - 1], piece, sender, recipient)
  }

  /** `SentArtPiece.objects.filter(user=user, art_piece=piece).exists()`. */
  predicate HasReceived(sent: seq<SentRow>, user: UserId, piece: PieceId) {
    FindSent(sent, user, piece).Some?
  }

  // ---------------------------------------------------------------------
  // comments_create
  // ---------------------------------------------------------------------

  /** Why a post is refused; `Status` gives the HTTP code. */
  datatype CommentError =
    | PieceNotFound
    | MissingText
    | NotParticipant
    | OwnerCannotStart
    | TopNotFound
    | NotInThread

  function Status(e: CommentError): nat {
    match e
    case PieceNotFound => 404
    case TopNotFound => 404
    case MissingText => 400
    case NotParticipant => 403
    case OwnerCannotStart => 403
    case NotInThread => 403
  }

  /** Where an accepted post goes: its recipient, its parent, and its stored (stripped) text. */
  datatype Plan = Plan(recipient: UserId, parent: Option<CommentId>, text: string)

  /** The `text` field of CommentForm: required, and stored stripped. */
  predicate TextGiven(text: Option<string>) {
    text.Some? && Strip(text.value) != ""
  }

  /**
   * A post that names root `t`: the root must be on the piece and the caller
   * one of its two participants; the post goes to the other one.
   */
  function PlanReply(cs: seq<CommentRow>, caller: UserId, piece: PieceId, text: string, t: CommentId)
    : (r: Result<Plan, CommentError>)
    ensures r.Ok? <==> t < |cs| && cs[t].parent.None? && cs[t].piece == piece && (caller == cs[t].sender || caller == cs[t].recipient)
    ensures r.Ok? ==>
      && r.value.parent == Some(t) && r.value.text == text
      && r.value.recipient == (if caller == cs[t].sender then cs[t].recipient else cs[t].sender)
  {
    if t >= |cs| || cs[t].parent.Some? || cs[t].piece != piece then Err(TopNotFound)
    else if caller != cs[t].sender && caller != cs[t].recipient then Err(NotInThread)
    else Ok(Plan(if caller == cs[t].sender then cs[t].recipient else cs[t].sender, Some(t), text))
  }

  /**
   * A post with no root reference: refused for the owner; for a recipient it
   * continues their existing root with the owner, or opens one.
   */
  function PlanStart(cs: seq<CommentRow>, caller: UserId, owner: UserId, piece: PieceId, text: string)
    : (r: Result<Plan, CommentError>)
    ensures caller == owner <==> r == Err(OwnerCannotStart)
    ensures r.Ok? ==>
      && r.value.recipient == owner && r.value.text == text
      && r.value.parent == FindRoot(cs, piece, caller, owner)
  {
    if caller == owner then Err(OwnerCannotStart)
    else Ok(Plan(owner, FindRoot(cs, piece, caller, owner), text))
  }

  /**
   * The decision of `comments_create` for `caller` posting on `piece`, with an
   * optional `top_level_comment_id`.  An unknown piece is a 404, missing text
   * a 400, and only the owner and the piece's recipients may post at all.
   */
  function PlanComment(pieces: seq<PieceRow>, sent: seq<SentRow>, cs: seq<CommentRow>,
                       caller: UserId, piece: PieceId, text: Option<string>, top: Option<CommentId>)
    : (r: Result<Plan, CommentError>)
    ensures r.Ok? ==> piece < |pieces| && TextGiven(text) && r.value.text == Strip(text.value)
    ensures r.Ok? ==> caller == pieces[piece].owner || HasReceived(sent, caller, piece)
    ensures r.Ok? && r.value.parent.Some? ==>
      var p := r.value.parent.value;
      && p < |cs| && cs[p].parent.None? && cs[p].piece == piece
      && (caller == cs[p].sender || caller == cs[p].recipient)
      && r.value.recipient == (if caller == cs[p].sender then cs[p].recipient else cs[p].sender)
    ensures r.Ok? && r.value.parent.None? ==>
      && top.None? && caller != pieces[piece].owner && r.value.recipient == pieces[piece].owner
      && FindRoot(cs, piece, caller, r.value.recipient).None?
  {
    if piece >= |pieces| then Err(PieceNotFound)
    else if !TextGiven(text) then Err(MissingText)
    else if caller != pieces[piece].owner && !HasReceived(sent, caller, piece) then Err(NotParticipant)
    else if top.Some? then PlanReply(cs, caller, piece, Strip(text.value), top.value)
    else PlanStart(cs, caller, pieces[piece].owner, piece, Strip(text.value))
  }

  /** The comment notification sent to the other participant. */
  function CommentNotification(id: NotificationId, c: CommentRow): NotificationRow {
    NotificationRow(id, c.recipient, c.sender, CommentNote, Some(c.piece), Some(c.id), false)
  }

  /**
   * `comments_create`: a refused post writes nothing; an accepted one is
   * stored as the plan says, and unless it is addressed to its own sender it
   * produces one comment notification and one e-mail request.
   */
  method CommentsCreate(db: Db, caller: UserId, piece: PieceId, text: Option<string>, top: Option<CommentId>, now: Time)
    returns (r: Result<CommentRow, CommentError>)
    requires db.Valid()
    modifies db`comments, db`notifications, db`outbox
    ensures db.Valid()
    ensures var plan := PlanComment(db.pieces, db.sent, old(db.comments), caller, piece, text, top);
      plan.Err? ==>
        r == Err(plan.error) && db.comments == old(db.comments)
        && db.notifications == old(db.notifications) && db.outbox == old(db.outbox)
    ensures var plan := PlanComment(db.pieces, db.sent, old(db.comments), caller, piece, text, top);
      plan.Ok? ==>
        && r == Ok(CommentRow(|old(db.comments)|, caller, plan.value.recipient, piece, plan.value.text, plan.value.parent, now))
        && db.comments == old(db.comments) + [r.value]
        && (caller != plan.value.recipient ==>
              db.notifications == old(db.notifications) + [CommentNotification(|old(db.notifications)|, r.value)]
              && db.outbox == old(db.outbox) + [CommentEmail(plan.value.recipient, r.value.id)])
        && (caller == plan.value.recipient ==>
              db.notifications == old(db.notifications) && db.outbox == old(db.outbox))
  {
    var plan := PlanComment(db.pieces, db.sent, db.comments, caller, piece, text, top);
    if plan.Err? {
      return Err(plan.error);
    }
    var c := CommentRow(|db.comments|, caller, plan.value.recipient, piece, plan.value.text, plan.value.parent, now);
    StoreComment(db, c);
    if caller != c.recipient {
      NotifyComment(db, c);
    }
    r := Ok(c);
  }

  /** Inserting a comment that respects the thread constraints keeps the database valid. */
  method StoreComment(db: Db, c: CommentRow)
    requires db.Valid() && c.id == |db.comments|
    requires c.parent.Some? ==>
      c.parent.value < |db.comments| && db.comments[c.parent.value].parent.None? && db.comments[c.parent.value].piece == c.piece
    requires c.parent.None? ==> FindRoot(db.comments, c.piece, c.sender, c.recipient).None?
    modifies db`comments
    ensures db.Valid()
    ensures db.comments == old(db.comments) + [c]
  {
    if c.parent.None? {
      forall i | 0 <= i < |db.comments| && db.comments[i].parent.None?
        ensures !(db.comments[i].piece == c.piece && db.comments[i].sender == c.sender && db.comments[i].recipient == c.recipient)
      {
        assert !IsRootOf(db.comments[i], c.piece, c.sender, c.recipient);
      }
    }
    db.comments := db.comments + [c];
  }

  /** The comment notification and its e-mail request. */
  method NotifyComment(db: Db, c: CommentRow)
    requires db.Valid()
    modifies db`notifications, db`outbox
    ensures db.Valid()
    ensures db.notifications == old(db.notifications) + [CommentNotification(|old(db.notifications)|, c)]
    ensures db.outbox == old(db.outbox) + [CommentEmail(c.recipient, c.id)]
  {
    db.notifications := db.notifications + [CommentNotification(|db.notifications|, c)];
    db.outbox := db.outbox + [CommentEmail(c.recipient, c.id)];
  }

  /** Only the owner or a recipient of the piece can have a post accepted. */
  lemma NonParticipantCannotComment(pieces: seq<PieceRow>, sent: seq<SentRow>, cs: seq<CommentRow>,
                                    caller: UserId, piece: PieceId, text: Option<string>, top: Option<CommentId>)
    requires piece < |pieces| && caller != pieces[piece].owner && !HasReceived(sent, caller, piece)
    ensures PlanComment(pieces, sent, cs, caller, piece, text, top).Err?
    ensures TextGiven(text) ==> PlanComment(pieces, sent, cs, caller, piece, text, top) == Err(NotParticipant)
  {
  }

  /** The owner cannot open a thread: a post without a root reference is refused with 403. */
  lemma OwnerCannotStartThread(pieces: seq<PieceRow>, sent: seq<SentRow>, cs: seq<CommentRow>,
                               piece: PieceId, text: Option<string>)
    requires piece < |pieces| && TextGiven(text)
    ensures PlanComment(pieces, sent, cs, pieces[piece].owner, piece, text, None) == Err(OwnerCannotStart)
  {
  }

  /** Missing or blank text is refused with 400 for any participant. */
  lemma MissingTextRejected(pieces: seq<PieceRow>, sent: seq<SentRow>, cs: seq<CommentRow>,
                            caller: UserId, piece: PieceId, text: Option<string>, top: Option<CommentId>)
    requires piece < |pieces| && !TextGiven(text)
    ensures var r := PlanComment(pieces, sent, cs, caller, piece, text, top);
      r == Err(MissingText) && Status(r.error) == 400
  {
  }

  /**
   * A recipient's start opens a root addressed to the owner when they have
   * none on the piece, and otherwise becomes a reply to that root.
   */
  lemma RecipientStartRouting(pieces: seq<PieceRow>, sent: seq<SentRow>, cs: seq<CommentRow>,
                              caller: UserId, piece: PieceId, text: Option<string>)
    requires piece < |pieces| && caller != pieces[piece].owner && HasReceived(sent, caller, piece) && TextGiven(text)
    ensures var owner := pieces[piece].owner;
      PlanComment(pieces, sent, cs, caller, piece, text, None)
        == Ok(Plan(owner, FindRoot(cs, piece, caller, owner), Strip(text.value)))
  {
  }

  /** The owner replying with a root's id answers that root's sender, under that root. */
  lemma OwnerReplyRouting(pieces: seq<PieceRow>, sent: seq<SentRow>, cs: seq<CommentRow>,
                          piece: PieceId, text: Option<string>, t: CommentId)
    requires piece < |pieces| && TextGiven(text)
    requires t < |cs| && IsRootOf(cs[t], piece, cs[t].sender, pieces[piece].owner)
    ensures PlanComment(pieces, sent, cs, pieces[piece].owner, piece, text, Some(t))
      == Ok(Plan(if pieces[piece].owner == cs[t].sender then cs[t].recipient else cs[t].sender, Some(t), Strip(text.value)))
  {
  }

  /**
   * Two "start" posts by the same recipient: once the first has opened the
   * thread (no root existed, so it was stored as one), the second is planned
   * as a reply under it, to the owner, and no second root is opened.
   */
  lemma StartTwiceCoalesces(pieces: seq<PieceRow>, sent: seq<SentRow>, cs: seq<CommentRow>,
                            caller: UserId, piece: PieceId, text1: string, text2: string, now1: Time)
    requires piece < |pieces| && caller != pieces[piece].owner && HasReceived(sent, caller, piece)
    requires TextGiven(Some(text1)) && TextGiven(Some(text2))
    requires FindRoot(cs, piece, caller, pieces[piece].owner).None?
    ensures var owner := pieces[piece].owner;
      var first := PlanComment(pieces, sent, cs, caller, piece, Some(text1), None);
      && first == Ok(Plan(owner, None, Strip(text1)))
      && PlanComment(pieces, sent, cs + [CommentRow(|cs|, caller, owner, piece, Strip(text1), None, now1)], caller, piece, Some(text2), None)
         == Ok(Plan(owner, Some(|cs|), Strip(text2)))
  {
    var owner := pieces[piece].owner;
    var c1 := cs + [CommentRow(|cs|, caller, owner, piece, Strip(text1), None, now1)];
    RecipientStartRouting(pieces, sent, cs, caller, piece, Some(text1));
    RecipientStartRouting(pieces, sent, c1, caller, piece, Some(text2));
    assert IsRootOf(c1[|c1| - 1], piece, caller, owner);
  }

  // ---------------------------------------------------------------------
  // my_shared_art: the reply path
  // ---------------------------------------------------------------------

  /** The thread root above comment `i`: the comment itself or its parent. */
  function RootOf(cs: seq<CommentRow>, i: CommentId): (r: CommentId)
    requires CommentsWellFormed(cs) && i < |cs|
    ensures r < |cs| && cs[r].parent.None? && cs[r].piece == cs[i].piece
    ensures cs[i].parent.None? ==> r == i
    ensures cs[i].parent.Some? ==> r == cs[i].parent.value
    decreases i
  {
    if cs[i].parent.None? then i else RootOf(cs, cs[i].parent.value)
  }

  datatype ReplyOutcome = CommentNotFound | PageShown | Replied(reply: CommentRow)

  /**
   * The hx-request branch of `my_shared_art`: 404 for an unknown comment id;
   * otherwise walk up to the root, and with valid text store a reply from the
   * current user to the root's sender, on the root's piece, under the root.
   * Invalid text falls through to the normal page.  This path checks no
   * participation and sends no notification.
   */
  method ReplyViaSharedArt(db: Db, user: UserId, commentId: Option<CommentId>, text: Option<string>, now: Time)
    returns (o: ReplyOutcome)
    requires db.Valid()
    modifies db`comments
    ensures db.Valid()
    ensures (commentId.None? || commentId.value >= |old(db.comments)|) ==> o == CommentNotFound && db.comments == old(db.comments)
    ensures commentId.Some? && commentId.value < |old(db.comments)| && !TextGiven(text) ==>
      o == PageShown && db.comments == old(db.comments)
    ensures commentId.Some? && commentId.value < |old(db.comments)| && TextGiven(text) ==>
      var top := old(db.comments)[RootOf(old(db.comments), commentId.value)];
      && o == Replied(CommentRow(|old(db.comments)|, user, top.sender, top.piece, Strip(text.value), Some(top.id), now))
      && db.comments == old(db.comments) + [o.reply]
  {
    if commentId.None? || commentId.value >= |db.comments| {
      return CommentNotFound;
    }
    var current := db.comments[commentId.value];
    while current.parent.Some?
      invariant current.id < |db.comments| && db.comments[current.id] == current
      invariant RootOf(db.comments, current.id) == RootOf(db.comments, commentId.value)
      decreases current.id
    {
      current := db.comments[current.parent.value];
    }
    var top := current;
    if !TextGiven(text) {
      return PageShown;
    }
    var reply := CommentRow(|db.comments|, user, top.sender, top.piece, Strip(text.value), Some(top.id), now);
    StoreComment(db, reply);
    o := Replied(reply);
  }

  // ---------------------------------------------------------------------
  // Read side: creation order and grouping by the other participant
  // ---------------------------------------------------------------------

  function CreatedAt(c: CommentRow): int { c.createdAt }

  predicate SortedBy<T>(s: seq<T>, key: T -> int) {
    forall i, j :: 0 <= i < j < |s| ==> key(s[i]) <= key(s[j])
  }

  /** `x` placed before the first element with a larger key. */
  function Insert<T(==)>(x: T, s: seq<T>, key: T -> int): (r: seq<T>)
    ensures multiset(r) == multiset(s) + multiset{x}
    ensures |r| == |s| + 1
    ensures forall y :: y in r ==> y == x || y in s
  {
    if |s| == 0 then [x]
    else if key(x) <= key(s[0]) then [x] + s
    else
      assert s == [s[0]] + s[1..];
      [s[0]] + Insert(x, s[1..], key)
  }

  lemma {:induction false} InsertSorted<T>(x: T, s: seq<T>, key: T -> int)
    requires SortedBy(s, key)
    ensures SortedBy(Insert(x, s, key), key)
  {
    if |s| > 0 && key(x) > key(s[0]) {
      var tail := s[1..];
      var rest := Insert(x, tail, key);
      InsertSorted(x, tail, key);
      forall y | y in tail ensures key(s[0]) <= key(y) {
        var k :| 0 <= k < |tail| && tail[k] == y;
        assert s[k + 1] == y;
      }
      var r := [s[0]] + rest;
      assert Insert(x, s, key) == r;
      forall i, j | 0 <= i < j < |r| ensures key(r[i]) <= key(r[j]) {
        assert r[j] == rest[j - 1];
        assert rest[j - 1] in rest;
        if i > 0 {
          assert r[i] == rest[i - 1];
        }
      }
    }
  }

  /** An insertion sort: `order_by(...)` on a key. */
  function SortBy<T(==)>(s: seq<T>, key: T -> int): (r: seq<T>)
    ensures SortedBy(r, key)
    ensures multiset(r) == multiset(s)
  {
    if |s| == 0 then []
    else
      assert s == [s[0]] + s[1..];
      InsertSorted(s[0], SortBy(s[1..], key), key);
      Insert(s[0], SortBy(s[1..], key), key)
  }

  /** One conversation: the other participant and the messages exchanged with them. */
  datatype Conversation = Conversation(other: UserId, messages: seq<CommentRow>)

  /** `comment.recipient if comment.sender == user else comment.sender`. */
  function OtherParty(c: CommentRow, user: UserId): UserId {
    if c.sender == user then c.recipient else c.sender
  }

  /** The comments of `cs` exchanged with `other`, in order. */
  function WithOther(cs: seq<CommentRow>, user: UserId, other: UserId): seq<CommentRow> {
    Filter(cs, (c: CommentRow) => OtherParty(c, user) == other)
  }

  /** The position of the group for `other`. */
  function GroupIndex(groups: seq<Conversation>, other: UserId): (r: Option<nat>)
    ensures r.Some? ==> r.value < |groups| && groups[r.value].other == other
    ensures r.None? ==> forall k :: 0 <= k < |groups| ==> groups[k].other != other
  {
    if |groups| == 0 then None
    else if groups[|groups| - 1].other == other then Some(|groups| - 1)
    else GroupIndex(groups[..|groups| - 1], other)
  }

  /** `conversations[other].append(c)` on a dict kept as a sequence in insertion order. */
  function AddToGroups(groups: seq<Conversation>, c: CommentRow, user: UserId): seq<Conversation> {
    var other := OtherParty(c, user);
    match GroupIndex(groups, other)
    case Some(k) => groups[k := groups[k].(messages := groups[k].messages + [c])]
    case None => groups + [Conversation(other, [c])]
  }

  /** The dict the grouping loop builds from `cs`. */
  function Grouped(cs: seq<CommentRow>, user: UserId): seq<Conversation> {
    if |cs| == 0 then [] else AddToGroups(Grouped(cs[..|cs| - 1], user), cs[|cs| - 1], user)
  }

  predicate OthersDistinct(groups: seq<Conversation>) {
    forall i, j :: 0 <= i < j < |groups| ==> groups[i].other != groups[j].other
  }

  /** The keys of the dict. */
  function Keys(groups: seq<Conversation>): set<UserId> {
    set k | 0 <= k < |groups| :: groups[k].other
  }

  /** The participants other than `user` who appear in `cs`. */
  function Others(cs: seq<CommentRow>, user: UserId): set<UserId> {
    set c | c in cs :: OtherParty(c, user)
  }

  /** The grouping facts for `g` built from `cs`. */
  predicate GroupsOf(g: seq<Conversation>, cs: seq<CommentRow>, user: UserId) {
    && OthersDistinct(g)
    && Keys(g) == Others(cs, user)
    && forall k :: 0 <= k < |g| ==> g[k].messages == WithOther(cs, user, g[k].other)
  }

  lemma WithOtherSnoc(front: seq<CommentRow>, c: CommentRow, user: UserId, o: UserId)
    ensures OtherParty(c, user) == o ==> WithOther(front + [c], user, o) == WithOther(front, user, o) + [c]
    ensures OtherParty(c, user) != o ==> WithOther(front + [c], user, o) == WithOther(front, user, o)
  {
    assert (front + [c])[..|front|] == front;
    assert WithOther(front, user, o) + [] == WithOther(front, user, o);
  }

  /** One step of the loop keeps the grouping facts. */
  lemma AddToGroupsSpec(g: seq<Conversation>, front: seq<CommentRow>, c: CommentRow, user: UserId)
    requires GroupsOf(g, front, user)
    ensures GroupsOf(AddToGroups(g, c, user), front + [c], user)
  {
    var other := OtherParty(c, user);
    assert Others(front + [c], user) == Others(front, user) + {other} by {
      assert forall x :: x in front + [c] <==> x in front || x == c;
    }
    match GroupIndex(g, other)
    case Some(k) => AppendToGroup(g, front, c, user, k);
    case None => OpenGroup(g, front, c, user);
  }

  /** The step for a participant who already has a group. */
  lemma AppendToGroup(g: seq<Conversation>, front: seq<CommentRow>, c: CommentRow, user: UserId, k: nat)
    requires GroupsOf(g, front, user)
    requires k < |g| && g[k].other == OtherParty(c, user)
    requires Others(front + [c], user) == Others(front, user) + {OtherParty(c, user)}
    ensures GroupsOf(g[k := g[k].(messages := g[k].messages + [c])], front + [c], user)
  {
    var cs := front + [c];
    var r := g[k := g[k].(messages := g[k].messages + [c])];
    forall j | 0 <= j < |r| ensures r[j].messages == WithOther(cs, user, r[j].other) {
      WithOtherSnoc(front, c, user, r[j].other);
    }
    KeysUpdate(g, k, g[k].(messages := g[k].messages + [c]));
    assert OtherParty(c, user) in Keys(g);
  }

  /** No comment of `cs` is exchanged with `other`: the group would be empty. */
  lemma {:induction false} WithOtherNone(cs: seq<CommentRow>, user: UserId, other: UserId)
    requires forall x :: x in cs ==> OtherParty(x, user) != other
    ensures WithOther(cs, user, other) == []
  {
    if |cs| > 0 {
      var front := cs[..|cs| - 1];
      assert cs == front + [cs[|cs| - 1]];
      assert forall x :: x in front ==> x in cs;
      WithOtherNone(front, user, other);
      WithOtherSnoc(front, cs[|cs| - 1], user, other);
    }
  }

  /** The step for a participant seen for the first time. */
  lemma OpenGroup(g: seq<Conversation>, front: seq<CommentRow>, c: CommentRow, user: UserId)
    requires GroupsOf(g, front, user)
    requires forall k :: 0 <= k < |g| ==> g[k].other != OtherParty(c, user)
    requires Others(front + [c], user) == Others(front, user) + {OtherParty(c, user)}
    ensures GroupsOf(g + [Conversation(OtherParty(c, user), [c])], front + [c], user)
  {
    var cs := front + [c];
    var other := OtherParty(c, user);
    var r := g + [Conversation(other, [c])];
    assert other !in Keys(g);
    forall x | x in front ensures OtherParty(x, user) != other {
      assert OtherParty(x, user) in Others(front, user);
    }
    WithOtherNone(front, user, other);
    WithOtherSnoc(front, c, user, other);
    assert r[|g|].messages == WithOther(cs, user, other);
    KeepGroups(g, front, c, user);
    SnocGroupMessages(g, cs, user, Conversation(other, [c]));
    SnocDistinct(g, Conversation(other, [c]));
    KeysSnoc(g, Conversation(other, [c]));
  }

  /** The groups of the other participants are unchanged by a comment that is not theirs. */
  lemma KeepGroups(g: seq<Conversation>, front: seq<CommentRow>, c: CommentRow, user: UserId)
    requires forall k :: 0 <= k < |g| ==> g[k].messages == WithOther(front, user, g[k].other)
    requires forall k :: 0 <= k < |g| ==> g[k].other != OtherParty(c, user)
    ensures forall k :: 0 <= k < |g| ==> g[k].messages == WithOther(front + [c], user, g[k].other)
  {
    forall k | 0 <= k < |g| ensures g[k].messages == WithOther(front + [c], user, g[k].other) {
      WithOtherSnoc(front, c, user, g[k].other);
    }
  }

  lemma SnocGroupMessages(g: seq<Conversation>, cs: seq<CommentRow>, user: UserId, x: Conversation)
    requires forall k :: 0 <= k < |g| ==> g[k].messages == WithOther(cs, user, g[k].other)
    requires x.messages == WithOther(cs, user, x.other)
    ensures forall k :: 0 <= k < |g + [x]| ==> (g + [x])[k].messages == WithOther(cs, user, (g + [x])[k].other)
  {
    forall k | 0 <= k < |g + [x]| ensures (g + [x])[k].messages == WithOther(cs, user, (g + [x])[k].other) {
      if k < |g| {
        assert (g + [x])[k] == g[k];
      }
    }
  }

  lemma SnocDistinct(g: seq<Conversation>, x: Conversation)
    requires OthersDistinct(g)
    requires forall k :: 0 <= k < |g| ==> g[k].other != x.other
    ensures OthersDistinct(g + [x])
  {
    var r := g + [x];
    forall i, j | 0 <= i < j < |r| ensures r[i].other != r[j].other {
      assert r[i] == g[i];
      if j < |g| {
        assert r[j] == g[j];
      }
    }
  }

  lemma KeysUpdate(g: seq<Conversation>, k: nat, x: Conversation)
    requires k < |g| && x.other == g[k].other
    ensures Keys(g[k := x]) == Keys(g)
  {
    var r := g[k := x];
    forall u ensures u in Keys(r) <==> u in Keys(g) {
      if u in Keys(g) {
        var j :| 0 <= j < |g| && g[j].other == u;
        assert r[j].other == u;
      }
      if u in Keys(r) {
        var j :| 0 <= j < |r| && r[j].other == u;
        assert g[j].other == u;
      }
    }
  }

  lemma KeysSnoc(g: seq<Conversation>, x: Conversation)
    ensures Keys(g + [x]) == Keys(g) + {x.other}
  {
    var r := g + [x];
    forall u ensures u in Keys(r) <==> u in Keys(g) + {x.other} {
      assert r[|g|].other == x.other;
      if u in Keys(g) {
        var j :| 0 <= j < |g| && g[j].other == u;
        assert r[j].other == u;
      }
      if u in Keys(r) {
        var j :| 0 <= j < |r| && r[j].other == u;
        if j < |g| { assert g[j].other == u; }
      }
    }
  }

  /**
   * What grouping means: one group per other participant who appears, and
   * each group holds exactly the comments exchanged with that participant,
   * in their original order.
   */
  lemma {:induction false} GroupedSpec(cs: seq<CommentRow>, user: UserId)
    ensures OthersDistinct(Grouped(cs, user))
    ensures Keys(Grouped(cs, user)) == Others(cs, user)
    ensures forall k :: 0 <= k < |Grouped(cs, user)| ==>
      Grouped(cs, user)[k].messages == WithOther(cs, user, Grouped(cs, user)[k].other)
  {
    if |cs| == 0 {
      assert Others(cs, user) == {};
    } else {
      var front := cs[..|cs| - 1];
      GroupedSpec(front, user);
      assert cs == front + [cs[|cs| - 1]];
      AddToGroupsSpec(Grouped(front, user), front, cs[|cs| - 1], user);
    }
  }

  /** The grouping loop of `art_piece_detail` and `my_shared_art`. */
  method GroupConversations(cs: seq<CommentRow>, user: UserId) returns (groups: seq<Conversation>)
    ensures groups == Grouped(cs, user)
    ensures OthersDistinct(groups)
    ensures forall k :: 0 <= k < |groups| ==> groups[k].messages == WithOther(cs, user, groups[k].other)
    ensures Keys(groups) == Others(cs, user)
  {
    groups := [];
    for i := 0 to |cs|
      invariant groups == Grouped(cs[..i], user)
    {
      assert cs[..i + 1][..i] == cs[..i];
      var other := if cs[i].sender == user then cs[i].recipient else cs[i].sender;
      var k := GroupIndex(groups, other);
      if k.Some? {
        groups := groups[k.value := groups[k.value].(messages := groups[k.value].messages + [cs[i]])];
      } else {
        groups := groups + [Conversation(other, [cs[i]])];
      }
    }
    assert cs[..|cs|] == cs;
    GroupedSpec(cs, user);
  }

  // ---------------------------------------------------------------------
  // art_piece_detail
  // ---------------------------------------------------------------------

  /** The comments on `piece` that `user` sent or received. */
  function Involving(cs: seq<CommentRow>, piece: PieceId, user: UserId): seq<CommentRow> {
    Filter(cs, (c: CommentRow) => c.piece == piece && (c.sender == user || c.recipient == user))
  }

  /** The comments on `piece` between `a` and `b`, in either direction. */
  function Between(cs: seq<CommentRow>, piece: PieceId, a: UserId, b: UserId): seq<CommentRow> {
    Filter(cs, (c: CommentRow) => c.piece == piece && ((c.sender == a && c.recipient == b) || (c.sender == b && c.recipient == a)))
  }

  datatype DetailView =
    | DetailNotFound
    | OwnerMode(conversations: seq<Conversation>)
    | RecipientMode(thread: seq<CommentRow>)

  /**
   * `art_piece_detail`: 404 unless the viewer owns the piece or received it;
   * the owner sees the comments involving them grouped by the other
   * participant, a recipient sees only their thread with the owner, both in
   * creation order.
   */
  method ArtPieceDetail(db: Db, viewer: UserId, piece: PieceId) returns (v: DetailView)
    ensures v.DetailNotFound? <==>
      piece >= |db.pieces| || (viewer != db.pieces[piece].owner && !HasReceived(db.sent, viewer, piece))
    ensures v.OwnerMode? ==>
      && piece < |db.pieces| && viewer == db.pieces[piece].owner
      && v.conversations == Grouped(SortBy(Involving(db.comments, piece, viewer), CreatedAt), viewer)
    ensures v.RecipientMode? ==>
      && piece < |db.pieces| && viewer != db.pieces[piece].owner && HasReceived(db.sent, viewer, piece)
      && SortedBy(v.thread, CreatedAt)
      && multiset(v.thread) == multiset(Between(db.comments, piece, viewer, db.pieces[piece].owner))
  {
    if piece >= |db.pieces| {
      return DetailNotFound;
    }
    var owner := db.pieces[piece].owner;
    var isOwner := viewer == owner;
    var hasReceived := FindSent(db.sent, viewer, piece).Some?;
    if !(isOwner || hasReceived) {
      return DetailNotFound;
    }
    if isOwner {
      var qs := SortBy(Involving(db.comments, piece, viewer), CreatedAt);
      var conversations := GroupConversations(qs, viewer);
      return OwnerMode(conversations);
    }
    var qs := SortBy(Between(db.comments, piece, viewer, owner), CreatedAt);
    v := RecipientMode(qs);
  }

  /** Everything the owner's page shows is a comment on the piece that involves the owner. */
  lemma OwnerModeContents(cs: seq<CommentRow>, piece: PieceId, owner: UserId)
    ensures var groups := Grouped(SortBy(Involving(cs, piece, owner), CreatedAt), owner);
      forall k, m :: 0 <= k < |groups| && 0 <= m < |groups[k].messages| ==>
        var c := groups[k].messages[m];
        c in cs && c.piece == piece && (c.sender == owner || c.recipient == owner) && OtherParty(c, owner) == groups[k].other
  {
    var qs := SortBy(Involving(cs, piece, owner), CreatedAt);
    var groups := Grouped(qs, owner);
    GroupedSpec(qs, owner);
    forall k, m | 0 <= k < |groups| && 0 <= m < |groups[k].messages|
      ensures var c := groups[k].messages[m];
        c in cs && c.piece == piece && (c.sender == owner || c.recipient == owner) && OtherParty(c, owner) == groups[k].other
    {
      var c := groups[k].messages[m];
      assert c in WithOther(qs, owner, groups[k].other);
      assert c in multiset(qs);
    }
  }

  // ---------------------------------------------------------------------
  // The owner's thread list, newest activity first
  // ---------------------------------------------------------------------

  /** The time of the most recent message of a conversation. */
  function LatestActivity(g: Conversation): int {
    Latest(g.messages)
  }

  /** The largest creation time in `ms` (0 for no messages). */
  function Latest(ms: seq<CommentRow>): (t: int)
    ensures forall m :: m in ms ==> m.createdAt <= t
    ensures |ms| > 0 ==> exists m :: m in ms && m.createdAt == t
  {
    if |ms| == 0 then 0
    else if |ms| == 1 then ms[0].createdAt
    else
      var front := ms[..|ms| - 1];
      assert forall m :: m in ms ==> m in front || m == ms[|ms| - 1];
      Max(Latest(front), ms[|ms| - 1].createdAt)
  }

  function NegLatest(g: Conversation): int { -LatestActivity(g) }

  /** Ascending by `NegLatest` is descending by latest activity. */
  lemma NewestFirst(r: seq<Conversation>)
    requires SortedBy(r, NegLatest)
    ensures forall i, j :: 0 <= i < j < |r| ==> LatestActivity(r[i]) >= LatestActivity(r[j])
  {
    forall i, j | 0 <= i < j < |r| ensures LatestActivity(r[i]) >= LatestActivity(r[j]) {
      assert NegLatest(r[i]) <= NegLatest(r[j]);
    }
  }

  /** The owner's conversations ordered by latest activity, newest first. */
  function ThreadsByLatest(groups: seq<Conversation>): (r: seq<Conversation>)
    ensures multiset(r) == multiset(groups)
    ensures forall i, j :: 0 <= i < j < |r| ==> LatestActivity(r[i]) >= LatestActivity(r[j])
  {
    var r := SortBy(groups, NegLatest);
    NewestFirst(r);
    r
  }

  // ---------------------------------------------------------------------
  // my_shared_art: the conversations dict
  // ---------------------------------------------------------------------

  function CommentsOn(cs: seq<CommentRow>, piece: PieceId): seq<CommentRow> {
    Filter(cs, (c: CommentRow) => c.piece == piece)
  }

  /** The pieces that get an entry: the user's own pieces with at least one comment. */
  predicate HasConversations(pieces: seq<PieceRow>, cs: seq<CommentRow>, user: UserId, p: PieceId) {
    p < |pieces| && pieces[p].owner == user && CommentsOn(cs, p) != []
  }

  /** The inner loop of `my_shared_art` for one piece: None when it has no comments. */
  method PieceConversations(cs: seq<CommentRow>, piece: PieceId, user: UserId) returns (r: Option<seq<Conversation>>)
    ensures r.None? <==> CommentsOn(cs, piece) == []
    ensures r.Some? ==> r.value == Grouped(SortBy(CommentsOn(cs, piece), CreatedAt), user)
  {
    var comments := SortBy(CommentsOn(cs, piece), CreatedAt);
    if |comments| == 0 {
      assert multiset(CommentsOn(cs, piece)) == multiset{};
      return None;
    }
    var groups := GroupConversations(comments, user);
    r := Some(groups);
  }

  /**
   * The loop of `my_shared_art` over the user's pieces: a piece gets an entry
   * only when it has comments, and the entry groups all of its comments, in
   * creation order, by the participant other than the user.
   */
  method MySharedArtConversations(db: Db, user: UserId) returns (conversations: map<PieceId, seq<Conversation>>)
    ensures forall p: PieceId :: p in conversations <==> HasConversations(db.pieces, db.comments, user, p)
    ensures forall p: PieceId :: p in conversations ==> conversations[p] == Grouped(SortBy(CommentsOn(db.comments, p), CreatedAt), user)
  {
    conversations := map[];
    for i := 0 to |db.pieces|
      invariant forall p: PieceId :: p in conversations <==> p < i && HasConversations(db.pieces, db.comments, user, p)
      invariant forall p: PieceId :: p in conversations ==> conversations[p] == Grouped(SortBy(CommentsOn(db.comments, p), CreatedAt), user)
    {
      if db.pieces[i].owner == user {
        var groups := PieceConversations(db.comments, i, user);
        if groups.Some? {
          conversations := conversations[i := groups.value];
        }
      }
    }
  }
}
