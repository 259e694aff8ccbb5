/**
 * The `share_weekly_art` management command (`Command.handle` in
 * main/management/commands/share_weekly_art.py): select the subscribed
 * users, optionally narrow to one e-mail and the first N by id, and run the
 * weekly share for each, counting what happened.
 *
 * The k-th processed user's random draw is `pick(k)` and whether the mailer
 * raises for them is `mailerFails(k)`.
 */
module WeeklyCommand {
  import opened Common
  import opened Models
  import Sharing
  import Distribution

  /** `receive_art_paused=False, email_on_art_shared=True`. */
  predicate Subscribed(u: UserRow) {
    !u.receiveArtPaused && u.emailOnArtShared
  }

  /** The `--only-email` filter; an empty option selects everyone. */
  predicate EmailMatches(u: UserRow, onlyEmail: string) {
    onlyEmail == "" || u.email == onlyEmail
  }

  /** The users the queryset yields before any limit, in table (= id) order. */
  function Matching(users: seq<UserRow>, onlyEmail: string): seq<UserRow> {
    Filter(users, (u: UserRow) => Subscribed(u) && EmailMatches(u, onlyEmail))
  }

  function Min(a: nat, b: nat): nat { if a <= b then a else b }

  /**
   * The queryset after `--limit`: the option is applied only when it is
   * truthy, so an absent or zero limit keeps every matching user.  A negative
   * limit is rejected before this point.
   */
  function SelectedUsers(users: seq<UserRow>, onlyEmail: string, limit: Option<nat>): (r: seq<UserRow>)
    ensures forall u :: u in r ==> u in users && Subscribed(u) && EmailMatches(u, onlyEmail)
    ensures (limit.None? || limit == Some(0)) ==>
      forall u :: u in users && Subscribed(u) && EmailMatches(u, onlyEmail) ==> u in r
    ensures limit.Some? && limit.value > 0 ==>
      |r| == Min(limit.value, |Matching(users, onlyEmail)|) && r <= Matching(users, onlyEmail)
  {
    var all := Matching(users, onlyEmail);
    var r := if limit.Some? && limit.value > 0 then all[..Min(limit.value, |all|)] else all;
    assert forall u :: u in r ==> u in all;
    r
  }

  /** A filter keeps the relative order of what it keeps. */
  lemma {:induction false} FilterKeepsOrder(users: seq<UserRow>, f: UserRow -> bool)
    requires UsersOrdered(users)
    ensures UsersOrdered(Filter(users, f))
  {
    if |users| > 0 {
      var front := users[..|users| - 1];
      var last := users[|users| - 1];
      assert forall i, j :: 0 <= i < j < |front| ==> front[i] == users[i] && front[j] == users[j];
      FilterKeepsOrder(front, f);
      var kept := Filter(front, f);
      forall u | u in kept ensures u.id < last.id {
        var k :| 0 <= k < |front| && front[k] == u;
        assert users[k] == u;
      }
      if f(last) {
        SnocOrdered(kept, last);
      }
    }
  }

  /** Appending a user whose id exceeds every id present keeps the order. */
  lemma SnocOrdered(users: seq<UserRow>, last: UserRow)
    requires UsersOrdered(users)
    requires forall u :: u in users ==> u.id < last.id
    ensures UsersOrdered(users + [last])
  {
    var r := users + [last];
    forall i, j | 0 <= i < j < |r| ensures r[i].id < r[j].id {
      assert r[i] == users[i];
      if j < |users| {
        assert r[j] == users[j];
      } else {
        assert users[i] in users;
      }
    }
  }

  /**
   * `--limit N` takes the N matching users with the smallest ids: every
   * matching user left out has a larger id than every user kept.
   */
  lemma LimitTakesSmallestIds(users: seq<UserRow>, onlyEmail: string, n: nat)
    requires UsersOrdered(users) && n > 0
    ensures var r := SelectedUsers(users, onlyEmail, Some(n));
      forall u, v :: u in Matching(users, onlyEmail) && u !in r && v in r ==> v.id < u.id
  {
    var all := Matching(users, onlyEmail);
    var r := SelectedUsers(users, onlyEmail, Some(n));
    FilterKeepsOrder(users, (u: UserRow) => Subscribed(u) && EmailMatches(u, onlyEmail));
    assert r == all[..|r|];
    forall u, v | u in all && u !in r && v in r ensures v.id < u.id {
      var i :| 0 <= i < |all| && all[i] == u;
      var j :| 0 <= j < |r| && r[j] == v;
      assert all[j] == v;
      if i < |r| {
        assert r[i] == u;
      }
    }
  }

  datatype Counters = Counters(processed: nat, sentOk: nat, skipped: nat, failed: nat)

  type Outcome = Result<Option<PieceId>, Sharing.Failure>

  /** One iteration's effect on the counters. */
  function Step(c: Counters, o: Outcome, dry: bool): Counters {
    var c := c.(processed := c.processed + 1);
    match o
    case Err(_) => c.(failed := c.failed + 1)
    case Ok(Some(_)) => if dry then c else c.(sentOk := c.sentOk + 1)
    case Ok(None) => c.(skipped := c.skipped + 1)
  }

  /** The outcome of a user whose share raised. */
  predicate Failed(o: Outcome) { o.Err? }

  /** The outcome of a user who was given a piece. */
  predicate GotPiece(o: Outcome) { o.Ok? && o.value.Some? }

  /** The outcome of a user with no eligible piece. */
  predicate GotNothing(o: Outcome) { o.Ok? && o.value.None? }

  /** The counters after a run with the given per-user outcomes. */
  function Tally(outcomes: seq<Outcome>, dry: bool): (c: Counters)
    ensures c.processed == |outcomes|
    ensures !dry ==> c.processed == c.sentOk + c.skipped + c.failed
    ensures dry ==> c.sentOk == 0 && c.skipped + c.failed <= c.processed
    ensures c.failed == |Filter(outcomes, Failed)|
    ensures c.sentOk == if dry then 0 else |Filter(outcomes, GotPiece)|
    ensures c.skipped == |Filter(outcomes, GotNothing)|
  {
    if |outcomes| == 0 then Counters(0, 0, 0, 0)
    else Step(Tally(outcomes[..|outcomes| - 1], dry), outcomes[|outcomes| - 1], dry)
  }

  /** The ids of a list of users. */
  function Ids(users: seq<UserRow>): set<UserId> {
    set u | u in users :: u.id
  }

  /** `after` is `before` followed only by weekly SentArtPiece rows for users in `ids`. */
  predicate WeeklyRowsAdded(before: seq<SentRow>, after: seq<SentRow>, ids: set<UserId>) {
    && |before| <= |after| && after[..|before|] == before
    && forall i :: |before| <= i < |after| ==> after[i].source == Weekly && after[i].user in ids
  }

  /** `after` is `before` followed only by shared-art notifications to users in `ids`. */
  predicate SharedArtNotesAdded(before: seq<NotificationRow>, after: seq<NotificationRow>, ids: set<UserId>) {
    && |before| <= |after| && after[..|before|] == before
    && forall i :: |before| <= i < |after| ==> after[i].kind == SharedArtNote && after[i].recipient in ids
  }

  /** `after` is `before` followed only by shared-art e-mail requests to users in `ids`. */
  predicate SharedArtEmailsAdded(before: seq<Event>, after: seq<Event>, ids: set<UserId>) {
    && |before| <= |after| && after[..|before|] == before
    && forall i :: |before| <= i < |after| ==> after[i].SharedArtEmail? && after[i].recipient in ids
  }

  /** Two extensions in a row are one extension, which agrees with the middle on the middle's range. */
  lemma PrefixTrans<T>(a: seq<T>, b: seq<T>, c: seq<T>)
    requires |a| <= |b| <= |c| && b[..|a|] == a && c[..|b|] == b
    ensures c[..|a|] == a
    ensures forall i :: |a| <= i < |b| ==> c[i] == b[i]
  {
    assert c[..|a|] == c[..|b|][..|a|];
    forall i | |a| <= i < |b| ensures c[i] == b[i] {
      assert c[..|b|][i] == c[i];
    }
  }

  lemma WeeklyRowsAddedTrans(a: seq<SentRow>, b: seq<SentRow>, c: seq<SentRow>, ids: set<UserId>, more: set<UserId>)
    requires WeeklyRowsAdded(a, b, ids) && WeeklyRowsAdded(b, c, more)
    ensures WeeklyRowsAdded(a, c, ids + more)
  {
    PrefixTrans(a, b, c);
  }

  lemma SharedArtNotesAddedTrans(a: seq<NotificationRow>, b: seq<NotificationRow>, c: seq<NotificationRow>, ids: set<UserId>, more: set<UserId>)
    requires SharedArtNotesAdded(a, b, ids) && SharedArtNotesAdded(b, c, more)
    ensures SharedArtNotesAdded(a, c, ids + more)
  {
    PrefixTrans(a, b, c);
  }

  lemma SharedArtEmailsAddedTrans(a: seq<Event>, b: seq<Event>, c: seq<Event>, ids: set<UserId>, more: set<UserId>)
    requires SharedArtEmailsAdded(a, b, ids) && SharedArtEmailsAdded(b, c, more)
    ensures SharedArtEmailsAdded(a, c, ids + more)
  {
    PrefixTrans(a, b, c);
  }

  /** A row present before an append-only change is still present after it. */
  lemma FindSentKept(before: seq<SentRow>, after: seq<SentRow>, user: UserId, piece: PieceId)
    requires |before| <= |after| && after[..|before|] == before
    requires FindSent(before, user, piece).Some?
    ensures FindSent(after, user, piece).Some?
  {
    var s := FindSent(before, user, piece).value;
    var k :| 0 <= k < |before| && before[k] == s;
    assert after[k] == s;
  }

  /** An unchanged table, or one with a single weekly row for a user in `ids` appended. */
  lemma WeeklyRowAdded(before: seq<SentRow>, after: seq<SentRow>, ids: set<UserId>)
    requires after == before || (|after| == |before| + 1 && after[..|before|] == before
                                 && after[|before|].source == Weekly && after[|before|].user in ids)
    ensures WeeklyRowsAdded(before, after, ids)
  {
    assert before[..|before|] == before;
  }

  /** A get-or-create of a shared-art notification to a user in `ids` only adds such notifications. */
  lemma SharedArtNoteAdded(before: seq<NotificationRow>, after: seq<NotificationRow>,
                           recipient: UserId, sender: UserId, piece: PieceId, ids: set<UserId>)
    requires Sharing.SharedArtNoteWritten(before, after, recipient, sender, piece) && recipient in ids
    ensures SharedArtNotesAdded(before, after, ids)
  {
    assert before[..|before|] == before;
    if after != before {
      assert after[..|before|] == before;
    }
  }

  /** An unchanged outbox, or one with a single shared-art e-mail request to a user in `ids` appended. */
  lemma SharedArtEmailAdded(before: seq<Event>, after: seq<Event>, ids: set<UserId>)
    requires after == before || (|after| == |before| + 1 && after[..|before|] == before
                                 && after[|before|].SharedArtEmail? && after[|before|].recipient in ids)
    ensures SharedArtEmailsAdded(before, after, ids)
  {
    assert before[..|before|] == before;
  }

  /**
   * The `try` block of one iteration.  A completed share returns what
   * `share_weekly_to_user` chose; a real run only appends weekly rows,
   * shared-art notifications and e-mail requests for this user.
   */
  method TryShare(db: Db, user: UserRow, dry: bool, pick: nat, now: Time, mailerFails: bool, ghost ids: set<UserId>)
    returns (o: Outcome)
    requires db.Valid() && user.id in ids
    modifies db`sent, db`notifications, db`outbox
    ensures db.Valid()
    ensures o.Err? ==> !dry && mailerFails
    ensures o.Ok? ==>
      o.value == if user.receiveArtPaused then None else Distribution.ChooseArtPiece(db.pieces, old(db.sent), user.id, pick)
    ensures !dry && o.Ok? && o.value.Some? ==> FindSent(db.sent, user.id, o.value.value).Some?
    ensures dry ==> db.sent == old(db.sent) && db.notifications == old(db.notifications) && db.outbox == old(db.outbox)
    ensures WeeklyRowsAdded(old(db.sent), db.sent, ids)
    ensures SharedArtNotesAdded(old(db.notifications), db.notifications, ids)
    ensures SharedArtEmailsAdded(old(db.outbox), db.outbox, ids)
  {
    ghost var sent0, notes0, outbox0 := db.sent, db.notifications, db.outbox;
    ghost var choice := Distribution.ChooseArtPiece(db.pieces, db.sent, user.id, pick);
    o := Sharing.ShareWeeklyToUser(db, user, dry, pick, now, mailerFails);
    if user.receiveArtPaused || choice.None? || dry {
      WeeklyRowAdded(sent0, db.sent, ids);
      SharedArtEmailAdded(outbox0, db.outbox, ids);
      assert notes0[..|notes0|] == notes0;
    } else {
      var art := choice.value;
      var owner := db.pieces[art].owner;
      assert db.sent[..|sent0|] == sent0;
      assert db.sent[|sent0|] == SentRow(user.id, art, Weekly, now, None);
      WeeklyRowAdded(sent0, db.sent, ids);
      SharedArtNoteAdded(notes0, db.notifications, user.id, owner, art, ids);
      assert db.outbox[..|outbox0|] == outbox0;
      SharedArtEmailAdded(outbox0, db.outbox, ids);
      if o.Ok? {
        assert db.sent[|sent0|] in db.sent;
      }
    }
  }

  /**
   * One iteration of the loop: count the user, run the weekly share (the
   * `try` block), and bump the counter its outcome selects.
   */
  method ProcessUser(db: Db, user: UserRow, dry: bool, pick: nat, now: Time, mailerFails: bool, c: Counters,
                     ghost ids: set<UserId>)
    returns (next: Counters, o: Outcome)
    requires db.Valid() && user.id in ids
    modifies db`sent, db`notifications, db`outbox
    ensures db.Valid()
    ensures next == Step(c, o, dry)
    ensures o.Err? ==> !dry && mailerFails
    ensures o.Ok? ==>
      o.value == if user.receiveArtPaused then None else Distribution.ChooseArtPiece(db.pieces, old(db.sent), user.id, pick)
    ensures !dry && o.Ok? && o.value.Some? ==> FindSent(db.sent, user.id, o.value.value).Some?
    ensures dry ==> db.sent == old(db.sent) && db.notifications == old(db.notifications) && db.outbox == old(db.outbox)
    ensures WeeklyRowsAdded(old(db.sent), db.sent, ids)
    ensures SharedArtNotesAdded(old(db.notifications), db.notifications, ids)
    ensures SharedArtEmailsAdded(old(db.outbox), db.outbox, ids)
  {
    next := c.(processed := c.processed + 1);
    o := TryShare(db, user, dry, pick, now, mailerFails, ids);
    match o {
      case Err(_) =>
        next := next.(failed := next.failed + 1);
      case Ok(Some(_)) =>
        if !dry {
          next := next.(sentOk := next.sentOk + 1);
        }
      case Ok(None) =>
        next := next.(skipped := next.skipped + 1);
    }
  }

  /** A failure is recorded for the k-th user only where the mailer raised outside a dry run. */
  ghost predicate FailuresMatch(outcomes: seq<Outcome>, dry: bool, mailerFails: nat -> bool) {
    forall j :: 0 <= j < |outcomes| && outcomes[j].Err? ==> !dry && mailerFails(j)
  }

  /** A completed share of the k-th user is the k-th expected choice. */
  ghost predicate ChoicesMatch(outcomes: seq<Outcome>, expected: seq<Option<PieceId>>) {
    forall j :: 0 <= j < |outcomes| && j < |expected| && outcomes[j].Ok? ==> outcomes[j].value == expected[j]
  }

  lemma FailuresMatchSnoc(outcomes: seq<Outcome>, dry: bool, mailerFails: nat -> bool, o: Outcome)
    requires FailuresMatch(outcomes, dry, mailerFails)
    requires o.Err? ==> !dry && mailerFails(|outcomes|)
    ensures FailuresMatch(outcomes + [o], dry, mailerFails)
  {
    var os := outcomes + [o];
    forall j | 0 <= j < |os| && os[j].Err? ensures !dry && mailerFails(j) {
      if j < |outcomes| {
        assert os[j] == outcomes[j];
      }
    }
  }

  lemma ChoicesMatchSnoc(outcomes: seq<Outcome>, expected: seq<Option<PieceId>>, o: Outcome)
    requires ChoicesMatch(outcomes, expected)
    requires |outcomes| < |expected| && (o.Ok? ==> o.value == expected[|outcomes|])
    ensures ChoicesMatch(outcomes + [o], expected)
  {
    var os := outcomes + [o];
    forall j | 0 <= j < |os| && j < |expected| && os[j].Ok? ensures os[j].value == expected[j] {
      if j < |outcomes| {
        assert os[j] == outcomes[j];
      }
    }
  }

  /** The ids of one more user. */
  lemma IdsSnoc(users: seq<UserRow>, k: nat)
    requires k < |users|
    ensures Ids(users[..k + 1]) == Ids(users[..k]) + {users[k].id}
  {
    assert users[..k + 1] == users[..k] + [users[k]];
  }

  /** In id order, a user's id is not among the ids of the users before it. */
  lemma LaterIdIsNew(users: seq<UserRow>, k: nat)
    requires UsersOrdered(users) && k < |users|
    ensures users[k].id !in Ids(users[..k])
  {
  }

  /** The selected users keep the table's id order. */
  lemma SelectedOrdered(users: seq<UserRow>, onlyEmail: string, limit: Option<nat>)
    requires UsersOrdered(users)
    ensures UsersOrdered(SelectedUsers(users, onlyEmail, limit))
  {
    FilterKeepsOrder(users, (u: UserRow) => Subscribed(u) && EmailMatches(u, onlyEmail));
    var all := Matching(users, onlyEmail);
    var r := SelectedUsers(users, onlyEmail, limit);
    assert r == all[..|r|];
    forall i, j | 0 <= i < j < |r| ensures r[i].id < r[j].id {
      assert r[i] == all[i] && r[j] == all[j];
    }
  }

  /** Every piece a real run reports sent to the k-th user has its SentArtPiece row. */
  ghost predicate SentRecorded(sent: seq<SentRow>, users: seq<UserRow>, outcomes: seq<Outcome>, dry: bool) {
    forall j :: 0 <= j < |outcomes| && j < |users| && !dry && outcomes[j].Ok? && outcomes[j].value.Some? ==>
      FindSent(sent, users[j].id, outcomes[j].value.value).Some?
  }

  lemma SentRecordedSnoc(before: seq<SentRow>, after: seq<SentRow>, users: seq<UserRow>, outcomes: seq<Outcome>,
                         dry: bool, o: Outcome)
    requires SentRecorded(before, users, outcomes, dry)
    requires |before| <= |after| && after[..|before|] == before && |outcomes| < |users|
    requires !dry && o.Ok? && o.value.Some? ==> FindSent(after, users[|outcomes|].id, o.value.value).Some?
    ensures SentRecorded(after, users, outcomes + [o], dry)
  {
    var os := outcomes + [o];
    forall j | 0 <= j < |os| && j < |users| && !dry && os[j].Ok? && os[j].value.Some?
      ensures FindSent(after, users[j].id, os[j].value.value).Some?
    {
      if j < |outcomes| {
        assert os[j] == outcomes[j];
        FindSentKept(before, after, users[j].id, os[j].value.value);
      }
    }
  }

  /**
   * Weekly rows written for the users before the k-th one do not change the
   * k-th user's choice: in id order, none of them is that user's.
   */
  lemma ChoiceKept(pieces: seq<PieceRow>, sent0: seq<SentRow>, sent: seq<SentRow>, users: seq<UserRow>, k: nat, pick: nat)
    requires UsersOrdered(users) && k < |users|
    requires WeeklyRowsAdded(sent0, sent, Ids(users[..k]))
    ensures Distribution.ChooseArtPiece(pieces, sent, users[k].id, pick)
         == Distribution.ChooseArtPiece(pieces, sent0, users[k].id, pick)
  {
    LaterIdIsNew(users, k);
    Distribution.ChoiceIgnoresOtherUsers(pieces, sent0, sent, users[k].id, pick);
  }

  /** What the loop knows about the outcomes of the first |outcomes| users. */
  ghost predicate OutcomesSoFar(users: seq<UserRow>, outcomes: seq<Outcome>, counts: Counters, dry: bool,
                                mailerFails: nat -> bool, expected: seq<Option<PieceId>>) {
    && |outcomes| <= |users|
    && counts == Tally(outcomes, dry)
    && FailuresMatch(outcomes, dry, mailerFails)
    && ChoicesMatch(outcomes, expected)
  }

  lemma OutcomesSnoc(users: seq<UserRow>, outcomes: seq<Outcome>, counts: Counters, next: Counters, o: Outcome,
                     dry: bool, mailerFails: nat -> bool, expected: seq<Option<PieceId>>)
    requires OutcomesSoFar(users, outcomes, counts, dry, mailerFails, expected)
    requires |outcomes| < |users| && |outcomes| < |expected|
    requires next == Step(counts, o, dry)
    requires o.Err? ==> !dry && mailerFails(|outcomes|)
    requires o.Ok? ==> o.value == expected[|outcomes|]
    ensures OutcomesSoFar(users, outcomes + [o], next, dry, mailerFails, expected)
  {
    assert (outcomes + [o])[..|outcomes|] == outcomes;
    FailuresMatchSnoc(outcomes, dry, mailerFails, o);
    ChoicesMatchSnoc(outcomes, expected, o);
  }

  /** What the loop knows about the tables after the first |outcomes| users. */
  ghost predicate WritesSoFar(sent0: seq<SentRow>, notes0: seq<NotificationRow>, outbox0: seq<Event>,
                              sent: seq<SentRow>, notes: seq<NotificationRow>, outbox: seq<Event>,
                              users: seq<UserRow>, outcomes: seq<Outcome>, dry: bool) {
    && |outcomes| <= |users|
    && SentRecorded(sent, users, outcomes, dry)
    && (dry ==> sent == sent0 && notes == notes0 && outbox == outbox0)
    && WeeklyRowsAdded(sent0, sent, Ids(users[..|outcomes|]))
    && SharedArtNotesAdded(notes0, notes, Ids(users[..|outcomes|]))
    && SharedArtEmailsAdded(outbox0, outbox, Ids(users[..|outcomes|]))
  }

  lemma WritesSnoc(sent0: seq<SentRow>, notes0: seq<NotificationRow>, outbox0: seq<Event>,
                   sent: seq<SentRow>, notes: seq<NotificationRow>, outbox: seq<Event>,
                   sent1: seq<SentRow>, notes1: seq<NotificationRow>, outbox1: seq<Event>,
                   users: seq<UserRow>, outcomes: seq<Outcome>, dry: bool, o: Outcome)
    requires WritesSoFar(sent0, notes0, outbox0, sent, notes, outbox, users, outcomes, dry)
    requires |outcomes| < |users|
    requires !dry && o.Ok? && o.value.Some? ==> FindSent(sent1, users[|outcomes|].id, o.value.value).Some?
    requires dry ==> sent1 == sent && notes1 == notes && outbox1 == outbox
    requires WeeklyRowsAdded(sent, sent1, {users[|outcomes|].id})
    requires SharedArtNotesAdded(notes, notes1, {users[|outcomes|].id})
    requires SharedArtEmailsAdded(outbox, outbox1, {users[|outcomes|].id})
    ensures WritesSoFar(sent0, notes0, outbox0, sent1, notes1, outbox1, users, outcomes + [o], dry)
  {
    var k := |outcomes|;
    IdsSnoc(users, k);
    WeeklyRowsAddedTrans(sent0, sent, sent1, Ids(users[..k]), {users[k].id});
    SharedArtNotesAddedTrans(notes0, notes, notes1, Ids(users[..k]), {users[k].id});
    SharedArtEmailsAddedTrans(outbox0, outbox, outbox1, Ids(users[..k]), {users[k].id});
    SentRecordedSnoc(sent, sent1, users, outcomes, dry, o);
  }

  datatype CommandError = NegativeLimit

  /** The `--limit` option as `SelectedUsers` takes it, for a limit that is not negative. */
  function LimitOption(limit: Option<int>): Option<nat>
    requires !(limit.Some? && limit.value < 0)
  {
    if limit.Some? then Some(limit.value as nat) else None
  }

  lemma WritesStart(sent0: seq<SentRow>, notes0: seq<NotificationRow>, outbox0: seq<Event>, users: seq<UserRow>, dry: bool)
    ensures WritesSoFar(sent0, notes0, outbox0, sent0, notes0, outbox0, users, [], dry)
  {
    assert sent0[..|sent0|] == sent0 && notes0[..|notes0|] == notes0 && outbox0[..|outbox0|] == outbox0;
  }

  /** Once every user is processed, the tables changed only by weekly shares for these users. */
  lemma WritesDone(sent0: seq<SentRow>, notes0: seq<NotificationRow>, outbox0: seq<Event>,
                   sent: seq<SentRow>, notes: seq<NotificationRow>, outbox: seq<Event>,
                   users: seq<UserRow>, outcomes: seq<Outcome>, dry: bool)
    requires WritesSoFar(sent0, notes0, outbox0, sent, notes, outbox, users, outcomes, dry) && |outcomes| == |users|
    ensures SentRecorded(sent, users, outcomes, dry)
    ensures dry ==> sent == sent0 && notes == notes0 && outbox == outbox0
    ensures WeeklyRowsAdded(sent0, sent, Ids(users))
    ensures SharedArtNotesAdded(notes0, notes, Ids(users))
    ensures SharedArtEmailsAdded(outbox0, outbox, Ids(users))
  {
    assert users[..|users|] == users;
  }

  /** Once every user is processed, each completed share is that user's expected choice. */
  lemma ChoicesDone(pieces: seq<PieceRow>, sent0: seq<SentRow>, users: seq<UserRow>, pick: nat -> nat,
                    outcomes: seq<Outcome>, expected: seq<Option<PieceId>>)
    requires ChoicesMatch(outcomes, expected) && |outcomes| == |users| == |expected|
    requires forall j :: 0 <= j < |users| ==> expected[j] == Distribution.ChooseArtPiece(pieces, sent0, users[j].id, pick(j))
    ensures forall k :: 0 <= k < |outcomes| && outcomes[k].Ok? ==>
      outcomes[k].value == Distribution.ChooseArtPiece(pieces, sent0, users[k].id, pick(k))
  {
  }

  /**
   * One pass of the loop of `handle`, for the user after those already
   * processed: both loop facts extend to one more outcome.
   */
  method ShareNext(db: Db, users: seq<UserRow>, k: nat, dry: bool, pick: nat -> nat, mailerFails: nat -> bool, now: Time,
                   counts: Counters, ghost outcomes: seq<Outcome>, ghost sent0: seq<SentRow>,
                   ghost notes0: seq<NotificationRow>, ghost outbox0: seq<Event>, ghost expected: seq<Option<PieceId>>)
    returns (next: Counters, o: Outcome)
    requires db.Valid() && UsersOrdered(users) && k == |outcomes| < |users|
    requires forall u :: u in users ==> Subscribed(u)
    requires |expected| == |users| && expected[k] == Distribution.ChooseArtPiece(db.pieces, sent0, users[k].id, pick(k))
    requires OutcomesSoFar(users, outcomes, counts, dry, mailerFails, expected)
    requires WritesSoFar(sent0, notes0, outbox0, db.sent, db.notifications, db.outbox, users, outcomes, dry)
    modifies db`sent, db`notifications, db`outbox
    ensures db.Valid()
    ensures OutcomesSoFar(users, outcomes + [o], next, dry, mailerFails, expected)
    ensures WritesSoFar(sent0, notes0, outbox0, db.sent, db.notifications, db.outbox, users, outcomes + [o], dry)
  {
    ghost var sent, notes, outbox := db.sent, db.notifications, db.outbox;
    assert users[k] in users;
    ChoiceKept(db.pieces, sent0, sent, users, k, pick(k));
    next, o := ProcessUser(db, users[k], dry, pick(k), now, mailerFails(k), counts, {users[k].id});
    OutcomesSnoc(users, outcomes, counts, next, o, dry, mailerFails, expected);
    WritesSnoc(sent0, notes0, outbox0, sent, notes, outbox, db.sent, db.notifications, db.outbox, users, outcomes, dry, o);
  }

  /**
   * The `for user in qs.iterator()` loop of `handle` over the selected users:
   * one outcome per user, in order, the counters their tally, and the writes
   * confined to weekly shares for these users.  Since the ids are distinct,
   * the rows written for earlier users do not change a later user's pool, so
   * every completed share is the choice over the sent table the run started
   * with.
   */
  method ShareAll(db: Db, users: seq<UserRow>, dry: bool, pick: nat -> nat, mailerFails: nat -> bool, now: Time)
    returns (counts: Counters, ghost outcomes: seq<Outcome>)
    requires db.Valid() && UsersOrdered(users) && forall u :: u in users ==> Subscribed(u)
    modifies db`sent, db`notifications, db`outbox
    ensures db.Valid()
    ensures |outcomes| == |users|
    ensures counts == Tally(outcomes, dry)
    ensures FailuresMatch(outcomes, dry, mailerFails)
    ensures forall k :: 0 <= k < |outcomes| && outcomes[k].Ok? ==>
      outcomes[k].value == Distribution.ChooseArtPiece(db.pieces, old(db.sent), users[k].id, pick(k))
    ensures SentRecorded(db.sent, users, outcomes, dry)
    ensures dry ==> db.sent == old(db.sent) && db.notifications == old(db.notifications) && db.outbox == old(db.outbox)
    ensures WeeklyRowsAdded(old(db.sent), db.sent, Ids(users))
    ensures SharedArtNotesAdded(old(db.notifications), db.notifications, Ids(users))
    ensures SharedArtEmailsAdded(old(db.outbox), db.outbox, Ids(users))
  {
    outcomes := [];
    ghost var sent0, notes0, outbox0 := db.sent, db.notifications, db.outbox;
    ghost var pieces := db.pieces;
    ghost var expected := seq(|users|, j requires 0 <= j < |users| => Distribution.ChooseArtPiece(pieces, sent0, users[j].id, pick(j)));
    counts := Counters(0, 0, 0, 0);
    WritesStart(sent0, notes0, outbox0, users, dry);
    for k := 0 to |users|
      invariant db.Valid() && db.pieces == pieces
      invariant sent0 == old(db.sent) && notes0 == old(db.notifications) && outbox0 == old(db.outbox)
      invariant |outcomes| == k
      invariant OutcomesSoFar(users, outcomes, counts, dry, mailerFails, expected)
      invariant WritesSoFar(sent0, notes0, outbox0, db.sent, db.notifications, db.outbox, users, outcomes, dry)
    {
      var o;
      counts, o := ShareNext(db, users, k, dry, pick, mailerFails, now, counts, outcomes, sent0, notes0, outbox0, expected);
      outcomes := outcomes + [o];
    }
    WritesDone(sent0, notes0, outbox0, db.sent, db.notifications, db.outbox, users, outcomes, dry);
    ChoicesDone(pieces, sent0, users, pick, outcomes, expected);
  }

  /**
   * `handle`.  A negative `--limit` makes the slice raise before any user is
   * processed.  Otherwise every selected user is processed exactly once, in
   * order: the k-th outcome is, unless the mailer raised, the weekly choice
   * for the k-th user over the sent table the run started with.  A failure
   * for one user is counted and the loop goes on.  A real run only appends
   * weekly rows, shared-art notifications and e-mail requests for selected
   * users, and every piece it reports sent has exactly one row; a dry run
   * writes nothing.
   */
  method Handle(db: Db, onlyEmail: string, limit: Option<int>, dry: bool, pick: nat -> nat, mailerFails: nat -> bool, now: Time)
    returns (r: Result<Counters, CommandError>, ghost selected: seq<UserRow>, ghost outcomes: seq<Outcome>)
    requires db.Valid()
    modifies db`sent, db`notifications, db`outbox
    ensures db.Valid()
    ensures limit.Some? && limit.value < 0 ==>
      && r == Err(NegativeLimit) && outcomes == []
      && db.sent == old(db.sent) && db.notifications == old(db.notifications) && db.outbox == old(db.outbox)
    ensures !(limit.Some? && limit.value < 0) ==>
      && r.Ok?
      && selected == SelectedUsers(db.users, onlyEmail, LimitOption(limit))
      && |outcomes| == |selected|
      && r.value == Tally(outcomes, dry)
    ensures |outcomes| <= |selected|
    ensures forall k :: 0 <= k < |outcomes| && outcomes[k].Err? ==> !dry && mailerFails(k)
    ensures forall k :: 0 <= k < |outcomes| && outcomes[k].Ok? ==>
      outcomes[k].value == Distribution.ChooseArtPiece(db.pieces, old(db.sent), selected[k].id, pick(k))
    ensures forall k :: 0 <= k < |outcomes| && !dry && outcomes[k].Ok? && outcomes[k].value.Some? ==>
      SentCount(db.sent, selected[k].id, outcomes[k].value.value) == 1
    ensures dry ==> db.sent == old(db.sent) && db.notifications == old(db.notifications) && db.outbox == old(db.outbox)
    ensures WeeklyRowsAdded(old(db.sent), db.sent, Ids(selected))
    ensures SharedArtNotesAdded(old(db.notifications), db.notifications, Ids(selected))
    ensures SharedArtEmailsAdded(old(db.outbox), db.outbox, Ids(selected))
  {
    selected, outcomes := [], [];
    if limit.Some? && limit.value < 0 {
      assert old(db.sent)[..|old(db.sent)|] == old(db.sent);
      assert old(db.notifications)[..|old(db.notifications)|] == old(db.notifications);
      assert old(db.outbox)[..|old(db.outbox)|] == old(db.outbox);
      return Err(NegativeLimit), selected, outcomes;
    }
    var users := SelectedUsers(db.users, onlyEmail, LimitOption(limit));
    SelectedOrdered(db.users, onlyEmail, LimitOption(limit));
    var counts;
    counts, outcomes := ShareAll(db, users, dry, pick, mailerFails, now);
    selected := users;
    forall k | 0 <= k < |outcomes| && !dry && outcomes[k].Ok? && outcomes[k].value.Some?
      ensures SentCount(db.sent, selected[k].id, outcomes[k].value.value) == 1
    {
      SentUniqueCount(db.sent, selected[k].id, outcomes[k].value.value);
    }
    r := Ok(counts);
  }
}
