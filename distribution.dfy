/**
 * Choosing art for a user and recording the grants (main/views.py):
 * `choose_art_piece`, `choose_welcome_piece_weighted`, `ensure_welcome_gift`,
 * `mark_art_piece_as_sent`, the reciprocal block of `share_art`,
 * `share_art_piece` and the check in `thanks_for_sharing`.
 *
 * `random.choice(xs)` is `xs[pick % |xs|]` for a caller-supplied `pick`.
 * Each flow is one atomic step.
 */
module Distribution {
  import opened Common
  import opened Models

  /** The pieces that already have a SentArtPiece row for `user`. */
  function SentPieces(sent: seq<SentRow>, user: UserId): set<PieceId> {
    set s | s in sent && s.user == user :: s.piece
  }

  /**
   * The filter of `choose_art_piece`: approved, not the user's own, not yet
   * sent to the user.  Like the source, it does not look at `is_deleted`.
   */
  predicate Eligible(p: PieceRow, user: UserId, sent: seq<SentRow>) {
    p.approvedStatus && p.owner != user && p.id !in SentPieces(sent, user)
  }

  /** The filter of `choose_welcome_piece_weighted`: also `welcome_eligible`. */
  predicate WelcomeEligible(p: PieceRow, user: UserId, sent: seq<SentRow>) {
    Eligible(p, user, sent) && p.welcomeEligible
  }

  function EligiblePool(pieces: seq<PieceRow>, sent: seq<SentRow>, user: UserId): seq<PieceRow> {
    Filter(pieces, (p: PieceRow) => Eligible(p, user, sent))
  }

  function WelcomePool(pieces: seq<PieceRow>, sent: seq<SentRow>, user: UserId): seq<PieceRow> {
    Filter(pieces, (p: PieceRow) => WelcomeEligible(p, user, sent))
  }

  /** `choose_art_piece`: a uniformly chosen eligible piece, or None when there is none. */
  function ChooseArtPiece(pieces: seq<PieceRow>, sent: seq<SentRow>, user: UserId, pick: nat): (r: Option<PieceId>)
    ensures r.None? <==> forall p :: p in pieces ==> !Eligible(p, user, sent)
    ensures r.Some? ==> exists p :: p in pieces && p.id == r.value && Eligible(p, user, sent)
    ensures r.Some? ==> r.value !in SentPieces(sent, user)
  {
    var pool := EligiblePool(pieces, sent, user);
    if |pool| == 0 then None
    else
      var chosen := pool[pick % |pool|];
      assert chosen in pool;
      Some(chosen.id)
  }

  lemma IndexOf<T>(s: seq<T>, x: T) returns (k: nat)
    requires x in s
    ensures k < |s| && s[k] == x
  {
    k :| 0 <= k < |s| && s[k] == x;
  }

  /** Every pool member can be drawn: `pick` ranges over the whole pool. */
  lemma ChooseArtPieceCovers(pieces: seq<PieceRow>, sent: seq<SentRow>, user: UserId, p: PieceRow)
    requires p in pieces && Eligible(p, user, sent)
    ensures exists pick: nat :: ChooseArtPiece(pieces, sent, user, pick) == Some(p.id)
  {
    var pool := EligiblePool(pieces, sent, user);
    assert p in pool;
    var k := IndexOf(pool, p);
    assert k % |pool| == k;
    assert ChooseArtPiece(pieces, sent, user, k) == Some(p.id);
  }

  /**
   * `soft_delete` does not save `approved_status`, and the filter ignores
   * `is_deleted`: a soft-deleted piece stays in the pool.
   */
  lemma SoftDeletedStaysEligible(p: PieceRow, user: UserId, sent: seq<SentRow>,
                                 now: Time, deleter: Option<UserId>, reason: string)
    requires Eligible(p, user, sent)
    ensures SoftDeletedRow(p, now, deleter, reason).isDeleted
    ensures Eligible(SoftDeletedRow(p, now, deleter, reason), user, sent)
  {
  }

  /**
   * Rows appended for other users do not change a user's choice: the pool
   * depends only on the user's own SentArtPiece rows.
   */
  lemma ChoiceIgnoresOtherUsers(pieces: seq<PieceRow>, before: seq<SentRow>, after: seq<SentRow>, user: UserId, pick: nat)
    requires |before| <= |after| && after[..|before|] == before
    requires forall i :: |before| <= i < |after| ==> after[i].user != user
    ensures ChooseArtPiece(pieces, after, user, pick) == ChooseArtPiece(pieces, before, user, pick)
  {
    assert SentPieces(after, user) == SentPieces(before, user) by {
      forall q | q in SentPieces(after, user) ensures q in SentPieces(before, user) {
        var s :| s in after && s.user == user && s.piece == q;
        var i :| 0 <= i < |after| && after[i] == s;
        assert before[i] == s;
      }
      forall q | q in SentPieces(before, user) ensures q in SentPieces(after, user) {
        var s :| s in before && s.user == user && s.piece == q;
        var i :| 0 <= i < |before| && before[i] == s;
        assert after[i] == s;
      }
    }
    FilterAgree(pieces, (p: PieceRow) => Eligible(p, user, after), (p: PieceRow) => Eligible(p, user, before));
  }

  /** With primary keys as positions, a chosen id names an eligible row of the table. */
  lemma ChosenIsRow(pieces: seq<PieceRow>, sent: seq<SentRow>, user: UserId, pick: nat)
    requires PiecesIndexed(pieces)
    ensures var r := ChooseArtPiece(pieces, sent, user, pick);
      r.Some? ==> r.value < |pieces| && Eligible(pieces[r.value], user, sent)
  {
    var r := ChooseArtPiece(pieces, sent, user, pick);
    if r.Some? {
      var p :| p in pieces && p.id == r.value && Eligible(p, user, sent);
      var k :| 0 <= k < |pieces| && pieces[k] == p;
    }
  }

  // ---------------------------------------------------------------------
  // The weighted bag of choose_welcome_piece_weighted
  // ---------------------------------------------------------------------

  /** `max(1, welcome_weight)`: weights below one count as one. */
  function Clamp(w: nat): (c: nat)
    ensures c >= 1 && c >= w
    ensures c == 1 || c == w
  {
    Max(1, w)
  }

  /** The list the loop builds: `Clamp(weight)` copies of each id, in order. */
  function WeightedBag(items: seq<PieceRow>): (bag: seq<PieceId>)
    ensures |bag| >= |items|
    ensures forall x :: x in bag <==> exists p :: p in items && p.id == x
  {
    if |items| == 0 then []
    else
      var front := items[..|items| - 1];
      var last := items[|items| - 1];
      var bag := WeightedBag(front) + Repeat<PieceId>(last.id, Clamp(last.welcomeWeight));
      assert Repeat<PieceId>(last.id, Clamp(last.welcomeWeight))[0] == last.id;
      assert forall p :: p in items <==> p in front || p == last;
      bag
  }

  predicate IdsDistinct(items: seq<PieceRow>) {
    forall i, j :: 0 <= i < j < |items| ==> items[i].id != items[j].id
  }

  lemma {:induction false} RepeatCount(x: PieceId, n: nat, y: PieceId)
    ensures multiset(Repeat<PieceId>(x, n))[y] == if x == y then n else 0
  {
    if n > 0 {
      RepeatCount(x, n - 1, y);
      assert Repeat<PieceId>(x, n) == Repeat<PieceId>(x, n - 1) + [x];
    }
  }

  /** Each id of a pool with distinct ids appears exactly `max(1, weight)` times in the bag. */
  lemma {:induction false} WeightedBagMultiplicity(items: seq<PieceRow>, p: PieceRow)
    requires IdsDistinct(items) && p in items
    ensures multiset(WeightedBag(items))[p.id] == Clamp(p.welcomeWeight)
  {
    var front := items[..|items| - 1];
    var last := items[|items| - 1];
    var tail: seq<PieceId> := Repeat<PieceId>(last.id, Clamp(last.welcomeWeight));
    RepeatCount(last.id, Clamp(last.welcomeWeight), p.id);
    assert WeightedBag(items) == WeightedBag(front) + tail;
    assert multiset(WeightedBag(items)) == multiset(WeightedBag(front)) + multiset(tail);
    if p == last {
      assert !(exists q :: q in front && q.id == p.id) by {
        forall q | q in front ensures q.id != p.id {
          var k :| 0 <= k < |front| && front[k] == q;
          assert items[k] == q;
        }
      }
      assert p.id !in WeightedBag(front);
      assert multiset(WeightedBag(front))[p.id] == 0;
      assert multiset(tail)[p.id] == Clamp(p.welcomeWeight);
      calc {
        multiset(WeightedBag(items))[p.id];
        multiset(WeightedBag(front))[p.id] + multiset(tail)[p.id];
        Clamp(p.welcomeWeight);
      }
    } else {
      assert p in front;
      var k :| 0 <= k < |front| && front[k] == p;
      assert items[k] == p;
      assert last.id != p.id;
      WeightedBagMultiplicity(front, p);
    }
  }

  /** A subsequence of a table whose ids are positions has distinct ids. */
  lemma {:induction false} FilterKeepsIdsDistinct(pieces: seq<PieceRow>, f: PieceRow -> bool)
    requires forall i, j :: 0 <= i < j < |pieces| ==> pieces[i].id < pieces[j].id
    ensures IdsDistinct(Filter(pieces, f))
    ensures forall q :: q in Filter(pieces, f) ==> q.id <= (if |pieces| == 0 then 0 else pieces[|pieces| - 1].id)
  {
    if |pieces| > 0 {
      var front := pieces[..|pieces| - 1];
      var last := pieces[|pieces| - 1];
      FilterKeepsIdsDistinct(front, f);
      assert forall q :: q in Filter(front, f) ==> q.id < last.id by {
        forall q | q in Filter(front, f) ensures q.id < last.id {
          var k :| 0 <= k < |front| && front[k] == q;
          assert pieces[k] == q;
        }
      }
    }
  }

  lemma PiecesIndexedIncreasing(pieces: seq<PieceRow>)
    requires PiecesIndexed(pieces)
    ensures forall i, j :: 0 <= i < j < |pieces| ==> pieces[i].id < pieces[j].id
  {
  }

  /** The welcome choice: None for an empty pool, else a draw from the weighted bag. */
  function WelcomeChoice(pieces: seq<PieceRow>, sent: seq<SentRow>, user: UserId, pick: nat): (r: Option<PieceId>)
    ensures r.None? <==> forall p :: p in pieces ==> !WelcomeEligible(p, user, sent)
    ensures r.Some? ==> exists p :: p in pieces && p.id == r.value && WelcomeEligible(p, user, sent)
    ensures r.Some? ==> r.value !in SentPieces(sent, user)
  {
    var items := WelcomePool(pieces, sent, user);
    if |items| == 0 then None
    else
      var bag := WeightedBag(items);
      var chosen := bag[pick % |bag|];
      assert chosen in bag;
      var p :| p in items && p.id == chosen;
      assert WelcomeEligible(p, user, sent);
      Some(chosen)
  }

  /**
   * Every entry of the welcome bag is a welcome-eligible piece, and each such
   * piece has exactly `max(1, welcome_weight)` entries.
   */
  lemma WelcomeBagContents(pieces: seq<PieceRow>, sent: seq<SentRow>, user: UserId)
    requires PiecesIndexed(pieces)
    ensures var bag := WeightedBag(WelcomePool(pieces, sent, user));
      && (forall x :: x in bag ==> x < |pieces| && WelcomeEligible(pieces[x], user, sent))
      && (forall p :: p in pieces && WelcomeEligible(p, user, sent) ==> multiset(bag)[p.id] == Clamp(p.welcomeWeight))
  {
    var items := WelcomePool(pieces, sent, user);
    var bag := WeightedBag(items);
    PiecesIndexedIncreasing(pieces);
    FilterKeepsIdsDistinct(pieces, (p: PieceRow) => WelcomeEligible(p, user, sent));
    forall x | x in bag ensures x < |pieces| && WelcomeEligible(pieces[x], user, sent) {
      var p :| p in items && p.id == x;
      var k :| 0 <= k < |pieces| && pieces[k] == p;
    }
    forall p | p in pieces && WelcomeEligible(p, user, sent) ensures multiset(bag)[p.id] == Clamp(p.welcomeWeight) {
      WeightedBagMultiplicity(items, p);
    }
  }

  /** `choose_welcome_piece_weighted`: builds the weighted list with a loop of `extend`, then draws. */
  method ChooseWelcomePieceWeighted(db: Db, user: UserId, pick: nat) returns (r: Option<PieceId>)
    ensures r == WelcomeChoice(db.pieces, db.sent, user, pick)
  {
    var items := WelcomePool(db.pieces, db.sent, user);
    if |items| == 0 {
      return None;
    }
    var weighted: seq<PieceId> := [];
    for i := 0 to |items|
      invariant weighted == WeightedBag(items[..i])
    {
      assert items[..i + 1][..i] == items[..i];
      weighted := weighted + Repeat<PieceId>(items[i].id, Clamp(items[i].welcomeWeight));
    }
    assert items[..|items|] == items;
    r := Some(weighted[pick % |weighted|]);
  }

  // ---------------------------------------------------------------------
  // Grants
  // ---------------------------------------------------------------------

  datatype DbError = IntegrityError

  /**
   * `mark_art_piece_as_sent`: `SentArtPiece.objects.create`.  The unique
   * (user, piece) constraint rejects a second row.
   */
  method MarkArtPieceAsSent(db: Db, user: UserId, piece: PieceId, source: Source, now: Time)
    returns (r: Result<SentRow, DbError>)
    requires db.Valid()
    modifies db`sent
    ensures db.Valid()
    ensures old(FindSent(db.sent, user, piece)).Some? ==> r == Err(IntegrityError) && db.sent == old(db.sent)
    ensures old(FindSent(db.sent, user, piece)).None? ==>
      r == Ok(SentRow(user, piece, source, now, None)) && db.sent == old(db.sent) + [r.value]
  {
    if FindSent(db.sent, user, piece).Some? {
      return Err(IntegrityError);
    }
    var row := SentRow(user, piece, source, now, None);
    db.sent := db.sent + [row];
    r := Ok(row);
  }

  /** A piece not yet sent to the user has no SentArtPiece row, so the insert succeeds. */
  lemma NotSentHasNoRow(sent: seq<SentRow>, user: UserId, id: PieceId)
    requires id !in SentPieces(sent, user)
    ensures FindSent(sent, user, id).None?
  {
    forall s | s in sent && s.user == user ensures s.piece != id {
      assert s.piece in SentPieces(sent, user);
    }
  }

  /** `WelcomeGrant.objects.get_or_create(user=user)`: the grant's piece, empty for a new grant. */
  method GetOrCreateWelcomeGrant(db: Db, user: UserId) returns (granted: Option<PieceId>)
    requires db.Valid()
    modifies db`welcomeGrants
    ensures db.Valid()
    ensures user in db.welcomeGrants && db.welcomeGrants[user] == granted
    ensures old(user in db.welcomeGrants) ==> db.welcomeGrants == old(db.welcomeGrants)
    ensures old(user !in db.welcomeGrants) ==> db.welcomeGrants == old(db.welcomeGrants)[user := None]
  {
    if user !in db.welcomeGrants {
      db.welcomeGrants := db.welcomeGrants[user := None];
    }
    granted := db.welcomeGrants[user];
  }

  /**
   * `ensure_welcome_gift`.  A grant that already holds a piece returns it and
   * writes nothing.  Otherwise the weighted chooser runs; a found piece is
   * attached to the grant and recorded once with source "welcome", and an
   * empty pool leaves the grant's piece empty so a later call searches again.
   */
  method EnsureWelcomeGift(db: Db, user: UserId, pick: nat, now: Time) returns (r: Option<PieceId>)
    requires db.Valid()
    modifies db`welcomeGrants, db`sent
    ensures db.Valid()
    ensures user in db.welcomeGrants && db.welcomeGrants[user] == r
    ensures old(user in db.welcomeGrants && db.welcomeGrants[user].Some?) ==>
      r == old(db.welcomeGrants[user]) && db.welcomeGrants == old(db.welcomeGrants) && db.sent == old(db.sent)
    ensures !old(user in db.welcomeGrants && db.welcomeGrants[user].Some?) ==>
      && r == WelcomeChoice(db.pieces, old(db.sent), user, pick)
      && db.welcomeGrants == old(db.welcomeGrants)[user := r]
      && db.sent == old(db.sent) + (if r.Some? then [SentRow(user, r.value, Welcome, now, None)] else [])
  {
    var granted := GetOrCreateWelcomeGrant(db, user);
    if granted.Some? {
      return granted;
    }
    r := FillWelcomeGrant(db, user, pick, now);
  }

  /** The part of `ensure_welcome_gift` after finding the grant without a piece. */
  method FillWelcomeGrant(db: Db, user: UserId, pick: nat, now: Time) returns (r: Option<PieceId>)
    requires db.Valid()
    modifies db`welcomeGrants, db`sent
    ensures db.Valid()
    ensures r == WelcomeChoice(db.pieces, old(db.sent), user, pick)
    ensures db.welcomeGrants == old(db.welcomeGrants)[user := r]
    ensures db.sent == old(db.sent) + (if r.Some? then [SentRow(user, r.value, Welcome, now, None)] else [])
  {
    var piece := ChooseWelcomePieceWeighted(db, user, pick);
    db.welcomeGrants := db.welcomeGrants[user := piece];
    if piece.None? {
      return None;
    }
    NotSentHasNoRow(db.sent, user, piece.value);
    var _ := MarkArtPieceAsSent(db, user, piece.value, Welcome, now);
    r := piece;
  }

  /**
   * The welcome flow is safe to run on every page load: a second call returns
   * what the first returned when the pool is unchanged, and never adds a
   * second welcome row.
   */
  method WelcomeTwice(db: Db, user: UserId, pick1: nat, pick2: nat, now1: Time, now2: Time)
    returns (r1: Option<PieceId>, r2: Option<PieceId>)
    requires db.Valid()
    modifies db`welcomeGrants, db`sent
    ensures r1 == r2
    ensures db.sent == old(db.sent) + (if r1.Some? && old(user !in db.welcomeGrants || db.welcomeGrants[user].None?)
                                       then [SentRow(user, r1.value, Welcome, now1, None)] else [])
  {
    r1 := EnsureWelcomeGift(db, user, pick1, now1);
    ghost var afterFirst := db.sent;
    r2 := EnsureWelcomeGift(db, user, pick2, now2);
    if r1.None? {
      assert db.sent == afterFirst;
    }
  }

  /**
   * The reciprocal block of `share_art` (one transaction): get-or-create the
   * grant for `trigger`.  A new grant runs the uniform chooser once and records
   * its piece with source "reciprocal"; an existing grant returns its stored
   * piece and writes nothing.
   */
  method EnsureReciprocalGrant(db: Db, trigger: PieceId, user: UserId, pick: nat, now: Time) returns (r: Option<PieceId>)
    requires db.Valid() && trigger < |db.pieces|
    modifies db`reciprocalGrants, db`sent
    ensures db.Valid()
    ensures trigger in db.reciprocalGrants && db.reciprocalGrants[trigger].sentPiece == r
    ensures old(trigger in db.reciprocalGrants) ==>
      r == old(db.reciprocalGrants[trigger].sentPiece)
      && db.reciprocalGrants == old(db.reciprocalGrants) && db.sent == old(db.sent)
    ensures old(trigger !in db.reciprocalGrants) ==>
      && r == ChooseArtPiece(db.pieces, old(db.sent), user, pick)
      && db.reciprocalGrants == old(db.reciprocalGrants)[trigger := ReciprocalGrantRow(user, r)]
      && db.sent == old(db.sent) + (if r.Some? then [SentRow(user, r.value, Reciprocal, now, None)] else [])
  {
    if trigger in db.reciprocalGrants {
      return db.reciprocalGrants[trigger].sentPiece;
    }
    db.reciprocalGrants := db.reciprocalGrants[trigger := ReciprocalGrantRow(user, None)];
    var reciprocal := ChooseArtPiece(db.pieces, db.sent, user, pick);
    if reciprocal.Some? {
      db.reciprocalGrants := db.reciprocalGrants[trigger := ReciprocalGrantRow(user, reciprocal)];
      NotSentHasNoRow(db.sent, user, reciprocal.value);
      var _ := MarkArtPieceAsSent(db, user, reciprocal.value, Reciprocal, now);
    }
    r := reciprocal;
  }

  /** Where `share_art` sends the browser after a POST. */
  datatype ShareArtOutcome =
    | FormErrors
    | ThanksPaused(submitted: PieceId)
    | Thanks(submitted: PieceId, gift: Option<PieceId>)

  /** A new piece as `ArtPieceForm` leaves it: approved, not welcome-eligible, weight 1. */
  function NewPieceRow(id: PieceId, owner: UserId): PieceRow {
    PieceRow(id, owner, true, false, 1, false, None, None, "")
  }

  /**
   * `share_art` on POST.  The submitted piece is always saved (when the form
   * is valid); a paused user gets no reciprocal grant at all.
   */
  method ShareArt(db: Db, user: UserRow, formValid: bool, pick: nat, now: Time) returns (o: ShareArtOutcome)
    requires db.Valid()
    modifies db`pieces, db`reciprocalGrants, db`sent
    ensures db.Valid()
    ensures !formValid ==>
      o == FormErrors && db.pieces == old(db.pieces) && db.sent == old(db.sent)
      && db.reciprocalGrants == old(db.reciprocalGrants)
    ensures formValid ==> db.pieces == old(db.pieces) + [NewPieceRow(|old(db.pieces)|, user.id)]
    ensures formValid && user.receiveArtPaused ==>
      o == ThanksPaused(|old(db.pieces)|) && db.reciprocalGrants == old(db.reciprocalGrants) && db.sent == old(db.sent)
    ensures formValid && !user.receiveArtPaused ==>
      && o.Thanks? && o.submitted == |old(db.pieces)|
      && o.gift == ChooseArtPiece(db.pieces, old(db.sent), user.id, pick)
      && db.reciprocalGrants == old(db.reciprocalGrants)[o.submitted := ReciprocalGrantRow(user.id, o.gift)]
      && db.sent == old(db.sent) + (if o.gift.Some? then [SentRow(user.id, o.gift.value, Reciprocal, now, None)] else [])
  {
    if !formValid {
      return FormErrors;
    }
    var id := |db.pieces|;
    db.pieces := db.pieces + [NewPieceRow(id, user.id)];
    if user.receiveArtPaused {
      return ThanksPaused(id);
    }
    // The trigger is the row just inserted, so no grant can refer to it yet.
    assert id !in db.reciprocalGrants;
    var gift := EnsureReciprocalGrant(db, id, user.id, pick, now);
    o := Thanks(id, gift);
  }

  /**
   * `share_art_piece`: None for a paused user or an empty pool; in dry-run the
   * chosen piece is returned without a SentArtPiece row.
   */
  method ShareArtPiece(db: Db, user: UserRow, dryRun: bool, pick: nat, now: Time) returns (r: Option<PieceId>)
    requires db.Valid()
    modifies db`sent
    ensures db.Valid()
    ensures user.receiveArtPaused ==> r == None && db.sent == old(db.sent)
    ensures !user.receiveArtPaused ==> r == ChooseArtPiece(db.pieces, old(db.sent), user.id, pick)
    ensures db.sent == old(db.sent) + (if r.Some? && !dryRun then [SentRow(user.id, r.value, Weekly, now, None)] else [])
  {
    if user.receiveArtPaused {
      return None;
    }
    r := ChooseArtPiece(db.pieces, db.sent, user.id, pick);
    if r.None? {
      return;
    }
    if !dryRun {
      NotSentHasNoRow(db.sent, user.id, r.value);
      var _ := MarkArtPieceAsSent(db, user.id, r.value, Weekly, now);
    }
  }

  /**
   * `thanks_for_sharing`: the `p` parameter shows a gift only when that piece
   * was really sent to this user as a reciprocal gift.
   */
  function ThanksPiece(sent: seq<SentRow>, user: UserId, p: Option<PieceId>): (r: Option<PieceId>)
    ensures r.Some? <==> p.Some? && exists s :: s in sent && s.user == user && s.piece == p.value && s.source == Reciprocal
    ensures r.Some? ==> r == p
  {
    if p.None? then None
    else if exists s :: s in sent && s.user == user && s.piece == p.value && s.source == Reciprocal then p
    else None
  }
}
