/**
 * Automatic handle generation for new accounts (main/utils/username.py).
 *
 * Django's `slugify` is a parameter: the model only relies on it being a
 * function from strings to strings.  Random draws come from `draw`, an
 * oracle indexed by the order in which the source calls `random.randint`;
 * `existing` is the set of usernames already in the user table.
 */
module Username {
  import opened Common

  predicate IsHyphen(c: char) { c == '-' }

  predicate NoDoubleHyphen(s: string) {
    forall i :: 0 <= i < |s| - 1 ==> !(s[i] == '-' && s[i + 1] == '-')
  }

  /** The characters that are not hyphens, in order. */
  function NonHyphens(s: string): string {
    Filter(s, (c: char) => c != '-')
  }

  /** `re.sub(r'-+', '-', s)`: every run of hyphens becomes a single hyphen. */
  function CollapseHyphens(s: string): (r: string)
    ensures NoDoubleHyphen(r)
    ensures NonHyphens(r) == NonHyphens(s)
    ensures (|r| > 0 && r[|r| - 1] == '-') <==> (|s| > 0 && s[|s| - 1] == '-')
    ensures |r| == 0 <==> |s| == 0
  {
    if |s| == 0 then []
    else
      var p := CollapseHyphens(s[..|s| - 1]);
      var c := s[|s| - 1];
      assert s[..|s| - 1] + [c] == s;
      if c == '-' && |p| > 0 && p[|p| - 1] == '-' then
        assert NonHyphens(s) == NonHyphens(s[..|s| - 1]);
        p
      else
        assert (p + [c])[..|p + [c]| - 1] == p;
        p + [c]
  }

  /** A string with no hyphen run longer than one is left as it is. */
  lemma {:induction false} CollapseKeepsSingles(s: string)
    requires NoDoubleHyphen(s)
    ensures CollapseHyphens(s) == s
  {
    if |s| > 0 {
      var front := s[..|s| - 1];
      NoDoubleHyphenSlice(s, 0, |s| - 1);
      CollapseKeepsSingles(front);
      if |front| > 0 {
        assert !(s[|s| - 2] == '-' && s[|s| - 1] == '-');
      }
    }
  }

  /** One step of the collapse: the last character joins the collapsed front unless it repeats a hyphen. */
  lemma CollapseSnoc(s: string, c: char)
    ensures var p := CollapseHyphens(s);
      CollapseHyphens(s + [c]) == if c == '-' && |p| > 0 && p[|p| - 1] == '-' then p else p + [c]
  {
    assert (s + [c])[..|s|] == s;
  }

  /** A hyphen right after a hyphen changes nothing. */
  lemma {:induction false} CollapseRepeat(p: string, y: string)
    requires |p| > 0 && p[|p| - 1] == '-'
    ensures CollapseHyphens(p + "-" + y) == CollapseHyphens(p + y)
  {
    if |y| == 0 {
      assert p + "-" + y == p + ['-'];
      assert p + y == p;
      CollapseSnoc(p, '-');
    } else {
      var y' := y[..|y| - 1];
      var c := y[|y| - 1];
      assert p + "-" + y == (p + "-" + y') + [c];
      assert p + y == (p + y') + [c];
      CollapseRepeat(p, y');
      CollapseSnoc(p + "-" + y', c);
      CollapseSnoc(p + y', c);
    }
  }

  /** Two adjacent hyphens collapse like one: the result depends only on the runs. */
  lemma CollapseDoubleHyphen(x: string, y: string)
    ensures CollapseHyphens(x + "--" + y) == CollapseHyphens(x + "-" + y)
  {
    var p := x + "-";
    assert x + "--" + y == p + "-" + y;
    assert x + "-" + y == p + y;
    CollapseRepeat(p, y);
  }

  lemma NoDoubleHyphenSlice(s: string, lo: nat, hi: nat)
    requires NoDoubleHyphen(s) && lo <= hi <= |s|
    ensures NoDoubleHyphen(s[lo..hi])
  {
    forall i | 0 <= i < hi - lo - 1 ensures !(s[lo..hi][i] == '-' && s[lo..hi][i + 1] == '-') {
      assert s[lo..hi][i] == s[lo + i] && s[lo..hi][i + 1] == s[lo + i + 1];
    }
  }

  /** Only hyphens are dropped from a string made of hyphens. */
  lemma HyphensOnly(s: string)
    requires forall i :: 0 <= i < |s| ==> s[i] == '-'
    ensures NonHyphens(s) == []
  {
    FilterNone(s, (c: char) => c != '-');
  }

  /** `r` is `c` with only hyphens removed from its ends, `a` of them from the front. */
  predicate HyphenTrimmedAt(c: string, r: string, a: nat) {
    && a + |r| <= |c| && r == c[a..a + |r|]
    && (forall i :: 0 <= i < a ==> c[i] == '-')
    && (forall i :: a + |r| <= i < |c| ==> c[i] == '-')
  }

  /** Removing hyphens from the ends keeps every other character. */
  lemma TrimmedKeepsNonHyphens(c: string, r: string, a: nat)
    requires HyphenTrimmedAt(c, r, a)
    ensures NonHyphens(r) == NonHyphens(c)
  {
    var tail := c[a + |r|..];
    assert c == c[..a] + r + tail;
    HyphensOnly(c[..a]);
    HyphensOnly(tail);
    FilterAppend(c[..a], r, (ch: char) => ch != '-');
    FilterAppend(c[..a] + r, tail, (ch: char) => ch != '-');
  }

  /** A prefix of a suffix is a slice. */
  lemma SliceOfSuffix(c: string, front: string, r: string, a: nat)
    requires a <= |c| && front == c[a..] && |r| <= |front| && r == front[..|r|]
    ensures r == c[a..a + |r|]
  {
  }

  /** What `TrimStart` and then `TrimEnd` by hyphens leave of `c`. */
  lemma TrimBothHyphens(c: string)
    ensures var front := TrimStart(c, IsHyphen);
      HyphenTrimmedAt(c, TrimEnd(front, IsHyphen), |c| - |front|)
  {
    var front := TrimStart(c, IsHyphen);
    var r := TrimEnd(front, IsHyphen);
    var a := |c| - |front|;
    SliceOfSuffix(c, front, r, a);
    forall i | 0 <= i < a ensures c[i] == '-' {
      assert IsHyphen(c[i]);
    }
    forall i | a + |r| <= i < |c| ensures c[i] == '-' {
      assert c[i] == front[i - a];
      assert IsHyphen(front[i - a]);
    }
  }

  /** After trimming, neither end is a hyphen. */
  lemma TrimmedEnds(c: string)
    ensures var r := TrimEnd(TrimStart(c, IsHyphen), IsHyphen);
      r == [] || (r[0] != '-' && r[|r| - 1] != '-')
  {
    var front := TrimStart(c, IsHyphen);
    var r := TrimEnd(front, IsHyphen);
    if r != [] {
      assert r[0] == front[0];
      assert !IsHyphen(front[0]) && !IsHyphen(r[|r| - 1]);
    }
  }

  /** Trimming cannot create two adjacent hyphens. */
  lemma TrimmedNoDouble(c: string)
    requires NoDoubleHyphen(c)
    ensures NoDoubleHyphen(TrimEnd(TrimStart(c, IsHyphen), IsHyphen))
  {
    var front := TrimStart(c, IsHyphen);
    var r := TrimEnd(front, IsHyphen);
    TrimBothHyphens(c);
    NoDoubleHyphenSlice(c, |c| - |front|, |c| - |front| + |r|);
  }

  /** `c.strip('-')`, with what it keeps. */
  function StripHyphens(c: string): (r: string)
    ensures r == [] || (r[0] != '-' && r[|r| - 1] != '-')
    ensures exists a :: HyphenTrimmedAt(c, r, a)
    ensures NonHyphens(r) == NonHyphens(c)
  {
    var front := TrimStart(c, IsHyphen);
    var r := TrimEnd(front, IsHyphen);
    TrimBothHyphens(c);
    TrimmedEnds(c);
    TrimmedKeepsNonHyphens(c, r, |c| - |front|);
    r
  }

  /**
   * `_clean_base`: collapse hyphen runs of the slug, then `strip('-')`.  The
   * result is the collapsed slug with only hyphens removed at its two ends, so
   * it keeps every other character of the slug, in order.
   */
  function CleanBase(slugify: string -> string, s: string): (r: string)
    ensures r == [] || (r[0] != '-' && r[|r| - 1] != '-')
    ensures NoDoubleHyphen(r)
    ensures NonHyphens(r) == NonHyphens(slugify(s))
    ensures exists a :: HyphenTrimmedAt(CollapseHyphens(slugify(s)), r, a)
  {
    var c := CollapseHyphens(slugify(s));
    TrimmedNoDouble(c);
    StripHyphens(c)
  }

  /** `email.split('@')[0]`: everything before the first '@'. */
  function LocalPart(email: string): (r: string)
    ensures r <= email && '@' !in r
    ensures |r| < |email| ==> email[|r|] == '@'
  {
    if |email| == 0 || email[0] == '@' then [] else [email[0]] + LocalPart(email[1..])
  }

  /** The four bases the source considers, in the order it considers them. */
  function BaseCandidates(first: string, last: string, email: string, slugify: string -> string): seq<string> {
    [ CleanBase(slugify, first + last),
      CleanBase(slugify, first + "-" + last),
      CleanBase(slugify, LocalPart(email)),
      "user" ]
  }

  /** `b and len(b) >= 3`. */
  predicate UsableBase(b: string) { |b| >= 3 }

  /** The random number in `lo..hi` produced by the `k`-th call to `randint`. */
  function Draw(draw: nat -> nat, k: nat, lo: nat, hi: nat): (n: nat)
    requires lo <= hi
    ensures lo <= n <= hi
  {
    lo + draw(k) % (hi - lo + 1)
  }

  /** The three handles tried for the base at position `i`: bare, 3-digit and 4-digit suffix. */
  function Triple(b: string, i: nat, draw: nat -> nat): seq<string> {
    [b, b + NatToString(Draw(draw, 2 * i, 100, 999)), b + NatToString(Draw(draw, 2 * i + 1, 1000, 9999))]
  }

  /** Every handle the loop may try, in the order it tries them. */
  function Candidates(bases: seq<string>, draw: nat -> nat): (r: seq<string>)
    ensures |r| == 3 * |bases|
  {
    if |bases| == 0 then []
    else Candidates(bases[..|bases| - 1], draw) + Triple(bases[|bases| - 1], |bases| - 1, draw)
  }

  /** The fallback handle, `"user"` and a five-digit number. */
  function Fallback(bases: seq<string>, draw: nat -> nat): string {
    "user" + NatToString(Draw(draw, 2 * |bases|, 10000, 99999))
  }

  /** `Model.objects.filter(username__iexact=h).exists()`. */
  predicate Taken(existing: set<string>, h: string) {
    exists u :: u in existing && Lower(u) == Lower(h)
  }

  /** Every candidate before position `i` is taken. */
  predicate TakenBefore(cands: seq<string>, existing: set<string>, i: nat) {
    forall p :: 0 <= p < i && p < |cands| ==> Taken(existing, cands[p])
  }

  /** The first candidate that is not taken. */
  function FirstFree(cands: seq<string>, existing: set<string>): (r: Option<string>)
    ensures r.Some? ==> r.value in cands && !Taken(existing, r.value)
    ensures r.Some? ==> exists i :: 0 <= i < |cands| && cands[i] == r.value && TakenBefore(cands, existing, i)
    ensures r.None? <==> forall c :: c in cands ==> Taken(existing, c)
  {
    if |cands| == 0 then None
    else if !Taken(existing, cands[0]) then Some(cands[0])
    else
      assert forall c :: c in cands ==> c == cands[0] || c in cands[1..];
      var r := FirstFree(cands[1..], existing);
      FirstAfterTaken(cands, existing, r);
      r
  }

  /** A first free position in the tail, behind a taken head, is a first free position in the whole. */
  lemma FirstAfterTaken(cands: seq<string>, existing: set<string>, r: Option<string>)
    requires |cands| > 0 && Taken(existing, cands[0])
    requires r.Some? ==> exists i :: 0 <= i < |cands[1..]| && cands[1..][i] == r.value && TakenBefore(cands[1..], existing, i)
    ensures r.Some? ==> exists i :: 0 <= i < |cands| && cands[i] == r.value && TakenBefore(cands, existing, i)
  {
    if r.Some? {
      var i :| 0 <= i < |cands[1..]| && cands[1..][i] == r.value && TakenBefore(cands[1..], existing, i);
      assert cands[i + 1] == r.value;
      forall p | 0 <= p < i + 1 ensures Taken(existing, cands[p]) {
        if p > 0 { assert cands[p] == cands[1..][p - 1]; }
      }
    }
  }

  /** The handle the source settles on. */
  function ChosenHandle(bases: seq<string>, existing: set<string>, draw: nat -> nat): string {
    match FirstFree(Candidates(bases, draw), existing)
    case Some(h) => h
    case None => Fallback(bases, draw)
  }

  /** Each candidate is a base followed by nothing, a 3-digit or a 4-digit number. */
  ghost predicate HasCandidateShape(bases: seq<string>, h: string) {
    exists i :: 0 <= i < |bases| &&
      (h == bases[i]
       || (exists k :: 100 <= k <= 999 && h == bases[i] + NatToString(k))
       || (exists k :: 1000 <= k <= 9999 && h == bases[i] + NatToString(k)))
  }

  lemma {:induction false} CandidatesAt(bases: seq<string>, draw: nat -> nat, i: nat, j: nat)
    requires i < |bases| && j < 3
    ensures Candidates(bases, draw)[3 * i + j] == Triple(bases[i], i, draw)[j]
  {
    var n := |bases|;
    var front := bases[..n - 1];
    var t := Triple(bases[n - 1], n - 1, draw);
    assert Candidates(bases, draw) == Candidates(front, draw) + t;
    if i < n - 1 {
      CandidatesAt(front, draw, i, j);
      assert front[i] == bases[i];
      assert (Candidates(front, draw) + t)[3 * i + j] == Candidates(front, draw)[3 * i + j];
    } else {
      assert (Candidates(front, draw) + t)[3 * i + j] == t[j];
    }
  }

  /** A shape over a prefix of the bases is a shape over all of them. */
  lemma ShapeExtends(front: seq<string>, bases: seq<string>, h: string)
    requires front <= bases && HasCandidateShape(front, h)
    ensures HasCandidateShape(bases, h)
  {
    var i :| 0 <= i < |front| &&
      (h == front[i]
       || (exists k :: 100 <= k <= 999 && h == front[i] + NatToString(k))
       || (exists k :: 1000 <= k <= 9999 && h == front[i] + NatToString(k)));
    assert bases[i] == front[i];
  }

  lemma {:induction false} CandidatesHaveShape(bases: seq<string>, draw: nat -> nat, h: string)
    requires h in Candidates(bases, draw)
    ensures HasCandidateShape(bases, h)
  {
    var n := |bases|;
    var front := bases[..n - 1];
    var b := bases[n - 1];
    var t := Triple(b, n - 1, draw);
    assert Candidates(bases, draw) == Candidates(front, draw) + t;
    if h == t[0] {
      assert h == bases[n - 1];
    } else if h == t[1] {
      var k := Draw(draw, 2 * (n - 1), 100, 999);
      assert h == bases[n - 1] + NatToString(k);
    } else if h == t[2] {
      var k := Draw(draw, 2 * (n - 1) + 1, 1000, 9999);
      assert h == bases[n - 1] + NatToString(k);
    } else {
      assert h in Candidates(front, draw);
      CandidatesHaveShape(front, draw, h);
      ShapeExtends(front, bases, h);
    }
  }

  /**
   * The handle the source returns is its first untaken candidate, which keeps
   * the candidate shape; if every candidate is taken it is the fallback.
   */
  lemma ChosenHandleProperties(bases: seq<string>, existing: set<string>, draw: nat -> nat)
    ensures var h := ChosenHandle(bases, existing, draw);
      (!Taken(existing, h) && HasCandidateShape(bases, h))
      || ((forall c :: c in Candidates(bases, draw) ==> Taken(existing, c))
          && exists k :: 10000 <= k <= 99999 && h == "user" + NatToString(k))
  {
    var r := FirstFree(Candidates(bases, draw), existing);
    if r.Some? {
      CandidatesHaveShape(bases, draw, r.value);
    } else {
      var k := Draw(draw, 2 * |bases|, 10000, 99999);
      assert Fallback(bases, draw) == "user" + NatToString(k);
    }
  }

  /** Filtering a list that ends in `"user"` keeps that last entry, and every kept base is usable. */
  lemma KeptBasesEndInUser(all: seq<string>)
    requires |all| > 0 && all[|all| - 1] == "user"
    ensures var bases := Filter(all, UsableBase);
      (forall b :: b in bases ==> |b| >= 3)
      && |bases| > 0 && bases[|bases| - 1] == "user"
  {
    assert UsableBase("user");
    assert Filter(all, UsableBase) == Filter(all[..|all| - 1], UsableBase) + ["user"];
  }

  /** The kept bases are the usable ones in the source's order, and `"user"` is always the last. */
  lemma BasesProperties(first: string, last: string, email: string, slugify: string -> string)
    ensures var bases := Filter(BaseCandidates(first, last, email, slugify), UsableBase);
      (forall b :: b in bases ==> |b| >= 3)
      && |bases| > 0 && bases[|bases| - 1] == "user"
  {
    var all := BaseCandidates(first, last, email, slugify);
    assert |all| == 4 && all[3] == "user";
    KeptBasesEndInUser(all);
  }

  predicate DistinctLower(s: seq<string>) {
    forall a, b :: 0 <= a < b < |s| ==> Lower(s[a]) != Lower(s[b])
  }

  /** The `for b in (b1, b2, b3, 'user')` loop that fills `bases`. */
  method KeepUsableBases(candidates: seq<string>) returns (bases: seq<string>)
    ensures bases == Filter(candidates, UsableBase)
  {
    bases := [];
    for i := 0 to |candidates|
      invariant bases == Filter(candidates[..i], UsableBase)
    {
      assert candidates[..i + 1][..i] == candidates[..i];
      if UsableBase(candidates[i]) {
        bases := bases + [candidates[i]];
      }
    }
    assert candidates[..|candidates|] == candidates;
  }

  /** If every candidate before position `pos` is taken, the search reaches `pos`. */
  lemma {:induction false} FirstFreeSkipsTaken(cands: seq<string>, existing: set<string>, pos: nat)
    requires pos <= |cands|
    requires forall p :: 0 <= p < pos ==> Taken(existing, cands[p])
    ensures FirstFree(cands, existing) == FirstFree(cands[pos..], existing)
  {
    if pos > 0 {
      assert Taken(existing, cands[0]);
      FirstFreeSkipsTaken(cands[1..], existing, pos - 1);
      assert cands[1..][pos - 1..] == cands[pos..];
    }
  }

  /** Loop state of the search: every candidate before `pos` was taken, and `tried` holds the keys of `queried`. */
  ghost predicate SearchState(cands: seq<string>, pos: nat, existing: set<string>, tried: set<string>, queried: seq<string>) {
    && pos <= |cands|
    && (forall p :: 0 <= p < pos ==> Taken(existing, cands[p]))
    && (forall q :: q in tried <==> exists k :: 0 <= k < |queried| && Lower(queried[k]) == q)
    && (forall k :: 0 <= k < |queried| ==> Taken(existing, queried[k]) && queried[k] in cands)
    && DistinctLower(queried)
  }

  lemma AppendQueried(queried: seq<string>, tried: set<string>, h: string)
    requires DistinctLower(queried)
    requires forall q :: q in tried <==> exists k :: 0 <= k < |queried| && Lower(queried[k]) == q
    requires Lower(h) !in tried
    ensures DistinctLower(queried + [h])
    ensures forall q :: q in tried + {Lower(h)} <==> exists k :: 0 <= k < |queried + [h]| && Lower((queried + [h])[k]) == q
  {
    var qs := queried + [h];
    forall a, b | 0 <= a < b < |qs| ensures Lower(qs[a]) != Lower(qs[b]) {
      if b == |queried| {
        assert Lower(qs[a]) in tried;
      }
    }
    forall q | q in tried + {Lower(h)} ensures exists k :: 0 <= k < |qs| && Lower(qs[k]) == q {
      if q in tried {
        var k :| 0 <= k < |queried| && Lower(queried[k]) == q;
        assert qs[k] == queried[k];
      } else {
        assert qs[|queried|] == h;
      }
    }
  }

  lemma SearchTaken(cands: seq<string>, pos: nat, existing: set<string>, tried: set<string>, queried: seq<string>, h: string)
    requires SearchState(cands, pos, existing, tried, queried)
    requires pos < |cands| && h == cands[pos] && Lower(h) !in tried && Taken(existing, h)
    ensures SearchState(cands, pos + 1, existing, tried + {Lower(h)}, queried + [h])
  {
    AppendQueried(queried, tried, h);
  }

  lemma SearchSkip(cands: seq<string>, pos: nat, existing: set<string>, tried: set<string>, queried: seq<string>)
    requires SearchState(cands, pos, existing, tried, queried)
    requires pos < |cands| && Lower(cands[pos]) in tried
    ensures SearchState(cands, pos + 1, existing, tried, queried)
  {
    var k :| 0 <= k < |queried| && Lower(queried[k]) == Lower(cands[pos]);
    var u :| u in existing && Lower(u) == Lower(queried[k]);
    assert Taken(existing, cands[pos]);
  }

  /**
   * One pass of the inner loop for the handle at position `pos`: a key met
   * before is skipped; otherwise it is remembered and looked up, and an
   * untaken handle is the answer.
   */
  method TryHandle(h: string, existing: set<string>, tried0: set<string>,
                   ghost cands: seq<string>, ghost pos: nat, ghost queried0: seq<string>)
    returns (free: bool, tried: set<string>, ghost queried: seq<string>)
    requires SearchState(cands, pos, existing, tried0, queried0)
    requires pos < |cands| && h == cands[pos]
    ensures free ==> FirstFree(cands, existing) == Some(h)
    ensures free ==> DistinctLower(queried) && forall q :: q in queried ==> q in cands
    ensures !free ==> SearchState(cands, pos + 1, existing, tried, queried)
  {
    var key := Lower(h);
    if key in tried0 {
      SearchSkip(cands, pos, existing, tried0, queried0);
      return false, tried0, queried0;
    }
    tried, queried := tried0 + {key}, queried0 + [h];
    if !Taken(existing, h) {
      AppendQueried(queried0, tried0, h);
      FirstFreeSkipsTaken(cands, existing, pos);
      return true, tried, queried;
    }
    SearchTaken(cands, pos, existing, tried0, queried0, h);
    free := false;
  }

  /**
   * The inner loop for the base at position `bi`: tries its three suffixes.
   * Returns the first untaken handle met, or None when all three were taken.
   */
  method TryBase(bases: seq<string>, bi: nat, existing: set<string>, draw: nat -> nat,
                 tried0: set<string>, ghost queried0: seq<string>)
    returns (found: Option<string>, tried: set<string>, ghost queried: seq<string>)
    requires bi < |bases|
    requires SearchState(Candidates(bases, draw), 3 * bi, existing, tried0, queried0)
    ensures found.None? ==> SearchState(Candidates(bases, draw), 3 * bi + 3, existing, tried, queried)
    ensures found.Some? ==> found == FirstFree(Candidates(bases, draw), existing)
    ensures DistinctLower(queried) && forall q :: q in queried ==> q in Candidates(bases, draw)
  {
    ghost var cands := Candidates(bases, draw);
    tried, queried := tried0, queried0;
    var base := bases[bi];
    var suffixes := ["", NatToString(Draw(draw, 2 * bi, 100, 999)), NatToString(Draw(draw, 2 * bi + 1, 1000, 9999))];
    ghost var pos := 3 * bi;
    for j := 0 to 3
      invariant pos == 3 * bi + j
      invariant SearchState(cands, pos, existing, tried, queried)
    {
      var h := base + suffixes[j];
      CandidatesAt(bases, draw, bi, j);
      assert j == 0 ==> h == base;
      assert h == cands[pos];
      var free;
      free, tried, queried := TryHandle(h, existing, tried, cands, pos, queried);
      if free {
        return Some(h), tried, queried;
      }
      pos := pos + 1;
    }
    found := None;
  }

  /**
   * The nested search loop over bases and suffixes.  `queried` lists the
   * handles looked up in the user table, in order: no two are equal up to case.
   */
  method SearchHandles(bases: seq<string>, existing: set<string>, draw: nat -> nat)
    returns (handle: string, ghost queried: seq<string>)
    ensures handle == ChosenHandle(bases, existing, draw)
    ensures DistinctLower(queried)
    ensures forall q :: q in queried ==> q in Candidates(bases, draw)
  {
    ghost var cands := Candidates(bases, draw);
    var tried: set<string> := {};
    queried := [];
    for bi := 0 to |bases|
      invariant SearchState(cands, 3 * bi, existing, tried, queried)
    {
      var found;
      found, tried, queried := TryBase(bases, bi, existing, draw, tried, queried);
      if found.Some? {
        return found.value, queried;
      }
    }
    FirstFreeSkipsTaken(cands, existing, |cands|);
    assert cands[|cands|..] == [];
    handle := Fallback(bases, draw);
  }

  /** The handle generated for a user with these names and e-mail. */
  function GeneratedHandle(first: string, last: string, email: string, existing: set<string>,
                           slugify: string -> string, draw: nat -> nat): string {
    ChosenHandle(Filter(BaseCandidates(first, last, email, slugify), UsableBase), existing, draw)
  }

  /** `generate_unique_username`. */
  method GenerateUniqueUsername(first: string, last: string, email: string, existing: set<string>,
                                slugify: string -> string, draw: nat -> nat)
    returns (handle: string)
    ensures handle == GeneratedHandle(first, last, email, existing, slugify, draw)
  {
    var bases := KeepUsableBases(BaseCandidates(first, last, email, slugify));
    ghost var queried;
    handle, queried := SearchHandles(bases, existing, draw);
  }
}
