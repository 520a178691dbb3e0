/**
 * The rating timeline: an append-only list of rating records
 * (user, kind, value, timestamp, optional source match), queried for the
 * current value of a kind and for a user's earliest elo timestamp.
 */
module RatingRecords {
  import opened Wrappers

  /** Users are identified by their position in the store's user list. */
  type UserId = nat
  type MatchId = nat
  /** Timestamps are abstract, totally ordered instants. */
  type Time = int

  datatype Kind = Elo | TrueskillMu | TrueskillSigma

  datatype Rating = Rating(user: UserId, kind: Kind, value: real, timestamp: Time, source: Option<MatchId>)

  /** The conditions under which the engine raises instead of completing. */
  datatype Fault =
    | EmptyTeam(matchId: MatchId)  // ts.rate rejects a rating group with no players
    | NoEloHistory(user: UserId)   // a user has no elo record to anchor reseeding at

  const SEED_ELO: real := 1500.0
  const SEED_MU: real := 25.0
  const SEED_SIGMA: real := 8.333

  /** Some record of kind k belongs to user u. */
  predicate HasKind(rs: seq<Rating>, u: UserId, k: Kind)
  {
    exists i :: 0 <= i < |rs| && rs[i].user == u && rs[i].kind == k
  }

  /** A user with a record of each of the three kinds. */
  predicate Rated(rs: seq<Rating>, u: UserId)
  {
    HasKind(rs, u, Elo) && HasKind(rs, u, TrueskillMu) && HasKind(rs, u, TrueskillSigma)
  }

  /** `rs` is a prefix of `more`: appending never loses a record. */
  predicate Extends(more: seq<Rating>, rs: seq<Rating>)
  {
    |rs| <= |more| && more[..|rs|] == rs
  }

  lemma ExtendsByAppend(rs: seq<Rating>, more: seq<Rating>)
    ensures Extends(rs + more, rs)
  {
    assert (rs + more)[..|rs|] == rs;
  }

  lemma ExtendsTransitive(a: seq<Rating>, b: seq<Rating>, c: seq<Rating>)
    requires Extends(b, a) && Extends(c, b)
    ensures Extends(c, a)
  {
    assert c[..|a|] == c[..|b|][..|a|];
  }

  lemma HasKindExtends(rs: seq<Rating>, more: seq<Rating>, u: UserId, k: Kind)
    requires Extends(more, rs) && HasKind(rs, u, k)
    ensures HasKind(more, u, k)
  {
    var i :| 0 <= i < |rs| && rs[i].user == u && rs[i].kind == k;
    assert more[i] == rs[i];
  }

  lemma RatedExtends(rs: seq<Rating>, more: seq<Rating>, u: UserId)
    requires Extends(more, rs) && Rated(rs, u)
    ensures Rated(more, u)
  {
    HasKindExtends(rs, more, u, Elo);
    HasKindExtends(rs, more, u, TrueskillMu);
    HasKindExtends(rs, more, u, TrueskillSigma);
  }

  /**
   * The current value of kind k for user u: the value of the last record
   * of that kind for that user (get_current_elo / get_current_trueskill).
   */
  function Latest(rs: seq<Rating>, u: UserId, k: Kind): real
    requires HasKind(rs, u, k)
  {
    var n := |rs|;
    if rs[n - 1].user == u && rs[n - 1].kind == k then
      rs[n - 1].value
    else
      assert HasKind(rs[..n - 1], u, k) by {
        var i :| 0 <= i < n && rs[i].user == u && rs[i].kind == k;
        assert i < n - 1 && rs[..n - 1][i] == rs[i];
      }
      Latest(rs[..n - 1], u, k)
  }

  /** The current value is that of a record of u and k with none of u and k after it. */
  lemma {:induction false} LatestIsLast(rs: seq<Rating>, u: UserId, k: Kind)
    requires HasKind(rs, u, k)
    ensures exists i :: 0 <= i < |rs| && rs[i].user == u && rs[i].kind == k && rs[i].value == Latest(rs, u, k)
                        && forall j :: i < j < |rs| ==> !(rs[j].user == u && rs[j].kind == k)
  {
    var n := |rs|;
    if !(rs[n - 1].user == u && rs[n - 1].kind == k) {
      var init := rs[..n - 1];
      assert HasKind(init, u, k) by {
        var i :| 0 <= i < n && rs[i].user == u && rs[i].kind == k;
        assert i < n - 1 && init[i] == rs[i];
      }
      LatestIsLast(init, u, k);
      var i :| 0 <= i < |init| && init[i].user == u && init[i].kind == k && init[i].value == Latest(init, u, k)
               && forall j :: i < j < |init| ==> !(init[j].user == u && init[j].kind == k);
      assert rs[i] == init[i];
      forall j | i < j < n ensures !(rs[j].user == u && rs[j].kind == k) {
        if j < n - 1 { assert rs[j] == init[j]; }
      }
    }
  }

  /** Appending a record of u and k makes its value the current one. */
  lemma LatestAppendSame(rs: seq<Rating>, r: Rating)
    ensures HasKind(rs + [r], r.user, r.kind) && Latest(rs + [r], r.user, r.kind) == r.value
  {
    assert (rs + [r])[|rs|] == r;
  }

  /** Appending a record of another user or kind leaves the current value alone. */
  lemma LatestAppendOther(rs: seq<Rating>, r: Rating, u: UserId, k: Kind)
    requires HasKind(rs, u, k) && !(r.user == u && r.kind == k)
    ensures HasKind(rs + [r], u, k) && Latest(rs + [r], u, k) == Latest(rs, u, k)
  {
    HasKindExtends(rs, rs + [r], u, k);
    assert (rs + [r])[..|rs|] == rs;
  }

  /** Appending records none of which is of u and k leaves the current value alone. */
  lemma {:induction false} LatestAppendOthers(rs: seq<Rating>, more: seq<Rating>, u: UserId, k: Kind)
    requires HasKind(rs, u, k)
    requires forall i :: 0 <= i < |more| ==> !(more[i].user == u && more[i].kind == k)
    ensures HasKind(rs + more, u, k) && Latest(rs + more, u, k) == Latest(rs, u, k)
  {
    if more != [] {
      var init := more[..|more| - 1];
      LatestAppendOthers(rs, init, u, k);
      assert rs + more == (rs + init) + [more[|more| - 1]];
      LatestAppendOther(rs + init, more[|more| - 1], u, k);
    } else {
      assert rs + more == rs;
    }
  }

  /**
   * The three seed records for user u at time t (init_ratings):
   * elo 1500, trueskill_mu 25 and trueskill_sigma 8.333, no match attached.
   */
  function Seeds(u: UserId, t: Time): (r: seq<Rating>)
    ensures |r| == 3
    ensures forall i :: 0 <= i < 3 ==> r[i].user == u && r[i].timestamp == t && r[i].source == None
    ensures r[0].kind == Elo && r[0].value == SEED_ELO
    ensures r[1].kind == TrueskillMu && r[1].value == SEED_MU
    ensures r[2].kind == TrueskillSigma && r[2].value == SEED_SIGMA
  {
    [Rating(u, Elo, SEED_ELO, t, None),
     Rating(u, TrueskillMu, SEED_MU, t, None),
     Rating(u, TrueskillSigma, SEED_SIGMA, t, None)]
  }

  /** Seeding a user leaves every earlier record in place and makes the seed values current. */
  lemma SeedsCurrent(rs: seq<Rating>, u: UserId, t: Time)
    ensures Extends(rs + Seeds(u, t), rs) && Rated(rs + Seeds(u, t), u)
    ensures Latest(rs + Seeds(u, t), u, Elo) == SEED_ELO
    ensures Latest(rs + Seeds(u, t), u, TrueskillMu) == SEED_MU
    ensures Latest(rs + Seeds(u, t), u, TrueskillSigma) == SEED_SIGMA
  {
    var s := Seeds(u, t);
    var withElo := rs + [s[0]];
    var withMu := withElo + [s[1]];
    assert rs + s == withMu + [s[2]];
    assert (rs + s)[..|rs|] == rs;
    LatestAppendSame(rs, s[0]);
    LatestAppendOther(withElo, s[1], u, Elo);
    LatestAppendSame(withElo, s[1]);
    LatestAppendOther(withMu, s[2], u, Elo);
    LatestAppendOther(withMu, s[2], u, TrueskillMu);
    LatestAppendSame(withMu, s[2]);
  }

  /**
   * The timestamp of user u's earliest elo record, if any: the query
   * "elo records of u ordered by timestamp, first".
   */
  function EarliestElo(rs: seq<Rating>, u: UserId): (t: Option<Time>)
    ensures t.Some? <==> HasKind(rs, u, Elo)
    ensures t.Some? ==> exists i :: 0 <= i < |rs| && rs[i].user == u && rs[i].kind == Elo && rs[i].timestamp == t.value
    ensures t.Some? ==> forall i :: 0 <= i < |rs| && rs[i].user == u && rs[i].kind == Elo ==> t.value <= rs[i].timestamp
  {
    if rs == [] then None
    else
      var n := |rs|;
      var init := rs[..n - 1];
      var prev := EarliestElo(init, u);
      assert forall i :: 0 <= i < n - 1 ==> rs[i] == init[i];
      if rs[n - 1].user == u && rs[n - 1].kind == Elo then
        if prev.Some? && prev.value <= rs[n - 1].timestamp then prev else Some(rs[n - 1].timestamp)
      else
        prev
  }

  /** Every record of rs belongs to one of the users ps. */
  predicate RecordsFor(rs: seq<Rating>, ps: seq<UserId>)
  {
    forall i :: 0 <= i < |rs| ==> rs[i].user in ps
  }

  lemma RecordsForConcat(a: seq<Rating>, b: seq<Rating>, ps: seq<UserId>)
    requires RecordsFor(a, ps) && RecordsFor(b, ps)
    ensures RecordsFor(a + b, ps)
  {
    forall i | 0 <= i < |a + b| ensures (a + b)[i].user in ps {
      if i < |a| { assert (a + b)[i] == a[i]; } else { assert (a + b)[i] == b[i - |a|]; }
    }
  }

  /** The users, in record order, of the records of kind k attributed to match id. */
  function Attributed(rs: seq<Rating>, id: MatchId, k: Kind): (us: seq<UserId>)
    ensures |us| <= |rs|
  {
    if rs == [] then []
    else
      var n := |rs|;
      var last := rs[n - 1];
      Attributed(rs[..n - 1], id, k) + (if last.source == Some(id) && last.kind == k then [last.user] else [])
  }

  lemma ConcatAssociative(a: seq<UserId>, b: seq<UserId>, c: seq<UserId>)
    ensures (a + b) + c == a + (b + c)
  {
  }

  lemma RatingsAssociative(a: seq<Rating>, b: seq<Rating>, c: seq<Rating>)
    ensures (a + b) + c == a + (b + c)
  {
  }

  lemma AttributedSingle(r: Rating, id: MatchId, k: Kind)
    ensures Attributed([r], id, k) == if r.source == Some(id) && r.kind == k then [r.user] else []
  {
    assert [r][..0] == [];
  }

  lemma {:induction false} AttributedConcat(a: seq<Rating>, b: seq<Rating>, id: MatchId, k: Kind)
    ensures Attributed(a + b, id, k) == Attributed(a, id, k) + Attributed(b, id, k)
  {
    if b == [] {
      assert a + b == a;
    } else {
      var n := |b|;
      assert (a + b)[..|a| + n - 1] == a + b[..n - 1];
      assert (a + b)[|a| + n - 1] == b[n - 1];
      AttributedConcat(a, b[..n - 1], id, k);
    }
  }

  /** No record in the list is attributed to match id. */
  lemma {:induction false} AttributedNone(rs: seq<Rating>, id: MatchId, k: Kind)
    requires forall i :: 0 <= i < |rs| ==> rs[i].source != Some(id)
    ensures Attributed(rs, id, k) == []
  {
    if rs != [] {
      AttributedNone(rs[..|rs| - 1], id, k);
    }
  }
}
