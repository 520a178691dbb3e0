/**
 * The recomputation engine as functions over the rating timeline: one
 * match's update (update_match_ratings) and the fold of that update over
 * the eligible matches in timestamp order, after reseeding every user
 * (recalculate_ratings).
 */
module Replay {
  import opened Wrappers
  import opened RatingRecords
  import opened Matches
  import opened Elo
  import opened TrueSkill

  /** Every user linked to some match holds records of all three kinds. */
  predicate AllRated(rs: seq<Rating>, links: seq<UserMatch>)
  {
    forall u :: u in LinkedUsers(links) ==> Rated(rs, u)
  }

  lemma AllRatedExtends(rs: seq<Rating>, more: seq<Rating>, links: seq<UserMatch>)
    requires AllRated(rs, links) && Extends(more, rs)
    ensures AllRated(more, links)
  {
    forall u | u in LinkedUsers(links) ensures Rated(more, u) {
      RatedExtends(rs, more, u);
    }
  }

  /** Both teams of match m have at least one player. */
  predicate Staffed(links: seq<UserMatch>, m: Match)
  {
    Winners(links, m.id) != [] && Losers(links, m.id) != []
  }

  /** Every record of rs is attributed to m and stamped with m's timestamp. */
  predicate FromMatch(rs: seq<Rating>, m: Match)
  {
    forall i :: 0 <= i < |rs| ==> rs[i].source == Some(m.id) && rs[i].timestamp == m.timestamp
  }

  lemma FromMatchConcat(a: seq<Rating>, b: seq<Rating>, m: Match)
    requires FromMatch(a, m) && FromMatch(b, m)
    ensures FromMatch(a + b, m)
  {
    forall i | 0 <= i < |a + b| ensures (a + b)[i].source == Some(m.id) && (a + b)[i].timestamp == m.timestamp {
      if i < |a| { assert (a + b)[i] == a[i]; } else { assert (a + b)[i] == b[i - |a|]; }
    }
  }

  lemma TeamsRated(rs: seq<Rating>, links: seq<UserMatch>, id: MatchId)
    requires AllRated(rs, links)
    ensures forall p :: p in Winners(links, id) + Losers(links, id) ==> Rated(rs, p)
  {
  }

  lemma EloStillThere(rs: seq<Rating>, more: seq<Rating>, ps: seq<UserId>)
    requires forall p :: p in ps ==> Rated(rs, p)
    ensures forall p :: p in ps ==> HasKind(rs + more, p, Elo)
  {
    assert (rs + more)[..|rs|] == rs;
    forall p | p in ps ensures HasKind(rs + more, p, Elo) {
      HasKindExtends(rs, rs + more, p, Elo);
    }
  }

  lemma EloFromMatch(q: real -> real, m: Match, rs: seq<Rating>, winners: seq<UserId>, losers: seq<UserId>)
    requires Growth(q)
    requires |winners| > 0 && |losers| > 0
    requires forall p :: p in winners + losers ==> HasKind(rs, p, Elo)
    ensures FromMatch(EloUpdate(q, m, rs, winners, losers), m)
  {
  }

  /**
   * update_match_ratings, as the records it appends: nothing for a match
   * that is not fully approved, otherwise the TrueSkill records followed by
   * the elo records, the latter computed from the timeline that already
   * holds the former.
   */
  function MatchUpdate(q: real -> real, rate: Rater, links: seq<UserMatch>, rs: seq<Rating>, m: Match)
    : (r: Result<seq<Rating>, Fault>)
    requires Growth(q) && (Eligible(m) ==> AllRated(rs, links))
    ensures !Eligible(m) ==> r == Ok([])
    ensures r.Err? <==> Eligible(m) && !Staffed(links, m)
    ensures r.Err? ==> r.error == EmptyTeam(m.id)
    ensures r.Ok? ==> FromMatch(r.value, m)
  {
    if !Eligible(m) then Ok([])
    else
      var winners := Winners(links, m.id);
      var losers := Losers(links, m.id);
      TeamsRated(rs, links, m.id);
      match TrueskillUpdate(rate, m, rs, winners, losers)
      case Err(f) => Err(f)
      case Ok(ts) =>
        EloStillThere(rs, ts, winners + losers);
        var elo := EloUpdate(q, m, rs + ts, winners, losers);
        EloFromMatch(q, m, rs + ts, winners, losers);
        FromMatchConcat(ts, elo, m);
        Ok(ts + elo)
  }

  /** One match's update as a value: the records it appends to a timeline, or the fault it raises. */
  type Update = (seq<Rating>, Match) --> Result<seq<Rating>, Fault>

  /**
   * What the replay relies on of an update, for every timeline in which
   * every linked user is rated: it applies, appends nothing for a match
   * that is not fully approved, raises EmptyTeam exactly for a fully
   * approved match with an empty team, and stamps what it appends with the
   * match.
   */
  ghost predicate Sound(update: Update, links: seq<UserMatch>)
  {
    forall rs, m :: AllRated(rs, links) ==> update.requires(rs, m) && Behaves(update, links, rs, m)
  }

  ghost predicate Behaves(update: Update, links: seq<UserMatch>, rs: seq<Rating>, m: Match)
    requires update.requires(rs, m)
  {
    var r := update(rs, m);
    && (!Eligible(m) ==> r == Ok([]))
    && (r.Err? <==> Eligible(m) && !Staffed(links, m))
    && (r.Err? ==> r.error == EmptyTeam(m.id))
    && (r.Ok? ==> FromMatch(r.value, m))
  }

  lemma SoundAt(update: Update, links: seq<UserMatch>, rs: seq<Rating>, m: Match)
    requires Sound(update, links) && AllRated(rs, links)
    ensures update.requires(rs, m) && Behaves(update, links, rs, m)
  {
  }

  /** update_match_ratings as the update the replay folds over the matches. */
  function Updater(q: real -> real, rate: Rater, links: seq<UserMatch>): (u: Update)
    requires Growth(q)
    ensures forall rs, m :: AllRated(rs, links) ==> u.requires(rs, m) && u(rs, m) == MatchUpdate(q, rate, links, rs, m)
    ensures Sound(u, links)
  {
    (rs: seq<Rating>, m: Match) requires Growth(q) && (Eligible(m) ==> AllRated(rs, links)) => MatchUpdate(q, rate, links, rs, m)
  }

  /** The state the replay ends in: the timeline, and the fault that stopped it if any. */
  datatype Replayed = Replayed(ratings: seq<Rating>, fault: Option<Fault>)

  /**
   * One turn of the loop over the eligible matches: nothing more happens
   * once a fault has been raised; otherwise the match's update is appended,
   * or its fault raised with the timeline as it stands.
   */
  function Step(update: Update, links: seq<UserMatch>, prev: Replayed, m: Match): (r: Replayed)
    requires Sound(update, links) && AllRated(prev.ratings, links)
    ensures Extends(r.ratings, prev.ratings) && AllRated(r.ratings, links)
    ensures prev.fault.Some? ==> r == prev
  {
    if prev.fault.Some? then prev
    else
      SoundAt(update, links, prev.ratings, m);
      match update(prev.ratings, m)
      case Err(f) => Replayed(prev.ratings, Some(f))
      case Ok(more) =>
        var next := prev.ratings + more;
        assert next[..|prev.ratings|] == prev.ratings;
        AllRatedExtends(prev.ratings, next, links);
        Replayed(next, None)
  }

  lemma StepCases(update: Update, links: seq<UserMatch>, prev: Replayed, m: Match)
    requires Sound(update, links) && AllRated(prev.ratings, links) && prev.fault.None?
    ensures update.requires(prev.ratings, m)
    ensures var r := Step(update, links, prev, m);
            var u := update(prev.ratings, m);
            && Behaves(update, links, prev.ratings, m)
            && (r.fault.None? <==> u.Ok?)
            && (u.Ok? ==> r.ratings == prev.ratings + u.value)
            && (u.Err? ==> r == Replayed(prev.ratings, Some(u.error)))
  {
    SoundAt(update, links, prev.ratings, m);
  }

  /**
   * The loop over the eligible matches: each match is updated from the
   * timeline left by the matches before it, and the first fault stops the
   * replay with the records written so far.
   */
  function ReplayFrom(update: Update, links: seq<UserMatch>, ms: seq<Match>, rs: seq<Rating>): (r: Replayed)
    requires Sound(update, links) && AllRated(rs, links)
    ensures Extends(r.ratings, rs) && AllRated(r.ratings, links)
    decreases |ms|
  {
    if ms == [] then Replayed(rs, None)
    else
      var prev := ReplayFrom(update, links, ms[..|ms| - 1], rs);
      var r := Step(update, links, prev, ms[|ms| - 1]);
      ExtendsTransitive(rs, prev.ratings, r.ratings);
      r
  }

  /**
   * Replaying a + b is replaying a and then, unless a faulted, replaying b
   * from the timeline a left behind.
   */
  lemma {:induction false} ReplaySplit(update: Update, links: seq<UserMatch>, a: seq<Match>, b: seq<Match>,
                                       rs: seq<Rating>)
    requires Sound(update, links) && AllRated(rs, links)
    ensures var p := ReplayFrom(update, links, a, rs);
            ReplayFrom(update, links, a + b, rs) == if p.fault.Some? then p else ReplayFrom(update, links, b, p.ratings)
    decreases |b|
  {
    if b == [] {
      AppendNothing(a);
    } else {
      AppendLast(a, b);
      ReplaySplit(update, links, a, b[..|b| - 1], rs);
    }
  }

  /** A replay that completes also completed on each prefix of the matches. */
  lemma PrefixCompletes(update: Update, links: seq<UserMatch>, ms: seq<Match>, rs: seq<Rating>, j: nat)
    requires Sound(update, links) && AllRated(rs, links) && j <= |ms|
    requires ReplayFrom(update, links, ms, rs).fault.None?
    ensures ReplayFrom(update, links, ms[..j], rs).fault.None?
  {
    SplitAt(ms, j);
    ReplaySplit(update, links, ms[..j], ms[j..], rs);
  }

  /** Once a prefix of the replay has raised, the whole replay ends in that state. */
  lemma FaultStops(update: Update, links: seq<UserMatch>, ms: seq<Match>, rs: seq<Rating>, j: nat)
    requires Sound(update, links) && AllRated(rs, links) && j <= |ms|
    requires ReplayFrom(update, links, ms[..j], rs).fault.Some?
    ensures ReplayFrom(update, links, ms, rs) == ReplayFrom(update, links, ms[..j], rs)
  {
    SplitAt(ms, j);
    ReplaySplit(update, links, ms[..j], ms[j..], rs);
  }

  /**
   * Each match is updated from the timeline produced by exactly the
   * matches before it in the replay order (the meaning of one turn is
   * StepCases).
   */
  lemma ReplayReadsEarlier(update: Update, links: seq<UserMatch>, ms: seq<Match>, rs: seq<Rating>, j: nat)
    requires Sound(update, links) && AllRated(rs, links) && j < |ms|
    ensures ReplayFrom(update, links, ms[..j + 1], rs) == Step(update, links, ReplayFrom(update, links, ms[..j], rs), ms[j])
  {
    PrefixOfPrefix(ms, j, j + 1);
    assert ms[..j + 1][j] == ms[j];
  }

  /** Record r is attributed to an eligible match of ms and carries its timestamp. */
  predicate FromEligible(r: Rating, ms: seq<Match>)
  {
    exists j :: 0 <= j < |ms| && Eligible(ms[j]) && r.source == Some(ms[j].id) && r.timestamp == ms[j].timestamp
  }

  lemma FromEligibleLonger(r: Rating, ms: seq<Match>, n: nat)
    requires n <= |ms| && FromEligible(r, ms[..n])
    ensures FromEligible(r, ms)
  {
    var j :| 0 <= j < n && Eligible(ms[..n][j]) && r.source == Some(ms[..n][j].id) && r.timestamp == ms[..n][j].timestamp;
    assert ms[..n][j] == ms[j];
  }

  /** Every record of rs from position `from` on comes from an eligible match of ms. */
  predicate AppendedFromEligible(rs: seq<Rating>, from: nat, ms: seq<Match>)
  {
    forall i :: from <= i < |rs| ==> FromEligible(rs[i], ms)
  }

  lemma AllFromEligibleLonger(rs: seq<Rating>, from: nat, ms: seq<Match>, n: nat)
    requires n <= |ms| && AppendedFromEligible(rs, from, ms[..n])
    ensures AppendedFromEligible(rs, from, ms)
  {
    forall i | from <= i < |rs| ensures FromEligible(rs[i], ms) {
      FromEligibleLonger(rs[i], ms, n);
    }
  }

  /**
   * Every record the replay appends comes from an eligible match of ms and
   * carries that match's timestamp.
   */
  lemma {:induction false} ReplayProvenance(update: Update, links: seq<UserMatch>, ms: seq<Match>, rs: seq<Rating>)
    requires Sound(update, links) && AllRated(rs, links)
    ensures AppendedFromEligible(ReplayFrom(update, links, ms, rs).ratings, |rs|, ms)
    decreases |ms|
  {
    if ms != [] {
      var n := |ms|;
      var m := ms[n - 1];
      var prev := ReplayFrom(update, links, ms[..n - 1], rs);
      var r := ReplayFrom(update, links, ms, rs);
      assert r == Step(update, links, prev, m);
      ReplayProvenance(update, links, ms[..n - 1], rs);
      AllFromEligibleLonger(prev.ratings, |rs|, ms, n - 1);
      if r.ratings != prev.ratings {
        StepCases(update, links, prev, m);
        var up := update(prev.ratings, m);
        assert up.Ok? && r.ratings == prev.ratings + up.value;
        assert Eligible(m);
        forall i | |prev.ratings| <= i < |r.ratings| ensures FromEligible(r.ratings[i], ms) {
          assert r.ratings[i] == up.value[i - |prev.ratings|];
          assert ms[n - 1] == m;
        }
      }
      assert forall i :: |rs| <= i < |prev.ratings| ==> r.ratings[i] == prev.ratings[i];
    }
  }

  /** Record r is tied to a match and belongs to one of that match's players. */
  predicate ByParticipant(r: Rating, links: seq<UserMatch>)
  {
    r.source.Some? && r.user in Winners(links, r.source.value) + Losers(links, r.source.value)
  }

  /** One match's update writes records only for the players of that match. */
  lemma MatchUpdateParticipants(q: real -> real, rate: Rater, links: seq<UserMatch>, rs: seq<Rating>, m: Match)
    requires Growth(q) && AllRated(rs, links)
    requires MatchUpdate(q, rate, links, rs, m).Ok?
    ensures RecordsFor(MatchUpdate(q, rate, links, rs, m).value, Winners(links, m.id) + Losers(links, m.id))
  {
    if Eligible(m) {
      var winners := Winners(links, m.id);
      var losers := Losers(links, m.id);
      TeamsRated(rs, links, m.id);
      TrueskillUpdatePlayers(rate, m, rs, winners, losers);
      var ts := TrueskillUpdate(rate, m, rs, winners, losers).value;
      assert RecordsFor(ts, winners + losers);
      EloStillThere(rs, ts, winners + losers);
      var elo := EloUpdate(q, m, rs + ts, winners, losers);
      assert RecordsFor(elo, winners + losers) by {
        assert forall i :: 0 <= i < |elo| ==> elo[i] == EloRecord(m, (winners + losers)[i], elo[i].value);
      }
      assert MatchUpdate(q, rate, links, rs, m).value == ts + elo;
      RecordsForConcat(ts, elo, winners + losers);
    } else {
      assert MatchUpdate(q, rate, links, rs, m).value == [];
    }
  }

  /** The update writes records only for the players of the match it rates. */
  ghost predicate Participates(update: Update, links: seq<UserMatch>)
    requires Sound(update, links)
  {
    forall rs, m :: AllRated(rs, links) && update(rs, m).Ok? ==>
      RecordsFor(update(rs, m).value, Winners(links, m.id) + Losers(links, m.id))
  }

  lemma UpdaterParticipates(q: real -> real, rate: Rater, links: seq<UserMatch>)
    requires Growth(q)
    ensures Participates(Updater(q, rate, links), links)
  {
    var u := Updater(q, rate, links);
    forall rs, m | AllRated(rs, links) && u(rs, m).Ok?
      ensures RecordsFor(u(rs, m).value, Winners(links, m.id) + Losers(links, m.id))
    {
      MatchUpdateParticipants(q, rate, links, rs, m);
    }
  }

  /** What a participating update appends is tied to the match, for the match's players. */
  lemma UpdateByParticipants(update: Update, links: seq<UserMatch>, rs: seq<Rating>, m: Match)
    requires Sound(update, links) && AllRated(rs, links) && Participates(update, links)
    requires update.requires(rs, m) && update(rs, m).Ok?
    ensures forall k :: 0 <= k < |update(rs, m).value| ==> ByParticipant(update(rs, m).value[k], links)
  {
    SoundAt(update, links, rs, m);
    var v := update(rs, m).value;
    assert FromMatch(v, m);
    assert RecordsFor(v, Winners(links, m.id) + Losers(links, m.id));
  }

  /** One step keeps every record from position `from` on tied to a player of its match. */
  lemma StepByParticipants(update: Update, links: seq<UserMatch>, prev: Replayed, m: Match, from: nat)
    requires Sound(update, links) && AllRated(prev.ratings, links) && Participates(update, links)
    requires from <= |prev.ratings| && forall i :: from <= i < |prev.ratings| ==> ByParticipant(prev.ratings[i], links)
    ensures forall i :: from <= i < |Step(update, links, prev, m).ratings| ==>
              ByParticipant(Step(update, links, prev, m).ratings[i], links)
  {
    var r := Step(update, links, prev, m);
    if prev.fault.None? {
      StepCases(update, links, prev, m);
      var up := update(prev.ratings, m);
      if up.Ok? {
        UpdateByParticipants(update, links, prev.ratings, m);
        assert r.ratings == prev.ratings + up.value;
        forall i | from <= i < |r.ratings| ensures ByParticipant(r.ratings[i], links) {
          if i < |prev.ratings| {
            assert r.ratings[i] == prev.ratings[i];
          } else {
            assert r.ratings[i] == up.value[i - |prev.ratings|];
          }
        }
      }
    }
  }

  /** Every record the replay appends belongs to a player of the match it is tied to. */
  lemma {:induction false} ReplayByParticipants(update: Update, links: seq<UserMatch>, ms: seq<Match>, rs: seq<Rating>)
    requires Sound(update, links) && AllRated(rs, links) && Participates(update, links)
    ensures forall i :: |rs| <= i < |ReplayFrom(update, links, ms, rs).ratings| ==>
              ByParticipant(ReplayFrom(update, links, ms, rs).ratings[i], links)
    decreases |ms|
  {
    if ms != [] {
      var n := |ms|;
      var prev := ReplayFrom(update, links, ms[..n - 1], rs);
      assert ReplayFrom(update, links, ms, rs) == Step(update, links, prev, ms[n - 1]);
      ReplayByParticipants(update, links, ms[..n - 1], rs);
      StepByParticipants(update, links, prev, ms[n - 1], |rs|);
    }
  }

  /** ms[j] is the first eligible match of ms without two non-empty teams. */
  predicate FirstUnstaffed(links: seq<UserMatch>, ms: seq<Match>, j: int)
  {
    && 0 <= j < |ms| && Eligible(ms[j]) && !Staffed(links, ms[j])
    && forall i :: 0 <= i < j && Eligible(ms[i]) ==> Staffed(links, ms[i])
  }

  lemma FirstUnstaffedLonger(links: seq<UserMatch>, ms: seq<Match>, j: int)
    requires ms != [] && FirstUnstaffed(links, ms[..|ms| - 1], j)
    ensures FirstUnstaffed(links, ms, j)
  {
    var init := ms[..|ms| - 1];
    assert forall i :: 0 <= i <= j ==> init[i] == ms[i];
  }

  /** Every eligible match of ms has two non-empty teams. */
  predicate AllStaffed(links: seq<UserMatch>, ms: seq<Match>)
  {
    forall j :: 0 <= j < |ms| && Eligible(ms[j]) ==> Staffed(links, ms[j])
  }

  lemma AllStaffedLast(links: seq<UserMatch>, ms: seq<Match>)
    requires ms != []
    ensures AllStaffed(links, ms)
            <==> AllStaffed(links, ms[..|ms| - 1]) && (Eligible(ms[|ms| - 1]) ==> Staffed(links, ms[|ms| - 1]))
  {
    var init := ms[..|ms| - 1];
    assert forall j :: 0 <= j < |init| ==> init[j] == ms[j];
  }

  /** The replay completes exactly when every eligible match has two non-empty teams. */
  lemma {:induction false} ReplayCompletes(update: Update, links: seq<UserMatch>, ms: seq<Match>, rs: seq<Rating>)
    requires Sound(update, links) && AllRated(rs, links)
    ensures ReplayFrom(update, links, ms, rs).fault.None? <==> AllStaffed(links, ms)
  {
    if ms != [] {
      var n := |ms|;
      var init := ms[..n - 1];
      var prev := ReplayFrom(update, links, init, rs);
      ReplayCompletes(update, links, init, rs);
      AllStaffedLast(links, ms);
      if prev.fault.None? {
        StepCases(update, links, prev, ms[n - 1]);
      }
    }
  }

  /** The replay of ms stopped at ms[j], keeping the records of the matches before it. */
  ghost predicate StoppedAt(update: Update, links: seq<UserMatch>, ms: seq<Match>, rs: seq<Rating>, j: int)
    requires Sound(update, links) && AllRated(rs, links)
  {
    var r := ReplayFrom(update, links, ms, rs);
    FirstUnstaffed(links, ms, j) && r.fault == Some(EmptyTeam(ms[j].id)) && r.ratings == ReplayFrom(update, links, ms[..j], rs).ratings
  }

  /** A fault raised before the last match is where the whole replay stopped. */
  lemma StoppedEarlier(update: Update, links: seq<UserMatch>, ms: seq<Match>, rs: seq<Rating>, j: int)
    requires Sound(update, links) && AllRated(rs, links) && ms != []
    requires StoppedAt(update, links, ms[..|ms| - 1], rs, j)
    ensures StoppedAt(update, links, ms, rs, j)
  {
    var n := |ms|;
    var init := ms[..n - 1];
    FirstUnstaffedLonger(links, ms, j);
    PrefixOfPrefix(ms, j, n - 1);
    FaultStops(update, links, ms, rs, n - 1);
    assert init[j] == ms[j];
  }

  /** A fault raised by the last match is where the replay stopped. */
  lemma StoppedLast(update: Update, links: seq<UserMatch>, ms: seq<Match>, rs: seq<Rating>)
    requires Sound(update, links) && AllRated(rs, links) && ms != []
    requires ReplayFrom(update, links, ms[..|ms| - 1], rs).fault.None?
    requires ReplayFrom(update, links, ms, rs).fault.Some?
    ensures StoppedAt(update, links, ms, rs, |ms| - 1)
  {
    var n := |ms|;
    var init := ms[..n - 1];
    StepCases(update, links, ReplayFrom(update, links, init, rs), ms[n - 1]);
    ReplayCompletes(update, links, init, rs);
    assert forall i :: 0 <= i < n - 1 ==> init[i] == ms[i];
    assert AllStaffed(links, init);
  }

  /**
   * A replay that raises stops at the first eligible match without two
   * non-empty teams, keeping the records of the matches before it.
   */
  lemma {:induction false} ReplayFirstFault(update: Update, links: seq<UserMatch>, ms: seq<Match>, rs: seq<Rating>)
    requires Sound(update, links) && AllRated(rs, links)
    ensures ReplayFrom(update, links, ms, rs).fault.Some? ==> exists j :: StoppedAt(update, links, ms, rs, j)
  {
    if ms != [] {
      var init := ms[..|ms| - 1];
      if ReplayFrom(update, links, init, rs).fault.Some? {
        ReplayFirstFault(update, links, init, rs);
        var j :| StoppedAt(update, links, init, rs, j);
        StoppedEarlier(update, links, ms, rs, j);
      } else if ReplayFrom(update, links, ms, rs).fault.Some? {
        StoppedLast(update, links, ms, rs);
      }
    }
  }

  /**
   * The users of the records of kind k that replaying ms attributes to
   * match id: the participants of every eligible match of ms with that id,
   * in replay order.
   */
  function Contribution(links: seq<UserMatch>, ms: seq<Match>, id: MatchId): seq<UserId>
  {
    if ms == [] then []
    else
      var m := ms[|ms| - 1];
      Contribution(links, ms[..|ms| - 1], id)
        + (if m.id == id && Eligible(m) then Winners(links, m.id) + Losers(links, m.id) else [])
  }

  /** One match's update attributes one record of each kind to it per participant, and none to other matches. */
  lemma MatchUpdateAttributed(q: real -> real, rate: Rater, links: seq<UserMatch>, rs: seq<Rating>, m: Match,
                              id: MatchId, k: Kind)
    requires Growth(q) && AllRated(rs, links) && KeepsShape(rate)
    requires MatchUpdate(q, rate, links, rs, m).Ok?
    ensures Attributed(MatchUpdate(q, rate, links, rs, m).value, id, k)
            == if id == m.id && Eligible(m) then Winners(links, m.id) + Losers(links, m.id) else []
  {
    if Eligible(m) {
      var winners := Winners(links, m.id);
      var losers := Losers(links, m.id);
      TeamsRated(rs, links, m.id);
      var ts := TrueskillUpdate(rate, m, rs, winners, losers).value;
      EloStillThere(rs, ts, winners + losers);
      var elo := EloUpdate(q, m, rs + ts, winners, losers);
      assert MatchUpdate(q, rate, links, rs, m).value == ts + elo;
      AttributedConcat(ts, elo, id, k);
      TrueskillUpdateAttributed(rate, m, rs, winners, losers, id, k);
      EloUpdateAttributed(q, m, rs + ts, winners, losers, id, k);
    } else {
      AttributedNone([], id, k);
    }
  }

  /** The update attributes to its match one record of each kind per participant, and none to other matches. */
  ghost predicate Attributes(update: Update, links: seq<UserMatch>)
    requires Sound(update, links)
  {
    forall rs, m, id, k :: AllRated(rs, links) && update(rs, m).Ok? ==>
      Attributed(update(rs, m).value, id, k) == if id == m.id && Eligible(m) then Winners(links, m.id) + Losers(links, m.id) else []
  }

  lemma UpdaterAttributes(q: real -> real, rate: Rater, links: seq<UserMatch>)
    requires Growth(q) && KeepsShape(rate)
    ensures Attributes(Updater(q, rate, links), links)
  {
    var u := Updater(q, rate, links);
    forall rs, m, id, k | AllRated(rs, links) && u(rs, m).Ok?
      ensures Attributed(u(rs, m).value, id, k)
              == if id == m.id && Eligible(m) then Winners(links, m.id) + Losers(links, m.id) else []
    {
      MatchUpdateAttributed(q, rate, links, rs, m, id, k);
    }
  }

  /** A completed replay adds to each match exactly the records its contribution names. */
  lemma {:induction false} ReplayAttributed(update: Update, links: seq<UserMatch>, ms: seq<Match>, rs: seq<Rating>,
                                            id: MatchId, k: Kind)
    requires Sound(update, links) && AllRated(rs, links) && Attributes(update, links)
    requires ReplayFrom(update, links, ms, rs).fault.None?
    ensures Attributed(ReplayFrom(update, links, ms, rs).ratings, id, k) == Attributed(rs, id, k) + Contribution(links, ms, id)
  {
    if ms == [] {
    } else {
      var n := |ms|;
      var m := ms[n - 1];
      var prev := ReplayFrom(update, links, ms[..n - 1], rs);
      var r := ReplayFrom(update, links, ms, rs);
      assert r == Step(update, links, prev, m);
      assert prev.fault.None?;
      StepCases(update, links, prev, m);
      var up := update(prev.ratings, m);
      assert up.Ok? && r.ratings == prev.ratings + up.value;
      ReplayAttributed(update, links, ms[..n - 1], rs, id, k);
      AttributedConcat(prev.ratings, up.value, id, k);
      var extra := if m.id == id && Eligible(m) then Winners(links, m.id) + Losers(links, m.id) else [];
      var before := Contribution(links, ms[..n - 1], id);
      assert Attributed(up.value, id, k) == extra;
      assert Contribution(links, ms, id) == before + extra;
      var base := Attributed(rs, id, k);
      assert Attributed(r.ratings, id, k) == (base + before) + extra;
      ConcatAssociative(base, before, extra);
    }
  }

  /** No eligible match of ms has the id: nothing is contributed to it. */
  lemma {:induction false} ContributionAbsent(links: seq<UserMatch>, ms: seq<Match>, id: MatchId)
    requires forall m :: m in ms && Eligible(m) ==> m.id != id
    ensures Contribution(links, ms, id) == []
  {
    if ms != [] {
      assert ms[|ms| - 1] in ms;
      assert forall m :: m in ms[..|ms| - 1] ==> m in ms;
      ContributionAbsent(links, ms[..|ms| - 1], id);
    }
  }

  /** With distinct ids, a match's contribution is its participants when it is eligible, and nothing otherwise. */
  lemma {:induction false} ContributionOfMember(links: seq<UserMatch>, ms: seq<Match>, j: nat)
    requires DistinctIds(ms) && j < |ms|
    ensures Contribution(links, ms, ms[j].id)
            == if Eligible(ms[j]) then Winners(links, ms[j].id) + Losers(links, ms[j].id) else []
  {
    var n := |ms|;
    var init := ms[..n - 1];
    assert DistinctIds(init) by {
      forall a, b | 0 <= a < b < |init| ensures init[a].id != init[b].id {
        assert init[a] == ms[a] && init[b] == ms[b];
      }
    }
    if j == n - 1 {
      forall m | m in init && Eligible(m) ensures m.id != ms[j].id {
        var a :| 0 <= a < |init| && init[a] == m;
        assert ms[a] == m;
      }
      ContributionAbsent(links, init, ms[j].id);
    } else {
      assert init[j] == ms[j];
      ContributionOfMember(links, init, j);
    }
  }

  /**
   * The first loop of recalculate_ratings: each user's earliest elo
   * timestamp, in user order, or the fault of the first user who has none.
   */
  function CapturedTimestamps(rs: seq<Rating>, n: nat): (r: Result<seq<Time>, Fault>)
    ensures r.Ok? <==> forall u :: 0 <= u < n ==> HasKind(rs, u, Elo)
    ensures r.Ok? ==> |r.value| == n && forall u :: 0 <= u < n ==> EarliestElo(rs, u) == Some(r.value[u])
    ensures r.Err? ==> r.error.NoEloHistory? && r.error.user < n && !HasKind(rs, r.error.user, Elo)
                       && forall u :: 0 <= u < r.error.user ==> HasKind(rs, u, Elo)
  {
    if n == 0 then Ok([])
    else
      match CapturedTimestamps(rs, n - 1)
      case Err(f) => Err(f)
      case Ok(ts) =>
        match EarliestElo(rs, n - 1)
        case None => Err(NoEloHistory(n - 1))
        case Some(t) => Ok(ts + [t])
  }

  /** Once the capture has raised for the first k users, it raises the same fault for more users. */
  lemma {:induction false} CaptureStops(rs: seq<Rating>, k: nat, n: nat)
    requires k <= n && CapturedTimestamps(rs, k).Err?
    ensures CapturedTimestamps(rs, n) == CapturedTimestamps(rs, k)
    decreases n
  {
    if n > k {
      CaptureStops(rs, k, n - 1);
    }
  }

  /** The reseeding loop: the three seed records of each user u, at ts[u], in user order. */
  function AllSeeds(ts: seq<Time>): (r: seq<Rating>)
    ensures |r| == 3 * |ts|
    ensures forall i :: 0 <= i < |r| ==> r[i] == Seeds(i / 3, ts[i / 3])[i % 3]
  {
    if ts == [] then []
    else
      var n := |ts|;
      var prev := AllSeeds(ts[..n - 1]);
      var r := prev + Seeds(n - 1, ts[n - 1]);
      assert forall i :: 0 <= i < |prev| ==> r[i] == prev[i] && ts[..n - 1][i / 3] == ts[i / 3];
      assert forall i :: |prev| <= i < |r| ==> r[i] == Seeds(n - 1, ts[n - 1])[i - |prev|] && i / 3 == n - 1;
      r
  }

  /** Reseeding one more user appends that user's three seeds. */
  lemma AllSeedsStep(ts: seq<Time>, u: nat)
    requires u < |ts|
    ensures AllSeeds(ts[..u + 1]) == AllSeeds(ts[..u]) + Seeds(u, ts[u])
  {
    assert ts[..u + 1][..u] == ts[..u];
  }

  lemma DivThree(u: nat, j: nat)
    requires j < 3
    ensures (3 * u + j) / 3 == u && (3 * u + j) % 3 == j
  {
  }

  /** Reseeding puts user u's three seeds, at ts[u], at positions 3u, 3u + 1 and 3u + 2. */
  lemma AllSeedsOf(ts: seq<Time>, u: UserId, j: nat)
    requires u < |ts| && j < 3
    ensures 3 * u + j < |AllSeeds(ts)| && AllSeeds(ts)[3 * u + j] == Seeds(u, ts[u])[j]
  {
    DivThree(u, j);
  }

  /** After reseeding, every user below |ts| is rated. */
  lemma AllSeedsRated(ts: seq<Time>, u: UserId)
    requires u < |ts|
    ensures Rated(AllSeeds(ts), u)
  {
    AllSeedsOf(ts, u, 0);
    AllSeedsOf(ts, u, 1);
    AllSeedsOf(ts, u, 2);
  }

  /** Every user linked to a match is one of the n users of the store. */
  predicate LinksWithin(links: seq<UserMatch>, n: nat)
  {
    forall u :: u in LinkedUsers(links) ==> u < n
  }

  /** After reseeding every user of the store, every linked user is rated. */
  lemma SeedsRated(ts: seq<Time>, links: seq<UserMatch>)
    requires LinksWithin(links, |ts|)
    ensures AllRated(AllSeeds(ts), links)
  {
    forall u | u in LinkedUsers(links) ensures Rated(AllSeeds(ts), u) {
      AllSeedsRated(ts, u);
    }
  }

  /**
   * recalculate_ratings over a store of n users: capture the earliest elo
   * timestamps, wipe the timeline, reseed every user and replay the fully
   * approved matches in timestamp order.  A user without any elo record
   * stops it before the wipe, leaving the timeline as it was.
   */
  function Recalculate(q: real -> real, rate: Rater, n: nat, links: seq<UserMatch>, matches: seq<Match>,
                       rs: seq<Rating>): (r: Replayed)
    requires Growth(q) && LinksWithin(links, n)
  {
    match CapturedTimestamps(rs, n)
    case Err(f) => Replayed(rs, Some(f))
    case Ok(ts) =>
      var seeds := AllSeeds(ts);
      SeedsRated(ts, links);
      ReplayFrom(Updater(q, rate, links), links, EligibleInOrder(matches), seeds)
  }

  /** Past the capture loop, the recalculation is the replay of the eligible matches from the seeds. */
  lemma RecalculatePastCapture(q: real -> real, rate: Rater, n: nat, links: seq<UserMatch>, matches: seq<Match>,
                               rs: seq<Rating>)
    requires Growth(q) && LinksWithin(links, n) && CapturedTimestamps(rs, n).Ok?
    ensures var seeds := AllSeeds(CapturedTimestamps(rs, n).value);
            && AllRated(seeds, links)
            && Recalculate(q, rate, n, links, matches, rs) == ReplayFrom(Updater(q, rate, links), links, EligibleInOrder(matches), seeds)
  {
    SeedsRated(CapturedTimestamps(rs, n).value, links);
  }

  /** Every user of the store has an elo record: the capture loop does not raise. */
  predicate EloHistories(rs: seq<Rating>, n: nat)
  {
    forall u :: 0 <= u < n ==> HasKind(rs, u, Elo)
  }

  /** Record r is attributed to a fully approved match of the store and stamped with its timestamp. */
  predicate FromApproved(r: Rating, matches: seq<Match>)
  {
    exists m :: m in matches && Eligible(m) && r.source == Some(m.id) && r.timestamp == m.timestamp
  }

  /** A recalculation that raises names the fault of the first user without an elo record or of the first bad match. */
  lemma RecalculateCompletes(q: real -> real, rate: Rater, n: nat, links: seq<UserMatch>, matches: seq<Match>,
                             rs: seq<Rating>)
    requires Growth(q) && LinksWithin(links, n)
    ensures Recalculate(q, rate, n, links, matches, rs).fault.None?
            <==> EloHistories(rs, n) && forall m :: m in matches && Eligible(m) ==> Staffed(links, m)
    ensures !EloHistories(rs, n) ==>
              var r := Recalculate(q, rate, n, links, matches, rs);
              r.ratings == rs && r.fault.Some? && r.fault.value.NoEloHistory?
              && !HasKind(rs, r.fault.value.user, Elo) && forall u :: 0 <= u < r.fault.value.user ==> HasKind(rs, u, Elo)
  {
    var c := CapturedTimestamps(rs, n);
    if c.Ok? {
      var ms := EligibleInOrder(matches);
      var seeds := AllSeeds(c.value);
      SeedsRated(c.value, links);
      ReplayCompletes(Updater(q, rate, links), links, ms, seeds);
      assert AllStaffed(links, ms) <==> (forall m :: m in matches && Eligible(m) ==> Staffed(links, m)) by {
        assert forall m :: m in ms <==> m in matches && Eligible(m);
      }
    }
  }

  /**
   * After a recalculation that gets past the capture loop, the timeline
   * starts with every user's three seed records, stamped with that user's
   * earliest elo timestamp from before the wipe.
   */
  lemma RecalculateSeeds(q: real -> real, rate: Rater, n: nat, links: seq<UserMatch>, matches: seq<Match>,
                         rs: seq<Rating>, u: UserId, j: nat)
    requires Growth(q) && LinksWithin(links, n) && EloHistories(rs, n)
    requires u < n && j < 3
    ensures var r := Recalculate(q, rate, n, links, matches, rs).ratings;
            EarliestElo(rs, u).Some? && 3 * u + j < |r| && r[3 * u + j] == Seeds(u, EarliestElo(rs, u).value)[j]
  {
    var ts := CapturedTimestamps(rs, n).value;
    var seeds := AllSeeds(ts);
    var r := Recalculate(q, rate, n, links, matches, rs).ratings;
    AllSeedsOf(ts, u, j);
    assert r[..|seeds|] == seeds;
    assert r[3 * u + j] == seeds[3 * u + j];
  }

  /**
   * After a recalculation that gets past the capture loop, every record
   * is a seed record (the first three per user, with no match attached) or
   * comes from a fully approved match of the store, stamped with its
   * timestamp; this holds also when a bad match stops the replay.
   */
  lemma RecalculateOnlyApproved(q: real -> real, rate: Rater, n: nat, links: seq<UserMatch>, matches: seq<Match>,
                                rs: seq<Rating>, i: nat)
    requires Growth(q) && LinksWithin(links, n) && EloHistories(rs, n)
    requires i < |Recalculate(q, rate, n, links, matches, rs).ratings|
    ensures var r := Recalculate(q, rate, n, links, matches, rs).ratings;
            if i < 3 * n then r[i].source == None && r[i].user == i / 3 else FromApproved(r[i], matches)
  {
    assert CapturedTimestamps(rs, n).Ok?;
    var seeds := AllSeeds(CapturedTimestamps(rs, n).value);
    var ms := EligibleInOrder(matches);
    RecalculatePastCapture(q, rate, n, links, matches, rs);
    var r := ReplayFrom(Updater(q, rate, links), links, ms, seeds).ratings;
    assert r == Recalculate(q, rate, n, links, matches, rs).ratings;
    if i < 3 * n {
      assert r[..|seeds|] == seeds;
      assert r[i] == seeds[i];
    } else {
      ReplayProvenance(Updater(q, rate, links), links, ms, seeds);
      assert FromEligible(r[i], ms);
      var j :| 0 <= j < |ms| && Eligible(ms[j]) && r[i].source == Some(ms[j].id) && r[i].timestamp == ms[j].timestamp;
      assert ms[j] in ms;
    }
  }

  /**
   * After a recalculation that gets past the capture loop, no record is
   * attributed to a match of the store that is not fully approved.
   */
  lemma RecalculateNothingUnapproved(q: real -> real, rate: Rater, n: nat, links: seq<UserMatch>, matches: seq<Match>,
                                     rs: seq<Rating>, m: Match)
    requires Growth(q) && LinksWithin(links, n) && EloHistories(rs, n)
    requires DistinctIds(matches) && m in matches && !Eligible(m)
    ensures var r := Recalculate(q, rate, n, links, matches, rs).ratings;
            forall i :: 0 <= i < |r| ==> r[i].source != Some(m.id)
  {
    var r := Recalculate(q, rate, n, links, matches, rs).ratings;
    forall i | 0 <= i < |r| ensures r[i].source != Some(m.id) {
      RecalculateOnlyApproved(q, rate, n, links, matches, rs, i);
      if i >= 3 * n {
        var m' :| m' in matches && Eligible(m') && r[i].source == Some(m'.id) && r[i].timestamp == m'.timestamp;
        var a :| 0 <= a < |matches| && matches[a] == m';
        var b :| 0 <= b < |matches| && matches[b] == m;
        assert a != b;
      }
    }
  }

  /**
   * When a recalculation completes, each match of the store has exactly
   * one record of each kind per participant attributed to it, winners
   * before losers, if it is fully approved, and none otherwise.
   */
  lemma RecalculatePerParticipant(q: real -> real, rate: Rater, n: nat, links: seq<UserMatch>, matches: seq<Match>,
                                  rs: seq<Rating>, m: Match, k: Kind)
    requires Growth(q) && LinksWithin(links, n) && KeepsShape(rate)
    requires Recalculate(q, rate, n, links, matches, rs).fault.None?
    requires DistinctIds(matches) && m in matches
    ensures Attributed(Recalculate(q, rate, n, links, matches, rs).ratings, m.id, k)
            == if Eligible(m) then Winners(links, m.id) + Losers(links, m.id) else []
  {
    assert CapturedTimestamps(rs, n).Ok?;
    var seeds := AllSeeds(CapturedTimestamps(rs, n).value);
    var ms := EligibleInOrder(matches);
    RecalculatePastCapture(q, rate, n, links, matches, rs);
    UpdaterAttributes(q, rate, links);
    ReplayAttributed(Updater(q, rate, links), links, ms, seeds, m.id, k);
    AttributedNone(seeds, m.id, k);
    ContributionInStore(links, matches, m);
  }

  /** With distinct ids, replaying the store's eligible matches contributes to m its participants exactly when m is eligible. */
  lemma ContributionInStore(links: seq<UserMatch>, matches: seq<Match>, m: Match)
    requires DistinctIds(matches) && m in matches
    ensures Contribution(links, EligibleInOrder(matches), m.id)
            == if Eligible(m) then Winners(links, m.id) + Losers(links, m.id) else []
  {
    var ms := EligibleInOrder(matches);
    assert DistinctIds(ms);
    if Eligible(m) {
      assert m in ms;
      var j :| 0 <= j < |ms| && ms[j] == m;
      ContributionOfMember(links, ms, j);
    } else {
      forall m' | m' in ms && Eligible(m') ensures m'.id != m.id {
        var a :| 0 <= a < |matches| && matches[a] == m';
        var b :| 0 <= b < |matches| && matches[b] == m;
        assert a != b;
      }
      ContributionAbsent(links, ms, m.id);
    }
  }

  /**
   * delete_match: after the recalculation that follows the deletion of
   * match id gets past the capture loop, no record is attributed to id.
   */
  lemma RecalculateForgetsDeleted(q: real -> real, rate: Rater, n: nat, links: seq<UserMatch>, matches: seq<Match>,
                                  rs: seq<Rating>, id: MatchId)
    requires Growth(q) && LinksWithin(links, n) && EloHistories(rs, n)
    ensures var r := Recalculate(q, rate, n, links, Without(matches, id), rs).ratings;
            forall i :: 0 <= i < |r| ==> r[i].source != Some(id)
  {
    var rest := Without(matches, id);
    var r := Recalculate(q, rate, n, links, rest, rs).ratings;
    forall i | 0 <= i < |r| ensures r[i].source != Some(id) {
      RecalculateOnlyApproved(q, rate, n, links, rest, rs, i);
      if i >= 3 * n {
        var m :| m in rest && Eligible(m) && r[i].source == Some(m.id) && r[i].timestamp == m.timestamp;
        assert m.id != id;
      }
    }
  }

  /**
   * Every fully approved match of the store is stamped no earlier than the
   * earliest elo record of each of its players.
   */
  predicate PlayedAfterJoining(rs: seq<Rating>, links: seq<UserMatch>, matches: seq<Match>)
  {
    forall m, p :: m in matches && Eligible(m) && p in Winners(links, m.id) + Losers(links, m.id) && EarliestElo(rs, p).Some?
      ==> EarliestElo(rs, p).value <= m.timestamp
  }

  /**
   * A replay from the seeds at ts keeps user u's earliest elo record at
   * ts[u] when every match of u it replays is stamped no earlier.
   */
  lemma SeedsStayEarliest(ts: seq<Time>, ms: seq<Match>, links: seq<UserMatch>, r: seq<Rating>, u: UserId)
    requires u < |ts|
    requires Extends(r, AllSeeds(ts)) && AppendedFromEligible(r, |AllSeeds(ts)|, ms)
    requires forall i :: |AllSeeds(ts)| <= i < |r| ==> ByParticipant(r[i], links)
    requires forall j :: 0 <= j < |ms| && Eligible(ms[j]) && u in Winners(links, ms[j].id) + Losers(links, ms[j].id)
               ==> ts[u] <= ms[j].timestamp
    ensures EarliestElo(r, u) == Some(ts[u])
  {
    var seeds := AllSeeds(ts);
    AllSeedsOf(ts, u, 0);
    assert r[3 * u] == seeds[3 * u];
    assert r[3 * u].user == u && r[3 * u].kind == Elo && r[3 * u].timestamp == ts[u];
    var t := EarliestElo(r, u);
    assert t.Some? && t.value <= ts[u];
    var i :| 0 <= i < |r| && r[i].user == u && r[i].kind == Elo && r[i].timestamp == t.value;
    if i < |seeds| {
      assert r[i] == seeds[i] == Seeds(i / 3, ts[i / 3])[i % 3];
      assert r[i].timestamp == ts[u];
    } else {
      var j :| 0 <= j < |ms| && Eligible(ms[j]) && r[i].source == Some(ms[j].id) && r[i].timestamp == ms[j].timestamp;
      assert ByParticipant(r[i], links);
      assert u in Winners(links, ms[j].id) + Losers(links, ms[j].id);
      assert ts[u] <= r[i].timestamp;
    }
    assert t.value == ts[u];
  }

  /**
   * Recalculating twice in a row gives the same timeline and outcome as
   * recalculating once, provided no fully approved match is stamped before
   * the earliest elo record of one of its players: the second capture
   * then finds the same timestamps as the first.
   */
  lemma RecalculateIdempotent(q: real -> real, rate: Rater, n: nat, links: seq<UserMatch>, matches: seq<Match>,
                              rs: seq<Rating>)
    requires Growth(q) && LinksWithin(links, n)
    requires PlayedAfterJoining(rs, links, matches)
    ensures var first := Recalculate(q, rate, n, links, matches, rs);
            Recalculate(q, rate, n, links, matches, first.ratings) == first
  {
    if !EloHistories(rs, n) {
      RecalculateCompletes(q, rate, n, links, matches, rs);
    } else {
      var ts := CapturedTimestamps(rs, n).value;
      var seeds := AllSeeds(ts);
      var ms := EligibleInOrder(matches);
      var update := Updater(q, rate, links);
      RecalculatePastCapture(q, rate, n, links, matches, rs);
      var r := ReplayFrom(update, links, ms, seeds).ratings;
      ReplayProvenance(update, links, ms, seeds);
      UpdaterParticipates(q, rate, links);
      ReplayByParticipants(update, links, ms, seeds);
      forall u | 0 <= u < n ensures EarliestElo(r, u) == Some(ts[u]) && HasKind(r, u, Elo) {
        forall j | 0 <= j < |ms| && Eligible(ms[j]) && u in Winners(links, ms[j].id) + Losers(links, ms[j].id)
          ensures ts[u] <= ms[j].timestamp
        {
          assert ms[j] in ms;
          assert EarliestElo(rs, u) == Some(ts[u]);
        }
        SeedsStayEarliest(ts, ms, links, r, u);
      }
      var again := CapturedTimestamps(r, n);
      assert again.Ok?;
      assert again.value == ts;
      RecalculatePastCapture(q, rate, n, links, matches, r);
    }
  }

  /** Users joining the store keep every link within bounds. */
  lemma LinksWithinMore(links: seq<UserMatch>, n: nat, more: nat)
    requires LinksWithin(links, n) && n <= more
    ensures LinksWithin(links, more)
  {
  }

  /** Links of players who are users of the store keep every link within bounds. */
  lemma LinksWithinAppend(links: seq<UserMatch>, more: seq<UserMatch>, n: nat)
    requires LinksWithin(links, n) && forall i :: 0 <= i < |more| ==> more[i].user < n
    ensures LinksWithin(links + more, n)
  {
    forall u | u in LinkedUsers(links + more) ensures u < n {
      var l :| l in links + more && l.user == u;
      if l in links {
        assert u in LinkedUsers(links);
      } else {
        var i :| 0 <= i < |more| && more[i] == l;
      }
    }
  }
}
