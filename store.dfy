/**
 * The store the engine works on, and the engine's operations as methods
 * that change it step by step: the users, the matches with their two
 * approval flags, the user-match links and the rating timeline.
 */
module RatingStore {
  import opened Wrappers
  import opened RatingRecords
  import opened Matches
  import opened Elo
  import opened TrueSkill
  import opened Replay

  datatype User = User(shortname: string, nickname: string)

  /** What approve_match returns: one of its messages, or the fault its recalculation raised. */
  datatype Reply = Said(text: string) | Raised(fault: Fault)

  const APPROVED: string := "Match approved"
  const NOT_A_PLAYER: string := "Cant approve match. You are not a player in this match"
  const SHORTNAME_TAKEN: string := "Someone has already used that shortname"
  const NICKNAME_TAKEN: string := "Someone has already used that nickname"

  predicate IsLower(c: char)
  {
    'a' <= c <= 'z'
  }

  /** str.upper on the ASCII letters: a lower-case letter becomes its capital, anything else stays. */
  function Upper(s: string): (r: string)
    ensures |r| == |s|
    ensures forall i :: 0 <= i < |s| && IsLower(s[i]) ==> r[i] as int == s[i] as int - 32
    ensures forall i :: 0 <= i < |s| && !IsLower(s[i]) ==> r[i] == s[i]
  {
    if s == [] then []
    else
      var c := s[|s| - 1];
      Upper(s[..|s| - 1]) + [if IsLower(c) then (c as int - 32) as char else c]
  }

  /** An upper-cased name holds no lower-case letter, so upper-casing it again changes nothing. */
  lemma UpperIdempotent(s: string)
    ensures forall i :: 0 <= i < |Upper(s)| ==> !IsLower(Upper(s)[i])
    ensures Upper(Upper(s)) == Upper(s)
  {
    var u := Upper(s);
    assert forall i :: 0 <= i < |u| ==> !IsLower(u[i]);
    assert Upper(u) == u;
  }

  predicate ShortnameTaken(users: seq<User>, shortname: string)
  {
    exists i :: 0 <= i < |users| && users[i].shortname == shortname
  }

  predicate NicknameTaken(users: seq<User>, nickname: string)
  {
    exists i :: 0 <= i < |users| && users[i].nickname == nickname
  }

  /** No two users share a shortname or a nickname. */
  predicate UniqueNames(users: seq<User>)
  {
    forall i, j :: 0 <= i < j < |users| ==> users[i].shortname != users[j].shortname && users[i].nickname != users[j].nickname
  }

  /** Some user other than u already has the shortname or the nickname of `named`. */
  predicate ClashesWithOthers(users: seq<User>, u: nat, named: User)
  {
    exists i :: 0 <= i < |users| && i != u && (users[i].shortname == named.shortname || users[i].nickname == named.nickname)
  }

  /**
   * update_user checks nothing, so overwriting user u's names keeps the
   * names unique exactly when the new names clash with no other user.
   */
  lemma UpdateKeepsUnique(users: seq<User>, u: nat, named: User)
    requires UniqueNames(users) && u < |users|
    ensures UniqueNames(users[u := named]) <==> !ClashesWithOthers(users, u, named)
  {
    var r := users[u := named];
    if ClashesWithOthers(users, u, named) {
      var i :| 0 <= i < |users| && i != u && (users[i].shortname == named.shortname || users[i].nickname == named.nickname);
      assert r[i] == users[i] && r[u] == named;
      if i < u {
        assert !(r[i].shortname != r[u].shortname && r[i].nickname != r[u].nickname);
      } else {
        assert !(r[u].shortname != r[i].shortname && r[u].nickname != r[i].nickname);
      }
    } else {
      forall i, j | 0 <= i < j < |r| ensures r[i].shortname != r[j].shortname && r[i].nickname != r[j].nickname {
        if i == u {
          assert r[j] == users[j];
        } else if j == u {
          assert r[i] == users[i];
        } else {
          assert r[i] == users[i] && r[j] == users[j];
        }
      }
    }
  }

  /** Registering a user whose names are both free keeps the names unique. */
  lemma CreateKeepsUnique(users: seq<User>, named: User)
    requires UniqueNames(users)
    requires !ShortnameTaken(users, named.shortname) && !NicknameTaken(users, named.nickname)
    ensures UniqueNames(users + [named])
  {
    var r := users + [named];
    forall i, j | 0 <= i < j < |r| ensures r[i].shortname != r[j].shortname && r[i].nickname != r[j].nickname {
      assert r[i] == users[i];
      if j < |users| {
        assert r[j] == users[j];
      }
    }
  }

  class Store {
    var users: seq<User>
    var matches: seq<Match>
    var links: seq<UserMatch>
    var ratings: seq<Rating>
    /** The id the next new match gets; ids are never reused. */
    var nextMatchId: nat
    /** The elo expectation base, 10 ** (x / 400) in the source. */
    const q: real -> real
    /** The TrueSkill library's two-team update. */
    const rate: Rater

    ghost predicate Valid()
      reads this
    {
      && Growth(q)
      && LinksWithin(links, |users|)
      && DistinctIds(matches)
      && (forall i :: 0 <= i < |matches| ==> matches[i].id < nextMatchId)
      && (forall i :: 0 <= i < |links| ==> links[i].matchId < nextMatchId)
    }

    /** An empty store. */
    constructor(q: real -> real, rate: Rater)
      requires Growth(q)
      ensures Valid()
      ensures users == [] && matches == [] && links == [] && ratings == [] && nextMatchId == 0
      ensures this.q == q && this.rate == rate
    {
      this.q := q;
      this.rate := rate;
      users := [];
      matches := [];
      links := [];
      ratings := [];
      nextMatchId := 0;
    }

    /** init_ratings: append the three seed records of user u at time t; nothing else changes. */
    method InitRatings(u: UserId, t: Time)
      modifies this
      ensures ratings == old(ratings) + Seeds(u, t)
      ensures users == old(users) && matches == old(matches) && links == old(links) && nextMatchId == old(nextMatchId)
    {
      var elo := Rating(u, Elo, SEED_ELO, t, None);
      var mu := Rating(u, TrueskillMu, SEED_MU, t, None);
      var sigma := Rating(u, TrueskillSigma, SEED_SIGMA, t, None);
      ratings := ratings + [elo, mu, sigma];
    }

    /**
     * One of update_elo_by_match's two loops: for each player in turn, an
     * elo record of their current elo plus d, read after the records the
     * loop already added; nothing else changes.
     */
    method AppendEloPass(m: Match, ps: seq<UserId>, d: real)
      requires forall p :: p in ps ==> HasKind(ratings, p, Elo)
      modifies this
      ensures users == old(users) && matches == old(matches) && links == old(links) && nextMatchId == old(nextMatchId)
      ensures ratings == old(ratings) + EloPass(m, old(ratings), ps, d)
    {
      var start := ratings;
      for i := 0 to |ps|
        invariant users == old(users) && matches == old(matches) && links == old(links) && nextMatchId == old(nextMatchId)
        invariant ratings == start + EloPass(m, start, ps[..i], d)
      {
        PassAppend(m, start, ps, d, i, ratings);
        ratings := ratings + [EloRecord(m, ps[i], Latest(ratings, ps[i], Elo) + d)];
      }
      assert ps[..|ps|] == ps;
    }

    /**
     * The body of update_elo_by_match once both teams are known to be
     * non-empty: the change computed once, then the winners' loop adding
     * it and the losers' loop subtracting it.
     */
    method ApplyEloUpdate(m: Match, winners: seq<UserId>, losers: seq<UserId>)
      requires Growth(q)
      requires |winners| > 0 && |losers| > 0
      requires forall p :: p in winners + losers ==> HasKind(ratings, p, Elo)
      modifies this
      ensures users == old(users) && matches == old(matches) && links == old(links) && nextMatchId == old(nextMatchId)
      ensures ratings == old(ratings) + EloUpdate(q, m, old(ratings), winners, losers)
    {
      var start := ratings;
      var change := GetMatchEloChange(q, start, winners, losers, m.importance);
      assert forall p :: p in winners ==> HasKind(start, p, Elo);
      AppendEloPass(m, winners, change);
      ghost var middle := ratings;
      forall p | p in losers ensures HasKind(middle, p, Elo) {
        ExtendsByAppend(start, EloPass(m, start, winners, change));
        HasKindExtends(start, middle, p, Elo);
      }
      var loss := -change;
      AppendEloPass(m, losers, loss);
      ghost var final := ratings;
      EloPassesInTurn(m, start, winners, losers, change, middle, final);
    }

    /**
     * update_elo_by_match: one elo record per winner (current elo plus the
     * change) and then per loser (current elo minus it); an empty team
     * makes the change a division by zero, raised before anything is added.
     */
    method UpdateEloByMatch(m: Match) returns (fault: Option<Fault>)
      requires Valid()
      requires forall p :: p in Winners(links, m.id) + Losers(links, m.id) ==> HasKind(ratings, p, Elo)
      modifies this
      ensures users == old(users) && matches == old(matches) && links == old(links) && nextMatchId == old(nextMatchId)
      ensures fault.None? <==> Staffed(links, m)
      ensures fault.Some? ==> fault == Some(EmptyTeam(m.id)) && ratings == old(ratings)
      ensures fault.None? ==> ratings == old(ratings) + EloUpdate(q, m, old(ratings), Winners(links, m.id), Losers(links, m.id))
    {
      var winners := Winners(links, m.id);
      var losers := Losers(links, m.id);
      if winners == [] || losers == [] {
        return Some(EmptyTeam(m.id));
      }
      ApplyEloUpdate(m, winners, losers);
      fault := None;
    }

    /** One of update_trueskill_by_match's reading loops: get_current_trueskill of each player in turn. */
    method ReadSkills(ps: seq<UserId>) returns (ss: seq<Skill>)
      requires forall p :: p in ps ==> HasKind(ratings, p, TrueskillMu) && HasKind(ratings, p, TrueskillSigma)
      ensures ss == CurrentSkills(ratings, ps)
    {
      ss := [];
      for i := 0 to |ps|
        invariant ss == CurrentSkills(ratings, ps[..i])
      {
        assert ps[..i + 1][..i] == ps[..i];
        ss := ss + [Skill(Latest(ratings, ps[i], TrueskillMu), Latest(ratings, ps[i], TrueskillSigma))];
      }
      assert ps[..|ps|] == ps;
    }

    /** update_trueskill_by_match's writing loop: a mu and a sigma record for each (player, skill) pair. */
    method AppendSkillRecords(m: Match, pairs: seq<(UserId, Skill)>)
      modifies this
      ensures users == old(users) && matches == old(matches) && links == old(links) && nextMatchId == old(nextMatchId)
      ensures ratings == old(ratings) + SkillRecords(m, pairs)
    {
      var start := ratings;
      for i := 0 to |pairs|
        invariant users == old(users) && matches == old(matches) && links == old(links) && nextMatchId == old(nextMatchId)
        invariant ratings == start + SkillRecords(m, pairs[..i])
      {
        var (player, skill) := pairs[i];
        var mu := Rating(player, TrueskillMu, skill.mu, m.timestamp, Some(m.id));
        var sigma := Rating(player, TrueskillSigma, skill.sigma, m.timestamp, Some(m.id));
        SkillStep(m, pairs, i);
        RatingsAssociative(start, SkillRecords(m, pairs[..i]), [mu, sigma]);
        ratings := ratings + [mu, sigma];
      }
      assert pairs[..|pairs|] == pairs;
    }

    /**
     * The body of update_trueskill_by_match for known teams: read both
     * teams' skills, hand them to the library (which raises on an empty
     * team), then write the results paired with the players.
     */
    method ApplyTrueskillUpdate(m: Match, winners: seq<UserId>, losers: seq<UserId>) returns (fault: Option<Fault>)
      requires forall p :: p in winners + losers ==> HasKind(ratings, p, TrueskillMu) && HasKind(ratings, p, TrueskillSigma)
      modifies this
      ensures users == old(users) && matches == old(matches) && links == old(links) && nextMatchId == old(nextMatchId)
      ensures var u := TrueskillUpdate(rate, m, old(ratings), winners, losers);
              && (fault.None? <==> u.Ok?)
              && (u.Ok? ==> ratings == old(ratings) + u.value)
              && (u.Err? ==> fault == Some(u.error) && ratings == old(ratings))
    {
      assert forall p :: p in winners ==> p in winners + losers;
      assert forall p :: p in losers ==> p in winners + losers;
      var wRatings := ReadSkills(winners);
      var lRatings := ReadSkills(losers);
      if winners == [] || losers == [] {
        return Some(EmptyTeam(m.id));
      }
      var (newWinners, newLosers) := rate(wRatings, lRatings);
      var pairs := Zip(winners + losers, newWinners + newLosers);
      AppendSkillRecords(m, pairs);
      fault := None;
    }

    /** update_trueskill_by_match on the match's teams as the links record them. */
    method UpdateTrueskillByMatch(m: Match) returns (fault: Option<Fault>)
      requires forall p :: p in Winners(links, m.id) + Losers(links, m.id) ==>
                 HasKind(ratings, p, TrueskillMu) && HasKind(ratings, p, TrueskillSigma)
      modifies this
      ensures users == old(users) && matches == old(matches) && links == old(links) && nextMatchId == old(nextMatchId)
      ensures var u := TrueskillUpdate(rate, m, old(ratings), Winners(links, m.id), Losers(links, m.id));
              && (fault.None? <==> u.Ok?)
              && (u.Ok? ==> ratings == old(ratings) + u.value)
              && (u.Err? ==> fault == Some(u.error) && ratings == old(ratings))
    {
      fault := ApplyTrueskillUpdate(m, Winners(links, m.id), Losers(links, m.id));
    }

    /**
     * update_match_ratings: nothing for a match without both approvals
     * (the source returns False there); otherwise the TrueSkill update and
     * then the elo update, the latter reading the timeline the former left.
     */
    method UpdateMatchRatings(m: Match) returns (rated: bool, fault: Option<Fault>)
      requires Valid()
      requires Eligible(m) ==> AllRated(ratings, links)
      modifies this
      ensures users == old(users) && matches == old(matches) && links == old(links) && nextMatchId == old(nextMatchId)
      ensures rated == Eligible(m)
      ensures var u := MatchUpdate(q, rate, links, old(ratings), m);
              && (fault.None? <==> u.Ok?)
              && (u.Ok? ==> ratings == old(ratings) + u.value)
              && (u.Err? ==> fault == Some(u.error) && ratings == old(ratings))
    {
      if !m.approvedWinner || !m.approvedLoser {
        return false, None;
      }
      rated := true;
      var start := ratings;
      var winners := Winners(links, m.id);
      var losers := Losers(links, m.id);
      TeamsRated(start, links, m.id);
      fault := UpdateTrueskillByMatch(m);
      if fault.Some? {
        return;
      }
      var ts := ratings[|start|..];
      assert ratings == start + ts;
      EloStillThere(start, ts, winners + losers);
      fault := UpdateEloByMatch(m);
      RatingsAssociative(start, ts, EloUpdate(q, m, start + ts, winners, losers));
    }

    /**
     * recalculate_ratings' first loop: each user's earliest elo timestamp,
     * in user order; the first user without one makes the query's `.first()`
     * None and the loop raise.
     */
    method CaptureTimestamps() returns (r: Result<seq<Time>, Fault>)
      ensures r == CapturedTimestamps(ratings, |users|)
    {
      var timestamps := [];
      for u := 0 to |users|
        invariant CapturedTimestamps(ratings, u) == Ok(timestamps)
      {
        var first := EarliestElo(ratings, u);
        if first.None? {
          CaptureStops(ratings, u + 1, |users|);
          return Err(NoEloHistory(u));
        }
        timestamps := timestamps + [first.value];
      }
      r := Ok(timestamps);
    }

    /** The wipe and recalculate_ratings' reseeding loop: only the seeds of each user, at ts[u], remain. */
    method Reseed(ts: seq<Time>)
      modifies this
      ensures users == old(users) && matches == old(matches) && links == old(links) && nextMatchId == old(nextMatchId)
      ensures ratings == AllSeeds(ts)
    {
      ratings := [];
      for u := 0 to |ts|
        invariant users == old(users) && matches == old(matches) && links == old(links) && nextMatchId == old(nextMatchId)
        invariant ratings == AllSeeds(ts[..u])
      {
        AllSeedsStep(ts, u);
        InitRatings(u, ts[u]);
      }
      assert ts[..|ts|] == ts;
    }

    /** recalculate_ratings' last loop: update_match_ratings on each match in turn, stopping at the first fault. */
    method ReplayMatches(ms: seq<Match>) returns (fault: Option<Fault>)
      requires Valid() && AllRated(ratings, links)
      modifies this
      ensures users == old(users) && matches == old(matches) && links == old(links) && nextMatchId == old(nextMatchId)
      ensures Replayed(ratings, fault) == ReplayFrom(Updater(q, rate, links), links, ms, old(ratings))
    {
      var start := ratings;
      assert ms[..0] == [];
      for i := 0 to |ms|
        invariant users == old(users) && matches == old(matches) && links == old(links) && nextMatchId == old(nextMatchId)
        invariant ReplayFrom(Updater(q, rate, links), links, ms[..i], start) == Replayed(ratings, None)
      {
        ReplayReadsEarlier(Updater(q, rate, links), links, ms, start, i);
        StepCases(Updater(q, rate, links), links, Replayed(ratings, None), ms[i]);
        var rated;
        rated, fault := UpdateMatchRatings(ms[i]);
        if fault.Some? {
          FaultStops(Updater(q, rate, links), links, ms, start, i + 1);
          return;
        }
      }
      assert ms[..|ms|] == ms;
      fault := None;
    }

    /**
     * recalculate_ratings: capture every user's earliest elo timestamp,
     * wipe the timeline, reseed every user at that timestamp and replay the
     * fully approved matches in timestamp order.
     */
    method RecalculateRatings() returns (fault: Option<Fault>)
      requires Valid()
      modifies this
      ensures users == old(users) && matches == old(matches) && links == old(links) && nextMatchId == old(nextMatchId)
      ensures Replayed(ratings, fault) == Recalculate(q, rate, |users|, links, matches, old(ratings))
    {
      var captured := CaptureTimestamps();
      if captured.Err? {
        return Some(captured.error);
      }
      var ts := captured.value;
      Reseed(ts);
      assert AllRated(ratings, links) by {
        forall u | u in LinkedUsers(links) ensures Rated(ratings, u) {
          AllSeedsRated(ts, u);
        }
      }
      var eligible := EligibleInOrder(matches);
      fault := ReplayMatches(eligible);
    }

    /** delete_match: remove the match, then recalculate. */
    method DeleteMatch(m: Match) returns (fault: Option<Fault>)
      requires Valid() && m in matches
      modifies this
      ensures Valid()
      ensures users == old(users) && links == old(links) && nextMatchId == old(nextMatchId)
      ensures matches == Without(old(matches), m.id)
      ensures Replayed(ratings, fault) == Recalculate(q, rate, |users|, links, matches, old(ratings))
    {
      matches := Without(matches, m.id);
      fault := RecalculateRatings();
    }

    /**
     * approve_match on the match at position k: a winner sets the winners'
     * flag, a loser the losers' flag, and either is followed by a
     * recalculation; anyone else only gets the refusal.
     */
    method ApproveMatch(k: nat, approver: UserId) returns (reply: Reply)
      requires Valid() && k < |matches|
      modifies this
      ensures Valid()
      ensures users == old(users) && links == old(links) && nextMatchId == old(nextMatchId)
      ensures var id := old(matches)[k].id;
              var a := Approve(old(matches)[k], Winners(links, id), Losers(links, id), approver);
              && (a.None? ==> reply == Said(NOT_A_PLAYER) && matches == old(matches) && ratings == old(ratings))
              && (a.Some? ==> matches == old(matches)[k := a.value]
                              && reply != Said(NOT_A_PLAYER)
                              && var r := Recalculate(q, rate, |users|, links, matches, old(ratings));
                                 ratings == r.ratings
                                 && reply == if r.fault.None? then Said(APPROVED) else Raised(r.fault.value))
    {
      var m := matches[k];
      var winners := Winners(links, m.id);
      var losers := Losers(links, m.id);
      var updated;
      if approver in winners {
        updated := m.(approvedWinner := true);
      } else if approver in losers {
        updated := m.(approvedLoser := true);
      } else {
        return Said(NOT_A_PLAYER);
      }
      ReplaceKeepsIds(matches, k, updated);
      matches := matches[k := updated];
      var fault := RecalculateRatings();
      if fault.Some? {
        return Raised(fault.value);
      }
      reply := Said(APPROVED);
    }

    /**
     * make_new_match: a match with the next id, only the creator's side
     * approved, one link per winner and then per loser, and the rating
     * update, which does nothing since the match cannot be fully approved.
     */
    method MakeNewMatch(winners: seq<UserId>, losers: seq<UserId>, winnerScore: int, loserScore: int,
                        importance: real, creator: Option<UserId>, now: Time) returns (m: Match)
      requires Valid()
      requires forall p :: p in winners + losers ==> p < |users|
      modifies this
      ensures Valid()
      ensures m == NewMatch(old(nextMatchId), winners, losers, winnerScore, loserScore, importance, creator, now)
      ensures users == old(users) && ratings == old(ratings) && nextMatchId == old(nextMatchId) + 1
      ensures matches == old(matches) + [m]
      ensures links == old(links) + SideLinks(m.id, winners, true) + SideLinks(m.id, losers, false)
      ensures Winners(links, m.id) == winners && Losers(links, m.id) == losers
    {
      var approvedWinner, approvedLoser := false, false;
      if creator.Some? && creator.value in winners {
        approvedWinner := true;
      } else if creator.Some? && creator.value in losers {
        approvedLoser := true;
      }
      m := Match(nextMatchId, winnerScore, loserScore, importance, now, approvedWinner, approvedLoser);
      AddMatch(m);
      NewMatchTeams(links, m.id, winners, losers);
      assert forall p :: p in winners ==> p in winners + losers;
      assert forall p :: p in losers ==> p in winners + losers;
      AddSide(m.id, winners, true);
      AddSide(m.id, losers, false);
      var rated, fault := UpdateMatchRatings(m);
    }

    /** The new match row of make_new_match, taking the next id. */
    method AddMatch(m: Match)
      requires Valid() && m.id == nextMatchId
      modifies this
      ensures Valid()
      ensures users == old(users) && ratings == old(ratings) && links == old(links)
      ensures matches == old(matches) + [m] && nextMatchId == old(nextMatchId) + 1
      ensures forall i :: 0 <= i < |links| ==> links[i].matchId != m.id
    {
      matches := matches + [m];
      nextMatchId := nextMatchId + 1;
    }

    /** One of make_new_match's link loops: a link per player of the side `win` of match id. */
    method AddSide(id: MatchId, ps: seq<UserId>, win: bool)
      requires Valid() && id < nextMatchId && forall p :: p in ps ==> p < |users|
      modifies this
      ensures Valid()
      ensures users == old(users) && ratings == old(ratings) && matches == old(matches) && nextMatchId == old(nextMatchId)
      ensures links == old(links) + SideLinks(id, ps, win)
    {
      var start := links;
      for i := 0 to |ps|
        invariant Valid()
        invariant users == old(users) && ratings == old(ratings) && matches == old(matches) && nextMatchId == old(nextMatchId)
        invariant links == start + SideLinks(id, ps[..i], win)
      {
        SideLinksStep(start, id, ps, win, i, links);
        assert ps[i] in ps;
        LinksWithinAppend(links, [UserMatch(ps[i], id, win)], |users|);
        links := links + [UserMatch(ps[i], id, win)];
      }
      assert ps[..|ps|] == ps;
    }

    /**
     * create_user: the shortname is stored upper-cased and checked
     * upper-cased, the nickname as given; a taken shortname is reported
     * before a taken nickname.  A new user is seeded at `now`.
     */
    method CreateUser(shortname: string, nickname: string, now: Time) returns (r: Result<UserId, string>)
      requires Valid()
      modifies this
      ensures Valid()
      ensures matches == old(matches) && links == old(links) && nextMatchId == old(nextMatchId)
      ensures ShortnameTaken(old(users), Upper(shortname)) ==> r == Err(SHORTNAME_TAKEN)
      ensures !ShortnameTaken(old(users), Upper(shortname)) && NicknameTaken(old(users), nickname) ==> r == Err(NICKNAME_TAKEN)
      ensures r.Err? ==> users == old(users) && ratings == old(ratings)
      ensures r.Ok? <==> !ShortnameTaken(old(users), Upper(shortname)) && !NicknameTaken(old(users), nickname)
      ensures r.Ok? ==> r.value == |old(users)| && users == old(users) + [User(Upper(shortname), nickname)]
                        && ratings == old(ratings) + Seeds(r.value, now)
      ensures UniqueNames(old(users)) ==> UniqueNames(users)
    {
      var upper := Upper(shortname);
      var shortnameTaken := ShortnameTaken(users, upper);
      var nicknameTaken := NicknameTaken(users, nickname);
      if shortnameTaken {
        return Err(SHORTNAME_TAKEN);
      }
      if nicknameTaken {
        return Err(NICKNAME_TAKEN);
      }
      var id := |users|;
      if UniqueNames(users) {
        CreateKeepsUnique(users, User(upper, nickname));
      }
      LinksWithinMore(links, id, id + 1);
      users := users + [User(upper, nickname)];
      InitRatings(id, now);
      r := Ok(id);
    }

    /** update_user: overwrite both names, the shortname upper-cased, with no check for clashes. */
    method UpdateUser(u: UserId, shortname: string, nickname: string)
      requires Valid() && u < |users|
      modifies this
      ensures Valid()
      ensures matches == old(matches) && links == old(links) && ratings == old(ratings) && nextMatchId == old(nextMatchId)
      ensures users == old(users)[u := User(Upper(shortname), nickname)]
    {
      users := users[u := User(Upper(shortname), nickname)];
    }
  }

  /** One turn of an elo loop extends the pass over the players before it by one record. */
  lemma PassAppend(m: Match, rs: seq<Rating>, ps: seq<UserId>, d: real, i: nat, current: seq<Rating>)
    requires i < |ps| && forall p :: p in ps ==> HasKind(rs, p, Elo)
    requires current == rs + EloPass(m, rs, ps[..i], d)
    ensures HasKind(current, ps[i], Elo)
    ensures current + [EloRecord(m, ps[i], Latest(current, ps[i], Elo) + d)] == rs + EloPass(m, rs, ps[..i + 1], d)
  {
    var prev := EloPass(m, rs, ps[..i], d);
    assert ps[i] in ps;
    assert current[..|rs|] == rs;
    HasKindExtends(rs, current, ps[i], Elo);
    assert ps[..i + 1][..i] == ps[..i];
    var r := EloRecord(m, ps[i], Latest(current, ps[i], Elo) + d);
    assert EloPass(m, rs, ps[..i + 1], d) == prev + [r];
    RatingsAssociative(rs, prev, [r]);
  }

  /** One turn of the TrueSkill writing loop appends that pair's mu and sigma records. */
  lemma SkillStep(m: Match, pairs: seq<(UserId, Skill)>, i: nat)
    requires i < |pairs|
    ensures SkillRecords(m, pairs[..i + 1]) == SkillRecords(m, pairs[..i])
              + [Rating(pairs[i].0, TrueskillMu, pairs[i].1.mu, m.timestamp, Some(m.id)),
                 Rating(pairs[i].0, TrueskillSigma, pairs[i].1.sigma, m.timestamp, Some(m.id))]
  {
    assert pairs[..i + 1][..i] == pairs[..i];
  }
}
