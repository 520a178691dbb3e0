/**
 * The TrueSkill side of a match update: read each player's current
 * (mu, sigma), hand both teams to the rating library and write one mu and
 * one sigma record per player, pairing results with players in
 * winners-then-losers order.
 */
module TrueSkill {
  import opened Wrappers
  import opened RatingRecords
  import opened Matches

  datatype Skill = Skill(mu: real, sigma: real)

  /**
   * The rating library's two-team update (ranks [0, 1]): the winners' and
   * the losers' skills in, the new skills of each team out.  Its
   * mathematics is not modelled.
   */
  type Rater = (seq<Skill>, seq<Skill>) -> (seq<Skill>, seq<Skill>)

  /** The library returns one new skill per player of each team. */
  ghost predicate KeepsShape(rate: Rater)
  {
    forall w, l :: |rate(w, l).0| == |w| && |rate(w, l).1| == |l|
  }

  /** get_current_trueskill for each player of a team, in team order. */
  function CurrentSkills(rs: seq<Rating>, ps: seq<UserId>): (ss: seq<Skill>)
    requires forall p :: p in ps ==> HasKind(rs, p, TrueskillMu) && HasKind(rs, p, TrueskillSigma)
    ensures |ss| == |ps|
    ensures forall i :: 0 <= i < |ps| ==> ss[i] == Skill(Latest(rs, ps[i], TrueskillMu), Latest(rs, ps[i], TrueskillSigma))
  {
    if ps == [] then []
    else
      var p := ps[|ps| - 1];
      assert p in ps;
      CurrentSkills(rs, ps[..|ps| - 1]) + [Skill(Latest(rs, p, TrueskillMu), Latest(rs, p, TrueskillSigma))]
  }

  function Min(a: nat, b: nat): nat
  {
    if a <= b then a else b
  }

  /** Python's zip: pairs up to the shorter of the two lists. */
  function Zip(ps: seq<UserId>, ss: seq<Skill>): (z: seq<(UserId, Skill)>)
    ensures |z| == Min(|ps|, |ss|)
    ensures forall i :: 0 <= i < |z| ==> z[i] == (ps[i], ss[i])
  {
    if ps == [] || ss == [] then [] else [(ps[0], ss[0])] + Zip(ps[1..], ss[1..])
  }

  /** The mu record then the sigma record of one player's new skill. */
  function PairRecords(m: Match, p: UserId, s: Skill): seq<Rating>
  {
    [Rating(p, TrueskillMu, s.mu, m.timestamp, Some(m.id)), Rating(p, TrueskillSigma, s.sigma, m.timestamp, Some(m.id))]
  }

  /** The mu record then the sigma record for each (player, new skill) pair. */
  function SkillRecords(m: Match, pairs: seq<(UserId, Skill)>): (r: seq<Rating>)
    ensures |r| == 2 * |pairs|
    ensures forall i :: 0 <= i < |r| ==> r[i].kind != Elo && r[i].source == Some(m.id) && r[i].timestamp == m.timestamp
  {
    if pairs == [] then []
    else
      var n := |pairs|;
      var prev := SkillRecords(m, pairs[..n - 1]);
      var r := prev + PairRecords(m, pairs[n - 1].0, pairs[n - 1].1);
      assert forall i :: 0 <= i < |prev| ==> r[i] == prev[i];
      r
  }

  /** Each pair's records sit at positions 2i (mu) and 2i + 1 (sigma). */
  lemma {:induction false} SkillRecordsAt(m: Match, pairs: seq<(UserId, Skill)>)
    ensures var r := SkillRecords(m, pairs);
            forall i :: 0 <= i < |pairs| ==>
              r[2 * i] == Rating(pairs[i].0, TrueskillMu, pairs[i].1.mu, m.timestamp, Some(m.id))
              && r[2 * i + 1] == Rating(pairs[i].0, TrueskillSigma, pairs[i].1.sigma, m.timestamp, Some(m.id))
  {
    if pairs != [] {
      var n := |pairs|;
      var init := pairs[..n - 1];
      var prev := SkillRecords(m, init);
      var r := SkillRecords(m, pairs);
      SkillRecordsAt(m, init);
      assert r == prev + PairRecords(m, pairs[n - 1].0, pairs[n - 1].1);
      forall i | 0 <= i < n - 1
        ensures r[2 * i] == prev[2 * i] && r[2 * i + 1] == prev[2 * i + 1] && init[i] == pairs[i]
      {
      }
    }
  }

  /**
   * update_trueskill_by_match, as the records it appends, or the fault
   * raised when the library is handed an empty team.
   */
  function TrueskillUpdate(rate: Rater, m: Match, rs: seq<Rating>, winners: seq<UserId>, losers: seq<UserId>)
    : (r: Result<seq<Rating>, Fault>)
    requires forall p :: p in winners + losers ==> HasKind(rs, p, TrueskillMu) && HasKind(rs, p, TrueskillSigma)
    ensures r.Err? <==> winners == [] || losers == []
    ensures r.Err? ==> r.error == EmptyTeam(m.id)
    ensures r.Ok? ==> forall i :: 0 <= i < |r.value| ==>
                        r.value[i].kind != Elo && r.value[i].source == Some(m.id) && r.value[i].timestamp == m.timestamp
  {
    if winners == [] || losers == [] then Err(EmptyTeam(m.id))
    else
      var (newWinners, newLosers) := rate(CurrentSkills(rs, winners), CurrentSkills(rs, losers));
      Ok(SkillRecords(m, Zip(winners + losers, newWinners + newLosers)))
  }

  /**
   * With a library that keeps each team's size, the update writes exactly
   * one mu and one sigma record per player, winners first, each holding
   * the library's result at that player's position in its team.
   */
  lemma TrueskillUpdatePairs(rate: Rater, m: Match, rs: seq<Rating>, winners: seq<UserId>, losers: seq<UserId>)
    requires forall p :: p in winners + losers ==> HasKind(rs, p, TrueskillMu) && HasKind(rs, p, TrueskillSigma)
    requires KeepsShape(rate) && winners != [] && losers != []
    ensures var r := TrueskillUpdate(rate, m, rs, winners, losers);
            var (newWinners, newLosers) := rate(CurrentSkills(rs, winners), CurrentSkills(rs, losers));
            var all := winners + losers;
            r.Ok? && |r.value| == 2 * |all|
            && (forall i :: 0 <= i < |all| ==>
                  r.value[2 * i].user == all[i] && r.value[2 * i].kind == TrueskillMu
                  && r.value[2 * i + 1].user == all[i] && r.value[2 * i + 1].kind == TrueskillSigma)
            && (forall i :: 0 <= i < |winners| ==>
                  r.value[2 * i].value == newWinners[i].mu && r.value[2 * i + 1].value == newWinners[i].sigma)
            && (forall j :: 0 <= j < |losers| ==>
                  r.value[2 * (|winners| + j)].value == newLosers[j].mu
                  && r.value[2 * (|winners| + j) + 1].value == newLosers[j].sigma)
  {
    var (newWinners, newLosers) := rate(CurrentSkills(rs, winners), CurrentSkills(rs, losers));
    var flat := newWinners + newLosers;
    var all := winners + losers;
    var z := Zip(all, flat);
    assert |z| == |all|;
    SkillRecordsAt(m, z);
    forall j | 0 <= j < |losers| ensures z[|winners| + j].1 == newLosers[j] {
      assert flat[|winners| + j] == newLosers[j];
    }
  }

  /** The players of a list of (player, skill) pairs, in order. */
  function Players(pairs: seq<(UserId, Skill)>): (ps: seq<UserId>)
    ensures |ps| == |pairs| && forall i :: 0 <= i < |pairs| ==> ps[i] == pairs[i].0
  {
    if pairs == [] then [] else Players(pairs[..|pairs| - 1]) + [pairs[|pairs| - 1].0]
  }

  lemma PairRecordsAttributed(m: Match, p: UserId, s: Skill, id: MatchId, k: Kind)
    ensures Attributed(PairRecords(m, p, s), id, k) == if id == m.id && k != Elo then [p] else []
  {
    var r := PairRecords(m, p, s);
    assert r[..1] == [r[0]];
    AttributedSingle(r[0], id, k);
  }

  lemma {:induction false} SkillRecordsAttributed(m: Match, pairs: seq<(UserId, Skill)>, id: MatchId, k: Kind)
    ensures Attributed(SkillRecords(m, pairs), id, k) == (if id == m.id && k != Elo then Players(pairs) else [])
  {
    if pairs != [] {
      var n := |pairs|;
      var prev := SkillRecords(m, pairs[..n - 1]);
      var last := PairRecords(m, pairs[n - 1].0, pairs[n - 1].1);
      SkillRecordsAttributed(m, pairs[..n - 1], id, k);
      AttributedConcat(prev, last, id, k);
      PairRecordsAttributed(m, pairs[n - 1].0, pairs[n - 1].1, id, k);
    }
  }

  /** Every record written for a list of pairs belongs to one of its players. */
  lemma {:induction false} SkillRecordsPlayers(m: Match, pairs: seq<(UserId, Skill)>)
    ensures forall i :: 0 <= i < |SkillRecords(m, pairs)| ==> SkillRecords(m, pairs)[i].user in Players(pairs)
  {
    if pairs != [] {
      var n := |pairs|;
      var init := pairs[..n - 1];
      var prev := SkillRecords(m, init);
      var r := SkillRecords(m, pairs);
      SkillRecordsPlayers(m, init);
      assert r == prev + PairRecords(m, pairs[n - 1].0, pairs[n - 1].1);
      assert Players(pairs) == Players(init) + [pairs[n - 1].0];
      forall i | 0 <= i < |r| ensures r[i].user in Players(pairs) {
        if i < |prev| {
          assert r[i] == prev[i] && prev[i].user in Players(init);
        } else {
          assert r[i] == PairRecords(m, pairs[n - 1].0, pairs[n - 1].1)[i - |prev|];
          assert r[i].user == pairs[n - 1].0;
        }
      }
    }
  }

  /** Zipping players with at least as many skills keeps every player, in order. */
  lemma ZipPlayers(ps: seq<UserId>, ss: seq<Skill>)
    requires |ps| <= |ss|
    ensures Players(Zip(ps, ss)) == ps
  {
    assert Players(Zip(ps, ss)) == ps;
  }

  /** The update attributes one mu and one sigma record to m per player, winners then losers. */
  lemma TrueskillUpdateAttributed(rate: Rater, m: Match, rs: seq<Rating>, winners: seq<UserId>, losers: seq<UserId>,
                                  id: MatchId, k: Kind)
    requires forall p :: p in winners + losers ==> HasKind(rs, p, TrueskillMu) && HasKind(rs, p, TrueskillSigma)
    requires KeepsShape(rate) && winners != [] && losers != []
    ensures Attributed(TrueskillUpdate(rate, m, rs, winners, losers).value, id, k)
            == (if id == m.id && k != Elo then winners + losers else [])
  {
    var (newWinners, newLosers) := rate(CurrentSkills(rs, winners), CurrentSkills(rs, losers));
    var z := Zip(winners + losers, newWinners + newLosers);
    SkillRecordsAttributed(m, z, id, k);
    ZipPlayers(winners + losers, newWinners + newLosers);
  }

  /** Whatever the library returns, the update writes records only for players of the two teams. */
  lemma TrueskillUpdatePlayers(rate: Rater, m: Match, rs: seq<Rating>, winners: seq<UserId>, losers: seq<UserId>)
    requires forall p :: p in winners + losers ==> HasKind(rs, p, TrueskillMu) && HasKind(rs, p, TrueskillSigma)
    ensures var r := TrueskillUpdate(rate, m, rs, winners, losers);
            r.Ok? ==> forall i :: 0 <= i < |r.value| ==> r.value[i].user in winners + losers
  {
    if winners != [] && losers != [] {
      var (newWinners, newLosers) := rate(CurrentSkills(rs, winners), CurrentSkills(rs, losers));
      var all := winners + losers;
      var z := Zip(all, newWinners + newLosers);
      SkillRecordsPlayers(m, z);
      assert TrueskillUpdate(rate, m, rs, winners, losers).value == SkillRecords(m, z);
      forall p | p in Players(z) ensures p in all {
        var i :| 0 <= i < |Players(z)| && Players(z)[i] == p;
        assert z[i] == (all[i], (newWinners + newLosers)[i]);
      }
    }
  }
}
