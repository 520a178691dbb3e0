/**
 * Team Elo: the change every winner gains and every loser gives up,
 * computed from the two teams' average current elo.
 */
module Elo {
  import opened Wrappers
  import opened RatingRecords
  import opened Matches

  /**
   * The expectation base `q` stands for x |-> 10^(x / 400).  The model
   * assumes only that it is positive and strictly increasing.
   */
  ghost predicate Growth(q: real -> real)
  {
    (forall x :: q(x) > 0.0) && (forall x, y :: x < y ==> q(x) < q(y))
  }

  lemma FractionBounds(a: real, b: real)
    requires a > 0.0 && b > 0.0
    ensures 0.0 < a / (a + b) < 1.0
  {
    var f := a / (a + b);
    assert f * (a + b) == a;
  }
  lemma CancelPositive(f1: real, f2: real, p: real, x1: real, x2: real)
    requires p > 0.0 && x1 == f1 * p && x2 == f2 * p && x1 < x2
    ensures f1 < f2
  {
    assert (f2 - f1) * p == x2 - x1;
  }
  lemma FractionIncreasing(a1: real, a2: real, b: real)
    requires 0.0 < a1 < a2 && b > 0.0
    ensures a1 / (a1 + b) < a2 / (a2 + b)
  {
    var s1, s2 := a1 + b, a2 + b;
    var f1, f2 := a1 / s1, a2 / s2;
    var p := s1 * s2;
    var x1, x2, c := a1 * s2, a2 * s1, a1 * a2;
    assert p > 0.0;
    assert f1 * p == x1;
    assert f2 * p == x2;
    assert x1 == c + a1 * b;
    assert x2 == c + a2 * b;
    assert a1 * b < a2 * b;
    CancelPositive(f1, f2, p, x1, x2);
  }
  lemma FractionHalf(a: real)
    requires a > 0.0
    ensures a / (a + a) == 0.5
  {
  }
  lemma MeanOfConstant(n: real, v: real, total: real)
    requires n > 0.0 && total == n * v
    ensures total / n == v
  {
  }

  lemma ScaleStrict(a: real, b: real, g: real, ag: real, bg: real)
    requires a < b && g > 0.0 && ag == a * g && bg == b * g
    ensures ag < bg
  {
    var gap := b - a;
    assert gap * g > 0.0;
    assert b * g == a * g + gap * g;
  }

  lemma FractionsSum(x: real, y: real)
    requires x > 0.0 && y > 0.0
    ensures x / (x + y) + y / (y + x) == 1.0
  {
    var s := x + y;
    assert y + x == s;
    assert x / s + y / s == (x + y) / s;
  }

  /** The winners' expected score Q_w / (Q_w + Q_l). */
  function ExpectedWin(q: real -> real, winnerAvg: real, loserAvg: real): (e: real)
    requires Growth(q)
    ensures 0.0 < e < 1.0
    ensures winnerAvg == loserAvg ==> e == 0.5
  {
    var qw, ql := q(winnerAvg), q(loserAvg);
    FractionBounds(qw, ql);
    if winnerAvg == loserAvg then FractionHalf(qw); qw / (qw + ql) else qw / (qw + ql)
  }

  /** The two sides' expectations add up to one. */
  lemma ExpectedWinComplement(q: real -> real, a: real, b: real)
    requires Growth(q)
    ensures ExpectedWin(q, a, b) + ExpectedWin(q, b, a) == 1.0
  {
    var qa, qb := q(a), q(b);
    assert ExpectedWin(q, a, b) == qa / (qa + qb);
    assert ExpectedWin(q, b, a) == qb / (qb + qa);
    FractionsSum(qa, qb);
  }

  /** The winners' expectation rises with their average and falls with the losers'. */
  lemma ExpectedWinMonotone(q: real -> real, w1: real, w2: real, l1: real, l2: real)
    requires Growth(q) && w1 <= w2 && l2 <= l1 && (w1 < w2 || l2 < l1)
    ensures ExpectedWin(q, w1, l1) < ExpectedWin(q, w2, l2)
  {
    if w1 < w2 {
      FractionIncreasing(q(w1), q(w2), q(l1));
      if l2 < l1 {
        ExpectedWinComplement(q, w2, l1);
        ExpectedWinComplement(q, w2, l2);
        FractionIncreasing(q(l2), q(l1), q(w2));
      }
    } else {
      ExpectedWinComplement(q, w1, l1);
      ExpectedWinComplement(q, w1, l2);
      FractionIncreasing(q(l2), q(l1), q(w1));
    }
  }

  /** importance * (1 - exp_win): the elo the winners gain and the losers lose. */
  function EloDelta(q: real -> real, winnerAvg: real, loserAvg: real, importance: real): (d: real)
    requires Growth(q)
    ensures importance > 0.0 ==> 0.0 < d < importance
    ensures importance < 0.0 ==> importance < d < 0.0
    ensures importance == 0.0 ==> d == 0.0
    ensures winnerAvg == loserAvg ==> d == importance / 2.0
  {
    var e := ExpectedWin(q, winnerAvg, loserAvg);
    var g := 1.0 - e;
    assert 0.0 < g < 1.0;
    assert importance > 0.0 ==> importance * g < importance * 1.0;
    assert importance < 0.0 ==> importance * 1.0 < importance * g;
    importance * g
  }

  /** The change is the importance scaled by the losers' own expectation. */
  lemma EloDeltaIsLoserExpectation(q: real -> real, winnerAvg: real, loserAvg: real, importance: real)
    requires Growth(q)
    ensures EloDelta(q, winnerAvg, loserAvg, importance) == importance * ExpectedWin(q, loserAvg, winnerAvg)
  {
    ExpectedWinComplement(q, winnerAvg, loserAvg);
  }

  /** A more important match moves ratings more. */
  lemma EloDeltaGrowsWithImportance(q: real -> real, winnerAvg: real, loserAvg: real, i1: real, i2: real)
    requires Growth(q) && i1 < i2
    ensures EloDelta(q, winnerAvg, loserAvg, i1) < EloDelta(q, winnerAvg, loserAvg, i2)
  {
    var g := 1.0 - ExpectedWin(q, winnerAvg, loserAvg);
    ScaleStrict(i1, i2, g, EloDelta(q, winnerAvg, loserAvg, i1), EloDelta(q, winnerAvg, loserAvg, i2));
  }

  /**
   * Stronger winners or weaker losers make the win less surprising: the
   * change shrinks when the winners' average rises or the losers' falls.
   */
  lemma EloDeltaFallsWithMargin(q: real -> real, w1: real, w2: real, l1: real, l2: real, importance: real)
    requires Growth(q) && importance > 0.0
    requires w1 <= w2 && l2 <= l1 && (w1 < w2 || l2 < l1)
    ensures EloDelta(q, w2, l2, importance) < EloDelta(q, w1, l1, importance)
  {
    var e1, e2 := ExpectedWin(q, w1, l1), ExpectedWin(q, w2, l2);
    ExpectedWinMonotone(q, w1, w2, l1, l2);
    assert importance * (e2 - e1) > 0.0;
    assert importance * (1.0 - e1) - importance * (1.0 - e2) == importance * (e2 - e1);
  }

  function Sum(xs: seq<real>): real
  {
    if xs == [] then 0.0 else Sum(xs[..|xs| - 1]) + xs[|xs| - 1]
  }

  /** The current elo of each player of a team, in team order. */
  function CurrentElos(rs: seq<Rating>, team: seq<UserId>): (es: seq<real>)
    requires forall p :: p in team ==> HasKind(rs, p, Elo)
    ensures |es| == |team|
    ensures forall i :: 0 <= i < |team| ==> es[i] == Latest(rs, team[i], Elo)
  {
    if team == [] then []
    else CurrentElos(rs, team[..|team| - 1]) + [Latest(rs, team[|team| - 1], Elo)]
  }

  /** The team's average current elo, sum(elos) / len(elos). */
  function TeamAverage(rs: seq<Rating>, team: seq<UserId>): real
    requires |team| > 0
    requires forall p :: p in team ==> HasKind(rs, p, Elo)
  {
    Sum(CurrentElos(rs, team)) / (|team| as real)
  }

  lemma {:induction false} SumConstant(xs: seq<real>, v: real)
    requires forall i :: 0 <= i < |xs| ==> xs[i] == v
    ensures Sum(xs) == (|xs| as real) * v
  {
    if xs != [] {
      SumConstant(xs[..|xs| - 1], v);
    }
  }

  /** A team whose players all stand at v averages v. */
  lemma TeamAverageConstant(rs: seq<Rating>, team: seq<UserId>, v: real)
    requires |team| > 0
    requires forall p :: p in team ==> HasKind(rs, p, Elo) && Latest(rs, p, Elo) == v
    ensures TeamAverage(rs, team) == v
  {
    SumConstant(CurrentElos(rs, team), v);
    MeanOfConstant(|team| as real, v, Sum(CurrentElos(rs, team)));
  }

  /**
   * get_match_elo_change: the delta from the two teams' average current
   * elo and the match importance.
   */
  function GetMatchEloChange(q: real -> real, rs: seq<Rating>, winners: seq<UserId>, losers: seq<UserId>,
                             importance: real): (c: real)
    requires Growth(q)
    requires |winners| > 0 && |losers| > 0
    requires forall p :: p in winners + losers ==> HasKind(rs, p, Elo)
    ensures importance > 0.0 ==> 0.0 < c < importance
    ensures TeamAverage(rs, winners) == TeamAverage(rs, losers) ==> c == importance / 2.0
  {
    EloDelta(q, TeamAverage(rs, winners), TeamAverage(rs, losers), importance)
  }

  /** The new elo record written for player p in match m. */
  function EloRecord(m: Match, p: UserId, value: real): Rating
  {
    Rating(p, Elo, value, m.timestamp, Some(m.id))
  }

  /**
   * One pass of the elo loop over `ps`, as the records it appends to `rs`:
   * for each player in turn, an elo record worth the player's current elo
   * (read after the records already appended) plus d.
   */
  function EloPass(m: Match, rs: seq<Rating>, ps: seq<UserId>, d: real): (r: seq<Rating>)
    requires forall p :: p in ps ==> HasKind(rs, p, Elo)
    ensures |r| == |ps|
    ensures forall i :: 0 <= i < |ps| ==> r[i] == EloRecord(m, ps[i], r[i].value)
  {
    if ps == [] then []
    else
      var n := |ps|;
      var prev := EloPass(m, rs, ps[..n - 1], d);
      var p := ps[n - 1];
      assert (rs + prev)[..|rs|] == rs;
      HasKindExtends(rs, rs + prev, p, Elo);
      prev + [EloRecord(m, p, Latest(rs + prev, p, Elo) + d)]
  }

  /**
   * Both loops of update_elo_by_match for a change c: the winners' pass
   * adding c, then the losers' pass subtracting it, read from the timeline
   * that already holds the winners' records.
   */
  function EloPasses(m: Match, rs: seq<Rating>, winners: seq<UserId>, losers: seq<UserId>, c: real): (r: seq<Rating>)
    requires forall p :: p in winners + losers ==> HasKind(rs, p, Elo)
    ensures |r| == |winners| + |losers|
    ensures forall i :: 0 <= i < |r| ==> r[i] == EloRecord(m, (winners + losers)[i], r[i].value)
  {
    var gains := EloPass(m, rs, winners, c);
    assert (rs + gains)[..|rs|] == rs;
    forall p | p in losers ensures HasKind(rs + gains, p, Elo) {
      HasKindExtends(rs, rs + gains, p, Elo);
    }
    gains + EloPass(m, rs + gains, losers, -c)
  }

  /**
   * update_elo_by_match on a rating list, as the records it appends: both
   * passes with the change computed once, before any record is written.
   */
  function EloUpdate(q: real -> real, m: Match, rs: seq<Rating>, winners: seq<UserId>, losers: seq<UserId>): (r: seq<Rating>)
    requires Growth(q)
    requires |winners| > 0 && |losers| > 0
    requires forall p :: p in winners + losers ==> HasKind(rs, p, Elo)
    ensures |r| == |winners| + |losers|
    ensures forall i :: 0 <= i < |r| ==> r[i] == EloRecord(m, (winners + losers)[i], r[i].value)
  {
    EloPasses(m, rs, winners, losers, GetMatchEloChange(q, rs, winners, losers, m.importance))
  }

  /** The winners' pass appended to rs and then the losers' pass appended to that is rs followed by both passes. */
  lemma EloPassesInTurn(m: Match, rs: seq<Rating>, winners: seq<UserId>, losers: seq<UserId>, c: real,
                        middle: seq<Rating>, final: seq<Rating>)
    requires forall p :: p in winners + losers ==> HasKind(rs, p, Elo)
    requires middle == rs + EloPass(m, rs, winners, c)
    requires forall p :: p in losers ==> HasKind(middle, p, Elo)
    requires final == middle + EloPass(m, middle, losers, -c)
    ensures final == rs + EloPasses(m, rs, winners, losers, c)
  {
    RatingsAssociative(rs, EloPass(m, rs, winners, c), EloPass(m, middle, losers, -c));
  }

  predicate NoDuplicates(ps: seq<UserId>)
  {
    forall i, j :: 0 <= i < j < |ps| ==> ps[i] != ps[j]
  }

  /**
   * With no player listed twice, each record of a pass holds the elo its
   * player had before the pass, plus d.
   */
  lemma {:induction false} EloPassValues(m: Match, rs: seq<Rating>, ps: seq<UserId>, d: real)
    requires forall p :: p in ps ==> HasKind(rs, p, Elo)
    requires NoDuplicates(ps)
    ensures var r := EloPass(m, rs, ps, d);
            forall i :: 0 <= i < |ps| ==> r[i].value == Latest(rs, ps[i], Elo) + d
  {
    if ps != [] {
      var n := |ps|;
      var prev := EloPass(m, rs, ps[..n - 1], d);
      var p := ps[n - 1];
      EloPassValues(m, rs, ps[..n - 1], d);
      forall j | 0 <= j < |prev| ensures !(prev[j].user == p && prev[j].kind == Elo) {
        assert ps[..n - 1][j] == ps[j];
      }
      LatestAppendOthers(rs, prev, p, Elo);
    }
  }

  /** Records of other players do not move a player's current elo. */
  lemma LatestPastOthers(rs: seq<Rating>, more: seq<Rating>, ps: seq<UserId>, p: UserId, k: Kind)
    requires HasKind(rs, p, k) && |more| == |ps| && p !in ps
    requires forall i :: 0 <= i < |more| ==> more[i].user == ps[i]
    ensures HasKind(rs + more, p, k) && Latest(rs + more, p, k) == Latest(rs, p, k)
  {
    forall i | 0 <= i < |more| ensures !(more[i].user == p && more[i].kind == k) {
      assert ps[i] in ps;
    }
    LatestAppendOthers(rs, more, p, k);
  }

  /**
   * Both passes with distinct players: each winner ends at its current
   * elo plus c, each loser at its current elo minus c.
   */
  lemma EloPassesValues(m: Match, rs: seq<Rating>, winners: seq<UserId>, losers: seq<UserId>, c: real)
    requires forall p :: p in winners + losers ==> HasKind(rs, p, Elo)
    requires NoDuplicates(winners + losers)
    ensures var r := EloPasses(m, rs, winners, losers, c);
            (forall i :: 0 <= i < |winners| ==> r[i].value == Latest(rs, winners[i], Elo) + c)
            && (forall j :: 0 <= j < |losers| ==> r[|winners| + j].value == Latest(rs, losers[j], Elo) - c)
  {
    SplitNoDuplicates(winners, losers);
    var gains := EloPass(m, rs, winners, c);
    ExtendsByAppend(rs, gains);
    forall p | p in losers ensures HasKind(rs + gains, p, Elo) {
      HasKindExtends(rs, rs + gains, p, Elo);
    }
    var losses := EloPass(m, rs + gains, losers, -c);
    EloPassValues(m, rs, winners, c);
    EloPassValues(m, rs + gains, losers, -c);
    var r := EloPasses(m, rs, winners, losers, c);
    assert r == gains + losses;
    forall i | 0 <= i < |winners| ensures r[i].value == Latest(rs, winners[i], Elo) + c {
      assert r[i] == gains[i];
    }
    LosersAfterGains(rs, gains, losses, winners, losers, c);
  }

  /**
   * update_elo_by_match with distinct players: each winner ends at its
   * current elo plus the change, each loser at its current elo minus the
   * same change.
   */
  lemma EloUpdateValues(q: real -> real, m: Match, rs: seq<Rating>, winners: seq<UserId>, losers: seq<UserId>)
    requires Growth(q)
    requires |winners| > 0 && |losers| > 0
    requires forall p :: p in winners + losers ==> HasKind(rs, p, Elo)
    requires NoDuplicates(winners + losers)
    ensures var r := EloUpdate(q, m, rs, winners, losers);
            var c := GetMatchEloChange(q, rs, winners, losers, m.importance);
            (forall i :: 0 <= i < |winners| ==> r[i].value == Latest(rs, winners[i], Elo) + c)
            && (forall j :: 0 <= j < |losers| ==> r[|winners| + j].value == Latest(rs, losers[j], Elo) - c)
  {
    EloPassesValues(m, rs, winners, losers, GetMatchEloChange(q, rs, winners, losers, m.importance));
  }

  /** The losers' records, read after the winners' records, hold the losers' elo from before the winners' pass. */
  lemma LosersAfterGains(rs: seq<Rating>, gains: seq<Rating>, losses: seq<Rating>, winners: seq<UserId>,
                         losers: seq<UserId>, c: real)
    requires |gains| == |winners| && forall i :: 0 <= i < |gains| ==> gains[i].user == winners[i]
    requires forall p :: p in losers ==> p !in winners && HasKind(rs, p, Elo)
    requires |losses| == |losers|
    requires forall p :: p in losers ==> HasKind(rs + gains, p, Elo)
    requires forall j :: 0 <= j < |losers| ==> losses[j].value == Latest(rs + gains, losers[j], Elo) + -c
    ensures forall j :: 0 <= j < |losers| ==> (gains + losses)[|winners| + j].value == Latest(rs, losers[j], Elo) - c
  {
    forall j | 0 <= j < |losers| ensures (gains + losses)[|winners| + j].value == Latest(rs, losers[j], Elo) - c {
      assert losers[j] in losers;
      LatestPastOthers(rs, gains, winners, losers[j], Elo);
    }
  }

  lemma SplitNoDuplicates(winners: seq<UserId>, losers: seq<UserId>)
    requires NoDuplicates(winners + losers)
    ensures NoDuplicates(winners) && NoDuplicates(losers)
    ensures forall p :: p in losers ==> p !in winners
  {
    var all := winners + losers;
    forall i, j | 0 <= i < j < |winners| ensures winners[i] != winners[j] {
      assert all[i] == winners[i] && all[j] == winners[j];
    }
    forall i, j | 0 <= i < j < |losers| ensures losers[i] != losers[j] {
      assert all[|winners| + i] == losers[i] && all[|winners| + j] == losers[j];
    }
    forall p | p in losers ensures p !in winners {
      var j :| 0 <= j < |losers| && losers[j] == p;
      forall i | 0 <= i < |winners| ensures winners[i] != p {
        assert all[i] == winners[i] && all[|winners| + j] == losers[j];
      }
    }
  }

  /** Two players at the same elo: the change is half the importance. */
  lemma EvenPairChange(q: real -> real, rs: seq<Rating>, a: UserId, b: UserId, v: real, importance: real)
    requires Growth(q)
    requires HasKind(rs, a, Elo) && HasKind(rs, b, Elo)
    requires Latest(rs, a, Elo) == v && Latest(rs, b, Elo) == v
    ensures GetMatchEloChange(q, rs, [a], [b], importance) == importance / 2.0
  {
    TeamAverageConstant(rs, [a], v);
    TeamAverageConstant(rs, [b], v);
  }

  /**
   * The worked example: two players at 1500 elo, importance 30, the first
   * wins: the change is 15, so 1515 and 1485.
   */
  lemma EvenMatchExample(q: real -> real, m: Match, rs: seq<Rating>, a: UserId, b: UserId)
    requires Growth(q) && a != b && m.importance == 30.0
    requires HasKind(rs, a, Elo) && HasKind(rs, b, Elo)
    requires Latest(rs, a, Elo) == 1500.0 && Latest(rs, b, Elo) == 1500.0
    ensures GetMatchEloChange(q, rs, [a], [b], m.importance) == 15.0
    ensures var r := EloUpdate(q, m, rs, [a], [b]);
            r[0].value == 1515.0 && r[1].value == 1485.0
  {
    EvenPairChange(q, rs, a, b, 1500.0, m.importance);
    assert [a] + [b] == [a, b];
    assert NoDuplicates([a, b]);
    EloUpdateValues(q, m, rs, [a], [b]);
  }

  /** r holds, in order, one elo record of match m for each player of ps. */
  predicate EloRecordsFor(m: Match, r: seq<Rating>, ps: seq<UserId>)
  {
    |r| == |ps| && forall i :: 0 <= i < |r| ==> r[i].user == ps[i] && r[i].kind == Elo && r[i].source == Some(m.id)
  }

  lemma EloRecordsForPrefix(m: Match, r: seq<Rating>, ps: seq<UserId>)
    requires r != [] && EloRecordsFor(m, r, ps)
    ensures EloRecordsFor(m, r[..|r| - 1], ps[..|ps| - 1])
  {
    var n := |r|;
    assert forall i :: 0 <= i < n - 1 ==> r[..n - 1][i] == r[i] && ps[..n - 1][i] == ps[i];
  }

  /** Elo records of m for ps, in order, are attributed to m, one per player, in order. */
  lemma {:induction false} EloRecordsAttributed(m: Match, r: seq<Rating>, ps: seq<UserId>, id: MatchId, k: Kind)
    requires EloRecordsFor(m, r, ps)
    ensures Attributed(r, id, k) == (if id == m.id && k == Elo then ps else [])
  {
    if r != [] {
      var n := |r|;
      var last := r[n - 1];
      EloRecordsForPrefix(m, r, ps);
      EloRecordsAttributed(m, r[..n - 1], ps[..n - 1], id, k);
      assert last.user == ps[n - 1] && last.kind == Elo && last.source == Some(m.id);
      if id == m.id && k == Elo {
        assert Attributed(r, id, k) == ps[..n - 1] + [ps[n - 1]];
        assert ps == ps[..n - 1] + [ps[n - 1]];
      } else {
        assert Attributed(r, id, k) == Attributed(r[..n - 1], id, k);
      }
    }
  }

  /** update_elo_by_match attributes one elo record to m per player, winners then losers. */
  lemma EloUpdateAttributed(q: real -> real, m: Match, rs: seq<Rating>, winners: seq<UserId>, losers: seq<UserId>,
                            id: MatchId, k: Kind)
    requires Growth(q)
    requires |winners| > 0 && |losers| > 0
    requires forall p :: p in winners + losers ==> HasKind(rs, p, Elo)
    ensures Attributed(EloUpdate(q, m, rs, winners, losers), id, k)
            == (if id == m.id && k == Elo then winners + losers else [])
  {
    var r := EloUpdate(q, m, rs, winners, losers);
    assert EloRecordsFor(m, r, winners + losers);
    EloRecordsAttributed(m, r, winners + losers, id, k);
  }
}
