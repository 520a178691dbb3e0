/**
 * Matches, their participant links, the two approval flags and the query
 * that selects the matches a replay folds over.
 */
module Matches {
  import opened Wrappers
  import opened RatingRecords

  datatype Match = Match(
    id: MatchId,
    winnerScore: int,
    loserScore: int,
    importance: real,
    timestamp: Time,
    approvedWinner: bool,
    approvedLoser: bool)

  /** A participant link: `user` played in match `matchId`, on the winning side iff `win`. */
  datatype UserMatch = UserMatch(user: UserId, matchId: MatchId, win: bool)

  /** Only a match approved by both teams affects ratings. */
  predicate Eligible(m: Match)
  {
    m.approvedWinner && m.approvedLoser
  }

  function LinkedUsers(links: seq<UserMatch>): set<UserId>
  {
    set l | l in links :: l.user
  }

  /**
   * The players of match id on the side `win`, in link order
   * (winning_players for win == true, losing_players for win == false).
   */
  function Team(links: seq<UserMatch>, id: MatchId, win: bool): (ps: seq<UserId>)
    ensures |ps| <= |links|
    ensures forall p :: p in ps ==> p in LinkedUsers(links)
  {
    if links == [] then []
    else
      var n := |links|;
      var last := links[n - 1];
      assert forall l :: l in links[..n - 1] ==> l in links;
      Team(links[..n - 1], id, win) + (if last.matchId == id && last.win == win then [last.user] else [])
  }

  function Winners(links: seq<UserMatch>, id: MatchId): seq<UserId>
  {
    Team(links, id, true)
  }

  function Losers(links: seq<UserMatch>, id: MatchId): seq<UserId>
  {
    Team(links, id, false)
  }

  /** Links that mention another match do not change the team of match id. */
  lemma {:induction false} TeamIgnoresOthers(links: seq<UserMatch>, more: seq<UserMatch>, id: MatchId, win: bool)
    requires forall i :: 0 <= i < |more| ==> more[i].matchId != id
    ensures Team(links + more, id, win) == Team(links, id, win)
  {
    if more == [] {
      assert links + more == links;
    } else {
      var n := |more|;
      assert (links + more)[..|links| + n - 1] == links + more[..n - 1];
      assert (links + more)[|links| + n - 1] == more[n - 1];
      TeamIgnoresOthers(links, more[..n - 1], id, win);
    }
  }

  lemma {:induction false} TeamConcat(a: seq<UserMatch>, b: seq<UserMatch>, id: MatchId, win: bool)
    ensures Team(a + b, id, win) == Team(a, id, win) + Team(b, id, win)
  {
    if b == [] {
      assert a + b == a;
    } else {
      var n := |b|;
      assert (a + b)[..|a| + n - 1] == a + b[..n - 1];
      assert (a + b)[|a| + n - 1] == b[n - 1];
      TeamConcat(a, b[..n - 1], id, win);
    }
  }

  /** The links make_new_match adds for one side of match id: one per player, in order. */
  function SideLinks(id: MatchId, ps: seq<UserId>, win: bool): (r: seq<UserMatch>)
    ensures |r| == |ps| && forall i :: 0 <= i < |ps| ==> r[i] == UserMatch(ps[i], id, win)
  {
    if ps == [] then [] else SideLinks(id, ps[..|ps| - 1], win) + [UserMatch(ps[|ps| - 1], id, win)]
  }

  lemma {:induction false} TeamOfSide(id: MatchId, ps: seq<UserId>, win: bool, side: bool)
    ensures Team(SideLinks(id, ps, win), id, side) == if side == win then ps else []
  {
    if ps != [] {
      var n := |ps|;
      var init := SideLinks(id, ps[..n - 1], win);
      assert SideLinks(id, ps, win)[..n - 1] == init;
      TeamOfSide(id, ps[..n - 1], win, side);
      assert ps == ps[..n - 1] + [ps[n - 1]];
    }
  }

  /**
   * After make_new_match adds its links for a fresh id, the winners and
   * losers of that match are exactly the given lists, in order.
   */
  lemma NewMatchTeams(links: seq<UserMatch>, id: MatchId, winners: seq<UserId>, losers: seq<UserId>)
    requires forall i :: 0 <= i < |links| ==> links[i].matchId != id
    ensures var all := links + SideLinks(id, winners, true) + SideLinks(id, losers, false);
            Winners(all, id) == winners && Losers(all, id) == losers
  {
    var w := SideLinks(id, winners, true);
    var l := SideLinks(id, losers, false);
    TeamIgnoresOthers([], links, id, true);
    TeamIgnoresOthers([], links, id, false);
    assert [] + links == links;
    TeamConcat(links, w, id, true);
    TeamConcat(links + w, l, id, true);
    TeamConcat(links, w, id, false);
    TeamConcat(links + w, l, id, false);
    TeamOfSide(id, winners, true, true);
    TeamOfSide(id, losers, false, true);
    TeamOfSide(id, winners, true, false);
    TeamOfSide(id, losers, false, false);
  }

  /**
   * approve_match on the flags: a winner sets approved_winner, a loser
   * (who is not also a winner) sets approved_loser, anyone else gets None.
   */
  function Approve(m: Match, winners: seq<UserId>, losers: seq<UserId>, approver: UserId): (r: Option<Match>)
    ensures r.Some? <==> approver in winners || approver in losers
    ensures r.Some? ==> r.value.approvedWinner == (m.approvedWinner || approver in winners)
    ensures r.Some? ==> r.value.approvedLoser == (m.approvedLoser || (approver !in winners && approver in losers))
    ensures r.Some? ==> r.value.(approvedWinner := m.approvedWinner, approvedLoser := m.approvedLoser) == m
  {
    if approver in winners then Some(m.(approvedWinner := true))
    else if approver in losers then Some(m.(approvedLoser := true))
    else None
  }

  /** No approval ever turns a flag from true to false. */
  lemma ApproveMonotone(m: Match, winners: seq<UserId>, losers: seq<UserId>, approver: UserId)
    requires Approve(m, winners, losers, approver).Some?
    ensures var a := Approve(m, winners, losers, approver).value;
            (m.approvedWinner ==> a.approvedWinner) && (m.approvedLoser ==> a.approvedLoser)
            && (Eligible(m) ==> Eligible(a))
  {
  }

  /**
   * The match record make_new_match builds: only the creator's team flag
   * is pre-set, the winners' side first.
   */
  function NewMatch(id: MatchId, winners: seq<UserId>, losers: seq<UserId>, winnerScore: int, loserScore: int,
                    importance: real, creator: Option<UserId>, now: Time): (m: Match)
    ensures m.id == id && m.timestamp == now && m.importance == importance
    ensures m.winnerScore == winnerScore && m.loserScore == loserScore
    ensures m.approvedWinner <==> creator.Some? && creator.value in winners
    ensures m.approvedLoser <==> creator.Some? && creator.value !in winners && creator.value in losers
    ensures !Eligible(m)
  {
    var approvedWinner := creator.Some? && creator.value in winners;
    var approvedLoser := !approvedWinner && creator.Some? && creator.value in losers;
    Match(id, winnerScore, loserScore, importance, now, approvedWinner, approvedLoser)
  }

  lemma SplitAt(ms: seq<Match>, j: nat)
    requires j <= |ms|
    ensures ms[..j] + ms[j..] == ms
  {
  }

  lemma PrefixOfPrefix(ms: seq<Match>, i: nat, j: nat)
    requires i <= j <= |ms|
    ensures ms[..j][..i] == ms[..i]
  {
  }

  /** Dropping the last match of a + b, b non-empty, drops the last match of b. */
  lemma AppendLast(a: seq<Match>, b: seq<Match>)
    requires b != []
    ensures (a + b)[..|a + b| - 1] == a + b[..|b| - 1] && (a + b)[|a + b| - 1] == b[|b| - 1]
  {
  }

  lemma AppendNothing(a: seq<Match>)
    ensures a + [] == a
  {
  }

  /** Replacing a match by one with the same id keeps the ids distinct. */
  lemma ReplaceKeepsIds(ms: seq<Match>, k: nat, m: Match)
    requires k < |ms| && DistinctIds(ms) && m.id == ms[k].id
    ensures DistinctIds(ms[k := m])
  {
    var r := ms[k := m];
    forall i, j | 0 <= i < j < |r| ensures r[i].id != r[j].id {
      assert r[i].id == ms[i].id && r[j].id == ms[j].id;
    }
  }

  /** One more turn of a side's link loop: the links so far plus the next player's link. */
  lemma SideLinksStep(start: seq<UserMatch>, id: MatchId, ps: seq<UserId>, win: bool, i: nat, current: seq<UserMatch>)
    requires i < |ps| && current == start + SideLinks(id, ps[..i], win)
    ensures current + [UserMatch(ps[i], id, win)] == start + SideLinks(id, ps[..i + 1], win)
  {
    assert ps[..i + 1][..i] == ps[..i];
  }

  /** The matches left after deleting match id, in store order. */
  function Without(ms: seq<Match>, id: MatchId): (r: seq<Match>)
    ensures forall m :: m in r <==> m in ms && m.id != id
    ensures DistinctIds(ms) ==> DistinctIds(r)
    ensures |r| <= |ms|
  {
    if ms == [] then []
    else
      var n := |ms|;
      var init := ms[..n - 1];
      var prev := Without(init, id);
      assert forall m :: m in init ==> m in ms;
      assert forall m :: m in ms ==> m in init || m == ms[n - 1];
      assert DistinctIds(ms) ==> DistinctIds(init) by {
        if DistinctIds(ms) {
          forall a, b | 0 <= a < b < |init| ensures init[a].id != init[b].id {
            assert init[a] == ms[a] && init[b] == ms[b];
          }
        }
      }
      if ms[n - 1].id == id then prev
      else
        assert DistinctIds(ms) ==> DistinctIds(prev + [ms[n - 1]]) by {
          if DistinctIds(ms) {
            forall m | m in prev ensures m.id != ms[n - 1].id {
              var a :| 0 <= a < |init| && init[a] == m;
              assert ms[a] == m;
            }
          }
        }
        prev + [ms[n - 1]]
  }

  predicate SortedByTime(ms: seq<Match>)
  {
    forall i, j :: 0 <= i < j < |ms| ==> ms[i].timestamp <= ms[j].timestamp
  }

  predicate DistinctIds(ms: seq<Match>)
  {
    forall i, j :: 0 <= i < j < |ms| ==> ms[i].id != ms[j].id
  }

  /** The fully approved matches, in store order. */
  function ApprovedOnly(ms: seq<Match>): (r: seq<Match>)
    ensures forall m :: m in r <==> m in ms && Eligible(m)
  {
    if ms == [] then []
    else
      var n := |ms|;
      assert forall m :: m in ms <==> m in ms[..n - 1] || m == ms[n - 1];
      ApprovedOnly(ms[..n - 1]) + (if Eligible(ms[n - 1]) then [ms[n - 1]] else [])
  }

  lemma DistinctPrefix(ms: seq<Match>, n: nat)
    requires DistinctIds(ms) && n <= |ms|
    ensures DistinctIds(ms[..n])
  {
    assert forall i :: 0 <= i < n ==> ms[..n][i] == ms[i];
  }

  lemma DistinctAppend(s: seq<Match>, x: Match)
    requires DistinctIds(s) && forall m :: m in s ==> m.id != x.id
    ensures DistinctIds(s + [x])
  {
    var r := s + [x];
    forall i, j | 0 <= i < j < |r| ensures r[i].id != r[j].id {
      assert r[i] == s[i];
      if j < |s| { assert r[j] == s[j]; } else { assert r[j] == x && s[i] in s; }
    }
  }

  /** Keeping only the fully approved matches keeps the ids distinct. */
  lemma {:induction false} ApprovedOnlyDistinct(ms: seq<Match>)
    requires DistinctIds(ms)
    ensures DistinctIds(ApprovedOnly(ms))
  {
    if ms != [] {
      var n := |ms|;
      var init := ApprovedOnly(ms[..n - 1]);
      DistinctPrefix(ms, n - 1);
      ApprovedOnlyDistinct(ms[..n - 1]);
      if Eligible(ms[n - 1]) {
        forall m | m in init ensures m.id != ms[n - 1].id {
          var k :| 0 <= k < n - 1 && ms[..n - 1][k] == m;
          assert ms[k] == m;
        }
        DistinctAppend(init, ms[n - 1]);
      } else {
        assert ApprovedOnly(ms) == init + [];
        assert init + [] == init;
      }
    }
  }

  /** Where x goes: just after the leading elements that are not later than it. */
  function InsertPos(s: seq<Match>, x: Match): (k: nat)
    ensures k <= |s|
    ensures forall i :: 0 <= i < k ==> s[i].timestamp <= x.timestamp
    ensures k < |s| ==> x.timestamp < s[k].timestamp
  {
    if s == [] || x.timestamp < s[0].timestamp then 0 else 1 + InsertPos(s[1..], x)
  }

  /** Inserts x after every element not later than it (so equal timestamps keep their order). */
  function Insert(s: seq<Match>, x: Match): (r: seq<Match>)
    ensures multiset(r) == multiset(s) + multiset{x}
  {
    var k := InsertPos(s, x);
    assert s == s[..k] + s[k..];
    s[..k] + [x] + s[k..]
  }

  /** x lands at InsertPos; the elements before it stay, the ones after move up by one. */
  lemma InsertAt(s: seq<Match>, x: Match)
    ensures var k := InsertPos(s, x);
            var r := Insert(s, x);
            |r| == |s| + 1 && r[k] == x
            && (forall i :: 0 <= i < k ==> r[i] == s[i])
            && (forall i :: k < i < |r| ==> r[i] == s[i - 1])
  {
  }

  lemma InsertSorted(s: seq<Match>, x: Match)
    requires SortedByTime(s)
    ensures SortedByTime(Insert(s, x))
  {
    var k := InsertPos(s, x);
    var r := Insert(s, x);
    InsertAt(s, x);
    forall i, j | 0 <= i < j < |r| ensures r[i].timestamp <= r[j].timestamp {
      if j < k {
        assert r[i] == s[i] && r[j] == s[j];
      } else if j == k {
        assert r[i] == s[i] && r[j] == x;
      } else if i < k {
        assert r[i] == s[i] && r[j] == s[j - 1];
      } else if i == k {
        assert r[i] == x && r[j] == s[j - 1] && x.timestamp < s[k].timestamp;
      } else {
        assert r[i] == s[i - 1] && r[j] == s[j - 1];
      }
    }
  }

  lemma InsertDistinct(s: seq<Match>, x: Match)
    requires DistinctIds(s)
    requires forall m :: m in s ==> m.id != x.id
    ensures DistinctIds(Insert(s, x))
  {
    var r := Insert(s, x);
    var k := InsertPos(s, x);
    InsertAt(s, x);
    forall i, j | 0 <= i < j < |r| ensures r[i].id != r[j].id {
      if i < k {
        assert r[i] == s[i];
        if j == k { assert r[j] == x; } else if j > k { assert r[j] == s[j - 1]; }
      } else if i == k {
        assert r[i] == x && r[j] == s[j - 1];
      } else {
        assert r[i] == s[i - 1] && r[j] == s[j - 1];
      }
    }
  }

  /** A stable insertion sort by timestamp (the query's order_by(Match.timestamp)). */
  function SortByTime(s: seq<Match>): (r: seq<Match>)
    ensures SortedByTime(r)
    ensures multiset(r) == multiset(s)
  {
    if s == [] then []
    else
      var n := |s|;
      var sorted := SortByTime(s[..n - 1]);
      assert s == s[..n - 1] + [s[n - 1]];
      InsertSorted(sorted, s[n - 1]);
      Insert(sorted, s[n - 1])
  }

  lemma {:induction false} SortDistinct(s: seq<Match>)
    requires DistinctIds(s)
    ensures DistinctIds(SortByTime(s))
  {
    if s != [] {
      var n := |s|;
      var init := s[..n - 1];
      var x := s[n - 1];
      var sorted := SortByTime(init);
      assert DistinctIds(init) by {
        forall i, j | 0 <= i < j < |init| ensures init[i].id != init[j].id {
          assert init[i] == s[i] && init[j] == s[j];
        }
      }
      SortDistinct(init);
      assert multiset(sorted) == multiset(init);
      forall m | m in sorted ensures m.id != x.id {
        MemberOfPermutation(sorted, init, m);
        var k :| 0 <= k < n - 1 && init[k] == m;
        assert s[k] == m;
      }
      InsertDistinct(sorted, x);
      assert SortByTime(s) == Insert(sorted, x);
    }
  }

  lemma MemberOfPermutation(a: seq<Match>, b: seq<Match>, m: Match)
    requires multiset(a) == multiset(b) && m in a
    ensures m in b
  {
    assert m in multiset(a);
  }

  /**
   * The matches a replay folds over: exactly the fully approved ones,
   * ascending by timestamp, each once.
   */
  function EligibleInOrder(ms: seq<Match>): (r: seq<Match>)
    ensures SortedByTime(r)
    ensures multiset(r) == multiset(ApprovedOnly(ms))
    ensures forall m :: m in r <==> m in ms && Eligible(m)
    ensures DistinctIds(ms) ==> DistinctIds(r)
  {
    var approved := ApprovedOnly(ms);
    var r := SortByTime(approved);
    assert DistinctIds(ms) ==> DistinctIds(r) by {
      if DistinctIds(ms) {
        ApprovedOnlyDistinct(ms);
        SortDistinct(approved);
      }
    }
    assert forall m :: m in r <==> m in multiset(approved);
    r
  }
}
