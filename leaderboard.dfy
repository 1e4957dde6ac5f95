/**
 * `getPlayersList`: the players in the map's iteration order, projected onto
 * the fields the clients see, then sorted by descending score with
 * `Array.prototype.sort`, which is stable (ties keep their iteration order).
 */
module Leaderboard {
  import opened Scoring
  import opened OrderedMaps

  datatype PlayerEntry = PlayerEntry(id: SocketId, name: string, specialty: string, score: int, correctAnswers: nat)

  function EntryOf(p: Player): PlayerEntry {
    PlayerEntry(p.id, p.name, p.specialty, p.score, p.correctAnswers)
  }

  function Entries(ps: seq<Player>): (es: seq<PlayerEntry>)
    ensures |es| == |ps|
    ensures forall i :: 0 <= i < |ps| ==> es[i] == EntryOf(ps[i])
  {
    seq(|ps|, i requires 0 <= i < |ps| => EntryOf(ps[i]))
  }

  /** Non-increasing by score. */
  predicate SortedByScore(s: seq<PlayerEntry>) {
    forall i, j :: 0 <= i < j < |s| ==> s[i].score >= s[j].score
  }

  /** Puts `x` in front of the first entry that does not score more than it. */
  function Insert(x: PlayerEntry, s: seq<PlayerEntry>): (r: seq<PlayerEntry>)
    ensures |r| == |s| + 1
  {
    if s == [] || x.score >= s[0].score then [x] + s
    else [s[0]] + Insert(x, s[1..])
  }

  /** Inserting adds `x` and keeps everything else. */
  lemma {:induction false} InsertPermutes(x: PlayerEntry, s: seq<PlayerEntry>)
    ensures multiset(Insert(x, s)) == multiset(s) + multiset{x}
  {
    if s != [] && x.score < s[0].score {
      InsertPermutes(x, s[1..]);
      assert s == [s[0]] + s[1..];
    }
  }

  /** Inserting into a sorted list gives a sorted list. */
  lemma {:induction false} InsertSorted(x: PlayerEntry, s: seq<PlayerEntry>)
    requires SortedByScore(s)
    ensures SortedByScore(Insert(x, s))
  {
    if s != [] && x.score < s[0].score {
      var rest := Insert(x, s[1..]);
      InsertSorted(x, s[1..]);
      InsertPermutes(x, s[1..]);
      forall y | y in rest ensures y.score <= s[0].score {
        assert y in multiset(rest);
        if y != x {
          var k :| 0 <= k < |s[1..]| && s[1..][k] == y;
          assert s[k + 1] == y;
        }
      }
      ConsSorted(s[0], rest);
    }
  }

  /** A head that scores at least as much as every later entry extends a sorted list. */
  lemma ConsSorted(h: PlayerEntry, rest: seq<PlayerEntry>)
    requires SortedByScore(rest)
    requires forall y :: y in rest ==> y.score <= h.score
    ensures SortedByScore([h] + rest)
  {
    forall i, j | 0 <= i < j < |[h] + rest| ensures ([h] + rest)[i].score >= ([h] + rest)[j].score {
      assert ([h] + rest)[j] == rest[j - 1];
      if i > 0 {
        assert ([h] + rest)[i] == rest[i - 1];
      }
    }
  }

  /** The comparator `(a, b) => b.score - a.score` applied by a stable sort. */
  function SortByScore(s: seq<PlayerEntry>): (r: seq<PlayerEntry>)
    ensures SortedByScore(r)
    ensures multiset(r) == multiset(s)
    ensures |r| == |s|
  {
    if s == [] then []
    else
      var rest := SortByScore(s[1..]);
      InsertSorted(s[0], rest);
      InsertPermutes(s[0], rest);
      assert s == [s[0]] + s[1..];
      Insert(s[0], rest)
  }

  /** The entries with score `k`, in order. */
  function WithScore(s: seq<PlayerEntry>, k: int): seq<PlayerEntry> {
    if s == [] then []
    else (if s[0].score == k then [s[0]] else []) + WithScore(s[1..], k)
  }

  lemma {:induction false} WithScoreAppend(a: seq<PlayerEntry>, b: seq<PlayerEntry>, k: int)
    ensures WithScore(a + b, k) == WithScore(a, k) + WithScore(b, k)
  {
    if a != [] {
      assert (a + b)[1..] == a[1..] + b;
      WithScoreAppend(a[1..], b, k);
    } else {
      assert a + b == b;
    }
  }

  lemma {:induction false} InsertStable(x: PlayerEntry, s: seq<PlayerEntry>, k: int)
    ensures WithScore(Insert(x, s), k) == WithScore([x] + s, k)
  {
    if s != [] && x.score < s[0].score {
      var rest := Insert(x, s[1..]);
      calc {
        WithScore(Insert(x, s), k);
        { WithScoreAppend([s[0]], rest, k); }
        WithScore([s[0]], k) + WithScore(rest, k);
        { InsertStable(x, s[1..], k); WithScoreAppend([x], s[1..], k); }
        WithScore([s[0]], k) + WithScore([x], k) + WithScore(s[1..], k);
        // x and s[0] score differently, so at most one of them is kept
        WithScore([x], k) + WithScore([s[0]], k) + WithScore(s[1..], k);
        { WithScoreAppend([s[0]], s[1..], k); assert s == [s[0]] + s[1..]; }
        WithScore([x], k) + WithScore(s, k);
        { WithScoreAppend([x], s, k); }
        WithScore([x] + s, k);
      }
    }
  }

  /**
   * The sort is stable: for every score, the entries with that score come out in
   * the order they went in.
   */
  lemma {:induction false} SortIsStable(s: seq<PlayerEntry>, k: int)
    ensures WithScore(SortByScore(s), k) == WithScore(s, k)
  {
    if s != [] {
      SortIsStable(s[1..], k);
      InsertStable(s[0], SortByScore(s[1..]), k);
      WithScoreAppend([s[0]], SortByScore(s[1..]), k);
      WithScoreAppend([s[0]], s[1..], k);
      assert s == [s[0]] + s[1..];
    }
  }

  /**
   * The rating list sent in `update-players` and `game-ended`: every player once,
   * highest score first, equal scores in join order.
   */
  function PlayersList(players: OrderedMap<SocketId, Player>): (r: seq<PlayerEntry>)
    requires players.Valid()
    ensures |r| == players.Size()
    ensures SortedByScore(r)
    ensures multiset(r) == multiset(Entries(players.Values()))
    ensures forall k :: WithScore(r, k) == WithScore(Entries(players.Values()), k)
  {
    var es := Entries(players.Values());
    forall k ensures WithScore(SortByScore(es), k) == WithScore(es, k) {
      SortIsStable(es, k);
    }
    SortByScore(es)
  }

  /** Every player's entry is on the list, and nothing else is. */
  lemma PlayersListMembers(players: OrderedMap<SocketId, Player>, e: PlayerEntry)
    requires players.Valid()
    ensures e in PlayersList(players) <==> exists id :: id in players.entries && e == EntryOf(players.entries[id])
  {
    var es := Entries(players.Values());
    var r := PlayersList(players);
    assert e in r <==> e in multiset(r);
    assert e in es <==> e in multiset(es);
    if e in es {
      var i :| 0 <= i < |es| && es[i] == e;
      assert players.keys[i] in players.entries;
    }
    if exists id :: id in players.entries && e == EntryOf(players.entries[id]) {
      var id :| id in players.entries && e == EntryOf(players.entries[id]);
      var i :| 0 <= i < |players.keys| && players.keys[i] == id;
      assert es[i] == e;
    }
  }
}
