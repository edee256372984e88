/** The winners table: every registered player's name and wins, most wins first, sorted
    the way `Array.prototype.sort` sorts with the comparator `b.wins - a.wins` (stably). */
module Winners {
  import opened Messages

  /** Most wins first. */
  ghost predicate Ranked(s: seq<Winner>)
  {
    forall i, j :: 0 <= i < j < |s| ==> s[i].wins >= s[j].wins
  }

  /** The entries with exactly `w` wins, in their order. */
  function WithWins(s: seq<Winner>, w: nat): seq<Winner>
  {
    if s == [] then [] else (if s[0].wins == w then [s[0]] else []) + WithWins(s[1..], w)
  }

  /** `x` goes before the first entry that has no more wins than it. */
  function Insert(x: Winner, s: seq<Winner>): seq<Winner>
  {
    if s == [] || x.wins >= s[0].wins then [x] + s else [s[0]] + Insert(x, s[1..])
  }

  /** The sort: ranked, a permutation of its input, and stable, so entries with equal wins
      keep their order. */
  function SortByWins(s: seq<Winner>): (r: seq<Winner>)
    ensures Ranked(r)
    ensures multiset(r) == multiset(s)
    ensures forall w :: WithWins(r, w) == WithWins(s, w)
  {
    if s == [] then []
    else
      var t := SortByWins(s[1..]);
      InsertRanked(s[0], t);
      InsertCounts(s[0], t);
      assert s == [s[0]] + s[1..];
      forall w ensures WithWins(Insert(s[0], t), w) == WithWins(s, w) {
        InsertWithWins(s[0], t, w);
      }
      Insert(s[0], t)
  }

  lemma {:induction false} InsertRanked(x: Winner, s: seq<Winner>)
    requires Ranked(s)
    ensures Ranked(Insert(x, s))
    ensures |Insert(x, s)| == |s| + 1
    ensures Insert(x, s)[0] == x || Insert(x, s)[0] == s[0]
  {
    if s != [] && x.wins < s[0].wins {
      InsertRanked(x, s[1..]);
      var r := Insert(x, s[1..]);
      assert Insert(x, s) == [s[0]] + r;
      assert r[0] == x || r[0] == s[1];
    }
  }

  lemma {:induction false} InsertCounts(x: Winner, s: seq<Winner>)
    ensures multiset(Insert(x, s)) == multiset{x} + multiset(s)
  {
    if s != [] && x.wins < s[0].wins {
      InsertCounts(x, s[1..]);
      assert s == [s[0]] + s[1..];
    }
  }

  lemma {:induction false} InsertWithWins(x: Winner, s: seq<Winner>, w: nat)
    requires Ranked(s)
    ensures WithWins(Insert(x, s), w) == (if x.wins == w then [x] else []) + WithWins(s, w)
  {
    if s != [] && x.wins < s[0].wins {
      InsertWithWins(x, s[1..], w);
      assert Insert(x, s)[1..] == Insert(x, s[1..]);
      assert !(x.wins == w && s[0].wins == w);
    }
  }

  /** Every entry with `w` wins in `s` is in WithWins(s, w), and nothing else is. */
  lemma {:induction false} WithWinsMembers(s: seq<Winner>, w: nat)
    ensures forall x :: x in WithWins(s, w) <==> x in s && x.wins == w
  {
    if s != [] {
      WithWinsMembers(s[1..], w);
      assert s == [s[0]] + s[1..];
    }
  }

  /** The first entry of a ranked order has the most wins. */
  lemma HeadHasMost(s: seq<Winner>, x: Winner)
    requires Ranked(s) && x in s
    ensures s[0].wins >= x.wins
  {
    var i :| 0 <= i < |s| && s[i] == x;
    if i > 0 {
      assert s[0].wins >= s[i].wins;
    }
  }

  /** Two ranked orders with the same entries per win count start with the same entry. */
  lemma {:induction false} SameHead(a: seq<Winner>, b: seq<Winner>)
    requires Ranked(a) && Ranked(b) && a != [] && b != []
    requires WithWins(a, a[0].wins) == WithWins(b, a[0].wins)
    requires WithWins(a, b[0].wins) == WithWins(b, b[0].wins)
    ensures a[0] == b[0]
  {
    var m, n := a[0].wins, b[0].wins;
    WithWinsMembers(a, m);
    WithWinsMembers(b, m);
    WithWinsMembers(a, n);
    WithWinsMembers(b, n);
    assert a[0] in WithWins(b, m);
    HeadHasMost(b, a[0]);
    assert b[0] in WithWins(a, n);
    HeadHasMost(a, b[0]);
    assert m == n;
    assert WithWins(a, m) == [a[0]] + WithWins(a[1..], m);
    assert WithWins(b, m) == [b[0]] + WithWins(b[1..], m);
    assert WithWins(a, m)[0] == a[0];
  }

  /** A ranked order that keeps the order of equal entries is unique: the stable sort is
      the only one. */
  lemma {:induction false} StableRankingUnique(a: seq<Winner>, b: seq<Winner>)
    requires Ranked(a) && Ranked(b)
    requires forall w :: WithWins(a, w) == WithWins(b, w)
    ensures a == b
  {
    if a == [] || b == [] {
      if a != [] || b != [] {
        var x := if a == [] then b[0] else a[0];
        WithWinsMembers(a, x.wins);
        WithWinsMembers(b, x.wins);
      }
      return;
    }
    SameHead(a, b);
    forall w ensures WithWins(a[1..], w) == WithWins(b[1..], w) {
      var p := if a[0].wins == w then [a[0]] else [];
      assert WithWins(a, w) == p + WithWins(a[1..], w);
      assert WithWins(b, w) == p + WithWins(b[1..], w);
      assert WithWins(a[1..], w) == WithWins(a, w)[|p|..];
      assert WithWins(b[1..], w) == WithWins(b, w)[|p|..];
    }
    StableRankingUnique(a[1..], b[1..]);
    assert a == [a[0]] + a[1..] && b == [b[0]] + b[1..];
  }
}
