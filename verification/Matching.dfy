/**
 Permutation-aware row comparison: matching every actual row with a compatible
 reference row by augmenting paths. `adjacency[r]` lists the reference rows
 compatible with actual row r; `owner[c]` is the actual row holding reference row c.
 */
module Matching {
  import DependencyOrder

  const NOBODY := -1

  ghost predicate Bipartite(adjacency: seq<seq<nat>>, columns: nat) {
    forall r, k :: 0 <= r < |adjacency| && 0 <= k < |adjacency[r]| ==> adjacency[r][k] < columns
  }

  // Every held column is compatible with its holder.
  ghost predicate Compatible(adjacency: seq<seq<nat>>, owner: seq<int>) {
    forall c :: 0 <= c < |owner| && owner[c] != NOBODY ==> 0 <= owner[c] < |adjacency| && c in adjacency[owner[c]]
  }

  // No row holds two of the columns.
  ghost predicate Injective(owner: seq<int>, columns: set<nat>) {
    forall c, d :: c in columns && d in columns && c < |owner| && d < |owner| && owner[c] == owner[d] != NOBODY ==>
      c == d
  }

  ghost predicate Holds(owner: seq<int>, columns: set<nat>, r: int) {
    exists c :: c in columns && c < |owner| && owner[c] == r
  }

  ghost function Columns(owner: seq<int>): (s: set<nat>)
    ensures forall c: nat :: c in s <==> c < |owner|
    ensures |s| == |owner|
  {
    if owner == [] then {} else Columns(owner[..|owner| - 1]) + {|owner| - 1}
  }

  // A valid partial matching.
  ghost predicate PartialMatching(adjacency: seq<seq<nat>>, owner: seq<int>) {
    Compatible(adjacency, owner) && Injective(owner, Columns(owner))
  }

  ghost predicate Matched(owner: seq<int>, r: int) { Holds(owner, Columns(owner), r) }

  ghost function Unvisited(visited: seq<bool>): (s: set<nat>)
    ensures forall c: nat :: c in s <==> c < |visited| && !visited[c]
  {
    set c: nat | c < |visited| && !visited[c]
  }

  ghost function Visited(visited: seq<bool>): (s: set<nat>)
    ensures forall c: nat :: c in s <==> c < |visited| && visited[c]
  {
    set c: nat | c < |visited| && visited[c]
  }

  // The rows that only reach columns of the set.
  ghost predicate Confined(adjacency: seq<seq<nat>>, columns: set<nat>, r: int) {
    0 <= r < |adjacency| ==> forall k :: 0 <= k < |adjacency[r]| ==> adjacency[r][k] in columns
  }

  // Column c is held by a row that reaches only the given columns.
  ghost predicate Stuck(adjacency: seq<seq<nat>>, owner: seq<int>, columns: set<nat>, c: nat) {
    c < |owner| && owner[c] != NOBODY && Confined(adjacency, columns, owner[c])
  }

  // Exhausted columns: all held, by rows that reach nothing else.
  ghost predicate Exhausted(adjacency: seq<seq<nat>>, owner: seq<int>, dead: set<nat>) {
    forall c {:trigger Stuck(adjacency, owner, dead, c)} :: c in dead ==> Stuck(adjacency, owner, dead, c)
  }

  // Rows held among the columns after row r has been added, and nothing else changed elsewhere.
  ghost predicate Augmented(before: seq<int>, after: seq<int>, free: set<nat>, r: int) {
    |before| == |after| &&
    (forall c :: 0 <= c < |before| && c !in free ==> after[c] == before[c]) &&
    Injective(after, free) &&
    (forall x: int :: x != NOBODY ==> (Holds(after, free, x) <==> Holds(before, free, x) || x == r))
  }

  // Columns visited since `start` are held by rows that reach only columns visited by now.
  ghost predicate Explored(adjacency: seq<seq<nat>>, owner: seq<int>, start: set<nat>, now: set<nat>) {
    start <= now && forall c {:trigger Stuck(adjacency, owner, now, c)} :: c in now && c !in start ==>
      Stuck(adjacency, owner, now, c)
  }

  lemma ConfinedMore(adjacency: seq<seq<nat>>, some: set<nat>, columns: set<nat>, r: int)
    requires Confined(adjacency, some, r) && some <= columns
    ensures Confined(adjacency, columns, r)
  {
  }

  // After the search from other's holder failed, `other` itself has been explored too.
  lemma ExploreOne(adjacency: seq<seq<nat>>, owner: seq<int>, start: set<nat>, before: set<nat>, other: nat,
                   now: set<nat>)
    requires Explored(adjacency, owner, start, before) && Explored(adjacency, owner, before + {other}, now)
    requires other < |owner| && owner[other] != NOBODY && Confined(adjacency, now, owner[other])
    ensures Explored(adjacency, owner, start, now)
  {
    forall c | c in now && c !in start ensures Stuck(adjacency, owner, now, c) {
      if c in before {
        assert Stuck(adjacency, owner, before, c);
        ConfinedMore(adjacency, before, now, owner[c]);
      }
    }
  }

  lemma TakeFree(before: seq<int>, free: set<nat>, other: nat, index: nat)
    requires other in free && other < |before| && before[other] == NOBODY
    requires Injective(before, free) && !Holds(before, free, index)
    ensures Augmented(before, before[other := index], free, index)
  {
    var after := before[other := index];
    forall x: int | x != NOBODY ensures Holds(after, free, x) <==> Holds(before, free, x) || x == index {
      if x == index { assert after[other] == x; }
      if Holds(before, free, x) {
        var c :| c in free && c < |before| && before[c] == x;
        assert after[c] == x;
      }
    }
  }

  // The holder of `other` moved to a column of `inner`, so `other` can go to `index`.
  lemma TakeOver(before: seq<int>, middle: seq<int>, free: set<nat>, inner: set<nat>, other: nat, index: nat)
    requires other in free && other < |before| && inner <= free - {other}
    requires before[other] >= 0 && Augmented(before, middle, inner, before[other])
    requires Injective(before, free) && !Holds(before, free, index)
    ensures Augmented(before, middle[other := index], free, index)
  {
    var after, r := middle[other := index], before[other];
    assert Holds(before, free, r);
    forall x: int | x != NOBODY ensures Holds(after, free, x) <==> Holds(before, free, x) || x == index {
      TakeOverHolds(before, middle, free, inner, other, index, x);
    }
    forall c, d | c in free && d in free && c < |after| && d < |after| && after[c] == after[d] != NOBODY
      ensures c == d
    {
      if c != d { TakeOverInjective(before, middle, free, inner, other, index, c, d); }
    }
  }

  lemma TakeOverHolds(before: seq<int>, middle: seq<int>, free: set<nat>, inner: set<nat>, other: nat, index: nat,
                      x: int)
    requires other in free && other < |before| && before[other] >= 0 && inner <= free - {other} && x != NOBODY
    requires Augmented(before, middle, inner, before[other])
    ensures Holds(middle[other := index], free, x) <==> Holds(before, free, x) || x == index
  {
    var after, r := middle[other := index], before[other];
    if x == index { assert after[other] == x; }
    if x == r {
      assert Holds(middle, inner, r);
      var c :| c in inner && c < |middle| && middle[c] == r;
      assert after[c] == r && before[other] == r;
    }
    if Holds(before, free, x) && x != r {
      var c :| c in free && c < |before| && before[c] == x;
      if c in inner {
        assert Holds(before, inner, x);
        var d :| d in inner && d < |middle| && middle[d] == x;
        assert after[d] == x;
      } else {
        assert after[c] == x;
      }
    }
    if Holds(after, free, x) && x != r && x != index {
      var c :| c in free && c < |after| && after[c] == x;
      if c in inner {
        assert Holds(middle, inner, x);
        var d :| d in inner && d < |before| && before[d] == x;
      } else {
        assert before[c] == x;
      }
    }
  }

  lemma TakeOverInjective(before: seq<int>, middle: seq<int>, free: set<nat>, inner: set<nat>, other: nat, index: nat,
                          c: nat, d: nat)
    requires other in free && other < |before| && before[other] >= 0 && inner <= free - {other}
    requires Injective(before, free) && !Holds(before, free, index) && Augmented(before, middle, inner, before[other])
    requires c in free && d in free && c < |before| && d < |before| && c != d
    requires middle[other := index][c] != NOBODY
    ensures middle[other := index][c] != middle[other := index][d]
  {
    var after, r := middle[other := index], before[other];
    assert Holds(before, free, r) && !Holds(before, inner, index);
    assert c in inner ==> Holds(middle, inner, after[c]);
    assert d in inner ==> Holds(middle, inner, after[d]);
    assert c !in inner && c != other ==> after[c] == before[c];
    assert d !in inner && d != other ==> after[d] == before[d];
  }

  /**
   The augmenting-path search from row `index` through unvisited columns. On success the row
   joins those already holding an unvisited column. On failure nothing is reassigned, and the
   columns it visited are all held by rows that, like `index`, reach only visited columns.
   Columns exhausted by earlier failures are never reassigned, and their rows never succeed.
   */
  method Assign(adjacency: seq<seq<nat>>, index: nat, owner: array<int>, visited: array<bool>, ghost dead: set<nat>)
    returns (ok: bool)
    requires index < |adjacency| && owner.Length == visited.Length && Bipartite(adjacency, owner.Length)
    requires Compatible(adjacency, owner[..]) && Injective(owner[..], Unvisited(visited[..]))
    requires !Holds(owner[..], Unvisited(visited[..]), index)
    requires Exhausted(adjacency, owner[..], dead)
    modifies owner, visited
    ensures Compatible(adjacency, owner[..]) && Visited(old(visited[..])) <= Visited(visited[..])
    ensures ok ==> Augmented(old(owner[..]), owner[..], Unvisited(old(visited[..])), index)
    ensures !ok ==> owner[..] == old(owner[..]) && Confined(adjacency, Visited(visited[..]), index)
    ensures !ok ==> Explored(adjacency, owner[..], Visited(old(visited[..])), Visited(visited[..]))
    ensures forall c :: c in dead && c < owner.Length ==> owner[c] == old(owner[c])
    ensures Confined(adjacency, dead, index) ==> !ok
    decreases Unvisited(visited[..])
  {
    ghost var before, free, start := owner[..], Unvisited(visited[..]), Visited(visited[..]);
    for k := 0 to |adjacency[index]|
      invariant owner[..] == before && Explored(adjacency, before, start, Visited(visited[..]))
      invariant forall j :: 0 <= j < k ==> adjacency[index][j] in Visited(visited[..])
    {
      var other := adjacency[index][k];
      if !visited[other] {
        ghost var seen := Visited(visited[..]);
        visited[other] := true;
        assert Visited(visited[..]) == seen + {other};
        ghost var inner := Unvisited(visited[..]);
        assert other in free && inner <= free - {other};
        if owner[other] == NOBODY {
          assert other in dead ==> Stuck(adjacency, before, dead, other);
          TakeFree(before, free, other, index);
          owner[other] := index;
          assert owner[..] == before[other := index];
          return true;
        }
        assert !Holds(before, inner, before[other]);
        assert other in dead ==> Stuck(adjacency, before, dead, other);
        var found := Assign(adjacency, owner[other], owner, visited, dead);
        if found {
          ghost var middle := owner[..];
          TakeOver(before, middle, free, inner, other, index);
          owner[other] := index;
          assert owner[..] == middle[other := index];
          return true;
        }
        ExploreOne(adjacency, before, start, seen, other, Visited(visited[..]));
      }
    }
    ok := false;
  }

  // ---- The whole comparison ----

  ghost function MatchedRows(owner: seq<int>, rows: nat): (s: set<nat>)
    ensures forall r: nat :: r in s <==> r < rows && Matched(owner, r)
  {
    set r: nat | r < rows && Matched(owner, r)
  }

  // Every row has a column of its own.
  ghost predicate Perfect(adjacency: seq<seq<nat>>, owner: seq<int>) {
    PartialMatching(adjacency, owner) && forall r: nat :: r < |adjacency| ==> Matched(owner, r)
  }

  ghost predicate Ascending(s: seq<nat>, bound: nat) {
    (forall i :: 0 <= i < |s| ==> s[i] < bound) && forall i, j :: 0 <= i < j < |s| ==> s[i] < s[j]
  }

  // Rows before `index` are matched or listed.
  ghost predicate Accounted(owner: seq<int>, unmatched: seq<nat>, index: nat) {
    Ascending(unmatched, index) && forall r: nat {:trigger Matched(owner, r)} :: Matched(owner, r) <==>
      r < index && r !in unmatched
  }

  // The state between two rows: the listed rows reach only exhausted columns.
  ghost predicate Progress(adjacency: seq<seq<nat>>, owner: seq<int>, unmatched: seq<nat>, dead: set<nat>, index: nat) {
    PartialMatching(adjacency, owner) && Accounted(owner, unmatched, index) && Exhausted(adjacency, owner, dead) &&
    forall k {:trigger unmatched[k]} :: 0 <= k < |unmatched| ==> Confined(adjacency, dead, unmatched[k])
  }

  lemma AugmentedMatched(before: seq<int>, after: seq<int>, index: nat)
    requires Augmented(before, after, Columns(before), index)
    ensures forall r: nat :: Matched(after, r) <==> Matched(before, r) || r == index
    ensures Injective(after, Columns(after))
  {
    assert Columns(after) == Columns(before);
    forall r: nat ensures Matched(after, r) <==> Matched(before, r) || r == index {
      assert Holds(after, Columns(before), r) <==> Holds(before, Columns(before), r) || r == index;
    }
  }

  lemma ExhaustedStays(adjacency: seq<seq<nat>>, before: seq<int>, after: seq<int>, dead: set<nat>)
    requires Exhausted(adjacency, before, dead) && |before| == |after|
    requires forall c :: c in dead && c < |before| ==> after[c] == before[c]
    ensures Exhausted(adjacency, after, dead)
  {
    forall c | c in dead ensures Stuck(adjacency, after, dead, c) {
      assert Stuck(adjacency, before, dead, c) && after[c] == before[c];
    }
  }

  lemma ProgressMatched(adjacency: seq<seq<nat>>, before: seq<int>, after: seq<int>, unmatched: seq<nat>,
                        dead: set<nat>, index: nat)
    requires Progress(adjacency, before, unmatched, dead, index) && Compatible(adjacency, after)
    requires Augmented(before, after, Columns(before), index) && forall c :: c in dead && c < |before| ==>
      after[c] == before[c]
    ensures Progress(adjacency, after, unmatched, dead, index + 1)
  {
    AugmentedMatched(before, after, index);
    ExhaustedStays(adjacency, before, after, dead);
    assert index !in unmatched;
  }

  lemma ProgressUnmatched(adjacency: seq<seq<nat>>, owner: seq<int>, unmatched: seq<nat>, dead: set<nat>, index: nat,
                          now: set<nat>)
    requires Progress(adjacency, owner, unmatched, dead, index)
    requires Explored(adjacency, owner, {}, now) && Confined(adjacency, now, index)
    ensures Progress(adjacency, owner, unmatched + [index], dead + now, index + 1)
  {
    forall c | c in dead + now ensures Stuck(adjacency, owner, dead + now, c) {
      var part := if c in dead then dead else now;
      assert Stuck(adjacency, owner, part, c);
      ConfinedMore(adjacency, part, dead + now, owner[c]);
    }
    forall k | 0 <= k < |unmatched + [index]| ensures Confined(adjacency, dead + now, (unmatched + [index])[k]) {
      ConfinedMore(adjacency, if k < |unmatched| then dead else now, dead + now, (unmatched + [index])[k]);
    }
  }

  /** The columns two disjoint families hold are counted by their holders. */
  lemma HoldersFit(owner: seq<int>, columns: set<nat>, rows: set<nat>)
    requires forall r :: r in rows ==> Holds(owner, columns, r)
    ensures |rows| <= |columns|
  {
    if rows != {} {
      var r :| r in rows;
      var c :| c in columns && c < |owner| && owner[c] == r;
      forall x | x in rows - {r} ensures Holds(owner, columns - {c}, x) {
        var d :| d in columns && d < |owner| && owner[d] == x;
        assert d in columns - {c};
      }
      HoldersFit(owner, columns - {c}, rows - {r});
    }
  }

  ghost function HoldersOf(owner: seq<int>, columns: set<nat>): (rows: set<nat>)
    requires forall c :: c in columns ==> c < |owner| && owner[c] >= 0
    ensures forall r: nat :: r in rows <==> Holds(owner, columns, r)
  {
    set c | c in columns :: owner[c]
  }

  lemma HoldersCount(owner: seq<int>, columns: set<nat>, rows: set<nat>)
    requires Injective(owner, columns) && forall c :: c in columns ==> c < |owner| && owner[c] >= 0 && owner[c] in rows
    ensures |columns| <= |rows|
  {
    if columns != {} {
      var c :| c in columns;
      HoldersCount(owner, columns - {c}, rows - {owner[c]});
    }
  }

  ghost function Elements(s: seq<nat>, bound: nat): (e: set<nat>)
    requires Ascending(s, bound)
    ensures |e| == |s| && forall r: nat :: r in e <==> r in s
    ensures forall r: nat :: r in e ==> r < bound
  {
    if s == [] then {}
    else
      var n := |s| - 1;
      assert s == s[..n] + [s[n]];
      Elements(s[..n], s[n]) + {s[n]}
  }

  // More rows than columns they can reach.
  ghost predicate Deficient(adjacency: seq<seq<nat>>, rows: set<nat>, reach: set<nat>) {
    (forall r :: r in rows ==> r < |adjacency| && Confined(adjacency, reach, r)) && |reach| < |rows|
  }

  lemma DeadIsHeld(adjacency: seq<seq<nat>>, owner: seq<int>, dead: set<nat>)
    requires PartialMatching(adjacency, owner) && Exhausted(adjacency, owner, dead)
    ensures forall c :: c in dead ==> c < |owner| && owner[c] >= 0
    ensures |HoldersOf(owner, dead)| >= |dead|
    ensures forall r :: r in HoldersOf(owner, dead) ==>
      r < |adjacency| && Confined(adjacency, dead, r) && Matched(owner, r)
  {
    forall c | c in dead ensures c < |owner| && owner[c] >= 0 { assert Stuck(adjacency, owner, dead, c); }
    HoldersCount(owner, dead, HoldersOf(owner, dead));
    forall r | r in HoldersOf(owner, dead)
      ensures r < |adjacency| && Confined(adjacency, dead, r) && Matched(owner, r)
    {
      var c :| c in dead && c < |owner| && owner[c] == r;
      assert Stuck(adjacency, owner, dead, c) && c in Columns(owner);
    }
  }

  // The listed rows and the holders of the exhausted columns, which reach only those columns.
  ghost function StuckRows(adjacency: seq<seq<nat>>, owner: seq<int>, unmatched: seq<nat>,
                           dead: set<nat>): (rows: set<nat>)
    requires Progress(adjacency, owner, unmatched, dead, |adjacency|)
    ensures |rows| >= |unmatched| + |dead|
    ensures forall r :: r in rows ==> r < |adjacency| && Confined(adjacency, dead, r)
  {
    DeadIsHeld(adjacency, owner, dead);
    assert Elements(unmatched, |adjacency|) !! HoldersOf(owner, dead) by {
      forall r | r in HoldersOf(owner, dead)
        ensures r !in Elements(unmatched, |adjacency|)
      {
        assert Matched(owner, r);
      }
    }
    Elements(unmatched, |adjacency|) + HoldersOf(owner, dead)
  }

  // A matched row confined to `reach` holds a column of `reach`.
  lemma ConfinedHolds(adjacency: seq<seq<nat>>, other: seq<int>, reach: set<nat>, r: nat)
    requires PartialMatching(adjacency, other) && r < |adjacency| && Matched(other, r) && Confined(adjacency, reach, r)
    ensures Holds(other, reach, r)
  {
    var c :| c in Columns(other) && c < |other| && other[c] == r;
    assert c in adjacency[r];
  }

  // At most |reach| of the rows confined to `reach` are matched.
  lemma MatchedBound(adjacency: seq<seq<nat>>, other: seq<int>, rows: set<nat>, reach: set<nat>)
    requires PartialMatching(adjacency, other)
    requires forall r :: r in rows ==> r < |adjacency| && Confined(adjacency, reach, r)
    ensures |MatchedRows(other, |adjacency|)| <= |adjacency| - |rows| + |reach|
  {
    var n := |adjacency|;
    var all, matched := DependencyOrder.Below(n), MatchedRows(other, n);
    forall r | r in matched * rows ensures Holds(other, reach, r) { ConfinedHolds(adjacency, other, reach, r); }
    HoldersFit(other, reach, matched * rows);
    assert matched == matched * rows + (matched - rows);
    DependencyOrder.SubsetSize(matched - rows, all - rows);
    assert rows <= all;
  }

  /** No matching covers more rows than the one found. */
  lemma FoundIsMaximum(adjacency: seq<seq<nat>>, owner: seq<int>, unmatched: seq<nat>, dead: set<nat>, other: seq<int>)
    requires Progress(adjacency, owner, unmatched, dead, |adjacency|) && PartialMatching(adjacency, other)
    ensures |MatchedRows(other, |adjacency|)| <= |adjacency| - |unmatched| == |MatchedRows(owner, |adjacency|)|
  {
    var n := |adjacency|;
    MatchedBound(adjacency, other, StuckRows(adjacency, owner, unmatched, dead), dead);
    assert MatchedRows(owner, n) == DependencyOrder.Below(n) - Elements(unmatched, n);
    assert Elements(unmatched, n) <= DependencyOrder.Below(n);
  }

  /**
   Matches the rows one by one. The result is a valid matching of maximum size; `complete`
   holds exactly when a perfect matching exists, and otherwise some rows have too few neighbours.
   */
  method MatchRows(adjacency: seq<seq<nat>>, columns: nat)
    returns (owner: seq<int>, unmatched: seq<nat>, permutation: seq<int>, complete: bool, ghost rows: set<nat>,
      ghost reach: set<nat>)
    requires Bipartite(adjacency, columns)
    ensures |owner| == columns && PartialMatching(adjacency, owner)
    ensures forall r: nat :: r in unmatched <==> r < |adjacency| && !Matched(owner, r)
    ensures forall other: seq<int> :: PartialMatching(adjacency, other) ==>
      |MatchedRows(other, |adjacency|)| <= |MatchedRows(owner, |adjacency|)|
    ensures complete <==> exists other: seq<int> :: |other| == columns && Perfect(adjacency, other)
    ensures !complete ==> Deficient(adjacency, rows, reach)
    ensures |permutation| == |adjacency|
    ensures forall r, c: nat :: 0 <= r < |adjacency| && c < columns ==> (permutation[r] == c <==> owner[c] == r)
    ensures complete ==> forall r :: 0 <= r < |adjacency| ==>
      0 <= permutation[r] < columns && permutation[r] in adjacency[r]
  {
    ghost var dead;
    owner, unmatched, dead := AssignAll(adjacency, columns);
    complete := unmatched == [];
    permutation := Invert(adjacency, owner);
    rows, reach := StuckRows(adjacency, owner, unmatched, dead), dead;
    Exactness(adjacency, owner, unmatched, dead);
    if complete { PerfectInverts(adjacency, owner, permutation); }
  }

  method AssignRow(adjacency: seq<seq<nat>>, index: nat, owners: array<int>, listed: seq<nat>,
                   ghost exhausted: set<nat>)
    returns (unmatched: seq<nat>, ghost dead: set<nat>)
    requires index < |adjacency| && Bipartite(adjacency, owners.Length) &&
      Progress(adjacency, owners[..], listed, exhausted, index)
    modifies owners
    ensures Progress(adjacency, owners[..], unmatched, dead, index + 1)
  {
    var visited := new bool[owners.Length](_ => false);
    ghost var before := owners[..];
    assert Unvisited(visited[..]) == Columns(before) && Visited(visited[..]) == {} && !Matched(before, index);
    var ok := Assign(adjacency, index, owners, visited, exhausted);
    unmatched, dead := listed, exhausted;
    if ok {
      ProgressMatched(adjacency, before, owners[..], listed, exhausted, index);
    } else {
      ProgressUnmatched(adjacency, before, listed, exhausted, index, Visited(visited[..]));
      unmatched, dead := listed + [index], exhausted + Visited(visited[..]);
    }
  }

  method AssignAll(adjacency: seq<seq<nat>>, columns: nat)
    returns (owner: seq<int>, unmatched: seq<nat>, ghost dead: set<nat>)
    requires Bipartite(adjacency, columns)
    ensures |owner| == columns && Progress(adjacency, owner, unmatched, dead, |adjacency|)
  {
    var owners := new int[columns](_ => NOBODY);
    unmatched, dead := [], {};
    for index := 0 to |adjacency|
      invariant Progress(adjacency, owners[..], unmatched, dead, index)
    {
      unmatched, dead := AssignRow(adjacency, index, owners, unmatched, dead);
    }
    owner := owners[..];
  }

  lemma Exactness(adjacency: seq<seq<nat>>, owner: seq<int>, unmatched: seq<nat>, dead: set<nat>)
    requires Progress(adjacency, owner, unmatched, dead, |adjacency|)
    ensures forall other: seq<int> :: PartialMatching(adjacency, other) ==>
      |MatchedRows(other, |adjacency|)| <= |MatchedRows(owner, |adjacency|)|
    ensures unmatched == [] ==> Perfect(adjacency, owner)
    ensures forall other: seq<int> :: Perfect(adjacency, other) ==> unmatched == []
  {
    forall other: seq<int> | PartialMatching(adjacency, other)
      ensures |MatchedRows(other, |adjacency|)| <= |MatchedRows(owner, |adjacency|)|
      ensures Perfect(adjacency, other) ==> unmatched == []
    {
      FoundIsMaximum(adjacency, owner, unmatched, dead, other);
      if Perfect(adjacency, other) { assert MatchedRows(other, |adjacency|) == DependencyOrder.Below(|adjacency|); }
    }
  }

  // The reference row of each actual row, or NOBODY.
  method Invert(adjacency: seq<seq<nat>>, owner: seq<int>) returns (permutation: seq<int>)
    requires PartialMatching(adjacency, owner)
    ensures |permutation| == |adjacency|
    ensures forall r :: 0 <= r < |adjacency| ==> permutation[r] == NOBODY || 0 <= permutation[r] < |owner|
    ensures forall r, c: nat :: 0 <= r < |adjacency| && c < |owner| ==> (permutation[r] == c <==> owner[c] == r)
  {
    permutation := seq(|adjacency|, _ => NOBODY);
    for other := 0 to |owner|
      invariant |permutation| == |adjacency|
      invariant forall r :: 0 <= r < |adjacency| ==> permutation[r] == NOBODY || 0 <= permutation[r] < other
      invariant forall r, c: nat :: 0 <= r < |adjacency| && c < other ==> (permutation[r] == c <==> owner[c] == r)
    {
      assert other in Columns(owner) && forall c: nat :: c < other ==> c in Columns(owner);
      if owner[other] >= 0 { permutation := permutation[owner[other] := other]; }
    }
  }

  lemma PerfectInverts(adjacency: seq<seq<nat>>, owner: seq<int>, permutation: seq<int>)
    requires Perfect(adjacency, owner) && |permutation| == |adjacency|
    requires forall r, c: nat :: 0 <= r < |adjacency| && c < |owner| ==> (permutation[r] == c <==> owner[c] == r)
    ensures forall r :: 0 <= r < |adjacency| ==> 0 <= permutation[r] < |owner| && permutation[r] in adjacency[r]
  {
    forall r: nat | r < |adjacency| ensures 0 <= permutation[r] < |owner| && permutation[r] in adjacency[r] {
      assert Matched(owner, r);
      var c :| c in Columns(owner) && c < |owner| && owner[c] == r;
      assert permutation[r] == c;
    }
  }
}
