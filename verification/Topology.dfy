/** Who follows whom, computed by every server for itself from a list of node names. */
module Topology {
  import opened CStrings
  import opened Layouts

  /** The two fields chain_watcher writes: the path of the successor, empty if there is none,
      and the tail flag. */
  datatype Position = Position(next: CString, isTail: bool)

  // ---- qsort with compare_nodes ----

  ghost predicate Ascending(s: seq<CString>) {
    forall i, j {:trigger s[i], s[j]} :: 0 <= i < j < |s| ==> !Less(s[j], s[i])
  }

  function InsertName(s: seq<CString>, n: CString): seq<CString> {
    if s == [] then [n]
    else if Less(s[0], n) then [s[0]] + InsertName(s[1..], n)
    else [n] + s
  }

  function SortNames(names: seq<CString>): seq<CString> {
    if names == [] then [] else InsertName(SortNames(names[1..]), names[0])
  }

  lemma {:induction false} InsertNameSorts(s: seq<CString>, n: CString)
    requires Ascending(s)
    ensures Ascending(InsertName(s, n)) && multiset(InsertName(s, n)) == multiset(s) + multiset{n}
  {
    if s == [] {
    } else if Less(s[0], n) {
      InsertNameSorts(s[1..], n);
      assert s == [s[0]] + s[1..];
      var r := InsertName(s[1..], n);
      forall j | 0 <= j < |r| ensures !Less(r[j], s[0]) {
        assert r[j] in multiset(r);
        LessIsTotal(s[0], n);
        if r[j] != n {
          assert r[j] in s[1..];
        }
      }
    } else {
      forall j | 0 <= j < |s| ensures !Less(s[j], n) {
        LessIsTotal(s[j], s[0]);
        if Less(s[j], n) && j > 0 {
          LessIsTotal(n, s[0]);
          NotLessTransitive(s[j], s[0], n);
        }
      }
    }
  }

  lemma NotLessTransitive(a: CString, b: CString, c: CString)
    requires !Less(a, b) && !Less(b, c)
    ensures !Less(a, c)
  {
    LessIsTotal(a, b);
    LessIsTotal(b, c);
    LessIsTotal(a, c);
    if Less(a, c) {
      if b != c {
        LessTransitive(a, c, b);
      }
    }
  }

  lemma {:induction false} SortNamesSorts(names: seq<CString>)
    ensures Ascending(SortNames(names)) && multiset(SortNames(names)) == multiset(names)
  {
    if names != [] {
      SortNamesSorts(names[1..]);
      InsertNameSorts(SortNames(names[1..]), names[0]);
      assert names == [names[0]] + names[1..];
    }
  }

  lemma SortKeepsLength(names: seq<CString>)
    ensures |SortNames(names)| == |names|
  {
    SortNamesSorts(names);
    var s := SortNames(names);
    assert |s| == |multiset(s)| == |multiset(names)| == |names|;
  }

  lemma FirstIsLeast(s: seq<CString>, n: CString)
    requires Ascending(s) && n in s
    ensures !Less(n, s[0])
  {
    LessIsTotal(n, n);
    var i :| 0 <= i < |s| && s[i] == n;
  }

  lemma TailMultiset(s: seq<CString>)
    requires s != []
    ensures multiset(s[1..]) == multiset(s) - multiset{s[0]}
  {
    assert s == [s[0]] + s[1..];
  }

  /** There is one way to sort, so it does not matter in which order the names arrived, nor
      which algorithm qsort uses. */
  lemma {:induction false} SortedIsUnique(s: seq<CString>, t: seq<CString>)
    requires Ascending(s) && Ascending(t) && multiset(s) == multiset(t)
    ensures s == t
  {
    assert |s| == |multiset(s)| == |multiset(t)| == |t|;
    if s != [] {
      assert s[0] in multiset(t) && t[0] in multiset(s);
      FirstIsLeast(s, t[0]);
      FirstIsLeast(t, s[0]);
      LessIsTotal(s[0], t[0]);
      TailMultiset(s);
      TailMultiset(t);
      SortedIsUnique(s[1..], t[1..]);
      assert s == [s[0]] + s[1..] && t == [t[0]] + t[1..];
    }
  }

  // ---- chain_watcher ----

  /** next_server_path after the first i steps of the loop. */
  function NextAfter(s: seq<CString>, i: nat, me: CString, before: CString): CString
    requires i <= |s|
  {
    if i == 0 then before
    else if s[i - 1] == me then if i < |s| then CHAIN_PREFIX + s[i] else []
    else NextAfter(s, i - 1, me, before)
  }

  /** What chain_watcher makes of a nonempty list of children. */
  function Watch(p: Position, me: CString, children: seq<CString>): Position
    requires children != []
  {
    var s := SortNames(children);
    SortKeepsLength(children);
    Position(NextAfter(s, |s|, me, p.next), s[|s| - 1] == me)
  }

  /** The size of the buffers paths are printed into. */
  const PATH_SIZE := 1024

  /** What snprintf leaves of a path. */
  function Cut(path: CString): CString {
    if |path| < PATH_SIZE then path else path[..PATH_SIZE - 1]
  }

  function Fitted(p: Position): Position {
    p.(next := Cut(p.next))
  }

  /** Paths are cut exactly when some name is longer than what the buffer has left. */
  lemma NothingIsCutIff(n: CString)
    ensures Cut(CHAIN_PREFIX + n) == CHAIN_PREFIX + n <==> |n| <= 1016
  {
  }

  /** snprintf keeps as much of a path as its buffer of 1024 bytes holds beside the NUL. */
  lemma CutIsLongestFit(path: CString, q: CString)
    requires q <= path && |q| <= 1023
    ensures Cut(path) <= path && |q| <= |Cut(path)| <= 1023
  {
  }

  /** With names of at most 1016 bytes the watcher finds its place as if paths had no limit. */
  lemma {:induction false} ShortNamesFit(s: seq<CString>, i: nat, me: CString, before: CString)
    requires i <= |s| && |before| < PATH_SIZE && forall n :: n in s ==> |n| <= 1016
    ensures Cut(NextAfter(s, i, me, before)) == NextAfter(s, i, me, before)
  {
    if i > 0 {
      if s[i - 1] == me {
        if i < |s| {
          NothingIsCutIff(s[i]);
        }
      } else {
        ShortNamesFit(s, i - 1, me, before);
      }
    }
  }

  lemma WatchFits(p: Position, me: CString, children: seq<CString>)
    requires children != [] && |p.next| < PATH_SIZE && forall n :: n in children ==> |n| <= 1016
    ensures Fitted(Watch(p, me, children)) == Watch(p, me, children)
  {
    var s := SortNames(children);
    SortNamesSorts(children);
    forall n | n in s ensures |n| <= 1016 {
      assert n in multiset(children);
    }
    ShortNamesFit(s, |s|, me, p.next);
  }

  lemma {:induction false} NextAfterAt(s: seq<CString>, i: nat, j: nat, before: CString)
    requires Distinct(s) && j < |s| && i <= |s|
    ensures NextAfter(s, i, s[j], before) ==
            if j < i then (if j + 1 < |s| then CHAIN_PREFIX + s[j + 1] else []) else before
  {
    if i > 0 && i - 1 != j {
      assert s[i - 1] != s[j];
      NextAfterAt(s, i - 1, j, before);
    }
  }

  lemma {:induction false} NextAfterAbsent(s: seq<CString>, i: nat, me: CString, before: CString)
    requires i <= |s| && me !in s
    ensures NextAfter(s, i, me, before) == before
  {
    if i > 0 {
      NextAfterAbsent(s, i - 1, me, before);
    }
  }

  lemma DistinctMultiset(s: seq<CString>, t: seq<CString>)
    requires Distinct(s) && multiset(s) == multiset(t)
    ensures Distinct(t) && |s| == |t|
    ensures forall x :: x in s <==> x in t
  {
    assert |s| == |multiset(s)| && |t| == |multiset(t)|;
    forall x ensures x in s <==> x in t {
      assert x in s <==> x in multiset(s);
      assert x in t <==> x in multiset(t);
    }
    forall i, j | 0 <= i < j < |t| ensures t[i] != t[j] {
      if t[i] == t[j] {
        assert t == t[..i] + [t[i]] + t[i + 1..j] + [t[j]] + t[j + 1..];
        assert multiset(t)[t[i]] >= 2;
        DistinctOnce(s, t[i]);
      }
    }
  }

  lemma {:induction false} DistinctOnce(s: seq<CString>, x: CString)
    requires Distinct(s)
    ensures multiset(s)[x] <= 1
  {
    if s != [] {
      DistinctOnce(s[1..], x);
      assert s == [s[0]] + s[1..];
      if s[0] == x {
        assert x !in s[1..];
      }
    }
  }

  lemma NeighbourIsSuccessor(s: seq<CString>, j: nat)
    requires Ascending(s) && Distinct(s) && j + 1 < |s|
    ensures IsSuccessor(s, s[j], s[j + 1])
  {
    LessIsTotal(s[j], s[j + 1]);
    forall n | n in s && Less(s[j], n) ensures !Less(n, s[j + 1]) {
      var i :| 0 <= i < |s| && s[i] == n;
      LessIsTotal(s[j], s[i]);
      LessIsTotal(s[i], s[j + 1]);
    }
  }

  lemma LastIsGreatest(s: seq<CString>, n: CString)
    requires Ascending(s) && n in s
    ensures !Less(s[|s| - 1], n)
  {
    LessIsTotal(n, n);
    var i :| 0 <= i < |s| && s[i] == n;
  }

  /** Whatever order the names come in, the watcher sees the sorted list. */
  lemma WatchSorted(p: Position, s: seq<CString>, i: nat, children: seq<CString>)
    requires Ascending(s) && Distinct(s) && i < |s| && multiset(children) == multiset(s)
    ensures children != []
    ensures Watch(p, s[i], children) == Position(if i + 1 < |s| then CHAIN_PREFIX + s[i + 1] else [], i == |s| - 1)
  {
    assert |children| == |multiset(children)| == |multiset(s)| == |s|;
    SortNamesSorts(children);
    SortedIsUnique(SortNames(children), s);
    NextAfterAt(s, |s|, i, p.next);
  }

  lemma SuccessorAmongSame(s: seq<CString>, t: seq<CString>, me: CString, x: CString)
    requires IsSuccessor(s, me, x) && forall n :: n in s <==> n in t
    ensures IsSuccessor(t, me, x)
  {
  }

  lemma SortedPlace(s: seq<CString>, j: nat, q: Position)
    requires Ascending(s) && Distinct(s) && j < |s|
    requires q == Position(if j + 1 < |s| then CHAIN_PREFIX + s[j + 1] else [], j == |s| - 1)
    ensures q.isTail <==> q.next == []
    ensures q.isTail ==> forall n :: n in s ==> !Less(s[j], n)
    ensures !q.isTail ==> j + 1 < |s| && q.next == CHAIN_PREFIX + s[j + 1] && IsSuccessor(s, s[j], s[j + 1])
  {
    if j + 1 < |s| {
      NeighbourIsSuccessor(s, j);
    } else {
      forall n | n in s ensures !Less(s[j], n) {
        LastIsGreatest(s, n);
      }
    }
  }

  /** The successor of a listed server is the least greater name; a listed server is tail
      exactly when it has no successor, and that is when no listed name is greater. */
  lemma WatchFindsSuccessor(p: Position, me: CString, children: seq<CString>)
    requires Distinct(children) && me in children
    ensures var q := Watch(p, me, children);
            && (q.isTail <==> q.next == [])
            && (q.isTail <==> forall n :: n in children ==> !Less(me, n))
            && (!q.isTail ==> exists x :: q.next == CHAIN_PREFIX + x && IsSuccessor(children, me, x))
  {
    var s := SortNames(children);
    SortNamesSorts(children);
    DistinctMultiset(children, s);
    var j :| 0 <= j < |s| && s[j] == me;
    WatchSorted(p, s, j, children);
    SortedPlace(s, j, Watch(p, me, children));
    if j + 1 < |s| {
      SuccessorAmongSame(s, children, me, s[j + 1]);
    }
  }

  /** A newly created node sorts last, so whoever lists it makes it the tail. */
  lemma NewestBecomesTail(p: Position, i: nat, children: seq<CString>)
    requires Distinct(children) && NodeName(i) in children && i < MAX_NODES
    requires forall n :: n in children ==> exists j: nat :: j <= i && n == NodeName(j)
    ensures Watch(p, NodeName(i), children) == Position([], true)
    ensures TailPath(children) == CHAIN_PREFIX + NodeName(i)
  {
    forall n | n in children ensures !Less(NodeName(i), n) {
      var j: nat :| j <= i && n == NodeName(j);
      NodeNameOrder(i, j);
    }
    WatchFindsSuccessor(p, NodeName(i), children);
    SortNamesSorts(children);
    SortKeepsLength(children);
    var s := SortNames(children);
    assert s[|s| - 1] == NodeName(i);
  }

  /** x is the least of the names greater than me. */
  ghost predicate IsSuccessor(names: seq<CString>, me: CString, x: CString) {
    x in names && Less(me, x) && forall n :: n in names && Less(me, n) ==> !Less(n, x)
  }

  /** A server that does not find itself in the list keeps its successor and is not tail. */
  lemma WatchWithoutMe(p: Position, me: CString, children: seq<CString>)
    requires children != [] && me !in children
    ensures Watch(p, me, children) == Position(p.next, false)
  {
    var s := SortNames(children);
    SortNamesSorts(children);
    assert forall x :: x in s <==> x in multiset(s);
    assert me !in s by { assert me !in multiset(children); }
    NextAfterAbsent(s, |s|, me, p.next);
  }

  /** As written, node_path is the whole created path while the children are bare names: the
      watcher never finds its own server, never makes it tail and never gives it a successor. */
  lemma CreatedPathIsNeverListed(p: Position, i: nat, children: seq<CString>)
    requires children != [] && forall n :: n in children ==> exists j :: n == NodeName(j)
    ensures Watch(p, CHAIN_PREFIX + NodeName(i), children) == Position(p.next, false)
  {
    var me := CHAIN_PREFIX + NodeName(i);
    assert me[0] == 47;
    forall j ensures me != NodeName(j) {
      NodeNameHasNoSlash(j);
    }
    WatchWithoutMe(p, me, children);
  }

  // ---- the chain all servers agree on ----

  /** Every server of names has refreshed on a list of exactly these names, in any order. */
  ghost predicate Refreshed(at: map<CString, Position>, names: seq<CString>) {
    && Distinct(names) && names != []
    && forall n :: n in names ==> n in at && RefreshedOn(at[n], n, names)
  }

  ghost predicate RefreshedOn(q: Position, me: CString, names: seq<CString>) {
    exists p, list: seq<CString> :: list != [] && multiset(list) == multiset(names) && q == Watch(p, me, list)
  }

  lemma RefreshedAt(at: map<CString, Position>, names: seq<CString>, i: nat)
    requires Refreshed(at, names) && i < |SortNames(names)|
    ensures var s := SortNames(names);
            && s[i] in at
            && at[s[i]] == Position(if i + 1 < |s| then CHAIN_PREFIX + s[i + 1] else [], i == |s| - 1)
  {
    var s := SortNames(names);
    SortNamesSorts(names);
    DistinctMultiset(names, s);
    assert RefreshedOn(at[s[i]], s[i], names);
    var p, list: seq<CString> :| list != [] && multiset(list) == multiset(names) && at[s[i]] == Watch(p, s[i], list);
    WatchSorted(p, s, i, list);
  }

  /** The name a path leads to. */
  function Bare(path: CString): CString {
    if |path| < |CHAIN_PREFIX| then path else path[|CHAIN_PREFIX|..]
  }

  lemma BareOfPath(x: CString)
    ensures Bare(CHAIN_PREFIX + x) == x && CHAIN_PREFIX + x != []
  {
    assert (CHAIN_PREFIX + x)[|CHAIN_PREFIX|..] == x;
  }

  /** The servers met by following next pointers. */
  function Walk(at: map<CString, Position>, n: CString, steps: nat): seq<CString>
    decreases steps
  {
    if steps == 0 || n !in at || at[n].next == [] then [n] else [n] + Walk(at, Bare(at[n].next), steps - 1)
  }

  lemma WalkStep(at: map<CString, Position>, n: CString, x: CString, steps: nat)
    requires n in at && at[n].next == CHAIN_PREFIX + x && steps > 0
    ensures Walk(at, n, steps) == [n] + Walk(at, x, steps - 1)
  {
    BareOfPath(x);
  }

  lemma WalkEnds(at: map<CString, Position>, n: CString, steps: nat)
    requires n in at && at[n].next == []
    ensures Walk(at, n, steps) == [n]
  {
  }

  lemma SplitFirst<T>(s: seq<T>, i: nat)
    requires i < |s|
    ensures s[i..] == [s[i]] + s[i + 1..]
  {
  }

  lemma {:induction false} WalkVisitsAll(at: map<CString, Position>, names: seq<CString>, i: nat, steps: nat)
    requires Refreshed(at, names) && i < |SortNames(names)| && steps >= |SortNames(names)| - 1 - i
    ensures Walk(at, SortNames(names)[i], steps) == SortNames(names)[i..]
    decreases steps
  {
    var s := SortNames(names);
    RefreshedAt(at, names, i);
    if i + 1 < |s| {
      WalkStep(at, s[i], s[i + 1], steps);
      WalkVisitsAll(at, names, i + 1, steps - 1);
      SplitFirst(s, i);
    } else {
      WalkEnds(at, s[i], steps);
      SplitFirst(s, i);
    }
  }

  /** The next pointers form one path through every server, from the least name to the
      greatest; exactly the last server is tail, it is the only one without a successor, and
      it is the one the client picks. */
  lemma OnePathOneTail(at: map<CString, Position>, names: seq<CString>, steps: nat)
    requires Refreshed(at, names) && steps >= |names|
    ensures var s := SortNames(names);
            && |s| == |names| && (forall n :: n in s <==> n in names) && Ascending(s)
            && Walk(at, s[0], steps) == s
            && TailPath(names) == CHAIN_PREFIX + s[|s| - 1]
            && (forall n :: n in names ==> (at[n].isTail <==> n == s[|s| - 1]) && (at[n].isTail <==> at[n].next == []))
  {
    var s := SortNames(names);
    SortNamesSorts(names);
    DistinctMultiset(names, s);
    WalkVisitsAll(at, names, 0, steps);
    forall n | n in names
      ensures (at[n].isTail <==> n == s[|s| - 1]) && (at[n].isTail <==> at[n].next == [])
    {
      var i :| 0 <= i < |s| && s[i] == n;
      RefreshedAt(at, names, i);
    }
  }

  /** The path get_tail_address asks ZooKeeper about. */
  function TailPath(children: seq<CString>): CString
    requires children != []
  {
    SortKeepsLength(children);
    var s := SortNames(children);
    CHAIN_PREFIX + s[|s| - 1]
  }
}
