/**
 Everything that depends on a module, directly or through others: the reverse-edge index and the
 walk over a queue that grows while it is read.
 */
module BlastRadius {

  datatype Module = Module(id: string, dependsOn: seq<string>)

  // ---------------------------------------------------------------- the reverse index

  /** `id` once for every time `x` is listed. */
  function Entries(id: string, deps: seq<string>, x: string): seq<string> {
    if deps == [] then []
    else Entries(id, deps[..|deps| - 1], x) + if deps[|deps| - 1] == x then [id] else []
  }

  /** The modules that declare a dependency on `x`, in table order, as often as they declare it. */
  function Dependents(ms: seq<Module>, x: string): seq<string> {
    if ms == [] then []
    else Dependents(ms[..|ms| - 1], x) + Entries(ms[|ms| - 1].id, ms[|ms| - 1].dependsOn, x)
  }

  type Index = map<string, seq<string>>

  function Lookup(index: Index, x: string): seq<string> {
    if x in index then index[x] else []
  }

  function Push(index: Index, dep: string, id: string): Index {
    index[dep := Lookup(index, dep) + [id]]
  }

  lemma PushEntry(before: Index, index: Index, id: string, deps: seq<string>, j: nat, x: string)
    requires j < |deps| && Lookup(index, x) == Lookup(before, x) + Entries(id, deps[..j], x)
    ensures Lookup(Push(index, deps[j], id), x) == Lookup(before, x) + Entries(id, deps[..j + 1], x)
  {
    assert deps[..j + 1][..j] == deps[..j];
    if x == deps[j] {
      calc {
        Lookup(Push(index, deps[j], id), x);
        (Lookup(before, x) + Entries(id, deps[..j], x)) + [id];
        Lookup(before, x) + (Entries(id, deps[..j], x) + [id]);
      }
    }
  }

  /** One module's entry: push its id on the list of each of its dependencies. */
  method AddModule(before: Index, m: Module) returns (index: Index)
    ensures forall x :: Lookup(index, x) == Lookup(before, x) + Entries(m.id, m.dependsOn, x)
  {
    index := before;
    var deps := m.dependsOn;
    for j := 0 to |deps|
      invariant forall x :: Lookup(index, x) == Lookup(before, x) + Entries(m.id, deps[..j], x)
    {
      forall x ensures Lookup(Push(index, deps[j], m.id), x) == Lookup(before, x) + Entries(m.id, deps[..j + 1], x) {
        PushEntry(before, index, m.id, deps, j, x);
      }
      index := Push(index, deps[j], m.id);
    }
    assert deps[..|deps|] == deps;
  }

  method BuildIndex(ms: seq<Module>) returns (index: Index)
    ensures forall x :: Lookup(index, x) == Dependents(ms, x)
  {
    index := map[];
    for i := 0 to |ms|
      invariant forall x :: Lookup(index, x) == Dependents(ms[..i], x)
    {
      assert ms[..i + 1][..i] == ms[..i];
      index := AddModule(index, ms[i]);
    }
    assert ms[..|ms|] == ms;
  }

  lemma {:induction false} EntriesAre(id: string, deps: seq<string>, x: string)
    ensures forall y :: y in Entries(id, deps, x) <==> y == id && x in deps
    decreases |deps|
  {
    if deps != [] {
      EntriesAre(id, deps[..|deps| - 1], x);
      assert deps == deps[..|deps| - 1] + [deps[|deps| - 1]];
    }
  }

  /** A dependent is exactly a module of the table that lists `x`. */
  lemma {:induction false} DependentsAre(ms: seq<Module>, x: string)
    ensures forall y :: y in Dependents(ms, x) <==> exists m :: m in ms && m.id == y && x in m.dependsOn
    decreases |ms|
  {
    if ms != [] {
      var init, last := ms[..|ms| - 1], ms[|ms| - 1];
      DependentsAre(init, x);
      EntriesAre(last.id, last.dependsOn, x);
      assert ms == init + [last];
    }
  }

  // ---------------------------------------------------------------- distance

  /** What is reached from `root` in at most `n` steps along dependents. */
  ghost function Ball(ms: seq<Module>, root: string, n: nat): set<string> {
    if n == 0 then {root}
    else Ball(ms, root, n - 1) + set x, y | x in Ball(ms, root, n - 1) && y in Dependents(ms, x) :: y
  }

  ghost predicate Reaches(ms: seq<Module>, root: string, x: string) {
    exists n: nat :: x in Ball(ms, root, n)
  }

  lemma {:induction false} BallGrows(ms: seq<Module>, root: string, m: nat, n: nat)
    requires m <= n
    ensures Ball(ms, root, m) <= Ball(ms, root, n)
    decreases n - m
  {
    if m < n {
      BallGrows(ms, root, m, n - 1);
    }
  }

  /** `x` is first reached in exactly `d` steps. */
  ghost predicate AtDistance(ms: seq<Module>, root: string, x: string, d: nat) {
    x in Ball(ms, root, d) && (d > 0 ==> x !in Ball(ms, root, d - 1))
  }

  lemma DistanceIsLeast(ms: seq<Module>, root: string, x: string, d: nat, n: nat)
    requires AtDistance(ms, root, x, d)
    ensures x in Ball(ms, root, n) <==> d <= n
  {
    if d <= n {
      BallGrows(ms, root, d, n);
    } else {
      BallGrows(ms, root, n, d - 1);
    }
  }

  // ---------------------------------------------------------------- the walk

  /** The queue with the distance of each entry: sorted, and spread over two levels from `head` on. */
  ghost predicate Levels(ms: seq<Module>, root: string, queue: seq<string>, ds: seq<nat>, head: nat, d: nat) {
    && |ds| == |queue| && head <= |queue| && d >= 1
    && (forall i, j :: 0 <= i <= j < |ds| ==> ds[i] <= ds[j])
    && (forall i :: 0 <= i < |ds| ==> 1 <= ds[i] <= d + 1 && (i >= head ==> d <= ds[i]))
    && (forall i :: 0 <= i < |queue| && queue[i] != root ==> AtDistance(ms, root, queue[i], ds[i]))
  }

  ghost predicate Visits(root: string, queue: seq<string>, visited: set<string>) {
    forall x :: x in visited <==> x == root || x in queue
  }

  /** The dependents of the root and of every entry before `head` have been seen. */
  ghost predicate Processed(ms: seq<Module>, root: string, queue: seq<string>, visited: set<string>, head: nat)
    requires head <= |queue|
  {
    && (forall y :: y in Dependents(ms, root) ==> y in visited)
    && (forall i, y :: 0 <= i < head && y in Dependents(ms, queue[i]) ==> y in visited)
  }

  /** A module reached before the level being read has been processed. */
  lemma ReachedIsProcessed(ms: seq<Module>, root: string, queue: seq<string>, ds: seq<nat>, head: nat, d: nat,
                           visited: set<string>, k: nat, x: string, y: string)
    requires Levels(ms, root, queue, ds, head, d) && Visits(root, queue, visited)
    requires Processed(ms, root, queue, visited, head)
    requires head < |queue| ==> k < ds[head]
    requires x in visited && x in Ball(ms, root, k) && y in Dependents(ms, x)
    ensures y in visited
  {
    if x != root {
      var i :| 0 <= i < |queue| && queue[i] == x;
      DistanceIsLeast(ms, root, x, ds[i], k);
      assert i < head;
    }
  }

  /** Up to the level being read, nothing is missing. */
  lemma {:induction false} LevelComplete(ms: seq<Module>, root: string, queue: seq<string>, ds: seq<nat>, head: nat,
                                         d: nat, visited: set<string>, k: nat)
    requires Levels(ms, root, queue, ds, head, d) && Visits(root, queue, visited)
    requires Processed(ms, root, queue, visited, head)
    requires head < |queue| ==> k <= ds[head]
    ensures Ball(ms, root, k) <= visited
    decreases k
  {
    if k > 0 {
      LevelComplete(ms, root, queue, ds, head, d, visited, k - 1);
      forall x, y | x in Ball(ms, root, k - 1) && y in Dependents(ms, x) ensures y in visited {
        ReachedIsProcessed(ms, root, queue, ds, head, d, visited, k - 1, x, y);
      }
    }
  }

  ghost predicate NoRepeats(q: seq<string>) {
    forall i, j :: 0 <= i < j < |q| ==> q[i] != q[j]
  }

  /** Disjoint from the root and the direct dependents, and free of repetitions. */
  ghost predicate Indirect(root: string, direct: seq<string>, indirect: seq<string>) {
    && NoRepeats(indirect)
    && (forall i :: 0 <= i < |indirect| ==> indirect[i] != root && indirect[i] !in direct)
  }

  /** Earlier entries are at least as close to the root. */
  ghost predicate ByDistance(ms: seq<Module>, root: string, q: seq<string>) {
    forall i, j, n: nat :: 0 <= i < j < |q| && q[j] in Ball(ms, root, n) ==> q[i] in Ball(ms, root, n)
  }

  function Ids(ms: seq<Module>): set<string> {
    set m | m in ms :: m.id
  }

  /** The entries of `next` that are not yet visited, each at its first occurrence. */
  function New(next: seq<string>, visited: set<string>): seq<string> {
    if next == [] then []
    else
      var init, id := New(next[..|next| - 1], visited), next[|next| - 1];
      if id in visited || id in init then init else init + [id]
  }

  lemma {:induction false} NewAre(next: seq<string>, visited: set<string>)
    ensures NoRepeats(New(next, visited))
    ensures forall x :: x in New(next, visited) <==> x in next && x !in visited
    decreases |next|
  {
    if next != [] {
      NewAre(next[..|next| - 1], visited);
      assert next == next[..|next| - 1] + [next[|next| - 1]];
    }
  }

  /** The inner loop: queue the dependents that are new. */
  method Expand(next: seq<string>, queue: seq<string>, indirect: seq<string>, visited: set<string>)
    returns (queue': seq<string>, indirect': seq<string>, visited': set<string>)
    ensures queue' == queue + New(next, visited)
    ensures indirect' == indirect + New(next, visited)
    ensures forall x :: x in visited' <==> x in visited || x in New(next, visited)
  {
    queue', indirect', visited' := queue, indirect, visited;
    for k := 0 to |next|
      invariant queue' == queue + New(next[..k], visited) && indirect' == indirect + New(next[..k], visited)
      invariant forall x :: x in visited' <==> x in visited || x in New(next[..k], visited)
    {
      var id := next[k];
      assert next[..k + 1][..k] == next[..k];
      if id !in visited' {
        indirect' := indirect' + [id];
        visited' := visited' + {id};
        queue' := queue' + [id];
      }
    }
    assert next[..|next|] == next;
  }

  /** A state of the walk. */
  datatype Walk = Walk(queue: seq<string>, indirect: seq<string>, visited: set<string>, head: nat)

  ghost predicate WalkOk(ms: seq<Module>, root: string, w: Walk, ds: seq<nat>, d: nat) {
    && w.head <= |w.queue| && w.queue == Dependents(ms, root) + w.indirect
    && Levels(ms, root, w.queue, ds, w.head, d) && Visits(root, w.queue, w.visited)
    && Processed(ms, root, w.queue, w.visited, w.head) && Indirect(root, Dependents(ms, root), w.indirect)
  }

  /** Moving to the next entry; its level becomes the level being read. */
  lemma LevelUp(ms: seq<Module>, root: string, w: Walk, ds: seq<nat>, d: nat)
    requires WalkOk(ms, root, w, ds, d) && w.head < |w.queue|
    ensures WalkOk(ms, root, w, ds, ds[w.head])
  {
  }

  lemma PushLevels(ms: seq<Module>, root: string, queue: seq<string>, ds: seq<nat>, head: nat, d: nat,
                   more: seq<string>)
    requires Levels(ms, root, queue, ds, head, d)
    requires forall i :: 0 <= i < |more| ==> AtDistance(ms, root, more[i], d + 1)
    ensures Levels(ms, root, queue + more, ds + seq(|more|, _ => d + 1), head, d)
  {
  }

  /** `v` is `w` after reading the entry at its head, whose dependents are `next`. */
  ghost predicate Reads(ms: seq<Module>, w: Walk, next: seq<string>, v: Walk) {
    && w.head < |w.queue| && next == Dependents(ms, w.queue[w.head])
    && v.queue == w.queue + New(next, w.visited) && v.indirect == w.indirect + New(next, w.visited)
    && v.head == w.head + 1
    && forall x :: x in v.visited <==> x in w.visited || x in New(next, w.visited)
  }

  lemma NewAtDistance(ms: seq<Module>, root: string, w: Walk, ds: seq<nat>, d: nat, next: seq<string>, i: nat)
    requires WalkOk(ms, root, w, ds, d) && w.head < |w.queue| && ds[w.head] == d
    requires next == Dependents(ms, w.queue[w.head]) && i < |New(next, w.visited)|
    ensures AtDistance(ms, root, New(next, w.visited)[i], d + 1)
  {
    NewAre(next, w.visited);
    LevelComplete(ms, root, w.queue, ds, w.head, d, w.visited, d);
    NextLevel(ms, root, w.queue, ds, w.head, d);
    assert New(next, w.visited)[i] in New(next, w.visited);
  }

  lemma StepLevels(ms: seq<Module>, root: string, w: Walk, ds: seq<nat>, d: nat, next: seq<string>, v: Walk)
    requires WalkOk(ms, root, w, ds, d) && Reads(ms, w, next, v) && ds[w.head] == d
    ensures Levels(ms, root, v.queue, ds + seq(|New(next, w.visited)|, _ => d + 1), v.head, d)
  {
    var n := New(next, w.visited);
    forall i | 0 <= i < |n| ensures AtDistance(ms, root, n[i], d + 1) {
      NewAtDistance(ms, root, w, ds, d, next, i);
    }
    PushLevels(ms, root, w.queue, ds, w.head, d, n);
  }

  lemma StepProcessed(ms: seq<Module>, root: string, w: Walk, next: seq<string>, v: Walk)
    requires Reads(ms, w, next, v) && Visits(root, w.queue, w.visited)
             && Processed(ms, root, w.queue, w.visited, w.head)
    ensures Visits(root, v.queue, v.visited) && Processed(ms, root, v.queue, v.visited, v.head)
  {
    NewAre(next, w.visited);
    forall i, y | 0 <= i < v.head && y in Dependents(ms, v.queue[i]) ensures y in v.visited {
      assert v.queue[i] == w.queue[i];
    }
  }

  /** Reading one entry keeps the walk in order. */
  lemma WalkStep(ms: seq<Module>, root: string, w: Walk, ds: seq<nat>, d: nat, next: seq<string>, v: Walk)
    requires WalkOk(ms, root, w, ds, d) && Reads(ms, w, next, v) && ds[w.head] == d
    ensures WalkOk(ms, root, v, ds + seq(|New(next, w.visited)|, _ => d + 1), d)
  {
    StepLevels(ms, root, w, ds, d, next, v);
    StepProcessed(ms, root, w, next, v);
    NewAre(next, w.visited);
    PushIndirect(root, Dependents(ms, root), w.indirect, w.queue, w.visited, New(next, w.visited));
  }

  lemma PushIndirect(root: string, direct: seq<string>, indirect: seq<string>, queue: seq<string>,
                     visited: set<string>, n: seq<string>)
    requires queue == direct + indirect && Visits(root, queue, visited) && Indirect(root, direct, indirect)
    requires NoRepeats(n) && forall x :: x in n ==> x !in visited
    ensures Indirect(root, direct, indirect + n)
  {
    assert forall i :: 0 <= i < |indirect| ==> indirect[i] == queue[|direct| + i];
    assert forall i :: 0 <= i < |direct| ==> direct[i] == queue[i];
    assert forall i :: 0 <= i < |n| ==> n[i] in n;
  }

  /** When the queue is exhausted, what was visited is exactly what can be reached. */
  lemma WalkEnd(ms: seq<Module>, root: string, w: Walk, ds: seq<nat>, d: nat, x: string)
    requires WalkOk(ms, root, w, ds, d) && w.head == |w.queue|
    ensures Reaches(ms, root, x) <==> x in w.visited
  {
    if Reaches(ms, root, x) {
      var n: nat :| x in Ball(ms, root, n);
      LevelComplete(ms, root, w.queue, ds, w.head, d, w.visited, n);
    }
    if x in w.visited && x != root {
      var i :| 0 <= i < |w.queue| && w.queue[i] == x;
      assert x in Ball(ms, root, ds[i]);
    }
    assert root in Ball(ms, root, 0);
  }

  /**
   The module, its direct and its indirect dependents are exactly what depends on it through any
   chain, cycles, self-dependencies and repeated entries included.  Direct dependents come as
   declared; indirect ones come once each, closest first.
   */
  method GetBlastRadius(ms: seq<Module>, root: string) returns (direct: seq<string>, indirect: seq<string>)
    ensures direct == Dependents(ms, root)
    ensures forall x :: Reaches(ms, root, x) <==> x == root || x in direct || x in indirect
    ensures Indirect(root, direct, indirect)
    ensures ByDistance(ms, root, indirect)
  {
    var index := BuildIndex(ms);
    direct := Lookup(index, root);
    indirect := [];
    var visited := {root} + set x | x in direct;
    var queue := direct;
    var head := 0;
    ghost var ds, d := seq(|direct|, _ => 1), 1;
    DirectLevel(ms, root, direct);
    while head < |queue|
      invariant WalkOk(ms, root, Walk(queue, indirect, visited, head), ds, d)
      decreases |Ids(ms) - visited|, |queue| - head
    {
      ghost var w := Walk(queue, indirect, visited, head);
      LevelUp(ms, root, w, ds, d);
      d := ds[head];
      var next := Lookup(index, queue[head]);
      NewAre(next, visited);
      queue, indirect, visited := Expand(next, queue, indirect, visited);
      head := head + 1;
      WalkStep(ms, root, w, ds, d, next, Walk(queue, indirect, visited, head));
      ds := ds + seq(|New(next, w.visited)|, _ => d + 1);
      WalkShrinks(ms, w, next, visited);
    }
    ghost var w := Walk(queue, indirect, visited, head);
    forall x ensures Reaches(ms, root, x) <==> x == root || x in direct || x in indirect {
      WalkEnd(ms, root, w, ds, d, x);
    }
    QueueByDistance(ms, root, direct, indirect, queue, ds, head, d);
  }

  /** Each iteration visits a new module of the table or shortens the unread part of the queue. */
  lemma WalkShrinks(ms: seq<Module>, w: Walk, next: seq<string>, visited: set<string>)
    requires w.head < |w.queue| && next == Dependents(ms, w.queue[w.head])
    requires forall x :: x in visited <==> x in w.visited || x in New(next, w.visited)
    ensures |Ids(ms) - visited| <= |Ids(ms) - w.visited|
    ensures New(next, w.visited) == [] || |Ids(ms) - visited| < |Ids(ms) - w.visited|
  {
    NewAre(next, w.visited);
    var n := New(next, w.visited);
    if n == [] {
      assert visited == w.visited;
    } else {
      assert n[0] in n;
      FewerLeft(ms, w.queue[w.head], w.visited, visited);
    }
  }

  /** The direct dependents, other than the module itself, are at distance one. */
  lemma DirectLevel(ms: seq<Module>, root: string, direct: seq<string>)
    requires direct == Dependents(ms, root)
    ensures Levels(ms, root, direct, seq(|direct|, _ => 1), 0, 1)
  {
    assert Ball(ms, root, 0) == {root};
    forall i | 0 <= i < |direct| && direct[i] != root ensures AtDistance(ms, root, direct[i], 1) {
      assert root in Ball(ms, root, 0) && direct[i] in Dependents(ms, root);
    }
  }

  /** What depends on the entry being read is at most one step further. */
  lemma NextLevel(ms: seq<Module>, root: string, queue: seq<string>, ds: seq<nat>, head: nat, d: nat)
    requires head < |queue| && |ds| == |queue| && ds[head] == d
    requires queue[head] == root || AtDistance(ms, root, queue[head], d)
    ensures forall id :: id in Dependents(ms, queue[head]) ==> id in Ball(ms, root, d + 1)
  {
    BallGrows(ms, root, 0, d);
    assert queue[head] in Ball(ms, root, d);
  }

  lemma FewerLeft(ms: seq<Module>, current: string, seen: set<string>, visited: set<string>)
    requires seen <= visited && seen != visited
    requires forall x :: x in visited && x !in seen ==> x in Dependents(ms, current)
    ensures |Ids(ms) - visited| < |Ids(ms) - seen|
  {
    var x :| x in visited && x !in seen;
    DependentsAre(ms, current);
    var m :| m in ms && m.id == x;
    assert x in Ids(ms) - seen;
    FewerElements(Ids(ms) - visited, Ids(ms) - seen, x);
  }

  lemma FewerElements(a: set<string>, b: set<string>, x: string)
    requires a <= b && x in b && x !in a
    ensures |a| < |b|
  {
    var rest := b - a - {x};
    assert b == a + {x} + rest;
  }

  lemma QueueByDistance(ms: seq<Module>, root: string, direct: seq<string>, indirect: seq<string>, queue: seq<string>,
                        ds: seq<nat>, head: nat, d: nat)
    requires queue == direct + indirect && Levels(ms, root, queue, ds, head, d) && Indirect(root, direct, indirect)
    ensures ByDistance(ms, root, indirect)
  {
    forall i, j, n: nat | 0 <= i < j < |indirect| && indirect[j] in Ball(ms, root, n)
      ensures indirect[i] in Ball(ms, root, n)
    {
      var a, b := |direct| + i, |direct| + j;
      assert queue[a] == indirect[i] && queue[b] == indirect[j];
      DistanceIsLeast(ms, root, queue[b], ds[b], n);
      DistanceIsLeast(ms, root, queue[a], ds[a], n);
    }
  }
}
