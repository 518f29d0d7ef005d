/**
 Which files change together: pair counting over a commit list, the predictor cap, and the rows the
 impact scorer reads.  Parsing of `git log` output is outside; a commit is its list of files.
 */
module CoChange {
  import opened Common
  import Scoring = ScoringModel

  // ---------------------------------------------------------------- keys

  /** Length of the part before the first bar. */
  function Bar(s: string): (n: nat)
    ensures n <= |s| && (n < |s| ==> s[n] == '|') && '|' !in s[..n]
  {
    if s == [] || s[0] == '|' then 0 else 1 + Bar(s[1..])
  }

  /** The first two parts of `key.split("|")`. */
  function Part0(key: string): string {
    key[..Bar(key)]
  }

  function Part1(key: string): string {
    if Bar(key) == |key| then "" else Part0(key[Bar(key) + 1..])
  }

  function KeyOf(x: string, y: string): string {
    if Less(x, y) then x + "|" + y else y + "|" + x
  }

  lemma {:induction false} BarOfJoin(a: string, rest: string)
    requires '|' !in a
    ensures Bar(a + "|" + rest) == |a|
    decreases |a|
  {
    if a != [] {
      assert (a + "|" + rest)[1..] == a[1..] + "|" + rest;
      assert '|' !in a[1..];
      assert a[0] in a;
      BarOfJoin(a[1..], rest);
    }
  }

  lemma {:induction false} BarOfFree(a: string)
    requires '|' !in a
    ensures Bar(a) == |a|
    decreases |a|
  {
    if a != [] {
      assert a[0] in a;
      BarOfFree(a[1..]);
    }
  }

  /** For names without a bar the key gives back the two names. */
  lemma SplitJoin(a: string, b: string)
    requires '|' !in a && '|' !in b
    ensures Part0(a + "|" + b) == a && Part1(a + "|" + b) == b
  {
    BarOfJoin(a, b);
    BarOfFree(b);
    assert (a + "|" + b)[|a| + 1..] == b;
  }

  lemma KeyNamesPair(x: string, y: string, a: string, b: string)
    requires '|' !in x && '|' !in y && '|' !in a && '|' !in b && a != b
    ensures KeyOf(x, y) == KeyOf(a, b) <==> (x == a && y == b) || (x == b && y == a)
  {
    SplitJoin(x, y);
    SplitJoin(y, x);
    SplitJoin(a, b);
    SplitJoin(b, a);
    LessTotal(x, y);
    LessTotal(a, b);
    if Less(x, y) {
      LessAsymmetric(x, y);
    }
    if Less(a, b) {
      LessAsymmetric(a, b);
    }
  }

  // ---------------------------------------------------------------- counting

  type Pairs = map<string, nat>

  function Get(m: Pairs, k: string): nat {
    if k in m then m[k] else 0
  }

  function Bump(m: Pairs, k: string, n: nat): Pairs {
    m[k := Get(m, k) + n]
  }

  function Eligible(files: seq<string>, denied: string -> bool): seq<string> {
    if files == [] then []
    else Eligible(files[..|files| - 1], denied) + if denied(files[|files| - 1]) then [] else [files[|files| - 1]]
  }

  /** A denied file is never paired; of the others none is lost or repeated. */
  lemma {:induction false} EligibleAre(files: seq<string>, denied: string -> bool)
    ensures multiset(Eligible(files, denied)) <= multiset(files)
    ensures forall x :: multiset(Eligible(files, denied))[x] == if denied(x) then 0 else multiset(files)[x]
    decreases |files|
  {
    if files != [] {
      var init, last := files[..|files| - 1], files[|files| - 1];
      assert files == init + [last];
      EligibleAre(init, denied);
    }
  }

  const MAX_FILES: nat := 200

  /** An empty commit and a sweep over more than 200 files are not counted at all. */
  predicate Counted(files: seq<string>) {
    0 < |files| <= MAX_FILES
  }

  /** Over all pairs i < j of a list: the sum of `w` of their keys. */
  function SumWith(x: string, rest: seq<string>, w: string -> nat): nat {
    if rest == [] then 0 else w(KeyOf(x, rest[0])) + SumWith(x, rest[1..], w)
  }

  function SumPairs(e: seq<string>, w: string -> nat): nat {
    if e == [] then 0 else SumWith(e[0], e[1..], w) + SumPairs(e[1..], w)
  }

  function SumCommits(commits: seq<seq<string>>, denied: string -> bool, w: string -> nat): nat {
    if commits == [] then 0
    else
      var c := commits[|commits| - 1];
      SumCommits(commits[..|commits| - 1], denied, w) + if Counted(c) then SumPairs(Eligible(c, denied), w) else 0
  }

  function CountedCommits(commits: seq<seq<string>>): nat {
    if commits == [] then 0
    else CountedCommits(commits[..|commits| - 1]) + if Counted(commits[|commits| - 1]) then 1 else 0
  }

  /** The sum of `w` over the keys of `m`, each as often as it was counted. */
  ghost function Weigh(m: Pairs, keys: set<string>, w: string -> nat): nat
    requires keys <= m.Keys
    decreases |keys|
  {
    if keys == {} then 0
    else
      var k :| k in keys;
      m[k] * w(k) + Weigh(m, keys - {k}, w)
  }

  lemma {:induction false} WeighPick(m: Pairs, keys: set<string>, w: string -> nat, k: string)
    requires keys <= m.Keys && k in keys
    ensures Weigh(m, keys, w) == m[k] * w(k) + Weigh(m, keys - {k}, w)
    decreases |keys|
  {
    var j :| j in keys && Weigh(m, keys, w) == m[j] * w(j) + Weigh(m, keys - {j}, w);
    if j != k {
      WeighPick(m, keys - {j}, w, k);
      WeighPick(m, keys - {k}, w, j);
      assert keys - {j} - {k} == keys - {k} - {j};
    }
  }

  lemma {:induction false} WeighSame(m: Pairs, n: Pairs, keys: set<string>, w: string -> nat)
    requires keys <= m.Keys && keys <= n.Keys && forall k :: k in keys ==> m[k] == n[k]
    ensures Weigh(m, keys, w) == Weigh(n, keys, w)
    decreases |keys|
  {
    if keys != {} {
      var k :| k in keys;
      WeighPick(m, keys, w, k);
      WeighPick(n, keys, w, k);
      WeighSame(m, n, keys - {k}, w);
    }
  }

  lemma OneMore(n: nat, w: nat)
    ensures (n + 1) * w == n * w + w
  {
  }

  /** Counting one more pair adds the weight of its key. */
  lemma WeighBump(m: Pairs, k: string, w: string -> nat)
    ensures Weigh(Bump(m, k, 1), Bump(m, k, 1).Keys, w) == Weigh(m, m.Keys, w) + w(k)
  {
    var n := Bump(m, k, 1);
    WeighPick(n, n.Keys, w, k);
    WeighSame(m, n, m.Keys - {k}, w);
    if k in m {
      WeighPick(m, m.Keys, w, k);
      assert n.Keys - {k} == m.Keys - {k};
      OneMore(m[k], w(k));
    } else {
      assert n.Keys - {k} == m.Keys && m.Keys - {k} == m.Keys;
      OneMore(0, w(k));
    }
  }

  ghost function Total(m: Pairs, w: string -> nat): nat {
    Weigh(m, m.Keys, w)
  }

  /** The nested loop over the eligible files of one commit. */
  method CountCommit(before: Pairs, e: seq<string>) returns (pairs: Pairs)
    ensures forall w :: Total(pairs, w) == Total(before, w) + SumPairs(e, w)
  {
    pairs := before;
    for i := 0 to |e|
      invariant forall w :: Total(pairs, w) + SumPairs(e[i..], w) == Total(before, w) + SumPairs(e, w)
    {
      pairs := CountRow(pairs, e[i], e[i + 1..]);
      assert e[i..][0] == e[i] && e[i..][1..] == e[i + 1..];
    }
  }

  method CountRow(before: Pairs, x: string, rest: seq<string>) returns (pairs: Pairs)
    ensures forall w :: Total(pairs, w) == Total(before, w) + SumWith(x, rest, w)
  {
    pairs := before;
    for j := 0 to |rest|
      invariant forall w :: Total(pairs, w) + SumWith(x, rest[j..], w) == Total(before, w) + SumWith(x, rest, w)
    {
      var key := KeyOf(x, rest[j]);
      assert rest[j..][0] == rest[j] && rest[j..][1..] == rest[j + 1..];
      forall w ensures Total(Bump(pairs, key, 1), w) == Total(pairs, w) + w(key) {
        WeighBump(pairs, key, w);
      }
      pairs := Bump(pairs, key, 1);
    }
  }

  lemma {:induction false} CountedCommitsAre(commits: seq<seq<string>>)
    ensures CountedCommits(commits) == |CountedPlaces(commits)|
    decreases |commits|
  {
    if commits == [] {
      assert CountedPlaces(commits) == {};
    } else {
      var n := |commits| - 1;
      CountedCommitsAre(commits[..n]);
      if 1 <= |commits[n]| <= 200 {
        assert CountedPlaces(commits) == CountedPlaces(commits[..n]) + {n};
      } else {
        assert CountedPlaces(commits) == CountedPlaces(commits[..n]);
      }
    }
  }

  ghost function CountedPlaces(commits: seq<seq<string>>): set<int> {
    set i | 0 <= i < |commits| && 1 <= |commits[i]| <= 200
  }

  /** The counting half of the log parser: pairs per key, and the number of commits counted. */
  method CountPairs(commits: seq<seq<string>>, denied: string -> bool) returns (pairs: Pairs, total: nat)
    ensures forall w :: Total(pairs, w) == SumCommits(commits, denied, w)
    ensures total == CountedCommits(commits) == |set i | 0 <= i < |commits| && 1 <= |commits[i]| <= 200|
  {
    CountedCommitsAre(commits);
    pairs, total := map[], 0;
    for i := 0 to |commits|
      invariant forall w :: Total(pairs, w) == SumCommits(commits[..i], denied, w)
      invariant total == CountedCommits(commits[..i])
    {
      assert commits[..i + 1][..i] == commits[..i];
      if 0 < |commits[i]| <= MAX_FILES {
        pairs := CountCommit(pairs, Eligible(commits[i], denied));
        total := total + 1;
      }
    }
    assert commits[..|commits|] == commits;
  }

  // ---------------------------------------------------------------- what a count means

  function Is(k: string): string -> nat {
    x => if x == k then 1 else 0
  }

  lemma {:induction false} WeighIs(m: Pairs, keys: set<string>, k: string)
    requires keys <= m.Keys
    ensures Weigh(m, keys, Is(k)) == if k in keys then m[k] else 0
    decreases |keys|
  {
    if keys != {} {
      var j :| j in keys;
      WeighPick(m, keys, Is(k), j);
      WeighIs(m, keys - {j}, k);
    }
  }

  /** How often a list names a file. */
  function Times(x: string, files: seq<string>): nat {
    if files == [] then 0 else Bit(files[0] == x) + Times(x, files[1..])
  }

  predicate IsPair(x: string, y: string, a: string, b: string) {
    (x == a && y == b) || (x == b && y == a)
  }

  /** 1 when the pair shares the key of (a, b) without being that pair. */
  function Stray(x: string, y: string, a: string, b: string): nat {
    if KeyOf(x, y) == KeyOf(a, b) && !IsPair(x, y, a, b) then 1 else 0
  }

  function StraysWith(x: string, rest: seq<string>, a: string, b: string): nat {
    if rest == [] then 0 else Stray(x, rest[0], a, b) + StraysWith(x, rest[1..], a, b)
  }

  function StraysIn(e: seq<string>, a: string, b: string): nat {
    if e == [] then 0 else StraysWith(e[0], e[1..], a, b) + StraysIn(e[1..], a, b)
  }

  lemma KeyOfIsSymmetric(x: string, y: string)
    ensures KeyOf(x, y) == KeyOf(y, x)
  {
    LessTotal(x, y);
    if Less(x, y) {
      LessAsymmetric(x, y);
    }
  }

  lemma {:induction false} RowHits(x: string, rest: seq<string>, a: string, b: string)
    requires a != b
    ensures SumWith(x, rest, Is(KeyOf(a, b))) ==
            (if x == a then Times(b, rest) else 0) + (if x == b then Times(a, rest) else 0) + StraysWith(x, rest, a, b)
    decreases |rest|
  {
    if rest != [] {
      KeyOfIsSymmetric(a, b);
      RowHits(x, rest[1..], a, b);
    }
  }

  function Bit(c: bool): nat {
    if c then 1 else 0
  }

  lemma PickBoth(isA: bool, isB: bool, s: nat, t: nat)
    requires !(isA && isB)
    ensures (Bit(isA) + s) * (Bit(isB) + t) == (if isA then t else 0) + (if isB then s else 0) + s * t
  {
    if isA {
      OneMore(s, t);
    } else if isB {
      OneMore(t, s);
    }
  }

  lemma {:induction false} CommitHits(e: seq<string>, a: string, b: string)
    requires a != b
    ensures SumPairs(e, Is(KeyOf(a, b))) == Times(a, e) * Times(b, e) + StraysIn(e, a, b)
    decreases |e|
  {
    if e != [] {
      RowHits(e[0], e[1..], a, b);
      CommitHits(e[1..], a, b);
      PickBoth(e[0] == a, e[0] == b, Times(a, e[1..]), Times(b, e[1..]));
    }
  }

  /** Over the counted commits, the ways to pick both files: 1 per commit that lists each of them once. */
  function Together(commits: seq<seq<string>>, denied: string -> bool, a: string, b: string): nat {
    if commits == [] then 0
    else
      var e := Eligible(commits[|commits| - 1], denied);
      Together(commits[..|commits| - 1], denied, a, b)
      + if Counted(commits[|commits| - 1]) then Times(a, e) * Times(b, e) else 0
  }

  /** Over the counted commits, the other pairs that share the key. */
  function Strays(commits: seq<seq<string>>, denied: string -> bool, a: string, b: string): nat {
    if commits == [] then 0
    else
      Strays(commits[..|commits| - 1], denied, a, b)
      + if Counted(commits[|commits| - 1]) then StraysIn(Eligible(commits[|commits| - 1], denied), a, b) else 0
  }

  lemma {:induction false} CommitsHits(commits: seq<seq<string>>, denied: string -> bool, a: string, b: string)
    requires a != b
    ensures SumCommits(commits, denied, Is(KeyOf(a, b))) ==
            Together(commits, denied, a, b) + Strays(commits, denied, a, b)
    decreases |commits|
  {
    if commits != [] {
      CommitsHits(commits[..|commits| - 1], denied, a, b);
      CommitHits(Eligible(commits[|commits| - 1], denied), a, b);
    }
  }

  /**
   A pair's count is the number of counted commits that contain both files, plus the pairs that
   merely share its key; so it is that number if and only if there are none of those.
   */
  lemma PairCountIsCommitCount(commits: seq<seq<string>>, denied: string -> bool, pairs: Pairs, a: string, b: string)
    requires a != b && forall w :: Total(pairs, w) == SumCommits(commits, denied, w)
    ensures Get(pairs, KeyOf(a, b)) == Together(commits, denied, a, b) + Strays(commits, denied, a, b)
  {
    WeighIs(pairs, pairs.Keys, KeyOf(a, b));
    CommitsHits(commits, denied, a, b);
    assert Total(pairs, Is(KeyOf(a, b))) == SumCommits(commits, denied, Is(KeyOf(a, b)));
  }

  ghost predicate NoBars(files: seq<string>) {
    forall i :: 0 <= i < |files| ==> '|' !in files[i]
  }

  /** No bar in any name that is paired with another. */
  ghost predicate AllNoBars(commits: seq<seq<string>>, denied: string -> bool) {
    forall i :: 0 <= i < |commits| && Counted(commits[i]) ==> NoBars(Eligible(commits[i], denied))
  }

  lemma {:induction false} NoStraysWith(x: string, rest: seq<string>, a: string, b: string)
    requires '|' !in x && NoBars(rest) && a != b && '|' !in a && '|' !in b
    ensures StraysWith(x, rest, a, b) == 0
    decreases |rest|
  {
    if rest != [] {
      KeyNamesPair(x, rest[0], a, b);
      NoStraysWith(x, rest[1..], a, b);
    }
  }

  lemma {:induction false} NoStraysIn(e: seq<string>, a: string, b: string)
    requires NoBars(e) && a != b && '|' !in a && '|' !in b
    ensures StraysIn(e, a, b) == 0
    decreases |e|
  {
    if e != [] {
      NoStraysWith(e[0], e[1..], a, b);
      NoStraysIn(e[1..], a, b);
    }
  }

  /** Without bars in names no other pair shares a key. */
  lemma {:induction false} NoBarsNoStrays(commits: seq<seq<string>>, denied: string -> bool, a: string, b: string)
    requires AllNoBars(commits, denied) && a != b && '|' !in a && '|' !in b
    ensures Strays(commits, denied, a, b) == 0
    decreases |commits|
  {
    if commits != [] {
      NoBarsNoStrays(commits[..|commits| - 1], denied, a, b);
      if Counted(commits[|commits| - 1]) {
        NoStraysIn(Eligible(commits[|commits| - 1], denied), a, b);
      }
    }
  }

  // ---------------------------------------------------------------- the predictor cap

  /** How often file `f` occurs in a key. */
  function Occurs(f: string): string -> nat {
    k => (if Part0(k) == f then 1 else 0) + if Part1(k) == f then 1 else 0
  }

  lemma BumpBoth(files: Pairs, key: string, n: nat, f: string)
    ensures Get(Bump(Bump(files, Part0(key), n), Part1(key), n), f) == Get(files, f) + n * Occurs(f)(key)
  {
    var o := Occurs(f)(key);
    assert o == 0 || o == 1 || o == 2;
    assert n * 0 == 0 && n * 1 == n && n * 2 == n + n;
  }

  lemma WeighNext(pairs: Pairs, todo: set<string>, key: string, w: string -> nat)
    requires todo <= pairs.Keys && key in todo
    ensures Weigh(pairs, pairs.Keys - (todo - {key}), w) == pairs[key] * w(key) + Weigh(pairs, pairs.Keys - todo, w)
  {
    WeighPick(pairs, pairs.Keys - (todo - {key}), w, key);
    assert pairs.Keys - (todo - {key}) - {key} == pairs.Keys - todo;
  }

  /** The per-file counts: each pair's count goes to both of its files. */
  method CountFiles(pairs: Pairs) returns (files: Pairs)
    ensures forall f :: Get(files, f) == Total(pairs, Occurs(f))
  {
    files := map[];
    var todo := pairs.Keys;
    while todo != {}
      invariant todo <= pairs.Keys
      invariant forall f :: Get(files, f) == Weigh(pairs, pairs.Keys - todo, Occurs(f))
      decreases |todo|
    {
      var key :| key in todo;
      var more := Bump(Bump(files, Part0(key), pairs[key]), Part1(key), pairs[key]);
      forall f ensures Get(more, f) == Weigh(pairs, pairs.Keys - (todo - {key}), Occurs(f)) {
        BumpBoth(files, key, pairs[key], f);
        WeighNext(pairs, todo, key, Occurs(f));
      }
      files, todo := more, todo - {key};
    }
    assert pairs.Keys - todo == pairs.Keys;
  }

  /** `count / total > 0.4`, as an exact comparison. */
  predicate OverCap(count: nat, total: nat) {
    total > 0 && 5 * count > 2 * total
  }

  datatype Row = Row(fileA: string, fileB: string, count: nat, total: nat)

  /** A row of the index comes from a counted pair both of whose files are under the cap. */
  ghost predicate FromPair(pairs: Pairs, total: nat, norm: string -> string, key: string, r: Row) {
    && key in pairs && r.count == pairs[key] && r.total == total
    && !OverCap(Total(pairs, Occurs(Part0(key))), total) && !OverCap(Total(pairs, Occurs(Part1(key))), total)
    && ((r.fileA == norm(Part0(key)) && r.fileB == norm(Part1(key)))
        || (r.fileA == norm(Part1(key)) && r.fileB == norm(Part0(key))))
    && Less(r.fileA, r.fileB)
  }

  /** What one pair contributes: at most one row, its files in name order. */
  method RowsOf(pairs: Pairs, total: nat, norm: string -> string, key: string, promiscuous: set<string>)
    returns (rows: set<Row>)
    requires key in pairs && forall f :: f in promiscuous <==> OverCap(Total(pairs, Occurs(f)), total)
    ensures forall r :: r in rows <==> FromPair(pairs, total, norm, key, r)
  {
    rows := {};
    var a, b := Part0(key), Part1(key);
    if a !in promiscuous && b !in promiscuous {
      var na, nb := norm(a), norm(b);
      if Less(na, nb) {
        rows := {Row(na, nb, pairs[key], total)};
        LessAsymmetric(na, nb);
      } else if Less(nb, na) {
        rows := {Row(nb, na, pairs[key], total)};
      }
    }
  }

  /** The files over the cap. */
  method Promiscuous(pairs: Pairs, total: nat) returns (promiscuous: set<string>)
    ensures forall f :: f in promiscuous <==> OverCap(Total(pairs, Occurs(f)), total)
  {
    var files := CountFiles(pairs);
    promiscuous := set f | f in files && OverCap(files[f], total);
    forall f ensures f in promiscuous <==> OverCap(Total(pairs, Occurs(f)), total) {
      assert Get(files, f) == Total(pairs, Occurs(f));
    }
  }

  /** The cap and the insert loop; `norm` is the path normalisation. */
  method BuildRows(pairs: Pairs, total: nat, norm: string -> string) returns (rows: set<Row>)
    ensures forall r :: r in rows <==> exists key :: FromPair(pairs, total, norm, key, r)
  {
    var promiscuous := Promiscuous(pairs, total);
    rows := {};
    var todo := pairs.Keys;
    while todo != {}
      invariant todo <= pairs.Keys
      invariant forall r :: r in rows <==> exists key :: key !in todo && FromPair(pairs, total, norm, key, r)
      decreases |todo|
    {
      var key :| key in todo;
      todo := todo - {key};
      var more := RowsOf(pairs, total, norm, key, promiscuous);
      rows := rows + more;
    }
  }

  /**
   Which pairs have a row: those with both files under the cap and different normalised names; and the
   row is the pair in name order, with its count and the number of commits.
   */
  lemma PairHasRowIff(pairs: Pairs, total: nat, norm: string -> string, a: string, b: string)
    requires BarFree(a) && BarFree(b) && KeyOf(a, b) in pairs
    ensures var x, y := norm(a), norm(b);
            && ((exists r :: FromPair(pairs, total, norm, KeyOf(a, b), r)) <==>
                  !OverCap(Total(pairs, Occurs(a)), total) && !OverCap(Total(pairs, Occurs(b)), total) && x != y)
            && forall r :: FromPair(pairs, total, norm, KeyOf(a, b), r) ==>
                 r == Row(if Less(x, y) then x else y, if Less(x, y) then y else x, pairs[KeyOf(a, b)], total)
  {
    var x, y := norm(a), norm(b);
    SplitJoin(a, b);
    SplitJoin(b, a);
    LessTotal(x, y);
    LessIrreflexive(x);
    if Less(x, y) {
      LessAsymmetric(x, y);
    }
    var r := Row(if Less(x, y) then x else y, if Less(x, y) then y else x, pairs[KeyOf(a, b)], total);
    if !OverCap(Total(pairs, Occurs(a)), total) && !OverCap(Total(pairs, Occurs(b)), total) && x != y {
      assert FromPair(pairs, total, norm, KeyOf(a, b), r);
    }
  }

  /** The rows the scorer reads for an organisation are built ones. */
  ghost predicate Built(pairs: Pairs, total: nat, norm: string -> string, stored: seq<Scoring.CoRow>) {
    forall c :: c in stored ==> exists key :: FromPair(pairs, total, norm, key, Row(c.fileA, c.fileB, c.count, c.total))
  }

  /** The names of a built row are parts of a split key, so they hold no bar, whatever the repository's names. */
  lemma BuiltRowsAreBarFree(pairs: Pairs, total: nat, norm: string -> string, stored: seq<Scoring.CoRow>)
    requires Built(pairs, total, norm, stored) && forall x :: BarFree(x) ==> BarFree(norm(x))
    ensures Scoring.BarFreeRows(stored)
  {
    forall c | c in stored ensures BarFree(c.fileA) && BarFree(c.fileB) {
      var key :| FromPair(pairs, total, norm, key, Row(c.fileA, c.fileB, c.count, c.total));
      assert BarFree(Part0(key)) && BarFree(Part1(key));
    }
  }

  lemma WeighAtLeast(m: Pairs, k: string, w: string -> nat)
    requires k in m && w(k) >= 1
    ensures Total(m, w) >= m[k]
  {
    WeighPick(m, m.Keys, w, k);
    ProductAtLeast(m[k], w(k));
  }

  lemma {:induction false} ProductAtLeast(n: nat, w: nat)
    requires w >= 1
    ensures n * w >= n
  {
    if n > 0 {
      ProductAtLeast(n - 1, w);
      OneMore(n - 1, w);
    }
  }

  /** Every row that survives the cap: the pair was seen in at most two fifths of the commits. */
  lemma SurvivorsAreRare(pairs: Pairs, total: nat, norm: string -> string, key: string, r: Row)
    requires FromPair(pairs, total, norm, key, r) && total > 0
    ensures 5 * r.count <= 2 * r.total
  {
    WeighAtLeast(pairs, key, Occurs(Part0(key)));
  }

  lemma {:induction false} NoCommitsNoPairs(commits: seq<seq<string>>, denied: string -> bool, w: string -> nat)
    requires CountedCommits(commits) == 0
    ensures SumCommits(commits, denied, w) == 0
    decreases |commits|
  {
    if commits != [] {
      NoCommitsNoPairs(commits[..|commits| - 1], denied, w);
    }
  }

  /** On an index built from commits, whatever their names, Layer 4 scores 0 or 40 and never 60. */
  lemma SixtyIsUnreachable(commits: seq<seq<string>>, denied: string -> bool, pairs: Pairs, norm: string -> string,
                           key: string, r: Row)
    requires forall w :: Total(pairs, w) == SumCommits(commits, denied, w)
    requires FromPair(pairs, CountedCommits(commits), norm, key, r)
    ensures Scoring.CoScore(r.count, r.total) == 0 || Scoring.CoScore(r.count, r.total) == 40
  {
    var total := CountedCommits(commits);
    if total == 0 {
      NoCommitsNoPairs(commits, denied, Occurs(Part0(key)));
      assert Total(pairs, Occurs(Part0(key))) == 0;
      WeighAtLeast(pairs, key, Occurs(Part0(key)));
    } else {
      SurvivorsAreRare(pairs, total, norm, key, r);
    }
  }

  // ---------------------------------------------------------------- what the cap measures

  lemma OccursInKey(x: string, y: string, f: string)
    requires '|' !in x && '|' !in y
    ensures Occurs(f)(KeyOf(x, y)) == (if x == f then 1 else 0) + if y == f then 1 else 0
  {
    SplitJoin(x, y);
    SplitJoin(y, x);
  }

  /** By how much the split key of a pair misstates how often it names `f`; 0 for names without a bar. */
  function Misread(x: string, y: string, f: string): int {
    Occurs(f)(KeyOf(x, y)) - Bit(x == f) - Bit(y == f)
  }

  function MisreadWith(x: string, rest: seq<string>, f: string): int {
    if rest == [] then 0 else Misread(x, rest[0], f) + MisreadWith(x, rest[1..], f)
  }

  function MisreadIn(e: seq<string>, f: string): int {
    if e == [] then 0 else MisreadWith(e[0], e[1..], f) + MisreadIn(e[1..], f)
  }

  function Misreads(commits: seq<seq<string>>, denied: string -> bool, f: string): int {
    if commits == [] then 0
    else
      Misreads(commits[..|commits| - 1], denied, f)
      + if Counted(commits[|commits| - 1]) then MisreadIn(Eligible(commits[|commits| - 1], denied), f) else 0
  }

  lemma {:induction false} NoMisreadWith(x: string, rest: seq<string>, f: string)
    requires '|' !in x && NoBars(rest)
    ensures MisreadWith(x, rest, f) == 0
    decreases |rest|
  {
    if rest != [] {
      OccursInKey(x, rest[0], f);
      NoMisreadWith(x, rest[1..], f);
    }
  }

  lemma {:induction false} NoMisreadIn(e: seq<string>, f: string)
    requires NoBars(e)
    ensures MisreadIn(e, f) == 0
    decreases |e|
  {
    if e != [] {
      NoMisreadWith(e[0], e[1..], f);
      NoMisreadIn(e[1..], f);
    }
  }

  /** Without bars in the names that are paired, every split key names its two files. */
  lemma {:induction false} NoBarsNoMisreads(commits: seq<seq<string>>, denied: string -> bool, f: string)
    requires AllNoBars(commits, denied)
    ensures Misreads(commits, denied, f) == 0
    decreases |commits|
  {
    if commits != [] {
      NoBarsNoMisreads(commits[..|commits| - 1], denied, f);
      if Counted(commits[|commits| - 1]) {
        NoMisreadIn(Eligible(commits[|commits| - 1], denied), f);
      }
    }
  }

  lemma {:induction false} RowDegree(x: string, rest: seq<string>, f: string)
    ensures SumWith(x, rest, Occurs(f)) == (if x == f then |rest| else 0) + Times(f, rest) + MisreadWith(x, rest, f)
    decreases |rest|
  {
    if rest != [] {
      RowDegree(x, rest[1..], f);
    }
  }

  lemma Degrees(isF: bool, t: nat, n: nat)
    requires n > 0
    ensures (Bit(isF) + t) * n == (if isF then n else 0) + t + t * (n - 1)
  {
    OneMore(n - 1, t);
    if isF {
      OneMore(t, n);
    }
  }

  lemma {:induction false} CommitDegree(e: seq<string>, f: string)
    ensures e != [] ==> SumPairs(e, Occurs(f)) == Times(f, e) * (|e| - 1) + MisreadIn(e, f)
    decreases |e|
  {
    if |e| > 1 {
      var rest := e[1..];
      RowDegree(e[0], rest, f);
      CommitDegree(rest, f);
      Degrees(e[0] == f, Times(f, rest), |rest|);
    } else if |e| == 1 {
      assert e[1..] == [];
    }
  }

  /** The companions of `f`: over the counted commits, the other eligible files, once per time `f` is listed. */
  function Companions(commits: seq<seq<string>>, denied: string -> bool, f: string): int {
    if commits == [] then 0
    else
      var e := Eligible(commits[|commits| - 1], denied);
      Companions(commits[..|commits| - 1], denied, f)
      + if Counted(commits[|commits| - 1]) then Times(f, e) * (|e| - 1) else 0
  }

  lemma {:induction false} CommitsDegree(commits: seq<seq<string>>, denied: string -> bool, f: string)
    ensures SumCommits(commits, denied, Occurs(f)) == Companions(commits, denied, f) + Misreads(commits, denied, f)
    decreases |commits|
  {
    if commits != [] {
      CommitsDegree(commits[..|commits| - 1], denied, f);
      CommitDegree(Eligible(commits[|commits| - 1], denied), f);
    }
  }

  /**
   What the cap measures, whatever the names: a file is excluded exactly when its companions, added up
   over its commits, exceed two fifths of the commits, the misread keys counted in.
   */
  lemma CapCountsCompanions(commits: seq<seq<string>>, denied: string -> bool, pairs: Pairs, f: string)
    requires forall w :: Total(pairs, w) == SumCommits(commits, denied, w)
    ensures Total(pairs, Occurs(f)) == Companions(commits, denied, f) + Misreads(commits, denied, f)
    ensures OverCap(Total(pairs, Occurs(f)), CountedCommits(commits)) <==>
            5 * (Companions(commits, denied, f) + Misreads(commits, denied, f)) > 2 * CountedCommits(commits)
  {
    CommitsDegree(commits, denied, f);
    assert Total(pairs, Occurs(f)) == SumCommits(commits, denied, Occurs(f));
    if CountedCommits(commits) == 0 {
      NoCommitsNoPairs(commits, denied, Occurs(f));
    }
  }

  // ---------------------------------------------------------------- what the cap is documented to measure

  /** The counted commits that contain the file. */
  function CommitsWith(commits: seq<seq<string>>, denied: string -> bool, f: string): nat {
    if commits == [] then 0
    else
      CommitsWith(commits[..|commits| - 1], denied, f)
      + Bit(Counted(commits[|commits| - 1]) && Times(f, Eligible(commits[|commits| - 1], denied)) > 0)
  }

  /** Those in which it is the only eligible file. */
  function CommitsAlone(commits: seq<seq<string>>, denied: string -> bool, f: string): nat {
    if commits == [] then 0
    else
      var e := Eligible(commits[|commits| - 1], denied);
      CommitsAlone(commits[..|commits| - 1], denied, f)
      + Bit(Counted(commits[|commits| - 1]) && Times(f, e) > 0 && |e| == 1)
  }

  /** Its companions beyond the first, over the other commits. */
  function Surplus(commits: seq<seq<string>>, denied: string -> bool, f: string): nat {
    if commits == [] then 0
    else
      var e := Eligible(commits[|commits| - 1], denied);
      Surplus(commits[..|commits| - 1], denied, f)
      + if Counted(commits[|commits| - 1]) then SurplusIn(Times(f, e), |e|) else 0
  }

  function SurplusIn(times: nat, size: nat): nat {
    if times > 0 && size > 1 then (times - 1) * (size - 1) + (size - 2) else 0
  }

  lemma CommitSurplus(times: nat, size: nat)
    requires times <= size
    ensures times * (size - 1) == Bit(times > 0) + SurplusIn(times, size) - Bit(times > 0 && size == 1)
  {
    if times > 0 && size > 1 {
      OneMore(times - 1, size - 1);
    }
  }

  lemma {:induction false} TimesAtMost(f: string, e: seq<string>)
    ensures Times(f, e) <= |e|
    decreases |e|
  {
    if e != [] {
      TimesAtMost(f, e[1..]);
    }
  }

  /** Companions against commits: one each, more with further companions, none where the file is alone. */
  lemma {:induction false} CompanionsVersusCommits(commits: seq<seq<string>>, denied: string -> bool, f: string)
    ensures Companions(commits, denied, f) ==
            CommitsWith(commits, denied, f) + Surplus(commits, denied, f) - CommitsAlone(commits, denied, f)
    decreases |commits|
  {
    if commits != [] {
      var e := Eligible(commits[|commits| - 1], denied);
      CompanionsVersusCommits(commits[..|commits| - 1], denied, f);
      TimesAtMost(f, e);
      CommitSurplus(Times(f, e), |e|);
    }
  }

  /**
   The cap against its documentation, a share of commits.  The two agree on a file if and only if the
   surplus, the commits it is alone in and the misread keys do not together carry the count across two
   fifths of the commits.
   */
  lemma CapAgreesWithDocumentation(commits: seq<seq<string>>, denied: string -> bool, pairs: Pairs, f: string)
    requires forall w :: Total(pairs, w) == SumCommits(commits, denied, w)
    ensures var total, with := CountedCommits(commits), CommitsWith(commits, denied, f);
            var shift := Surplus(commits, denied, f) - CommitsAlone(commits, denied, f) + Misreads(commits, denied, f);
            && Total(pairs, Occurs(f)) == with + shift
            && ((OverCap(Total(pairs, Occurs(f)), total) <==> OverCap(with, total)) <==>
                !(5 * with <= 2 * total < 5 * (with + shift)) && !(5 * (with + shift) <= 2 * total < 5 * with))
  {
    CapCountsCompanions(commits, denied, pairs, f);
    CompanionsVersusCommits(commits, denied, f);
    CommitsWithAtMost(commits, denied, f);
  }

  lemma {:induction false} CommitsWithAtMost(commits: seq<seq<string>>, denied: string -> bool, f: string)
    ensures CommitsWith(commits, denied, f) <= CountedCommits(commits)
    decreases |commits|
  {
    if commits != [] {
      CommitsWithAtMost(commits[..|commits| - 1], denied, f);
    }
  }

  lemma {:induction false} WeighNothing(m: Pairs, keys: set<string>, w: string -> nat)
    requires keys <= m.Keys && forall k :: w(k) == 0
    ensures Weigh(m, keys, w) == 0
    decreases |keys|
  {
    if keys != {} {
      var k :| k in keys;
      WeighPick(m, keys, w, k);
      WeighNothing(m, keys - {k}, w);
    }
  }

  /** A file with a bar in its name escapes the cap altogether: no part of a split key is its name. */
  lemma BarredNeverExcluded(pairs: Pairs, f: string, total: nat)
    requires '|' in f
    ensures !OverCap(Total(pairs, Occurs(f)), total)
  {
    forall k ensures Occurs(f)(k) == 0 {
      assert '|' !in Part0(k) && '|' !in Part1(k);
    }
    WeighNothing(pairs, pairs.Keys, Occurs(f));
  }

  /** A file in one of three commits, which is under the cap, is excluded for changing along with two others. */
  lemma RareFileExcluded(denied: string -> bool, pairs: Pairs, a: string, b: string, c: string, d: string)
    requires forall x :: !denied(x)
    requires NoBars([a, b, c]) && a != b && a != c && a != d
    requires forall w :: Total(pairs, w) == SumCommits([[a, b, c], [d], [d]], denied, w)
    ensures var commits := [[a, b, c], [d], [d]];
            && CommitsWith(commits, denied, a) == 1 && CountedCommits(commits) == 3 && !OverCap(1, 3)
            && OverCap(Total(pairs, Occurs(a)), CountedCommits(commits))
  {
    var e, l := [a, b, c], [d];
    NothingDenied(e, denied);
    NothingDenied(l, denied);
    NamedOnce(a, b, c);
    NamedAlone(a, d);
    NoMisreadIn(e, a);
    OneOfThree(e, l, denied, a);
    CapCountsCompanions([e, l, l], denied, pairs, a);
  }

  lemma OneOfThree(e: seq<string>, l: seq<string>, denied: string -> bool, f: string)
    requires |e| == 3 && Eligible(e, denied) == e && Times(f, e) == 1 && MisreadIn(e, f) == 0
    requires |l| == 1 && Eligible(l, denied) == l && Times(f, l) == 0 && MisreadIn(l, f) == 0
    ensures var commits := [e, l, l];
            && CountedCommits(commits) == 3 && CommitsWith(commits, denied, f) == 1
            && Companions(commits, denied, f) == 2 && Misreads(commits, denied, f) == 0
  {
    NextCommit([], e, denied, f);
    assert [] + [e] == [e];
    NextCommit([e], l, denied, f);
    assert [e] + [l] == [e, l];
    NextCommit([e, l], l, denied, f);
    assert [e, l] + [l] == [e, l, l];
  }

  /** What one more counted commit adds. */
  lemma NextCommit(commits: seq<seq<string>>, c: seq<string>, denied: string -> bool, f: string)
    requires Counted(c) && Eligible(c, denied) == c
    ensures CountedCommits(commits + [c]) == CountedCommits(commits) + 1
    ensures CommitsWith(commits + [c], denied, f) == CommitsWith(commits, denied, f) + Bit(Times(f, c) > 0)
    ensures Companions(commits + [c], denied, f) == Companions(commits, denied, f) + Times(f, c) * (|c| - 1)
    ensures Misreads(commits + [c], denied, f) == Misreads(commits, denied, f) + MisreadIn(c, f)
  {
    assert (commits + [c])[..|commits|] == commits;
  }

  lemma NamedOnce(a: string, b: string, c: string)
    requires a != b && a != c
    ensures Times(a, [a, b, c]) == 1
  {
    assert [a, b, c][1..] == [b, c] && [b, c][1..] == [c] && [c][1..] == [];
    assert Times(a, [c]) == 0;
    assert Times(a, [b, c]) == 0;
  }

  lemma NamedAlone(a: string, d: string)
    ensures Times(a, [d]) == Bit(a == d) && MisreadIn([d], a) == 0 && SumPairs([d], Occurs(a)) == 0
  {
    assert [d][1..] == [];
    assert Times(a, []) == 0 && MisreadWith(d, [], a) == 0 && MisreadIn([], a) == 0;
    assert SumWith(d, [], Occurs(a)) == 0 && SumPairs([], Occurs(a)) == 0;
  }

  /** A file in every commit is kept when it always changes alone. */
  lemma {:induction false} LoneFileKept(commits: seq<seq<string>>, denied: string -> bool, a: string)
    requires !denied(a) && forall i :: 0 <= i < |commits| ==> commits[i] == [a]
    ensures CommitsWith(commits, denied, a) == CountedCommits(commits) == |commits|
    ensures SumCommits(commits, denied, Occurs(a)) == 0
    decreases |commits|
  {
    if commits != [] {
      LoneFileKept(commits[..|commits| - 1], denied, a);
      OneEligible(denied, a);
      NamedAlone(a, a);
    }
  }

  lemma OneEligible(denied: string -> bool, a: string)
    requires !denied(a)
    ensures Eligible([a], denied) == [a]
  {
    assert [a][..0] == [];
    assert Eligible([a][..0], denied) == [];
  }

  lemma {:induction false} NothingDenied(files: seq<string>, denied: string -> bool)
    requires forall x :: !denied(x)
    ensures Eligible(files, denied) == files
    decreases |files|
  {
    if files != [] {
      NothingDenied(files[..|files| - 1], denied);
    }
  }
}
