/**
 The scorer as it runs: indexes built once per announcement, then a pass over the online peers that
 only looks things up.  `Score` is proved to give every peer the score of the direct evaluation, and
 its reasons too exactly when no composite key shows the peer another agent's symbols.
 */
module ImpactScorer {
  import opened Common
  import opened ScoringModel

  type AgentIndex = map<string, set<string>>

  predicate Has(index: AgentIndex, file: string, agent: string) {
    file in index && agent in index[file]
  }

  function Insert(index: AgentIndex, file: string, agent: string): AgentIndex {
    index[file := (if file in index then index[file] else {}) + {agent}]
  }

  lemma TouchedSnoc(activity: seq<Activity>, i: nat, org: string, f: string, a: string)
    requires i < |activity|
    ensures TouchedRecently(activity[..i + 1], org, f, a) <==>
            || TouchedRecently(activity[..i], org, f, a)
            || (activity[i].org == org && activity[i].file == f && activity[i].agent == a && activity[i].fresh60)
  {
    assert activity[..i + 1] == activity[..i] + [activity[i]];
    assert activity[i] in activity[..i + 1];
  }

  lemma InFlightSnoc(working: seq<Working>, i: nat, org: string, f: string, a: string)
    requires i < |working|
    ensures InFlight(working[..i + 1], org, f, a) <==>
            || InFlight(working[..i], org, f, a)
            || (working[i].org == org && working[i].file == f && working[i].agent == a && working[i].live)
  {
    assert working[..i + 1] == working[..i] + [working[i]];
    assert working[i] in working[..i + 1];
  }

  /** File to agents, from the activity of the last hour, without the caller. */
  method FileToAgents(activity: seq<Activity>, org: string, files: seq<string>, caller: string)
    returns (index: AgentIndex)
    ensures forall f, a :: Has(index, f, a) <==> f in files && a != caller && TouchedRecently(activity, org, f, a)
  {
    index := map[];
    for i := 0 to |activity|
      invariant forall f, a :: Has(index, f, a) <==>
                  f in files && a != caller && TouchedRecently(activity[..i], org, f, a)
    {
      var r := activity[i];
      ghost var was := index;
      if r.org == org && r.file in files && r.agent != caller && r.fresh60 {
        index := Insert(index, r.file, r.agent);
      }
      forall f, a
        ensures Has(index, f, a) <==> f in files && a != caller && TouchedRecently(activity[..i + 1], org, f, a)
      {
        TouchedSnoc(activity, i, org, f, a);
        assert Has(was, f, a) <==> f in files && a != caller && TouchedRecently(activity[..i], org, f, a);
      }
    }
    assert activity[..|activity|] == activity;
  }

  /** File to agents, from claims that have not expired, without the caller. */
  method InFlightToAgents(working: seq<Working>, org: string, files: seq<string>, caller: string)
    returns (index: AgentIndex)
    ensures forall f, a :: Has(index, f, a) <==> f in files && a != caller && InFlight(working, org, f, a)
  {
    index := map[];
    for i := 0 to |working|
      invariant forall f, a :: Has(index, f, a) <==> f in files && a != caller && InFlight(working[..i], org, f, a)
    {
      var r := working[i];
      ghost var was := index;
      if r.org == org && r.file in files && r.agent != caller && r.live {
        index := Insert(index, r.file, r.agent);
      }
      forall f, a ensures Has(index, f, a) <==> f in files && a != caller && InFlight(working[..i + 1], org, f, a) {
        InFlightSnoc(working, i, org, f, a);
        assert Has(was, f, a) <==> f in files && a != caller && InFlight(working[..i], org, f, a);
      }
    }
    assert working[..|working|] == working;
  }

  function ThreadsOf(groups: map<string, seq<Thread>>, agent: string): seq<Thread> {
    if agent in groups then groups[agent] else []
  }

  function Grouped(groups: map<string, seq<Thread>>, t: Thread): map<string, seq<Thread>> {
    groups[t.initiator := ThreadsOf(groups, t.initiator) + [t]]
  }

  lemma GroupedNext(active: seq<Thread>, i: nat, groups: map<string, seq<Thread>>, a: string)
    requires i < |active| && ThreadsOf(groups, a) == ThreadsBy(active[..i], a)
    ensures ThreadsOf(Grouped(groups, active[i]), a) == ThreadsBy(active[..i + 1], a)
  {
    FilterSnoc(active[..i], active[i], InitiatedBy(a));
    assert active[..i + 1] == active[..i] + [active[i]];
  }

  method GroupByInitiator(active: seq<Thread>) returns (groups: map<string, seq<Thread>>)
    ensures forall a :: ThreadsOf(groups, a) == ThreadsBy(active, a)
  {
    groups := map[];
    for i := 0 to |active|
      invariant forall a :: ThreadsOf(groups, a) == ThreadsBy(active[..i], a)
    {
      forall a ensures ThreadsOf(Grouped(groups, active[i]), a) == ThreadsBy(active[..i + 1], a) {
        GroupedNext(active, i, groups, a);
      }
      groups := Grouped(groups, active[i]);
    }
    assert active[..|active|] == active;
  }

  lemma FilterSnoc<T(!new)>(xs: seq<T>, x: T, keep: T -> bool)
    ensures Filter(xs + [x], keep) == Filter(xs, keep) + if keep(x) then [x] else []
  {
    assert (xs + [x])[..|xs|] == xs;
  }

  // ---------------------------------------------------------------- composite keys

  function FileKey(file: string, agent: string): string {
    file + "|" + agent
  }

  lemma NoLaterBar(f: string, a: string, i: nat)
    requires BarFree(a) && |f| < i < |FileKey(f, a)|
    ensures FileKey(f, a)[i] != '|'
  {
    assert FileKey(f, a)[i] == a[i - |f| - 1];
    assert a[i - |f| - 1] in a;
  }

  /** With an agent id that has no bar, the last bar of a key is the separator. */
  lemma FileKeyInjective(f: string, a: string, g: string, b: string)
    requires BarFree(a) && BarFree(b) && FileKey(f, a) == FileKey(g, b)
    ensures f == g && a == b
  {
    var k := FileKey(f, a);
    assert k[|f|] == '|' && FileKey(g, b)[|g|] == '|';
    forall i: nat | |f| < i < |k| ensures k[i] != '|' {
      NoLaterBar(f, a, i);
    }
    forall i: nat | |g| < i < |k| ensures k[i] != '|' {
      NoLaterBar(g, b, i);
    }
    assert |f| == |g|;
    assert k[..|f|] == f && FileKey(g, b)[..|g|] == g;
    assert k[|f| + 1..] == a && FileKey(g, b)[|g| + 1..] == b;
  }

  lemma NoEarlierBar(f: string, a: string, i: nat)
    requires BarFree(f) && i < |f|
    ensures FileKey(f, a)[i] != '|'
  {
    assert FileKey(f, a)[i] == f[i];
    assert f[i] in f;
  }

  /** With a file name that has no bar, the first bar of a key is the separator. */
  lemma FileNameSplitsKey(f: string, a: string, g: string, b: string)
    requires BarFree(f) && BarFree(g) && FileKey(f, a) == FileKey(g, b)
    ensures f == g && a == b
  {
    var k := FileKey(f, a);
    assert k[|f|] == '|' && FileKey(g, b)[|g|] == '|';
    forall i: nat | i < |f| ensures k[i] != '|' {
      NoEarlierBar(f, a, i);
    }
    forall i: nat | i < |g| ensures k[i] != '|' {
      NoEarlierBar(g, b, i);
    }
    assert |f| == |g|;
    assert k[..|f|] == f && FileKey(g, b)[..|g|] == g;
    assert k[|f| + 1..] == a && FileKey(g, b)[|g| + 1..] == b;
  }

  /** With a bar in both a file name and an id, two different pairs can share a key. */
  lemma BarsCollide(f: string, a: string, b: string)
    ensures FileKey(f, a + "|" + b) == FileKey(f + "|" + a, b)
  {
    assert f + "|" + (a + "|" + b) == (f + "|" + a) + "|" + b;
  }

  // ---------------------------------------------------------------- the symbol index

  type SymbolIndex = map<string, seq<string>>

  function SymbolsOf(index: SymbolIndex, key: string): Option<seq<string>> {
    if key in index then Some(index[key]) else None
  }

  /** The row is the newest of its file and agent, for a target file, and its symbols parse. */
  predicate Indexed(all: seq<Activity>, r: Activity, org: string, files: seq<string>) {
    r.org == org && r.file in files && Latest(all, org, r.file, r.agent) == Some(r) && r.symbols.Listed?
  }

  /** What a key answers after the first rows were read: the last indexed row with that key, whoever's it is. */
  function KeyedSymbols(all: seq<Activity>, read: seq<Activity>, org: string, files: seq<string>, key: string)
    : Option<seq<string>>
  {
    if read == [] then None
    else
      var r := read[|read| - 1];
      if Indexed(all, r, org, files) && FileKey(r.file, r.agent) == key then Some(r.symbols.names)
      else KeyedSymbols(all, read[..|read| - 1], org, files, key)
  }

  /** The symbols of every (target file, agent), under one composite key each. */
  method CollectSymbols(activity: seq<Activity>, org: string, files: seq<string>) returns (index: SymbolIndex)
    ensures forall key :: SymbolsOf(index, key) == KeyedSymbols(activity, activity, org, files, key)
  {
    index := map[];
    for i := 0 to |activity|
      invariant forall key :: SymbolsOf(index, key) == KeyedSymbols(activity, activity[..i], org, files, key)
    {
      assert activity[..i + 1][..i] == activity[..i];
      var r := activity[i];
      var newest := r.org == org && r.file in files && Latest(activity, org, r.file, r.agent) == Some(r);
      if newest && r.symbols.Listed? {
        index := index[FileKey(r.file, r.agent) := r.symbols.names];
      }
    }
    assert activity[..|activity|] == activity;
  }

  /** No key of a row of another agent can be taken for a key of this one. */
  ghost predicate Unambiguous(activity: seq<Activity>, agent: string) {
    forall r, f :: r in activity && FileKey(r.file, r.agent) == FileKey(f, agent) ==> r.agent == agent && r.file == f
  }

  lemma BarFreeIsUnambiguous(activity: seq<Activity>, agent: string)
    requires BarFree(agent) && forall r :: r in activity ==> BarFree(r.agent)
    ensures Unambiguous(activity, agent)
  {
    forall r, f | r in activity && FileKey(r.file, r.agent) == FileKey(f, agent)
      ensures r.agent == agent && r.file == f
    {
      FileKeyInjective(r.file, r.agent, f, agent);
    }
  }

  lemma {:induction false} LatestIsThere(all: seq<Activity>, org: string, file: string, agent: string)
    ensures var n := Latest(all, org, file, agent); n.Some? ==> n.value in all && HasSymbols(n.value, org, file, agent)
    decreases |all|
  {
    if all != [] {
      LatestIsThere(all[..|all| - 1], org, file, agent);
    }
  }

  /** What a key of an unambiguous agent answers: the newest symbols of the pair, once their row was read. */
  lemma {:induction false} KeyedSymbolsRead(all: seq<Activity>, n: nat, org: string, files: seq<string>, f: string,
                                            a: string)
    requires n <= |all| && Unambiguous(all, a) && f in files
    ensures var newest := Latest(all, org, f, a);
            KeyedSymbols(all, all[..n], org, files, FileKey(f, a)) ==
            if newest.Some? && newest.value in all[..n] && newest.value.symbols.Listed?
            then Some(newest.value.symbols.names) else None
  {
    LatestIsThere(all, org, f, a);
    if n > 0 {
      KeyedSymbolsRead(all, n - 1, org, files, f, a);
      assert all[..n] == all[..n - 1] + [all[n - 1]];
      assert all[n - 1] in all;
    }
  }

  /** An agent that no key confuses is answered its own newest symbols. */
  lemma UnambiguousIsAnswered(all: seq<Activity>, org: string, files: seq<string>, f: string, a: string)
    requires Unambiguous(all, a) && f in files
    ensures KeyedSymbols(all, all, org, files, FileKey(f, a)) == LatestSymbols(all, org, f, a)
  {
    assert all[..|all|] == all;
    KeyedSymbolsRead(all, |all|, org, files, f, a);
    LatestIsThere(all, org, f, a);
  }

  // ---------------------------------------------------------------- layer 4

  datatype Candidate = Candidate(partner: string, score: nat, count: nat, total: nat)

  function CandidateOf(r: CoRow, org: string, file: string): seq<Candidate> {
    if Mentions(r, org, file) && CoScore(r.count, r.total) > 0
    then [Candidate(Partner(r, file), CoScore(r.count, r.total), r.count, r.total)] else []
  }

  function Candidates(rows: seq<CoRow>, org: string, file: string): seq<Candidate> {
    if rows == [] then [] else Candidates(rows[..|rows| - 1], org, file) + CandidateOf(rows[|rows| - 1], org, file)
  }

  type CandidateIndex = map<string, seq<Candidate>>

  method Layer4Candidates(rows: seq<CoRow>, org: string, files: seq<string>) returns (index: CandidateIndex)
    ensures forall f :: f in index <==> f in files
    ensures forall f :: f in files ==> index[f] == Candidates(rows, org, f)
  {
    index := map[];
    for i := 0 to |files|
      invariant forall f :: f in index <==> f in files[..i]
      invariant forall f :: f in index ==> index[f] == Candidates(rows, org, f)
    {
      var found := [];
      for k := 0 to |rows|
        invariant found == Candidates(rows[..k], org, files[i])
      {
        assert rows[..k + 1][..k] == rows[..k];
        var r := rows[k];
        if r.org == org && (r.fileA == files[i] || r.fileB == files[i]) {
          var partner := if r.fileA == files[i] then r.fileB else r.fileA;
          var t := if r.total > 1 then r.total else 1;
          var score := if 2 * r.count > t then 60 else if 5 * r.count > t then 40 else 0;
          if score != 0 {
            found := found + [Candidate(partner, score, r.count, r.total)];
          }
        }
      }
      assert rows[..|rows|] == rows;
      index := index[files[i] := found];
      assert files[..i + 1] == files[..i] + [files[i]];
    }
    assert files[..|files|] == files;
  }

  /** Recent activity on a partner file, under this key. */
  ghost predicate KeyTouched(activity: seq<Activity>, org: string, partners: set<string>, key: string) {
    exists r :: r in activity && r.org == org && r.file in partners && r.fresh60 && FileKey(r.file, r.agent) == key
  }

  function Partners(index: CandidateIndex): set<string> {
    set f, c | f in index && c in index[f] :: c.partner
  }

  lemma KeyTouchedSnoc(activity: seq<Activity>, i: nat, org: string, partners: set<string>, key: string)
    requires i < |activity|
    ensures KeyTouched(activity[..i + 1], org, partners, key) <==>
            || KeyTouched(activity[..i], org, partners, key)
            || (var r := activity[i];
                r.org == org && r.file in partners && r.fresh60 && FileKey(r.file, r.agent) == key)
  {
    assert activity[..i + 1] == activity[..i] + [activity[i]];
    assert activity[i] in activity[..i + 1];
  }

  /** Partner files without a bar confuse nobody: the key names one file and one agent, whatever the ids. */
  lemma BarFreePartnersAnswer(activity: seq<Activity>, org: string, partners: set<string>, x: string, a: string)
    requires x in partners && forall y :: y in partners ==> BarFree(y)
    ensures KeyTouched(activity, org, partners, FileKey(x, a)) <==> TouchedRecently(activity, org, x, a)
  {
    forall r | r in activity && r.file in partners && FileKey(r.file, r.agent) == FileKey(x, a)
      ensures r.file == x && r.agent == a
    {
      FileNameSplitsKey(r.file, r.agent, x, a);
    }
  }

  /** The composite keys of every (partner file, agent) with activity in the last hour. */
  method PartnerActivity(activity: seq<Activity>, org: string, index: CandidateIndex) returns (keys: set<string>)
    ensures forall key :: key in keys <==> KeyTouched(activity, org, Partners(index), key)
    ensures (forall y :: y in Partners(index) ==> BarFree(y)) ==>
              forall x, a :: x in Partners(index) ==> (FileKey(x, a) in keys <==> TouchedRecently(activity, org, x, a))
  {
    var partners := Partners(index);
    keys := {};
    for i := 0 to |activity|
      invariant forall key :: key in keys <==> KeyTouched(activity[..i], org, partners, key)
    {
      forall key
        ensures KeyTouched(activity[..i + 1], org, partners, key) <==>
                || KeyTouched(activity[..i], org, partners, key)
                || (var r := activity[i];
                    r.org == org && r.file in partners && r.fresh60 && FileKey(r.file, r.agent) == key)
      {
        KeyTouchedSnoc(activity, i, org, partners, key);
      }
      var r := activity[i];
      if r.org == org && r.file in partners && r.fresh60 {
        keys := keys + {FileKey(r.file, r.agent)};
      }
    }
    assert activity[..|activity|] == activity;
    if forall y :: y in partners ==> BarFree(y) {
      forall x, a | x in partners ensures FileKey(x, a) in keys <==> TouchedRecently(activity, org, x, a) {
        BarFreePartnersAnswer(activity, org, partners, x, a);
      }
    }
  }

  // ---------------------------------------------------------------- one peer

  datatype Indexes = Indexes(threads: map<string, seq<Thread>>, recent: AgentIndex, flying: AgentIndex,
                             symbols: SymbolIndex, candidates: CandidateIndex, partners: set<string>)

  /** What the scorer looks up under composite keys. */
  function IndexLookup(ix: Indexes): Lookup {
    Lookup((f, a) => SymbolsOf(ix.symbols, FileKey(f, a)), (f, a) => FileKey(f, a) in ix.partners)
  }

  /** The indexes hold what the tables say: three of them by file and agent, two under composite keys. */
  ghost predicate Agree(db: Tables, p: Params, ix: Indexes) {
    && (forall a :: ThreadsOf(ix.threads, a) == ThreadsBy(ActiveThreads(db.threads, p.org), a))
    && (forall f, a :: f in p.targetFiles || f in p.dependsOn ==>
          (Has(ix.recent, f, a) <==> a != p.agent && TouchedRecently(db.activity, p.org, f, a)))
    && (forall f, a :: f in p.targetFiles ==>
          (Has(ix.flying, f, a) <==> a != p.agent && InFlight(db.working, p.org, f, a)))
    && (forall f :: f in ix.candidates <==> f in p.targetFiles)
    && (forall f :: f in p.targetFiles ==> ix.candidates[f] == Candidates(db.cochange, p.org, f))
    && (p.targetSymbols != [] && p.targetFiles != [] ==> forall key ::
          SymbolsOf(ix.symbols, key) == KeyedSymbols(db.activity, db.activity, p.org, p.targetFiles, key))
    && (forall key :: key in ix.partners <==> KeyTouched(db.activity, p.org, Partners(ix.candidates), key))
  }

  method Threads(db: Tables, p: Params, agent: string, ix: Indexes) returns (o: Outcome)
    requires Agree(db, p, ix)
    ensures o == Fold(ThreadsBy(ActiveThreads(db.threads, p.org), agent), Outcome(0, []), OnThread(p))
  {
    o := Outcome(0, []);
    var mine := ThreadsOf(ix.threads, agent);
    for i := 0 to |mine|
      invariant o == Fold(mine[..i], Outcome(0, []), OnThread(p))
    {
      assert mine[..i + 1][..i] == mine[..i];
      o := ThreadStep(p, o, mine[i]);
    }
    assert mine[..|mine|] == mine;
  }

  method TargetFiles(db: Tables, p: Params, agent: string, ix: Indexes, start: Outcome) returns (o: Outcome)
    requires Agree(db, p, ix)
    ensures o == Fold(p.targetFiles, start, OnFile(db, p, IndexLookup(ix), agent))
  {
    o := start;
    for i := 0 to |p.targetFiles|
      invariant o == Fold(p.targetFiles[..i], start, OnFile(db, p, IndexLookup(ix), agent))
    {
      var f := p.targetFiles[i];
      assert p.targetFiles[..i + 1][..i] == p.targetFiles[..i];
      if Has(ix.recent, f, agent) {
        var annotated := false;
        if |p.targetSymbols| > 0 {
          var theirs := SymbolsOf(ix.symbols, FileKey(f, agent));
          if theirs.Some? && |theirs.value| > 0 && Disjoint(p.targetSymbols, theirs.value) {
            o := Add(o, 100, DisjointSymbols(f, p.targetSymbols, theirs.value));
            annotated := true;
          }
        }
        if !annotated {
          o := Add(o, 100, SameFileRecent(f));
        }
      }
      if Has(ix.flying, f, agent) {
        o := Add(o, 100, SameFileInFlight(f));
      }
    }
    assert p.targetFiles[..|p.targetFiles|] == p.targetFiles;
  }

  method Dependencies(db: Tables, p: Params, agent: string, ix: Indexes, start: Outcome) returns (o: Outcome)
    requires Agree(db, p, ix)
    ensures o == Fold(p.dependsOn, start, OnDependency(db, p, agent))
  {
    o := start;
    for i := 0 to |p.dependsOn|
      invariant o == Fold(p.dependsOn[..i], start, OnDependency(db, p, agent))
    {
      var f := p.dependsOn[i];
      assert p.dependsOn[..i + 1][..i] == p.dependsOn[..i];
      if Has(ix.recent, f, agent) {
        o := Add(o, 80, DependencyTouched(f));
      }
    }
    assert p.dependsOn[..|p.dependsOn|] == p.dependsOn;
  }

  /** What the scorer does with one candidate of a target file. */
  function CandidateStep(look: Lookup, agent: string, file: string, o: Outcome, c: Candidate): Outcome {
    AddIf(o, look.touched(c.partner, agent), c.score, CoChanged(file, c.partner, c.count, c.total))
  }

  function OnCandidate(look: Lookup, agent: string, file: string): (Outcome, Candidate) -> Outcome {
    (o, c) => CandidateStep(look, agent, file, o, c)
  }

  lemma FoldSnoc<T>(xs: seq<T>, x: T, o: Outcome, f: (Outcome, T) -> Outcome)
    ensures Fold(xs + [x], o, f) == f(Fold(xs, o, f), x)
  {
    assert (xs + [x])[..|xs|] == xs;
  }

  lemma LastCandidate(p: Params, agent: string, file: string, look: Lookup, cs: seq<Candidate>, r: CoRow, o: Outcome)
    ensures Fold(cs + CandidateOf(r, p.org, file), o, OnCandidate(look, agent, file)) ==
            CoStep(p, look, agent, file, Fold(cs, o, OnCandidate(look, agent, file)), r)
  {
    var c := CandidateOf(r, p.org, file);
    if c == [] {
      assert cs + c == cs;
    } else {
      assert c == [c[0]];
      FoldSnoc(cs, c[0], o, OnCandidate(look, agent, file));
    }
  }

  /** Walking the prepared candidates is walking the co-change rows. */
  lemma {:induction false} CandidatesAreRows(p: Params, agent: string, file: string, look: Lookup, rows: seq<CoRow>,
                                             o: Outcome)
    ensures Fold(Candidates(rows, p.org, file), o, OnCandidate(look, agent, file)) ==
            Fold(rows, o, OnCoRow(p, look, agent, file))
    decreases |rows|
  {
    if rows != [] {
      var init, last := rows[..|rows| - 1], rows[|rows| - 1];
      CandidatesAreRows(p, agent, file, look, init, o);
      LastCandidate(p, agent, file, look, Candidates(init, p.org, file), last, o);
    }
  }

  /** The candidates of one target file. */
  method CoChangesOf(agent: string, ix: Indexes, f: string, cs: seq<Candidate>, start: Outcome) returns (o: Outcome)
    ensures o == Fold(cs, start, OnCandidate(IndexLookup(ix), agent, f))
  {
    o := start;
    for k := 0 to |cs|
      invariant o == Fold(cs[..k], start, OnCandidate(IndexLookup(ix), agent, f))
    {
      assert cs[..k + 1][..k] == cs[..k];
      if FileKey(cs[k].partner, agent) in ix.partners {
        o := Add(o, cs[k].score, CoChanged(f, cs[k].partner, cs[k].count, cs[k].total));
      }
    }
    assert cs[..|cs|] == cs;
  }

  method CoChanges(db: Tables, p: Params, agent: string, ix: Indexes, start: Outcome) returns (o: Outcome)
    requires Agree(db, p, ix)
    ensures o == Fold(p.targetFiles, start, OnCoFile(db, p, IndexLookup(ix), agent))
  {
    o := start;
    for i := 0 to |p.targetFiles|
      invariant o == Fold(p.targetFiles[..i], start, OnCoFile(db, p, IndexLookup(ix), agent))
    {
      var f := p.targetFiles[i];
      assert p.targetFiles[..i + 1][..i] == p.targetFiles[..i];
      CandidatesAreRows(p, agent, f, IndexLookup(ix), db.cochange, o);
      o := CoChangesOf(agent, ix, f, ix.candidates[f], o);
    }
    assert p.targetFiles[..|p.targetFiles|] == p.targetFiles;
  }

  // ---------------------------------------------------------------- what the keys can confuse

  lemma {:induction false} FoldSame<T(!new)>(xs: seq<T>, o: Outcome, f: (Outcome, T) -> Outcome,
                                             g: (Outcome, T) -> Outcome)
    requires forall x, q :: x in xs ==> f(q, x) == g(q, x)
    ensures Fold(xs, o, f) == Fold(xs, o, g)
    decreases |xs|
  {
    if xs != [] {
      FoldSame(xs[..|xs| - 1], o, f, g);
    }
  }

  lemma {:induction false} PartnerIsCandidate(rows: seq<CoRow>, org: string, file: string, r: CoRow)
    requires r in rows && Mentions(r, org, file) && CoScore(r.count, r.total) > 0
    ensures exists c :: c in Candidates(rows, org, file) && c.partner == Partner(r, file)
    decreases |rows|
  {
    var init, last := rows[..|rows| - 1], rows[|rows| - 1];
    assert rows == init + [last];
    if r == last {
      assert CandidateOf(r, org, file)[0] in Candidates(rows, org, file);
    } else {
      PartnerIsCandidate(init, org, file, r);
      var c :| c in Candidates(init, org, file) && c.partner == Partner(r, file);
      assert c in Candidates(rows, org, file);
    }
  }

  lemma {:induction false} CandidatesAreBarFree(rows: seq<CoRow>, org: string, file: string)
    requires BarFreeRows(rows)
    ensures forall c :: c in Candidates(rows, org, file) ==> BarFree(c.partner)
    decreases |rows|
  {
    if rows != [] {
      assert rows[|rows| - 1] in rows;
      CandidatesAreBarFree(rows[..|rows| - 1], org, file);
    }
  }

  lemma PartnersAreBarFree(db: Tables, p: Params, ix: Indexes)
    requires Agree(db, p, ix) && BarFreeRows(db.cochange)
    ensures forall x :: x in Partners(ix.candidates) ==> BarFree(x)
  {
    forall f, c | f in ix.candidates && c in ix.candidates[f] ensures BarFree(c.partner) {
      CandidatesAreBarFree(db.cochange, p.org, f);
    }
  }

  /** On rows without bars, Layer 4 sees what the tables say, for every agent. */
  lemma SameCoRow(db: Tables, p: Params, ix: Indexes, agent: string, file: string, o: Outcome, r: CoRow)
    requires Agree(db, p, ix) && BarFreeRows(db.cochange) && file in p.targetFiles && r in db.cochange
    ensures CoStep(p, IndexLookup(ix), agent, file, o, r) == CoStep(p, TableLookup(db, p), agent, file, o, r)
  {
    if Mentions(r, p.org, file) && CoScore(r.count, r.total) > 0 {
      PartnerIsCandidate(db.cochange, p.org, file, r);
      var c :| c in ix.candidates[file] && c.partner == Partner(r, file);
      assert c.partner in Partners(ix.candidates);
      PartnersAreBarFree(db, p, ix);
      BarFreePartnersAnswer(db.activity, p.org, Partners(ix.candidates), c.partner, agent);
    }
  }

  lemma SameCoFiles(db: Tables, p: Params, ix: Indexes, agent: string, o: Outcome)
    requires Agree(db, p, ix) && BarFreeRows(db.cochange)
    ensures Fold(p.targetFiles, o, OnCoFile(db, p, IndexLookup(ix), agent)) ==
            Fold(p.targetFiles, o, OnCoFile(db, p, TableLookup(db, p), agent))
  {
    var f, g := OnCoFile(db, p, IndexLookup(ix), agent), OnCoFile(db, p, TableLookup(db, p), agent);
    forall file, q | file in p.targetFiles ensures f(q, file) == g(q, file) {
      var h, k := OnCoRow(p, IndexLookup(ix), agent, file), OnCoRow(p, TableLookup(db, p), agent, file);
      forall r, q' | r in db.cochange ensures h(q', r) == k(q', r) {
        SameCoRow(db, p, ix, agent, file, q', r);
      }
      FoldSame(db.cochange, q, h, k);
    }
    FoldSame(p.targetFiles, o, f, g);
  }

  /** The same score, and as many reasons. */
  predicate Aligned(o: Outcome, q: Outcome) {
    o.score == q.score && |o.reasons| == |q.reasons|
  }

  /** Two steps keep outcomes aligned, and equal exactly where `same` holds. */
  ghost predicate Lockstep<T(!new)>(f: (Outcome, T) -> Outcome, g: (Outcome, T) -> Outcome, same: T -> bool) {
    forall o, q, x :: Aligned(o, q) ==> Aligned(f(o, x), g(q, x)) && (f(o, x) == g(q, x) <==> o == q && same(x))
  }

  lemma {:induction false} FoldLockstep<T(!new)>(xs: seq<T>, o: Outcome, q: Outcome, f: (Outcome, T) -> Outcome,
                                                 g: (Outcome, T) -> Outcome, same: T -> bool)
    requires Aligned(o, q) && Lockstep(f, g, same)
    ensures Aligned(Fold(xs, o, f), Fold(xs, q, g))
    ensures Fold(xs, o, f) == Fold(xs, q, g) <==> o == q && forall x :: x in xs ==> same(x)
    decreases |xs|
  {
    if xs != [] {
      var init, last := xs[..|xs| - 1], xs[|xs| - 1];
      FoldLockstep(init, o, q, f, g, same);
      LockstepAt(f, g, same, Fold(init, o, f), Fold(init, q, g), last);
      AllOfInit(xs, same);
    }
  }

  lemma LockstepAt<T(!new)>(f: (Outcome, T) -> Outcome, g: (Outcome, T) -> Outcome, same: T -> bool,
                            o: Outcome, q: Outcome, x: T)
    requires Aligned(o, q) && Lockstep(f, g, same)
    ensures Aligned(f(o, x), g(q, x)) && (f(o, x) == g(q, x) <==> o == q && same(x))
  {
  }

  lemma AllOfInit<T(!new)>(xs: seq<T>, same: T -> bool)
    requires xs != []
    ensures (forall x :: x in xs ==> same(x)) <==> (forall x :: x in xs[..|xs| - 1] ==> same(x)) && same(xs[|xs| - 1])
  {
    assert xs == xs[..|xs| - 1] + [xs[|xs| - 1]];
  }

  lemma AddIfAligned(o: Outcome, q: Outcome, cond: bool, score: nat, r: Reason, r': Reason)
    requires Aligned(o, q)
    ensures Aligned(AddIf(o, cond, score, r), AddIf(q, cond, score, r'))
    ensures AddIf(o, cond, score, r) == AddIf(q, cond, score, r') <==> o == q && (cond ==> r == r')
  {
    if cond {
      var rs, qs := o.reasons + [r], q.reasons + [r'];
      if rs == qs {
        assert rs[..|o.reasons|] == o.reasons && qs[..|q.reasons|] == q.reasons;
        assert rs[|o.reasons|] == r && qs[|q.reasons|] == r';
      }
    }
  }

  /** For a target file the peer touched recently: the reason is the one the peer's own symbols give. */
  predicate ReasonRight(db: Tables, p: Params, agent: string, f: string) {
    f in p.targetFiles && TouchedRecently(db.activity, p.org, f, agent) ==>
      RecentReason(p, f, KeyedSymbols(db.activity, db.activity, p.org, p.targetFiles, FileKey(f, agent))) ==
      RecentReason(p, f, LatestSymbols(db.activity, p.org, f, agent))
  }

  ghost predicate ReasonsRight(db: Tables, p: Params, agent: string) {
    forall f :: f in p.targetFiles ==> ReasonRight(db, p, agent, f)
  }

  lemma IndexReason(db: Tables, p: Params, ix: Indexes, agent: string, f: string)
    requires Agree(db, p, ix) && f in p.targetFiles
    ensures RecentReason(p, f, IndexLookup(ix).symbols(f, agent)) ==
            RecentReason(p, f, KeyedSymbols(db.activity, db.activity, p.org, p.targetFiles, FileKey(f, agent)))
  {
  }

  /** Where the file layer says the same through two lookups. */
  predicate SameReason(db: Tables, p: Params, look: Lookup, other: Lookup, agent: string, f: string) {
    agent != p.agent && TouchedRecently(db.activity, p.org, f, agent) ==>
      RecentReason(p, f, look.symbols(f, agent)) == RecentReason(p, f, other.symbols(f, agent))
  }

  function SameReasons(db: Tables, p: Params, look: Lookup, other: Lookup, agent: string): string -> bool {
    f => SameReason(db, p, look, other, agent, f)
  }

  lemma FileLockstep(db: Tables, p: Params, look: Lookup, other: Lookup, agent: string)
    ensures Lockstep(OnFile(db, p, look, agent), OnFile(db, p, other, agent), SameReasons(db, p, look, other, agent))
  {
    var f, g := OnFile(db, p, look, agent), OnFile(db, p, other, agent);
    forall o, q, x | Aligned(o, q)
      ensures Aligned(f(o, x), g(q, x)) && (f(o, x) == g(q, x) <==> o == q && SameReason(db, p, look, other, agent, x))
    {
      FileStepAligned(db, p, look, other, agent, o, q, x);
    }
  }

  lemma FileStepAligned(db: Tables, p: Params, look: Lookup, other: Lookup, agent: string, o: Outcome, q: Outcome,
                        x: string)
    requires Aligned(o, q)
    ensures var a, b := FileStep(db, p, look, agent, o, x), FileStep(db, p, other, agent, q, x);
            Aligned(a, b) && (a == b <==> o == q && SameReason(db, p, look, other, agent, x))
  {
    var recent := agent != p.agent && TouchedRecently(db.activity, p.org, x, agent);
    var flying := agent != p.agent && InFlight(db.working, p.org, x, agent);
    var r, r' := RecentReason(p, x, look.symbols(x, agent)), RecentReason(p, x, other.symbols(x, agent));
    AddIfAligned(o, q, recent, 100, r, r');
    AddIfAligned(AddIf(o, recent, 100, r), AddIf(q, recent, 100, r'), flying, 100,
                 SameFileInFlight(x), SameFileInFlight(x));
  }

  function Always<T(!new)>(): T -> bool {
    (x: T) => true
  }

  lemma DependencyLockstep(db: Tables, p: Params, agent: string)
    ensures Lockstep(OnDependency(db, p, agent), OnDependency(db, p, agent), Always())
  {
    var f := OnDependency(db, p, agent);
    forall o, q, x: string | Aligned(o, q) ensures Aligned(f(o, x), f(q, x)) && (f(o, x) == f(q, x) <==> o == q) {
      AddIfAligned(o, q, agent != p.agent && TouchedRecently(db.activity, p.org, x, agent), 80,
                   DependencyTouched(x), DependencyTouched(x));
    }
  }

  lemma CoRowLockstep(p: Params, look: Lookup, agent: string, file: string)
    ensures Lockstep(OnCoRow(p, look, agent, file), OnCoRow(p, look, agent, file), Always())
  {
    var f := OnCoRow(p, look, agent, file);
    forall o, q, r: CoRow | Aligned(o, q) ensures Aligned(f(o, r), f(q, r)) && (f(o, r) == f(q, r) <==> o == q) {
      var reason := CoChanged(file, Partner(r, file), r.count, r.total);
      var hit := Mentions(r, p.org, file) && CoScore(r.count, r.total) > 0 && look.touched(Partner(r, file), agent);
      AddIfAligned(o, q, hit, CoScore(r.count, r.total), reason, reason);
    }
  }

  lemma CoFileLockstep(db: Tables, p: Params, look: Lookup, agent: string)
    ensures Lockstep(OnCoFile(db, p, look, agent), OnCoFile(db, p, look, agent), Always())
  {
    var f := OnCoFile(db, p, look, agent);
    forall o, q, x: string | Aligned(o, q) ensures Aligned(f(o, x), f(q, x)) && (f(o, x) == f(q, x) <==> o == q) {
      CoRowLockstep(p, look, agent, x);
      FoldLockstep(db.cochange, o, q, OnCoRow(p, look, agent, x), OnCoRow(p, look, agent, x), Always());
    }
  }

  /** The layers after the file layer keep outcomes aligned, and neither make nor hide a difference. */
  lemma LaterLayers(db: Tables, p: Params, look: Lookup, peer: Peer, o: Outcome, q: Outcome)
    requires Aligned(o, q)
    ensures var a, b := AfterFiles(db, p, look, peer, o), AfterFiles(db, p, look, peer, q);
            Aligned(a, b) && (a == b <==> o == q)
  {
    DependencyLockstep(db, p, peer.id);
    var dep := OnDependency(db, p, peer.id);
    FoldLockstep(p.dependsOn, o, q, dep, dep, Always());
    var o2, q2 := Fold(p.dependsOn, o, dep), Fold(p.dependsOn, q, dep);
    var overlap := OverlappingModules(peer.modules, p.targetModules);
    AddIfAligned(o2, q2, overlap != [], 30, ModuleOverlap(overlap), ModuleOverlap(overlap));
    var o3, q3 := AddIf(o2, overlap != [], 30, ModuleOverlap(overlap)),
                  AddIf(q2, overlap != [], 30, ModuleOverlap(overlap));
    CoFileLockstep(db, p, look, peer.id);
    var co := OnCoFile(db, p, look, peer.id);
    FoldLockstep(p.targetFiles, o3, q3, co, co, Always());
  }

  function AfterFiles(db: Tables, p: Params, look: Lookup, peer: Peer, o: Outcome): Outcome {
    var o2 := Fold(p.dependsOn, o, OnDependency(db, p, peer.id));
    var overlap := OverlappingModules(peer.modules, p.targetModules);
    var o3 := AddIf(o2, overlap != [], 30, ModuleOverlap(overlap));
    Fold(p.targetFiles, o3, OnCoFile(db, p, look, peer.id))
  }

  /**
   Every peer gets the score of the direct evaluation, whatever the ids.  It gets the same reasons too
   if and only if, for each target file it touched recently, the key answers as its own symbols do.
   */
  lemma SameEvaluation(db: Tables, p: Params, ix: Indexes, peer: Peer)
    requires Agree(db, p, ix) && BarFreeRows(db.cochange) && peer.id != p.agent
    ensures Evaluate(db, p, IndexLookup(ix), peer).score == DirectScore(db, p, peer).score
    ensures Evaluate(db, p, IndexLookup(ix), peer) == DirectScore(db, p, peer) <==> ReasonsRight(db, p, peer.id)
  {
    var index, table := IndexLookup(ix), TableLookup(db, p);
    var o0 := Fold(ThreadsBy(ActiveThreads(db.threads, p.org), peer.id), Outcome(0, []), OnThread(p));
    var o, q := Fold(p.targetFiles, o0, OnFile(db, p, index, peer.id)),
                Fold(p.targetFiles, o0, OnFile(db, p, table, peer.id));
    FileLockstep(db, p, index, table, peer.id);
    FoldLockstep(p.targetFiles, o0, o0, OnFile(db, p, index, peer.id), OnFile(db, p, table, peer.id),
                 SameReasons(db, p, index, table, peer.id));
    forall f | f in p.targetFiles
      ensures SameReason(db, p, index, table, peer.id, f) <==> ReasonRight(db, p, peer.id, f)
    {
      IndexReason(db, p, ix, peer.id, f);
    }
    LaterLayers(db, p, table, peer, o, q);
    var o2 := Fold(p.dependsOn, o, OnDependency(db, p, peer.id));
    var overlap := OverlappingModules(peer.modules, p.targetModules);
    SameCoFiles(db, p, ix, peer.id, AddIf(o2, overlap != [], 30, ModuleOverlap(overlap)));
  }

  /** A peer that no key confuses gets the direct evaluation. */
  lemma UnambiguousIsRight(db: Tables, p: Params, agent: string)
    requires Unambiguous(db.activity, agent)
    ensures ReasonsRight(db, p, agent)
  {
    forall f | f in p.targetFiles ensures ReasonRight(db, p, agent, f) {
      UnambiguousIsAnswered(db.activity, p.org, p.targetFiles, f, agent);
    }
  }

  function ConfusedTables(org: string, f: string, x: string, b: string, theirs: string): Tables {
    Tables([], [Activity(0, org, f, x + "|" + b, true, Listed([theirs])),
                Activity(1, org, f + "|" + x, b, true, NoSymbols)], [], [])
  }

  /**
   Where the reason goes wrong: the symbols that agent `x|b` left on file `f` are read as those of
   agent `b` on file `f|x`, who left none.
   */
  lemma ReasonConfused(org: string, caller: string, f: string, x: string, b: string, mine: string, theirs: string,
                       ix: Indexes)
    requires caller != b && mine != theirs
    requires Agree(ConfusedTables(org, f, x, b, theirs), Params(org, caller, [], [f, f + "|" + x], [], [mine]), ix)
    ensures var db := ConfusedTables(org, f, x, b, theirs);
            var p := Params(org, caller, [], [f, f + "|" + x], [], [mine]);
            Evaluate(db, p, IndexLookup(ix), Peer(b, [])) != DirectScore(db, p, Peer(b, []))
  {
    var db := ConfusedTables(org, f, x, b, theirs);
    var g := f + "|" + x;
    var p := Params(org, caller, [], [f, g], [], [mine]);
    ConfusedSymbols(org, f, x, b, theirs);
    assert g in p.targetFiles && db.activity[1] in db.activity;
    assert TouchedRecently(db.activity, org, g, b);
    assert !ReasonRight(db, p, b, g) by {
      assert Disjoint([mine], [theirs]);
    }
    SameEvaluation(db, p, ix, Peer(b, []));
  }

  lemma ConfusedSymbols(org: string, f: string, x: string, b: string, theirs: string)
    ensures var all := ConfusedTables(org, f, x, b, theirs).activity;
            var g := f + "|" + x;
            && KeyedSymbols(all, all, org, [f, g], FileKey(g, b)) == Some([theirs])
            && LatestSymbols(all, org, g, b) == None
  {
    var all := ConfusedTables(org, f, x, b, theirs).activity;
    var g, xb := f + "|" + x, x + "|" + b;
    BarsCollide(f, x, b);
    assert |xb| > |b|;
    var one := all[..1];
    assert one == [all[0]] && one[..0] == [];
    assert Latest(one, org, f, xb) == Some(all[0]) && Latest(one, org, g, b) == None;
    assert Latest(all, org, f, xb) == Some(all[0]) && Latest(all, org, g, b) == None;
    assert f in [f, g];
    assert Indexed(all, all[0], org, [f, g]) && !Indexed(all, all[1], org, [f, g]);
    assert KeyedSymbols(all, one, org, [f, g], FileKey(g, b)) == Some([theirs]);
  }

  /** Symbols as the composite keys answer them, partner activity as the table has it. */
  function KeyedLookup(db: Tables, p: Params): Lookup {
    Lookup((f, a) => KeyedSymbols(db.activity, db.activity, p.org, p.targetFiles, FileKey(f, a)),
           (f, a) => TouchedRecently(db.activity, p.org, f, a))
  }

  lemma IndexApart(db: Tables, p: Params, ix: Indexes, agent: string, f: string)
    requires Agree(db, p, ix) && f in p.targetFiles
    ensures p.targetSymbols != [] ==> IndexLookup(ix).symbols(f, agent) == KeyedLookup(db, p).symbols(f, agent)
  {
  }

  lemma IndexTouched(db: Tables, p: Params, ix: Indexes, agent: string, f: string, x: string, row: CoRow)
    requires Agree(db, p, ix) && BarFreeRows(db.cochange) && f in p.targetFiles && row in db.cochange
    requires CoPair(row, p.org, f, x) && MoreThan(row.count, row.total, 5)
    ensures IndexLookup(ix).touched(x, agent) <==> TouchedRecently(db.activity, p.org, x, agent)
  {
    PartnerIsCandidate(db.cochange, p.org, f, row);
    var c :| c in ix.candidates[f] && c.partner == x;
    assert x in Partners(ix.candidates);
    PartnersAreBarFree(db, p, ix);
    BarFreePartnersAnswer(db.activity, p.org, Partners(ix.candidates), x, agent);
  }

  /** What causes a reason through the indexes is in the tables. */
  lemma SameCause(db: Tables, p: Params, ix: Indexes, peer: Peer, r: Reason)
    requires Agree(db, p, ix) && BarFreeRows(db.cochange)
    ensures Cause(db, p, IndexLookup(ix), peer, r) <==> Cause(db, p, KeyedLookup(db, p), peer, r)
  {
    if (r.DisjointSymbols? || r.SameFileRecent?) && r.file in p.targetFiles {
      IndexApart(db, p, ix, peer.id, r.file);
    }
    if r.CoChanged? && r.file in p.targetFiles && MoreThan(r.count, r.total, 5) {
      forall row | row in db.cochange && CoPair(row, p.org, r.file, r.partner)
                   && row.count == r.count && row.total == r.total
        ensures IndexLookup(ix).touched(r.partner, peer.id) <==> TouchedRecently(db.activity, p.org, r.partner, peer.id)
      {
        IndexTouched(db, p, ix, peer.id, r.file, r.partner, row);
      }
    }
  }

  /** The score, threshold by threshold, from the tables. */
  ghost predicate ScoreRight(db: Tables, p: Params, peer: Peer, score: nat) {
    forall n: nat :: 0 < n <= 100 ==> (score >= n <==> Scores(db, p, TableLookup(db, p), peer, n))
  }

  /** The reasons are those with a cause. */
  ghost predicate ReasonsCaused(db: Tables, p: Params, peer: Peer, reasons: seq<Reason>) {
    forall r :: r in reasons <==> Cause(db, p, KeyedLookup(db, p), peer, r)
  }

  /** What is right about an outcome whatever the ids, and exactly when everything is. */
  ghost predicate Right(db: Tables, p: Params, peer: Peer, o: Outcome) {
    && (o.score >= 90 <==> SharesTarget(db, p, peer.id))
    && Justified(o)
    && (BarFreeRows(db.cochange) ==>
          && ScoreRight(db, p, peer, o.score)
          && ReasonsCaused(db, p, peer, o.reasons)
          && (o == DirectScore(db, p, peer) <==> ReasonsRight(db, p, peer.id)))
  }

  lemma IndexedOutcomeIsRight(db: Tables, p: Params, ix: Indexes, peer: Peer)
    requires Agree(db, p, ix) && peer.id != p.agent
    ensures Right(db, p, peer, Evaluate(db, p, IndexLookup(ix), peer))
  {
    var o := Evaluate(db, p, IndexLookup(ix), peer);
    ConcernedIffSharesTarget(db, p, IndexLookup(ix), peer);
    ScoreIsJustified(db, p, IndexLookup(ix), peer);
    if BarFreeRows(db.cochange) {
      SameEvaluation(db, p, ix, peer);
      forall n: nat | 0 < n <= 100 ensures o.score >= n <==> Scores(db, p, TableLookup(db, p), peer, n) {
        ScoreMeans(db, p, TableLookup(db, p), peer, n);
      }
      forall r ensures r in o.reasons <==> Cause(db, p, KeyedLookup(db, p), peer, r) {
        ReasonsAreCaused(db, p, IndexLookup(ix), peer, r);
        SameCause(db, p, ix, peer, r);
      }
    }
  }

  method ScorePeer(db: Tables, p: Params, peer: Peer, ix: Indexes) returns (o: Outcome)
    requires Agree(db, p, ix) && peer.id != p.agent
    ensures o == Evaluate(db, p, IndexLookup(ix), peer) && Right(db, p, peer, o)
  {
    o := Threads(db, p, peer.id, ix);
    o := TargetFiles(db, p, peer.id, ix, o);
    o := Dependencies(db, p, peer.id, ix, o);
    var overlapping := OverlappingModules(peer.modules, p.targetModules);
    if |overlapping| > 0 {
      o := Add(o, 30, ModuleOverlap(overlapping));
    }
    o := CoChanges(db, p, peer.id, ix, o);
    IndexedOutcomeIsRight(db, p, ix, peer);
  }

  // ---------------------------------------------------------------- all peers

  method BuildIndexes(db: Tables, p: Params) returns (ix: Indexes)
    ensures Agree(db, p, ix)
  {
    var files := p.targetFiles + p.dependsOn;
    var recent := FileToAgents(db.activity, p.org, files, p.agent);
    var flying := InFlightToAgents(db.working, p.org, files, p.agent);
    var symbols := map[];
    if p.targetSymbols != [] && p.targetFiles != [] {
      symbols := CollectSymbols(db.activity, p.org, p.targetFiles);
    }
    var candidates := Layer4Candidates(db.cochange, p.org, p.targetFiles);
    var partners := PartnerActivity(db.activity, p.org, candidates);
    var threads := GroupByInitiator(ActiveThreads(db.threads, p.org));
    ix := Indexes(threads, recent, flying, symbols, candidates, partners);
  }

  datatype Impact = Impact(agent: string, outcome: Outcome)

  function Peers(online: seq<Peer>, caller: string): seq<Peer> {
    Filter(online, (a: Peer) => a.id != caller)
  }

  ghost predicate RightImpact(db: Tables, p: Params, peer: Peer, x: Impact) {
    x.agent == peer.id && Right(db, p, peer, x.outcome)
  }

  /** The category of a peer, from the tables. */
  lemma CategoryOf(db: Tables, p: Params, peer: Peer, x: Impact)
    requires BarFreeRows(db.cochange) && RightImpact(db, p, peer, x)
    ensures x.outcome.score >= 90 <==> SharesTarget(db, p, peer.id)
    ensures x.outcome.score >= 30 <==> Scores(db, p, TableLookup(db, p), peer, 30)
  {
  }

  method ScorePeers(db: Tables, p: Params, peers: seq<Peer>, ix: Indexes) returns (impacts: seq<Impact>)
    requires Agree(db, p, ix)
    requires forall i :: 0 <= i < |peers| ==> peers[i].id != p.agent
    ensures |impacts| == |peers|
    ensures forall i :: 0 <= i < |peers| ==> RightImpact(db, p, peers[i], impacts[i])
  {
    impacts := [];
    for i := 0 to |peers|
      invariant |impacts| == i
      invariant forall j :: 0 <= j < i ==> RightImpact(db, p, peers[j], impacts[j])
    {
      var o := ScorePeer(db, p, peers[i], ix);
      var x := Impact(peers[i].id, o);
      assert RightImpact(db, p, peers[i], x);
      impacts := impacts + [x];
    }
  }

  /**
   Every online peer but the caller, in order.  Who is concerned and what a score is worth is right
   for all of them, and so is the score itself; the reasons are under the condition of `Right`.
   */
  method Score(db: Tables, p: Params, online: seq<Peer>) returns (impacts: seq<Impact>)
    ensures |impacts| == |Peers(online, p.agent)|
    ensures forall i :: 0 <= i < |impacts| ==> RightImpact(db, p, Peers(online, p.agent)[i], impacts[i])
  {
    var peers := Peers(online, p.agent);
    if |peers| == 0 {
      return [];
    }
    var ix := BuildIndexes(db, p);
    forall i | 0 <= i < |peers| ensures peers[i].id != p.agent {
      assert peers[i] in peers;
    }
    impacts := ScorePeers(db, p, peers, ix);
  }

  /** The categories hold exactly the scored peers, each in the category of its score. */
  ghost predicate Categorized(scores: seq<Impact>, concerned: seq<Impact>, gray: seq<Impact>, pass: seq<Impact>) {
    && (forall x :: x in concerned <==> x in scores && x.outcome.score >= 90)
    && (forall x :: x in gray <==> x in scores && 30 <= x.outcome.score < 90)
    && (forall x :: x in pass <==> x in scores && x.outcome.score < 30)
  }

  /** The peer is in the category its work calls for. */
  ghost predicate InItsCategory(db: Tables, p: Params, a: Peer, concerned: seq<Impact>, gray: seq<Impact>,
                                pass: seq<Impact>) {
    exists x :: RightImpact(db, p, a, x)
                && if SharesTarget(db, p, a.id) then x in concerned
                   else if BarFreeRows(db.cochange) then
                     if Scores(db, p, TableLookup(db, p), a, 30) then x in gray else x in pass
                   else x in gray || x in pass
  }

  lemma PeerCategorized(db: Tables, p: Params, a: Peer, x: Impact, scores: seq<Impact>, concerned: seq<Impact>,
                        gray: seq<Impact>, pass: seq<Impact>)
    requires Categorized(scores, concerned, gray, pass) && x in scores && RightImpact(db, p, a, x)
    ensures InItsCategory(db, p, a, concerned, gray, pass)
  {
    if BarFreeRows(db.cochange) {
      CategoryOf(db, p, a, x);
    }
  }

  /** Every category holds peers only, and the concerned ones are those that share a target file. */
  lemma OnlyPeersCategorized(db: Tables, p: Params, online: seq<Peer>, scores: seq<Impact>, concerned: seq<Impact>,
                             gray: seq<Impact>, pass: seq<Impact>, x: Impact)
    requires Categorized(scores, concerned, gray, pass) && x in concerned + gray + pass
    requires |scores| == |Peers(online, p.agent)|
    requires forall i :: 0 <= i < |scores| ==> RightImpact(db, p, Peers(online, p.agent)[i], scores[i])
    ensures exists a :: a in online && a.id != p.agent && RightImpact(db, p, a, x)
    ensures x in concerned <==> SharesTarget(db, p, x.agent)
  {
    var peers := Peers(online, p.agent);
    assert x in scores;
    var i :| 0 <= i < |scores| && scores[i] == x;
    assert peers[i] in peers && RightImpact(db, p, peers[i], x);
  }

  /**
   The three categories partition the peers: concerned are exactly those that share a target file, and
   of the others, on rows without bars, those with any weaker link to the work are in the gray zone.
   */
  method Categorize(db: Tables, p: Params, online: seq<Peer>)
    returns (concerned: seq<Impact>, gray: seq<Impact>, pass: seq<Impact>)
    ensures forall a :: a in online && a.id != p.agent ==> InItsCategory(db, p, a, concerned, gray, pass)
    ensures forall x :: x in concerned + gray + pass ==>
              exists a :: a in online && a.id != p.agent && RightImpact(db, p, a, x)
    ensures forall x :: x in concerned + gray + pass ==> (x in concerned <==> SharesTarget(db, p, x.agent))
    ensures forall x :: x in gray ==> 30 <= x.outcome.score < 90
    ensures forall x :: x in pass ==> x.outcome.score < 30
  {
    var scores := Score(db, p, online);
    concerned := Filter(scores, (s: Impact) => s.outcome.score >= 90);
    gray := Filter(scores, (s: Impact) => 30 <= s.outcome.score < 90);
    pass := Filter(scores, (s: Impact) => s.outcome.score < 30);
    ghost var peers := Peers(online, p.agent);
    forall a | a in online && a.id != p.agent ensures InItsCategory(db, p, a, concerned, gray, pass) {
      assert a in peers;
      var i :| 0 <= i < |peers| && peers[i] == a;
      PeerCategorized(db, p, a, scores[i], scores, concerned, gray, pass);
    }
    forall x | x in concerned + gray + pass
      ensures exists a :: a in online && a.id != p.agent && RightImpact(db, p, a, x)
      ensures x in concerned <==> SharesTarget(db, p, x.agent)
    {
      OnlyPeersCategorized(db, p, online, scores, concerned, gray, pass, x);
    }
  }
}
