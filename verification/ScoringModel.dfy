/**
 The impact of announced work on one online peer, layer by layer, read straight from the tables.
 This is the plain definition that the scorer's precomputed indexes have to agree with.
 */
module ScoringModel {
  import opened Common

  datatype Peer = Peer(id: string, modules: seq<string>)

  datatype ThreadStatus = Open | Resolving | Resolved | Other

  /** `fresh30` says the row falls within the 30-minute window of resolved threads. */
  datatype Thread = Thread(id: string, org: string, initiator: string, status: ThreadStatus, fresh30: bool,
                           targetFiles: seq<string>, dependsOn: seq<string>)

  /** The symbols column of an activity row: NULL, unparseable, or a list. */
  datatype Symbols = NoSymbols | Malformed | Listed(names: seq<string>)

  /** `fresh60` says the row falls within the 60-minute activity window. */
  datatype Activity = Activity(id: nat, org: string, file: string, agent: string, fresh60: bool, symbols: Symbols)

  /** `live` says the claim has not expired. */
  datatype Working = Working(org: string, file: string, agent: string, live: bool)

  datatype CoRow = CoRow(org: string, fileA: string, fileB: string, count: nat, total: nat)

  /** Each table in the order its query returns rows: threads newest first, the others as stored. */
  datatype Tables = Tables(threads: seq<Thread>, activity: seq<Activity>, working: seq<Working>, cochange: seq<CoRow>)

  datatype Params = Params(org: string, agent: string, targetModules: seq<string>, targetFiles: seq<string>,
                           dependsOn: seq<string>, targetSymbols: seq<string>)

  datatype Reason =
    | AnnouncedSameFile(files: seq<string>, thread: string)
    | ModifiesMyDependency(files: seq<string>, thread: string)
    | DependsOnMyTarget(files: seq<string>, thread: string)
    | DisjointSymbols(file: string, mine: seq<string>, theirs: seq<string>)
    | SameFileRecent(file: string)
    | SameFileInFlight(file: string)
    | DependencyTouched(file: string)
    | ModuleOverlap(modules: seq<string>)
    | CoChanged(file: string, partner: string, count: nat, total: nat)

  datatype Outcome = Outcome(score: nat, reasons: seq<Reason>)

  function Add(o: Outcome, score: nat, r: Reason): Outcome {
    Outcome(if o.score > score then o.score else score, o.reasons + [r])
  }

  function Fold<T>(xs: seq<T>, o: Outcome, f: (Outcome, T) -> Outcome): Outcome {
    if xs == [] then o else f(Fold(xs[..|xs| - 1], o, f), xs[|xs| - 1])
  }

  function Filter<T(!new)>(xs: seq<T>, keep: T -> bool): (r: seq<T>)
    ensures forall x :: x in r <==> x in xs && keep(x)
  {
    if xs == [] then []
    else Filter(xs[..|xs| - 1], keep) + if keep(xs[|xs| - 1]) then [xs[|xs| - 1]] else []
  }

  // ---------------------------------------------------------------- layer 0: announced intent

  /** Open threads, then resolving ones, then those resolved within the window. */
  function ActiveThreads(threads: seq<Thread>, org: string): seq<Thread> {
    Filter(threads, (t: Thread) => t.org == org && t.status.Open?)
    + Filter(threads, (t: Thread) => t.org == org && t.status.Resolving?)
    + Filter(threads, (t: Thread) => t.org == org && t.status.Resolved? && t.fresh30)
  }

  function Shared(mine: seq<string>, theirs: seq<string>): seq<string> {
    Filter(mine, f => f in theirs)
  }

  function AddIf(o: Outcome, cond: bool, score: nat, r: Reason): Outcome {
    if cond then Add(o, score, r) else o
  }

  function ThreadStep(p: Params, o: Outcome, t: Thread): Outcome {
    var same := Shared(p.targetFiles, t.targetFiles);
    var dep := Shared(p.dependsOn, t.targetFiles);
    var back := Shared(p.targetFiles, t.dependsOn);
    AddIf(AddIf(AddIf(o, same != [], 100, AnnouncedSameFile(same, t.id)),
                dep != [], 80, ModifiesMyDependency(dep, t.id)),
          back != [], 80, DependsOnMyTarget(back, t.id))
  }

  function OnThread(p: Params): (Outcome, Thread) -> Outcome {
    (o, t) => ThreadStep(p, o, t)
  }

  // ---------------------------------------------------------------- layers 1 and 2: files

  predicate TouchedRecently(activity: seq<Activity>, org: string, file: string, agent: string) {
    exists r :: r in activity && r.org == org && r.file == file && r.agent == agent && r.fresh60
  }

  predicate InFlight(working: seq<Working>, org: string, file: string, agent: string) {
    exists r :: r in working && r.org == org && r.file == file && r.agent == agent && r.live
  }

  /** The newest row of (file, agent) that has a symbols value; nothing when it does not parse. */
  function LatestSymbols(activity: seq<Activity>, org: string, file: string, agent: string): Option<seq<string>> {
    match Latest(activity, org, file, agent)
    case None => None
    case Some(r) => if r.symbols.Listed? then Some(r.symbols.names) else None
  }

  predicate HasSymbols(r: Activity, org: string, file: string, agent: string) {
    r.org == org && r.file == file && r.agent == agent && !r.symbols.NoSymbols?
  }

  function Latest(activity: seq<Activity>, org: string, file: string, agent: string): Option<Activity> {
    if activity == [] then None
    else
      var rest, r := Latest(activity[..|activity| - 1], org, file, agent), activity[|activity| - 1];
      if HasSymbols(r, org, file, agent) && (rest == None || rest.value.id < r.id) then Some(r) else rest
  }

  predicate Disjoint(mine: seq<string>, theirs: seq<string>) {
    forall s :: s in mine ==> s !in theirs
  }

  /** What the peer's own record says about a shared file that was recently touched. */
  function RecentReason(p: Params, file: string, theirs: Option<seq<string>>): Reason {
    if p.targetSymbols != [] && theirs.Some? && theirs.value != [] && Disjoint(p.targetSymbols, theirs.value)
    then DisjointSymbols(file, p.targetSymbols, theirs.value)
    else SameFileRecent(file)
  }

  /** Where the peer's symbols and the activity on partner files are looked up, by file and agent. */
  datatype Lookup = Lookup(symbols: (string, string) -> Option<seq<string>>, touched: (string, string) -> bool)

  function TableLookup(db: Tables, p: Params): Lookup {
    Lookup((f, a) => LatestSymbols(db.activity, p.org, f, a), (f, a) => TouchedRecently(db.activity, p.org, f, a))
  }

  function FileStep(db: Tables, p: Params, look: Lookup, agent: string, o: Outcome, file: string): Outcome {
    var recent := agent != p.agent && TouchedRecently(db.activity, p.org, file, agent);
    var flying := agent != p.agent && InFlight(db.working, p.org, file, agent);
    AddIf(AddIf(o, recent, 100, RecentReason(p, file, look.symbols(file, agent))),
          flying, 100, SameFileInFlight(file))
  }

  function OnFile(db: Tables, p: Params, look: Lookup, agent: string): (Outcome, string) -> Outcome {
    (o, f) => FileStep(db, p, look, agent, o, f)
  }

  function DependencyStep(db: Tables, p: Params, agent: string, o: Outcome, file: string): Outcome {
    AddIf(o, agent != p.agent && TouchedRecently(db.activity, p.org, file, agent), 80, DependencyTouched(file))
  }

  function OnDependency(db: Tables, p: Params, agent: string): (Outcome, string) -> Outcome {
    (o, f) => DependencyStep(db, p, agent, o, f)
  }

  // ---------------------------------------------------------------- layers 3 and 4

  function OverlappingModules(modules: seq<string>, targets: seq<string>): seq<string> {
    Filter(modules, m => exists t :: t in targets && SameTree(m, t))
  }

  /** `count / max(total, 1)` against one half and one fifth. */
  function CoScore(count: nat, total: nat): nat {
    var t := if total > 1 then total else 1;
    if 2 * count > t then 60 else if 5 * count > t then 40 else 0
  }

  predicate Mentions(r: CoRow, org: string, file: string) {
    r.org == org && (r.fileA == file || r.fileB == file)
  }

  /** Names without a bar, as in every row the builder writes. */
  ghost predicate BarFreeRows(rows: seq<CoRow>) {
    forall r :: r in rows ==> BarFree(r.fileA) && BarFree(r.fileB)
  }

  function Partner(r: CoRow, file: string): string {
    if r.fileA == file then r.fileB else r.fileA
  }

  /** One co-change row against one target file. */
  function CoStep(p: Params, look: Lookup, agent: string, file: string, o: Outcome, r: CoRow): Outcome {
    AddIf(o, Mentions(r, p.org, file) && CoScore(r.count, r.total) > 0 && look.touched(Partner(r, file), agent),
          CoScore(r.count, r.total), CoChanged(file, Partner(r, file), r.count, r.total))
  }

  function OnCoRow(p: Params, look: Lookup, agent: string, file: string): (Outcome, CoRow) -> Outcome {
    (o, r) => CoStep(p, look, agent, file, o, r)
  }

  function OnCoFile(db: Tables, p: Params, look: Lookup, agent: string): (Outcome, string) -> Outcome {
    (o, f) => Fold(db.cochange, o, OnCoRow(p, look, agent, f))
  }

  // ---------------------------------------------------------------- the direct evaluation

  function InitiatedBy(agent: string): Thread -> bool {
    (t: Thread) => t.initiator == agent
  }

  function ThreadsBy(threads: seq<Thread>, agent: string): seq<Thread> {
    Filter(threads, InitiatedBy(agent))
  }

  /** One peer against all layers. */
  function Evaluate(db: Tables, p: Params, look: Lookup, peer: Peer): Outcome {
    var o0 := Fold(ThreadsBy(ActiveThreads(db.threads, p.org), peer.id), Outcome(0, []), OnThread(p));
    var o1 := Fold(p.targetFiles, o0, OnFile(db, p, look, peer.id));
    var o2 := Fold(p.dependsOn, o1, OnDependency(db, p, peer.id));
    var overlap := OverlappingModules(peer.modules, p.targetModules);
    var o3 := AddIf(o2, overlap != [], 30, ModuleOverlap(overlap));
    Fold(p.targetFiles, o3, OnCoFile(db, p, look, peer.id))
  }

  /** Everything read straight from the tables. */
  function DirectScore(db: Tables, p: Params, peer: Peer): Outcome {
    Evaluate(db, p, TableLookup(db, p), peer)
  }

  // ---------------------------------------------------------------- who is concerned

  ghost predicate Raises<T(!new)>(f: (Outcome, T) -> Outcome, hit: T -> bool) {
    forall o, x :: f(o, x).score >= 90 <==> o.score >= 90 || hit(x)
  }

  lemma {:induction false} FoldRaises<T(!new)>(xs: seq<T>, o: Outcome, f: (Outcome, T) -> Outcome, hit: T -> bool)
    requires Raises(f, hit)
    ensures Fold(xs, o, f).score >= 90 <==> o.score >= 90 || exists x :: x in xs && hit(x)
    decreases |xs|
  {
    if xs != [] {
      FoldRaises(xs[..|xs| - 1], o, f, hit);
      assert xs == xs[..|xs| - 1] + [xs[|xs| - 1]];
      assert f(Fold(xs[..|xs| - 1], o, f), xs[|xs| - 1]) == Fold(xs, o, f);
    }
  }

  /** A thread announces one of the target files. */
  predicate Announces(p: Params, t: Thread) {
    exists f :: f in p.targetFiles && f in t.targetFiles
  }

  /** The peer is working on a target file: through a live thread, recent activity, or a claim. */
  ghost predicate SharesTarget(db: Tables, p: Params, agent: string) {
    || (exists t :: t in ActiveThreads(db.threads, p.org) && t.initiator == agent && Announces(p, t))
    || (exists f :: f in p.targetFiles
          && (TouchedRecently(db.activity, p.org, f, agent) || InFlight(db.working, p.org, f, agent)))
  }

  lemma ThreadRaises(p: Params)
    ensures Raises(OnThread(p), (t: Thread) => Announces(p, t))
  {
    forall o, t: Thread ensures OnThread(p)(o, t).score >= 90 <==> o.score >= 90 || Announces(p, t) {
      var same := Shared(p.targetFiles, t.targetFiles);
      assert same != [] <==> Announces(p, t) by {
        if same != [] {
          assert same[0] in same;
        }
      }
    }
  }

  lemma FileRaises(db: Tables, p: Params, look: Lookup, agent: string)
    requires agent != p.agent
    ensures Raises(OnFile(db, p, look, agent),
                   (f: string) =>
                     TouchedRecently(db.activity, p.org, f, agent) || InFlight(db.working, p.org, f, agent))
  {
  }

  lemma {:induction false} CoRowsNeverRaise(p: Params, look: Lookup, agent: string, file: string, rows: seq<CoRow>,
                                            o: Outcome)
    ensures Fold(rows, o, OnCoRow(p, look, agent, file)).score >= 90 <==> o.score >= 90
    decreases |rows|
  {
    if rows != [] {
      CoRowsNeverRaise(p, look, agent, file, rows[..|rows| - 1], o);
    }
  }

  lemma AnnouncedLayer(db: Tables, p: Params, agent: string)
    ensures Fold(ThreadsBy(ActiveThreads(db.threads, p.org), agent), Outcome(0, []), OnThread(p)).score >= 90 <==>
            exists t :: t in ActiveThreads(db.threads, p.org) && t.initiator == agent && Announces(p, t)
  {
    var mine := ThreadsBy(ActiveThreads(db.threads, p.org), agent);
    var announces := (t: Thread) => Announces(p, t);
    ThreadRaises(p);
    FoldRaises(mine, Outcome(0, []), OnThread(p), announces);
    assert forall t :: t in mine && announces(t) <==>
             t in ActiveThreads(db.threads, p.org) && t.initiator == agent && Announces(p, t);
  }

  lemma FileLayer(db: Tables, p: Params, look: Lookup, agent: string, o: Outcome)
    requires agent != p.agent
    ensures Fold(p.targetFiles, o, OnFile(db, p, look, agent)).score >= 90 <==>
            || o.score >= 90
            || (exists f :: f in p.targetFiles
                            && (TouchedRecently(db.activity, p.org, f, agent) || InFlight(db.working, p.org, f, agent)))
  {
    var touches := (f: string) =>
      TouchedRecently(db.activity, p.org, f, agent) || InFlight(db.working, p.org, f, agent);
    FileRaises(db, p, look, agent);
    FoldRaises(p.targetFiles, o, OnFile(db, p, look, agent), touches);
    assert forall f :: touches(f) <==>
             TouchedRecently(db.activity, p.org, f, agent) || InFlight(db.working, p.org, f, agent);
  }

  /** Dependencies, modules and co-change alone never reach 90. */
  lemma WeakLayers(db: Tables, p: Params, look: Lookup, agent: string, modules: seq<string>, o: Outcome)
    ensures var o2 := Fold(p.dependsOn, o, OnDependency(db, p, agent));
            var overlap := OverlappingModules(modules, p.targetModules);
            var o3 := AddIf(o2, overlap != [], 30, ModuleOverlap(overlap));
            Fold(p.targetFiles, o3, OnCoFile(db, p, look, agent)).score >= 90 <==> o.score >= 90
  {
    var never := (f: string) => false;
    FoldRaises(p.dependsOn, o, OnDependency(db, p, agent), never);
    var o2 := Fold(p.dependsOn, o, OnDependency(db, p, agent));
    var overlap := OverlappingModules(modules, p.targetModules);
    assert Raises(OnCoFile(db, p, look, agent), never) by {
      forall o, f ensures OnCoFile(db, p, look, agent)(o, f).score >= 90 <==> o.score >= 90 {
        CoRowsNeverRaise(p, look, agent, f, db.cochange, o);
      }
    }
    FoldRaises(p.targetFiles, AddIf(o2, overlap != [], 30, ModuleOverlap(overlap)), OnCoFile(db, p, look, agent),
               never);
  }

  /** `concerned` (a score of at least 90) means exactly that a target file is shared, whatever the lookup answers. */
  lemma ConcernedIffSharesTarget(db: Tables, p: Params, look: Lookup, peer: Peer)
    requires peer.id != p.agent
    ensures Evaluate(db, p, look, peer).score >= 90 <==> SharesTarget(db, p, peer.id)
  {
    AnnouncedLayer(db, p, peer.id);
    var o0 := Fold(ThreadsBy(ActiveThreads(db.threads, p.org), peer.id), Outcome(0, []), OnThread(p));
    FileLayer(db, p, look, peer.id, o0);
    WeakLayers(db, p, look, peer.id, peer.modules, Fold(p.targetFiles, o0, OnFile(db, p, look, peer.id)));
  }

  // ---------------------------------------------------------------- score and reasons agree

  function Worth(r: Reason): nat {
    match r
    case AnnouncedSameFile(_, _) => 100
    case ModifiesMyDependency(_, _) => 80
    case DependsOnMyTarget(_, _) => 80
    case DisjointSymbols(_, _, _) => 100
    case SameFileRecent(_) => 100
    case SameFileInFlight(_) => 100
    case DependencyTouched(_) => 80
    case ModuleOverlap(_) => 30
    case CoChanged(_, _, count, total) => CoScore(count, total)
  }

  /** The score is the worth of the best reason; without a reason it is zero. */
  ghost predicate Justified(o: Outcome) {
    && (forall r :: r in o.reasons ==> 0 < Worth(r) <= o.score)
    && (o.score > 0 ==> exists r :: r in o.reasons && Worth(r) == o.score)
  }

  lemma AddJustified(o: Outcome, r: Reason)
    requires Justified(o) && Worth(r) > 0
    ensures Justified(Add(o, Worth(r), r))
  {
    var a := Add(o, Worth(r), r);
    assert r in a.reasons;
    assert forall x :: x in o.reasons ==> x in a.reasons;
  }

  ghost predicate KeepsJustified<T(!new)>(f: (Outcome, T) -> Outcome) {
    forall o, x :: Justified(o) ==> Justified(f(o, x))
  }

  lemma {:induction false} FoldJustified<T(!new)>(xs: seq<T>, o: Outcome, f: (Outcome, T) -> Outcome)
    requires Justified(o) && KeepsJustified(f)
    ensures Justified(Fold(xs, o, f))
    decreases |xs|
  {
    if xs != [] {
      FoldJustified(xs[..|xs| - 1], o, f);
      assert Justified(f(Fold(xs[..|xs| - 1], o, f), xs[|xs| - 1]));
    }
  }

  lemma AddIfJustified(o: Outcome, cond: bool, r: Reason)
    requires Justified(o) && (cond ==> Worth(r) > 0)
    ensures Justified(AddIf(o, cond, Worth(r), r))
  {
    if cond {
      AddJustified(o, r);
    }
  }

  lemma ThreadsJustified(p: Params)
    ensures KeepsJustified(OnThread(p))
  {
    forall o, t: Thread | Justified(o) ensures Justified(OnThread(p)(o, t)) {
      var same := Shared(p.targetFiles, t.targetFiles);
      var dep := Shared(p.dependsOn, t.targetFiles);
      var back := Shared(p.targetFiles, t.dependsOn);
      AddIfJustified(o, same != [], AnnouncedSameFile(same, t.id));
      var o1 := AddIf(o, same != [], 100, AnnouncedSameFile(same, t.id));
      AddIfJustified(o1, dep != [], ModifiesMyDependency(dep, t.id));
      var o2 := AddIf(o1, dep != [], 80, ModifiesMyDependency(dep, t.id));
      AddIfJustified(o2, back != [], DependsOnMyTarget(back, t.id));
    }
  }

  lemma FilesJustified(db: Tables, p: Params, look: Lookup, agent: string)
    ensures KeepsJustified(OnFile(db, p, look, agent)) && KeepsJustified(OnDependency(db, p, agent))
  {
    forall o, f: string | Justified(o) ensures Justified(OnFile(db, p, look, agent)(o, f)) {
      var reason := RecentReason(p, f, look.symbols(f, agent));
      var recent := agent != p.agent && TouchedRecently(db.activity, p.org, f, agent);
      AddIfJustified(o, recent, reason);
      AddIfJustified(AddIf(o, recent, 100, reason), agent != p.agent && InFlight(db.working, p.org, f, agent),
                     SameFileInFlight(f));
    }
    forall o, f: string | Justified(o) ensures Justified(OnDependency(db, p, agent)(o, f)) {
      AddIfJustified(o, agent != p.agent && TouchedRecently(db.activity, p.org, f, agent), DependencyTouched(f));
    }
  }

  lemma CoRowsJustified(p: Params, look: Lookup, agent: string, file: string)
    ensures KeepsJustified(OnCoRow(p, look, agent, file))
  {
    forall o, r: CoRow | Justified(o) ensures Justified(OnCoRow(p, look, agent, file)(o, r)) {
      var hit := Mentions(r, p.org, file) && CoScore(r.count, r.total) > 0 && look.touched(Partner(r, file), agent);
      AddIfJustified(o, hit, CoChanged(file, Partner(r, file), r.count, r.total));
    }
  }

  lemma CoFilesJustified(db: Tables, p: Params, look: Lookup, agent: string)
    ensures KeepsJustified(OnCoFile(db, p, look, agent))
  {
    forall o, f: string | Justified(o) ensures Justified(OnCoFile(db, p, look, agent)(o, f)) {
      CoRowsJustified(p, look, agent, f);
      FoldJustified(db.cochange, o, OnCoRow(p, look, agent, f));
    }
  }

  /** A peer's score is the worth of its best reason, and it is zero exactly when there is none. */
  lemma ScoreIsJustified(db: Tables, p: Params, look: Lookup, peer: Peer)
    ensures Justified(Evaluate(db, p, look, peer))
    ensures Evaluate(db, p, look, peer).score == 0 <==> Evaluate(db, p, look, peer).reasons == []
  {
    ThreadsJustified(p);
    FilesJustified(db, p, look, peer.id);
    CoFilesJustified(db, p, look, peer.id);
    var o0 := Fold(ThreadsBy(ActiveThreads(db.threads, p.org), peer.id), Outcome(0, []), OnThread(p));
    FoldJustified(ThreadsBy(ActiveThreads(db.threads, p.org), peer.id), Outcome(0, []), OnThread(p));
    var o1 := Fold(p.targetFiles, o0, OnFile(db, p, look, peer.id));
    FoldJustified(p.targetFiles, o0, OnFile(db, p, look, peer.id));
    var o2 := Fold(p.dependsOn, o1, OnDependency(db, p, peer.id));
    FoldJustified(p.dependsOn, o1, OnDependency(db, p, peer.id));
    var overlap := OverlappingModules(peer.modules, p.targetModules);
    AddIfJustified(o2, overlap != [], ModuleOverlap(overlap));
    FoldJustified(p.targetFiles, AddIf(o2, overlap != [], 30, ModuleOverlap(overlap)), OnCoFile(db, p, look, peer.id));
    var o := Evaluate(db, p, look, peer);
    assert o.reasons != [] ==> o.reasons[0] in o.reasons;
  }

  // ---------------------------------------------------------------- which reasons, from the tables

  /** Open or resolving, or resolved within the window. */
  predicate IsActive(t: Thread, org: string) {
    t.org == org && (t.status == Open || t.status == Resolving || (t.status == Resolved && t.fresh30))
  }

  lemma ActiveThreadsAre(threads: seq<Thread>, org: string)
    ensures forall t :: t in ActiveThreads(threads, org) <==> t in threads && IsActive(t, org)
  {
  }

  /** Both sides name symbols and none of them is common. */
  predicate Apart(p: Params, theirs: Option<seq<string>>) {
    && p.targetSymbols != [] && theirs.Some? && theirs.value != []
    && forall x :: x in p.targetSymbols ==> x !in theirs.value
  }

  /** `count / max(total, 1)` exceeds one `k`-th. */
  predicate MoreThan(count: nat, total: nat, k: nat) {
    k * count > if total > 1 then total else 1
  }

  /** An active thread of the agent targets, or depends on, exactly these of my files. */
  ghost predicate ThreadShares(db: Tables, p: Params, agent: string, id: string, files: seq<string>,
                               mine: seq<string>, backwards: bool) {
    && files != []
    && exists t :: t in db.threads && IsActive(t, p.org) && t.initiator == agent && t.id == id
                   && files == Shared(mine, if backwards then t.dependsOn else t.targetFiles)
  }

  /** What has to be in the tables for a reason to be given; the lookup stands for symbols and partner activity. */
  ghost predicate Cause(db: Tables, p: Params, look: Lookup, peer: Peer, r: Reason) {
    match r
    case AnnouncedSameFile(files, id) => ThreadShares(db, p, peer.id, id, files, p.targetFiles, false)
    case ModifiesMyDependency(files, id) => ThreadShares(db, p, peer.id, id, files, p.dependsOn, false)
    case DependsOnMyTarget(files, id) => ThreadShares(db, p, peer.id, id, files, p.targetFiles, true)
    case DisjointSymbols(f, mine, theirs) =>
      && f in p.targetFiles && TouchedRecently(db.activity, p.org, f, peer.id)
      && mine == p.targetSymbols && look.symbols(f, peer.id) == Some(theirs) && Apart(p, Some(theirs))
    case SameFileRecent(f) =>
      f in p.targetFiles && TouchedRecently(db.activity, p.org, f, peer.id) && !Apart(p, look.symbols(f, peer.id))
    case SameFileInFlight(f) => f in p.targetFiles && InFlight(db.working, p.org, f, peer.id)
    case DependencyTouched(f) => f in p.dependsOn && TouchedRecently(db.activity, p.org, f, peer.id)
    case ModuleOverlap(ms) => ms != [] && ms == OverlappingModules(peer.modules, p.targetModules)
    case CoChanged(f, x, count, total) =>
      && f in p.targetFiles && MoreThan(count, total, 5) && look.touched(x, peer.id)
      && exists row :: row in db.cochange && CoPair(row, p.org, f, x) && row.count == count && row.total == total
  }

  /** The row pairs the file with `x`. */
  predicate CoPair(row: CoRow, org: string, f: string, x: string) {
    row.org == org && ((row.fileA == f && row.fileB == x) || (row.fileA != f && row.fileB == f && row.fileA == x))
  }

  ghost predicate Adds<T(!new)>(f: (Outcome, T) -> Outcome, adds: (T, Reason) -> bool) {
    forall o, x, r :: r in f(o, x).reasons <==> r in o.reasons || adds(x, r)
  }

  lemma {:induction false} FoldAdds<T(!new)>(xs: seq<T>, o: Outcome, f: (Outcome, T) -> Outcome,
                                             adds: (T, Reason) -> bool, r: Reason)
    requires Adds(f, adds)
    ensures r in Fold(xs, o, f).reasons <==> r in o.reasons || exists x :: x in xs && adds(x, r)
    decreases |xs|
  {
    if xs != [] {
      var init, last := xs[..|xs| - 1], xs[|xs| - 1];
      assert xs == init + [last];
      FoldAdds(init, o, f, adds, r);
      var q := Fold(init, o, f);
      assert r in f(q, last).reasons <==> r in q.reasons || adds(last, r);
    }
  }

  lemma AddIfAdds(o: Outcome, cond: bool, score: nat, reason: Reason, r: Reason)
    ensures r in AddIf(o, cond, score, reason).reasons <==> r in o.reasons || (cond && r == reason)
  {
  }

  predicate ThreadGives(p: Params, t: Thread, r: Reason) {
    var same, dep := Shared(p.targetFiles, t.targetFiles), Shared(p.dependsOn, t.targetFiles);
    var back := Shared(p.targetFiles, t.dependsOn);
    || (same != [] && r == AnnouncedSameFile(same, t.id))
    || (dep != [] && r == ModifiesMyDependency(dep, t.id))
    || (back != [] && r == DependsOnMyTarget(back, t.id))
  }

  function ThreadAdds(p: Params): (Thread, Reason) -> bool {
    (t: Thread, r: Reason) => ThreadGives(p, t, r)
  }

  lemma ThreadStepAdds(p: Params)
    ensures Adds(OnThread(p), ThreadAdds(p))
  {
    forall o, t: Thread, r ensures r in OnThread(p)(o, t).reasons <==> r in o.reasons || ThreadGives(p, t, r) {
      var same := Shared(p.targetFiles, t.targetFiles);
      var dep := Shared(p.dependsOn, t.targetFiles);
      var o1 := AddIf(o, same != [], 100, AnnouncedSameFile(same, t.id));
      var o2 := AddIf(o1, dep != [], 80, ModifiesMyDependency(dep, t.id));
      AddIfAdds(o, same != [], 100, AnnouncedSameFile(same, t.id), r);
      AddIfAdds(o1, dep != [], 80, ModifiesMyDependency(dep, t.id), r);
      var back := Shared(p.targetFiles, t.dependsOn);
      AddIfAdds(o2, back != [], 80, DependsOnMyTarget(back, t.id), r);
    }
  }

  predicate FileGives(db: Tables, p: Params, look: Lookup, agent: string, f: string, r: Reason) {
    && agent != p.agent
    && (|| (TouchedRecently(db.activity, p.org, f, agent) && r == RecentReason(p, f, look.symbols(f, agent)))
        || (InFlight(db.working, p.org, f, agent) && r == SameFileInFlight(f)))
  }

  function FileAdds(db: Tables, p: Params, look: Lookup, agent: string): (string, Reason) -> bool {
    (f: string, r: Reason) => FileGives(db, p, look, agent, f, r)
  }

  lemma FileStepAdds(db: Tables, p: Params, look: Lookup, agent: string)
    ensures Adds(OnFile(db, p, look, agent), FileAdds(db, p, look, agent))
  {
    forall o, f: string, r
      ensures r in OnFile(db, p, look, agent)(o, f).reasons <==> r in o.reasons || FileGives(db, p, look, agent, f, r)
    {
      var recent := agent != p.agent && TouchedRecently(db.activity, p.org, f, agent);
      var flying := agent != p.agent && InFlight(db.working, p.org, f, agent);
      var reason := RecentReason(p, f, look.symbols(f, agent));
      AddIfAdds(o, recent, 100, reason, r);
      AddIfAdds(AddIf(o, recent, 100, reason), flying, 100, SameFileInFlight(f), r);
    }
  }

  predicate DependencyGives(db: Tables, p: Params, agent: string, f: string, r: Reason) {
    agent != p.agent && TouchedRecently(db.activity, p.org, f, agent) && r == DependencyTouched(f)
  }

  function DependencyAdds(db: Tables, p: Params, agent: string): (string, Reason) -> bool {
    (f: string, r: Reason) => DependencyGives(db, p, agent, f, r)
  }

  lemma DependencyStepAdds(db: Tables, p: Params, agent: string)
    ensures Adds(OnDependency(db, p, agent), DependencyAdds(db, p, agent))
  {
    forall o, f: string, r
      ensures r in OnDependency(db, p, agent)(o, f).reasons <==> r in o.reasons || DependencyGives(db, p, agent, f, r)
    {
      AddIfAdds(o, agent != p.agent && TouchedRecently(db.activity, p.org, f, agent), 80, DependencyTouched(f), r);
    }
  }

  predicate CoRowGives(p: Params, look: Lookup, agent: string, file: string, row: CoRow, r: Reason) {
    && Mentions(row, p.org, file) && CoScore(row.count, row.total) > 0 && look.touched(Partner(row, file), agent)
    && r == CoChanged(file, Partner(row, file), row.count, row.total)
  }

  function CoRowAdds(p: Params, look: Lookup, agent: string, file: string): (CoRow, Reason) -> bool {
    (row: CoRow, r: Reason) => CoRowGives(p, look, agent, file, row, r)
  }

  lemma CoRowStepAdds(p: Params, look: Lookup, agent: string, file: string)
    ensures Adds(OnCoRow(p, look, agent, file), CoRowAdds(p, look, agent, file))
  {
    forall o, row: CoRow, r
      ensures r in OnCoRow(p, look, agent, file)(o, row).reasons <==>
              r in o.reasons || CoRowGives(p, look, agent, file, row, r)
    {
      var hit := Mentions(row, p.org, file) && CoScore(row.count, row.total) > 0
                 && look.touched(Partner(row, file), agent);
      AddIfAdds(o, hit, CoScore(row.count, row.total), CoChanged(file, Partner(row, file), row.count, row.total), r);
    }
  }

  predicate CoFileGives(db: Tables, p: Params, look: Lookup, agent: string, f: string, r: Reason) {
    exists row :: row in db.cochange && CoRowGives(p, look, agent, f, row, r)
  }

  function CoFileAdds(db: Tables, p: Params, look: Lookup, agent: string): (string, Reason) -> bool {
    (f: string, r: Reason) => CoFileGives(db, p, look, agent, f, r)
  }

  lemma CoFileStepAdds(db: Tables, p: Params, look: Lookup, agent: string)
    ensures Adds(OnCoFile(db, p, look, agent), CoFileAdds(db, p, look, agent))
  {
    forall o, f: string, r
      ensures r in OnCoFile(db, p, look, agent)(o, f).reasons <==>
              r in o.reasons || CoFileGives(db, p, look, agent, f, r)
    {
      CoRowStepAdds(p, look, agent, f);
      FoldAdds(db.cochange, o, OnCoRow(p, look, agent, f), CoRowAdds(p, look, agent, f), r);
      assert forall row :: CoRowAdds(p, look, agent, f)(row, r) <==> CoRowGives(p, look, agent, f, row, r);
    }
  }

  /** Where the reasons of an evaluation come from, layer by layer. */
  ghost predicate Contributed(db: Tables, p: Params, look: Lookup, peer: Peer, r: Reason) {
    var overlap := OverlappingModules(peer.modules, p.targetModules);
    || (exists t :: t in ThreadsBy(ActiveThreads(db.threads, p.org), peer.id) && ThreadGives(p, t, r))
    || (exists f :: f in p.targetFiles && FileGives(db, p, look, peer.id, f, r))
    || (exists f :: f in p.dependsOn && DependencyGives(db, p, peer.id, f, r))
    || (overlap != [] && r == ModuleOverlap(overlap))
    || (exists f :: f in p.targetFiles && CoFileGives(db, p, look, peer.id, f, r))
  }

  lemma LayersContribute(db: Tables, p: Params, look: Lookup, peer: Peer, r: Reason)
    ensures r in Evaluate(db, p, look, peer).reasons <==> Contributed(db, p, look, peer, r)
  {
    var mine := ThreadsBy(ActiveThreads(db.threads, p.org), peer.id);
    ThreadStepAdds(p);
    FoldAdds(mine, Outcome(0, []), OnThread(p), ThreadAdds(p), r);
    assert forall t :: ThreadAdds(p)(t, r) <==> ThreadGives(p, t, r);
    var o0 := Fold(mine, Outcome(0, []), OnThread(p));
    FileStepAdds(db, p, look, peer.id);
    FoldAdds(p.targetFiles, o0, OnFile(db, p, look, peer.id), FileAdds(db, p, look, peer.id), r);
    assert forall f :: FileAdds(db, p, look, peer.id)(f, r) <==> FileGives(db, p, look, peer.id, f, r);
    var o1 := Fold(p.targetFiles, o0, OnFile(db, p, look, peer.id));
    DependencyStepAdds(db, p, peer.id);
    FoldAdds(p.dependsOn, o1, OnDependency(db, p, peer.id), DependencyAdds(db, p, peer.id), r);
    assert forall f :: DependencyAdds(db, p, peer.id)(f, r) <==> DependencyGives(db, p, peer.id, f, r);
    var o2 := Fold(p.dependsOn, o1, OnDependency(db, p, peer.id));
    var overlap := OverlappingModules(peer.modules, p.targetModules);
    AddIfAdds(o2, overlap != [], 30, ModuleOverlap(overlap), r);
    var o3 := AddIf(o2, overlap != [], 30, ModuleOverlap(overlap));
    CoFileStepAdds(db, p, look, peer.id);
    FoldAdds(p.targetFiles, o3, OnCoFile(db, p, look, peer.id), CoFileAdds(db, p, look, peer.id), r);
    assert forall f :: CoFileAdds(db, p, look, peer.id)(f, r) <==> CoFileGives(db, p, look, peer.id, f, r);
  }

  lemma ContributedByThread(db: Tables, p: Params, look: Lookup, peer: Peer, r: Reason)
    requires r.AnnouncedSameFile? || r.ModifiesMyDependency? || r.DependsOnMyTarget?
    ensures Contributed(db, p, look, peer, r) <==> Cause(db, p, look, peer, r)
  {
    ActiveThreadsAre(db.threads, p.org);
    var mine := ThreadsBy(ActiveThreads(db.threads, p.org), peer.id);
    assert forall t :: t in mine <==> t in db.threads && IsActive(t, p.org) && t.initiator == peer.id;
    if Cause(db, p, look, peer, r) {
      var backwards := r.DependsOnMyTarget?;
      var own := if r.ModifiesMyDependency? then p.dependsOn else p.targetFiles;
      var t :| t in db.threads && IsActive(t, p.org) && t.initiator == peer.id && t.id == r.thread
               && r.files == Shared(own, if backwards then t.dependsOn else t.targetFiles);
      assert ThreadGives(p, t, r);
    }
  }

  lemma ContributedByFile(db: Tables, p: Params, look: Lookup, peer: Peer, r: Reason)
    requires peer.id != p.agent
    requires r.DisjointSymbols? || r.SameFileRecent? || r.SameFileInFlight? || r.DependencyTouched?
    ensures Contributed(db, p, look, peer, r) <==> Cause(db, p, look, peer, r)
  {
    if Cause(db, p, look, peer, r) {
      if r.DependencyTouched? {
        assert DependencyGives(db, p, peer.id, r.file, r);
      } else {
        assert FileGives(db, p, look, peer.id, r.file, r);
      }
    }
  }

  lemma ContributedByCoChange(db: Tables, p: Params, look: Lookup, peer: Peer, r: Reason)
    requires r.CoChanged?
    ensures Contributed(db, p, look, peer, r) <==> Cause(db, p, look, peer, r)
  {
    if Contributed(db, p, look, peer, r) {
      var f :| f in p.targetFiles && CoFileGives(db, p, look, peer.id, f, r);
      var row :| row in db.cochange && CoRowGives(p, look, peer.id, f, row, r);
      assert CoPair(row, p.org, f, r.partner);
    }
    if Cause(db, p, look, peer, r) {
      var row :| row in db.cochange && CoPair(row, p.org, r.file, r.partner)
                 && row.count == r.count && row.total == r.total;
      assert CoRowGives(p, look, peer.id, r.file, row, r);
      assert CoFileGives(db, p, look, peer.id, r.file, r);
    }
  }

  /** A reason is given if and only if the tables hold its cause. */
  lemma ReasonsAreCaused(db: Tables, p: Params, look: Lookup, peer: Peer, r: Reason)
    requires peer.id != p.agent
    ensures r in Evaluate(db, p, look, peer).reasons <==> Cause(db, p, look, peer, r)
  {
    LayersContribute(db, p, look, peer, r);
    match r
    case AnnouncedSameFile(_, _) => ContributedByThread(db, p, look, peer, r);
    case ModifiesMyDependency(_, _) => ContributedByThread(db, p, look, peer, r);
    case DependsOnMyTarget(_, _) => ContributedByThread(db, p, look, peer, r);
    case ModuleOverlap(_) =>
    case CoChanged(_, _, _, _) => ContributedByCoChange(db, p, look, peer, r);
    case _ => ContributedByFile(db, p, look, peer, r);
  }

  // ---------------------------------------------------------------- what a score means

  /** A dependency in either direction, announced or touched. */
  ghost predicate DependencyLinked(db: Tables, p: Params, agent: string) {
    || (exists t, f :: t in db.threads && IsActive(t, p.org) && t.initiator == agent
                       && ((f in p.dependsOn && f in t.targetFiles) || (f in p.targetFiles && f in t.dependsOn)))
    || (exists f :: f in p.dependsOn && TouchedRecently(db.activity, p.org, f, agent))
  }

  /** A target file changes together with a file the agent touched, in more than one `k`-th of the commits. */
  ghost predicate CoLinked(db: Tables, p: Params, look: Lookup, agent: string, k: nat) {
    exists f, x, row :: f in p.targetFiles && row in db.cochange && CoPair(row, p.org, f, x)
                        && MoreThan(row.count, row.total, k) && look.touched(x, agent)
  }

  ghost predicate ModuleLinked(p: Params, modules: seq<string>) {
    exists m, t :: m in modules && t in p.targetModules && SameTree(m, t)
  }

  /** Which causes a score of at least `n` needs. */
  ghost predicate Scores(db: Tables, p: Params, look: Lookup, peer: Peer, n: nat) {
    || SharesTarget(db, p, peer.id)
    || (n <= 80 && DependencyLinked(db, p, peer.id))
    || (n <= 60 && CoLinked(db, p, look, peer.id, 2))
    || (n <= 40 && CoLinked(db, p, look, peer.id, 5))
    || (n <= 30 && ModuleLinked(p, peer.modules))
  }

  lemma WorthyCauseScores(db: Tables, p: Params, look: Lookup, peer: Peer, r: Reason, n: nat)
    requires Cause(db, p, look, peer, r) && Worth(r) >= n && 0 < n
    ensures Scores(db, p, look, peer, n)
  {
    ActiveThreadsAre(db.threads, p.org);
    match r
    case AnnouncedSameFile(files, id) =>
      assert files[0] in files;
    case ModifiesMyDependency(files, id) =>
      assert files[0] in files;
    case DependsOnMyTarget(files, id) =>
      assert files[0] in files;
    case ModuleOverlap(ms) =>
      assert ms[0] in ms;
    case CoChanged(f, x, count, total) =>
      var row :| row in db.cochange && CoPair(row, p.org, f, x) && row.count == count && row.total == total;
      assert MoreThan(row.count, row.total, 5);
      assert n > 40 ==> MoreThan(row.count, row.total, 2);
    case _ =>
  }

  lemma SharedNonEmpty(mine: seq<string>, theirs: seq<string>, f: string)
    requires f in mine && f in theirs
    ensures Shared(mine, theirs) != []
  {
    assert f in Shared(mine, theirs);
  }

  lemma SharingHasCause(db: Tables, p: Params, look: Lookup, peer: Peer) returns (r: Reason)
    requires SharesTarget(db, p, peer.id)
    ensures Cause(db, p, look, peer, r) && Worth(r) == 100
  {
    ActiveThreadsAre(db.threads, p.org);
    if t :| t in ActiveThreads(db.threads, p.org) && t.initiator == peer.id && Announces(p, t) {
      var f :| f in p.targetFiles && f in t.targetFiles;
      SharedNonEmpty(p.targetFiles, t.targetFiles, f);
      r := AnnouncedSameFile(Shared(p.targetFiles, t.targetFiles), t.id);
    } else {
      var f :| f in p.targetFiles
               && (TouchedRecently(db.activity, p.org, f, peer.id) || InFlight(db.working, p.org, f, peer.id));
      r := if TouchedRecently(db.activity, p.org, f, peer.id) then RecentReason(p, f, look.symbols(f, peer.id))
           else SameFileInFlight(f);
    }
  }

  lemma DependencyHasCause(db: Tables, p: Params, look: Lookup, peer: Peer) returns (r: Reason)
    requires DependencyLinked(db, p, peer.id)
    ensures Cause(db, p, look, peer, r) && Worth(r) == 80
  {
    if f :| f in p.dependsOn && TouchedRecently(db.activity, p.org, f, peer.id) {
      r := DependencyTouched(f);
    } else {
      var t, f :| t in db.threads && IsActive(t, p.org) && t.initiator == peer.id
                  && ((f in p.dependsOn && f in t.targetFiles) || (f in p.targetFiles && f in t.dependsOn));
      if f in p.dependsOn && f in t.targetFiles {
        SharedNonEmpty(p.dependsOn, t.targetFiles, f);
        r := ModifiesMyDependency(Shared(p.dependsOn, t.targetFiles), t.id);
      } else {
        SharedNonEmpty(p.targetFiles, t.dependsOn, f);
        r := DependsOnMyTarget(Shared(p.targetFiles, t.dependsOn), t.id);
      }
    }
  }

  lemma CoLinkHasCause(db: Tables, p: Params, look: Lookup, peer: Peer, k: nat) returns (r: Reason)
    requires (k == 2 || k == 5) && CoLinked(db, p, look, peer.id, k)
    ensures Cause(db, p, look, peer, r) && Worth(r) >= if k == 2 then 60 else 40
  {
    var f, x, row :| f in p.targetFiles && row in db.cochange && CoPair(row, p.org, f, x)
                     && MoreThan(row.count, row.total, k) && look.touched(x, peer.id);
    r := CoChanged(f, x, row.count, row.total);
  }

  lemma ModuleHasCause(db: Tables, p: Params, look: Lookup, peer: Peer) returns (r: Reason)
    requires ModuleLinked(p, peer.modules)
    ensures Cause(db, p, look, peer, r) && Worth(r) == 30
  {
    var m, t :| m in peer.modules && t in p.targetModules && SameTree(m, t);
    var overlap := OverlappingModules(peer.modules, p.targetModules);
    assert m in overlap;
    r := ModuleOverlap(overlap);
  }

  lemma ScoreHasCause(db: Tables, p: Params, look: Lookup, peer: Peer, n: nat) returns (r: Reason)
    requires 0 < n <= 100 && Scores(db, p, look, peer, n)
    ensures Cause(db, p, look, peer, r) && Worth(r) >= n
  {
    if SharesTarget(db, p, peer.id) {
      r := SharingHasCause(db, p, look, peer);
    } else if n <= 80 && DependencyLinked(db, p, peer.id) {
      r := DependencyHasCause(db, p, look, peer);
    } else if n <= 60 && CoLinked(db, p, look, peer.id, 2) {
      r := CoLinkHasCause(db, p, look, peer, 2);
    } else if n <= 40 && CoLinked(db, p, look, peer.id, 5) {
      r := CoLinkHasCause(db, p, look, peer, 5);
    } else {
      r := ModuleHasCause(db, p, look, peer);
    }
  }

  /**
   What a score means, from the tables: 100 for a shared target file, 80 for a dependency in either
   direction, 60 or 40 for co-change, 30 for a module, the highest that applies.
   */
  lemma ScoreMeans(db: Tables, p: Params, look: Lookup, peer: Peer, n: nat)
    requires peer.id != p.agent && 0 < n <= 100
    ensures Evaluate(db, p, look, peer).score >= n <==> Scores(db, p, look, peer, n)
  {
    var o := Evaluate(db, p, look, peer);
    ScoreIsJustified(db, p, look, peer);
    if o.score >= n {
      var r :| r in o.reasons && Worth(r) == o.score;
      ReasonsAreCaused(db, p, look, peer, r);
      WorthyCauseScores(db, p, look, peer, r, n);
    }
    if Scores(db, p, look, peer, n) {
      var r := ScoreHasCause(db, p, look, peer, n);
      ReasonsAreCaused(db, p, look, peer, r);
    }
  }

  // ---------------------------------------------------------------- the newest symbols

  /** `Latest` is the row with the highest id among those of the pair that have a symbols value. */
  lemma {:induction false} LatestIsNewest(activity: seq<Activity>, org: string, file: string, agent: string)
    ensures var n := Latest(activity, org, file, agent);
            && (n == None <==> forall r :: r in activity ==> !HasSymbols(r, org, file, agent))
            && (n.Some? ==>
                  && n.value in activity && HasSymbols(n.value, org, file, agent)
                  && forall r :: r in activity && HasSymbols(r, org, file, agent) ==> r.id <= n.value.id)
    decreases |activity|
  {
    if activity != [] {
      var init, last := activity[..|activity| - 1], activity[|activity| - 1];
      assert activity == init + [last];
      LatestIsNewest(init, org, file, agent);
    }
  }
}
