/**
 Migration v11, the part that repairs data before agent ids become unique per organisation only:
 recovery of referenced agents that exist nowhere, the merge of duplicate status rows, and the
 re-parenting of rows that drifted to another organisation than their agent's.

 The migration runs while a unique index on `agents(id)` still holds, so `agents` is a map from an
 id to the one organisation that has it.
 */
module AgentMigration {
  import opened Common

  /** A row of one of the four history tables; `body` stands for the columns the migration copies. */
  datatype Ref = Ref(agent: string, org: string, body: string)

  /** A row of `agent_activity_status`, whose primary key is (org, agent). */
  datatype Status = Status(agent: string, org: string, last: Option<string>, body: string)

  type Agents = map<string, string>

  type Votes = map<string, map<string, nat>>

  ghost predicate KeysUnique(status: set<Status>) {
    forall r, s :: r in status && s in status && r.agent == s.agent && r.org == s.org ==> r == s
  }

  // ---------------------------------------------------------------- votes of dangling references

  function Count(rows: seq<Ref>, id: string, org: string): nat {
    if rows == [] then 0
    else Count(rows[..|rows| - 1], id, org)
         + if rows[|rows| - 1].agent == id && rows[|rows| - 1].org == org then 1 else 0
  }

  /** The places of the rows that reference the id from the organisation. */
  ghost function Places(rows: seq<Ref>, id: string, org: string): set<int> {
    set i | 0 <= i < |rows| && rows[i].agent == id && rows[i].org == org
  }

  lemma {:induction false} CountIsNumber(rows: seq<Ref>, id: string, org: string)
    ensures Count(rows, id, org) == |Places(rows, id, org)|
    decreases |rows|
  {
    if rows == [] {
      assert Places(rows, id, org) == {};
    } else {
      var n := |rows| - 1;
      CountIsNumber(rows[..n], id, org);
      PlacesNext(rows, id, org);
    }
  }

  lemma PlacesNext(rows: seq<Ref>, id: string, org: string)
    requires rows != []
    ensures var n := |rows| - 1;
            |Places(rows, id, org)| ==
            |Places(rows[..n], id, org)| + if rows[n].agent == id && rows[n].org == org then 1 else 0
  {
    var n := |rows| - 1;
    if rows[n].agent == id && rows[n].org == org {
      assert Places(rows, id, org) == Places(rows[..n], id, org) + {n};
    } else {
      assert Places(rows, id, org) == Places(rows[..n], id, org);
    }
  }

  function CountAll(tables: seq<seq<Ref>>, id: string, org: string): nat {
    if tables == [] then 0 else CountAll(tables[..|tables| - 1], id, org) + Count(tables[|tables| - 1], id, org)
  }

  /** 1 when the status table has a row of `id` in `org`; its key allows no second one. */
  ghost function StatusVote(status: set<Status>, id: string, org: string): nat {
    if exists r :: r in status && r.agent == id && r.org == org then 1 else 0
  }

  /** How many rows of the five tables reference `id` from `org`. */
  ghost function References(tables: seq<seq<Ref>>, status: set<Status>, id: string, org: string): nat {
    CountAll(tables, id, org) + StatusVote(status, id, org)
  }

  function Get(votes: Votes, id: string, org: string): nat {
    if id in votes && org in votes[id] then votes[id][org] else 0
  }

  function AddVote(votes: Votes, id: string, org: string): Votes {
    var inner := if id in votes then votes[id] else map[];
    votes[id := inner[org := Get(votes, id, org) + 1]]
  }

  /** Only ids with a vote have an entry, and only organisations with a vote are listed. */
  ghost predicate Tidy(votes: Votes) {
    forall id :: id in votes ==> votes[id] != map[] && forall org :: org in votes[id] ==> votes[id][org] > 0
  }

  lemma AddVoteTidy(votes: Votes, id: string, org: string)
    requires Tidy(votes)
    ensures Tidy(AddVote(votes, id, org))
    ensures forall i, o :: Get(AddVote(votes, id, org), i, o) == Get(votes, i, o) + if i == id && o == org then 1 else 0
  {
    var w := AddVote(votes, id, org);
    assert org in w[id];
    assert forall i :: i != id ==> (i in w <==> i in votes);
  }

  /** One table's dangling references, added to the votes of the tables before it. */
  method CollectTable(agents: Agents, rows: seq<Ref>, before: Votes) returns (votes: Votes)
    requires Tidy(before)
    ensures Tidy(votes)
    ensures forall id, org ::
              Get(votes, id, org) == Get(before, id, org) + if id in agents then 0 else Count(rows, id, org)
  {
    votes := before;
    for i := 0 to |rows|
      invariant Tidy(votes)
      invariant forall id, org :: Get(votes, id, org) ==
                  Get(before, id, org) + if id in agents then 0 else Count(rows[..i], id, org)
    {
      assert rows[..i + 1][..i] == rows[..i];
      if rows[i].agent !in agents {
        AddVoteTidy(votes, rows[i].agent, rows[i].org);
        votes := AddVote(votes, rows[i].agent, rows[i].org);
      }
    }
    assert rows[..|rows|] == rows;
  }

  method CollectStatus(agents: Agents, status: set<Status>, before: Votes) returns (votes: Votes)
    requires Tidy(before) && KeysUnique(status)
    ensures Tidy(votes)
    ensures forall id, org ::
              Get(votes, id, org) == Get(before, id, org) + if id in agents then 0 else StatusVote(status, id, org)
  {
    votes := before;
    var todo := status;
    while todo != {}
      invariant todo <= status && Tidy(votes)
      invariant forall id, org :: Get(votes, id, org) ==
                  Get(before, id, org) + if id in agents then 0 else StatusVote(status - todo, id, org)
      decreases |todo|
    {
      var r :| r in todo;
      assert forall id, org :: StatusVote(status - (todo - {r}), id, org) ==
                               StatusVote(status - todo, id, org) + if id == r.agent && org == r.org then 1 else 0 by {
        forall id, org
          ensures StatusVote(status - (todo - {r}), id, org) ==
                  StatusVote(status - todo, id, org) + if id == r.agent && org == r.org then 1 else 0
        {
          StatusVoteStep(status, todo, r, id, org);
        }
      }
      if r.agent !in agents {
        AddVoteTidy(votes, r.agent, r.org);
        votes := AddVote(votes, r.agent, r.org);
      }
      todo := todo - {r};
    }
    assert status - todo == status;
  }

  lemma StatusVoteStep(status: set<Status>, todo: set<Status>, r: Status, id: string, org: string)
    requires KeysUnique(status) && todo <= status && r in todo
    ensures StatusVote(status - (todo - {r}), id, org) ==
            StatusVote(status - todo, id, org) + if id == r.agent && org == r.org then 1 else 0
  {
    var before, after := status - todo, status - (todo - {r});
    assert after == before + {r};
    assert r in after && r !in before;
  }

  /** The scan over the five tables: every unknown id, with the organisations its rows carry. */
  method Collect(agents: Agents, tables: seq<seq<Ref>>, status: set<Status>) returns (votes: Votes)
    requires KeysUnique(status)
    ensures Tidy(votes)
    ensures forall id, org :: Get(votes, id, org) == if id in agents then 0 else References(tables, status, id, org)
  {
    votes := map[];
    for t := 0 to |tables|
      invariant Tidy(votes)
      invariant forall id, org :: Get(votes, id, org) == if id in agents then 0 else CountAll(tables[..t], id, org)
    {
      assert tables[..t + 1][..t] == tables[..t];
      votes := CollectTable(agents, tables[t], votes);
    }
    assert tables[..|tables|] == tables;
    votes := CollectStatus(agents, status, votes);
  }

  // ---------------------------------------------------------------- the chosen organisation

  /** The order in which organisations with equal votes are tried; the source takes the locale's. */
  type Order = (string, string) -> bool

  ghost predicate StrictTotal(less: Order) {
    && (forall a :: !less(a, a))
    && (forall a, b :: a == b || less(a, b) || less(b, a))
    && (forall a, b, c :: less(a, b) && less(b, c) ==> less(a, c))
  }

  /** The majority organisation, the lowest one among several. */
  ghost predicate IsBest(less: Order, v: map<string, nat>, org: string) {
    org in v && forall o :: o in v && o != org ==> v[o] < v[org] || (v[o] == v[org] && less(org, o))
  }

  lemma BestIsUnique(less: Order, v: map<string, nat>, a: string, b: string)
    requires StrictTotal(less) && IsBest(less, v, a) && IsBest(less, v, b)
    ensures a == b
  {
    assert !(less(a, b) && less(b, a));
  }

  /** The order the status merge uses is one. */
  lemma CodeUnitOrderIsStrictTotal()
    ensures StrictTotal((a: string, b: string) => Less(a, b))
  {
    forall a ensures !Less(a, a) {
      LessIrreflexive(a);
    }
    forall a, b ensures a == b || Less(a, b) || Less(b, a) {
      LessTotal(a, b);
    }
    forall a, b, c | Less(a, b) && Less(b, c) ensures Less(a, c) {
      LessTransitive(a, b, c);
    }
  }

  /** The head of the list sorted by votes descending, then by organisation ascending. */
  method PickBest(less: Order, v: map<string, nat>) returns (best: string)
    requires StrictTotal(less) && v != map[]
    ensures IsBest(less, v, best)
  {
    best :| best in v;
    var todo := v.Keys - {best};
    while todo != {}
      invariant todo <= v.Keys && best in v && best !in todo
      invariant forall o :: o in v && o !in todo && o != best ==> v[o] < v[best] || (v[o] == v[best] && less(best, o))
      decreases |todo|
    {
      var o :| o in todo;
      todo := todo - {o};
      if v[o] > v[best] || (v[o] == v[best] && less(o, best)) {
        assert forall p :: p in v && p !in todo && p != o && v[p] == v[o] && p != best ==>
                 less(o, best) && less(best, p);
        best := o;
      }
    }
  }

  ghost predicate Referenced(tables: seq<seq<Ref>>, status: set<Status>, id: string) {
    exists org :: References(tables, status, id, org) > 0
  }

  /** Most of the rows that reference `id` carry `org`; among equals it is the lowest. */
  ghost predicate Majority(less: Order, tables: seq<seq<Ref>>, status: set<Status>, id: string, org: string) {
    && References(tables, status, id, org) > 0
    && forall o :: o != org ==>
         || References(tables, status, id, o) < References(tables, status, id, org)
         || (References(tables, status, id, o) == References(tables, status, id, org) && less(org, o))
  }

  lemma VotesAreDangling(agents: Agents, tables: seq<seq<Ref>>, status: set<Status>, votes: Votes)
    requires Tidy(votes)
    requires forall id, org :: Get(votes, id, org) == if id in agents then 0 else References(tables, status, id, org)
    ensures forall id :: id in votes <==> id !in agents && Referenced(tables, status, id)
  {
    forall id ensures id in votes <==> id !in agents && Referenced(tables, status, id) {
      if id in votes {
        var org :| org in votes[id];
        assert Get(votes, id, org) > 0;
      } else {
        assert forall org :: Get(votes, id, org) == 0;
      }
    }
  }

  lemma BestIsMajority(less: Order, agents: Agents, tables: seq<seq<Ref>>, status: set<Status>, votes: Votes,
                       id: string, best: string)
    requires Tidy(votes) && id in votes && IsBest(less, votes[id], best)
    requires forall id, org :: Get(votes, id, org) == if id in agents then 0 else References(tables, status, id, org)
    ensures Majority(less, tables, status, id, best)
  {
    assert Get(votes, id, best) > 0;
    forall o | o != best
      ensures || References(tables, status, id, o) < References(tables, status, id, best)
              || (References(tables, status, id, o) == References(tables, status, id, best) && less(best, o))
    {
      assert Get(votes, id, o) < Get(votes, id, best) || (Get(votes, id, o) == Get(votes, id, best) && less(best, o));
    }
  }

  /** One new agent per voted id, in the organisation with most votes. */
  method Recover(less: Order, agents: Agents, votes: Votes) returns (known: Agents)
    requires StrictTotal(less) && Tidy(votes) && agents.Keys !! votes.Keys
    ensures known.Keys == agents.Keys + votes.Keys
    ensures forall id :: id in agents ==> known[id] == agents[id]
    ensures forall id :: id in votes ==> IsBest(less, votes[id], known[id])
  {
    var recovered := PickAll(less, votes);
    known := agents + recovered;
  }

  method PickAll(less: Order, votes: Votes) returns (recovered: Agents)
    requires StrictTotal(less) && forall id :: id in votes ==> votes[id] != map[]
    ensures recovered.Keys == votes.Keys
    ensures forall id :: id in votes ==> IsBest(less, votes[id], recovered[id])
  {
    recovered := map[];
    var todo := votes.Keys;
    while todo != {}
      invariant todo <= votes.Keys
      invariant recovered.Keys == votes.Keys - todo
      invariant forall id :: id in recovered ==> IsBest(less, votes[id], recovered[id])
      decreases |todo|
    {
      var id :| id in todo;
      var best := PickBest(less, votes[id]);
      todo, recovered := todo - {id}, recovered[id := best];
    }
  }

  /**
   The repair: one agent per missing id, in the organisation most of its rows carry; nobody else
   is added, moved or removed.  Without the opt-in the migration refuses, exactly when an id is
   missing, and changes nothing.
   */
  method ResolveDangling(less: Order, agents: Agents, tables: seq<seq<Ref>>, status: set<Status>, repair: bool)
    returns (ok: bool, known: Agents)
    requires StrictTotal(less) && KeysUnique(status)
    ensures ok <==> repair || forall id :: Referenced(tables, status, id) ==> id in agents
    ensures !ok ==> known == agents
    ensures ok ==> forall id :: id in known <==> id in agents || Referenced(tables, status, id)
    ensures ok ==> forall id :: id in agents ==> known[id] == agents[id]
    ensures ok ==> forall id :: id in known && id !in agents ==> Majority(less, tables, status, id, known[id])
  {
    var votes := Collect(agents, tables, status);
    VotesAreDangling(agents, tables, status, votes);
    if votes != map[] && !repair {
      var id :| id in votes;
      return false, agents;
    }
    known := Recover(less, agents, votes);
    forall id | id in votes ensures Majority(less, tables, status, id, known[id]) {
      BestIsMajority(less, agents, tables, status, votes, id, known[id]);
    }
    ok := true;
  }

  // ---------------------------------------------------------------- the status merge

  function When(r: Status): string {
    if r.last.Some? then r.last.value else ""
  }

  /** `k` outranks `l`: later activity, then being in the agent's own organisation, then lower organisation. */
  predicate Beats(k: Status, l: Status, home: string) {
    && k.agent == l.agent && k.org != l.org
    && (|| Less(When(l), When(k))
        || (When(k) == When(l)
            && ((k.org == home && l.org != home) || ((k.org == home) == (l.org == home) && Less(k.org, l.org)))))
  }

  lemma BeatsIsAsymmetric(k: Status, l: Status, home: string)
    requires Beats(k, l, home)
    ensures !Beats(l, k, home)
  {
    if Less(When(l), When(k)) {
      LessAsymmetric(When(l), When(k));
      LessIrreflexive(When(l));
    } else {
      LessIrreflexive(When(l));
      if Less(k.org, l.org) {
        LessAsymmetric(k.org, l.org);
      }
    }
  }

  lemma BeatsIsTotal(k: Status, l: Status, home: string)
    requires k.agent == l.agent && k.org != l.org
    ensures Beats(k, l, home) || Beats(l, k, home)
  {
    LessTotal(When(k), When(l));
    LessTotal(k.org, l.org);
  }

  lemma BeatsIsTransitive(k: Status, l: Status, m: Status, home: string)
    requires Beats(k, l, home) && Beats(l, m, home) && k.org != m.org
    ensures Beats(k, m, home)
  {
    if Less(When(l), When(k)) && Less(When(m), When(l)) {
      LessTransitive(When(m), When(l), When(k));
    }
    if Less(k.org, l.org) && Less(l.org, m.org) {
      LessTransitive(k.org, l.org, m.org);
    }
  }

  /** `top` is the row the merge keeps for its agent. */
  ghost predicate IsTop(rows: set<Status>, top: Status, home: string) {
    top in rows && forall r :: r in rows && r.agent == top.agent && r != top ==> Beats(top, r, home)
  }

  lemma {:induction false} TopExists(rows: set<Status>, x: Status, home: string) returns (top: Status)
    requires KeysUnique(rows) && x in rows
    ensures top.agent == x.agent && IsTop(rows, top, home)
    decreases |rows|
  {
    if r :| r in rows && r != x && r.agent == x.agent {
      var rest := rows - {r};
      top := TopExists(rest, x, home);
      BeatsIsTotal(top, r, home);
      if Beats(r, top, home) {
        forall q | q in rows && q.agent == r.agent && q != r ensures Beats(r, q, home) {
          if q != top {
            BeatsIsTransitive(r, top, q, home);
          }
        }
        top := r;
      }
    } else {
      top := x;
    }
  }

  /** The rows the delete statement is meant to leave: per known agent its top row. */
  ghost predicate Survives(agents: Agents, status: set<Status>, r: Status) {
    r in status && (r.agent in agents ==> IsTop(status, r, agents[r.agent]))
  }

  lemma ExactlyOneSurvivor(agents: Agents, status: set<Status>, x: Status) returns (top: Status)
    requires KeysUnique(status) && x in status && x.agent in agents
    ensures top.agent == x.agent && Survives(agents, status, top)
    ensures forall r :: Survives(agents, status, r) && r.agent == x.agent ==> r == top
    ensures x != top ==> Beats(top, x, agents[x.agent])
  {
    var home := agents[x.agent];
    top := TopExists(status, x, home);
    forall r | Survives(agents, status, r) && r.agent == x.agent ensures r == top {
      if r != top {
        BeatsIsAsymmetric(r, top, home);
      }
    }
  }

  /** When the agent was last active in the row; never counts as earliest. */
  function LastSeen(r: Status): string {
    match r.last
    case None => ""
    case Some(time) => time
  }

  /**
   Which row survives: no row of the agent is later; among equally late ones it is the one in the
   agent's own organisation, if there is one, else the one in the lowest organisation.
   */
  lemma SurvivorIsLatest(agents: Agents, status: set<Status>, top: Status, r: Status)
    requires top.agent in agents && Survives(agents, status, top)
    requires r in status && r.agent == top.agent && r != top
    ensures !Less(LastSeen(top), LastSeen(r))
    ensures LastSeen(r) == LastSeen(top) && r.org == agents[r.agent] ==> top.org == agents[r.agent]
    ensures LastSeen(r) == LastSeen(top) && top.org != agents[r.agent] ==> Less(top.org, r.org)
  {
    var home := agents[top.agent];
    assert Beats(top, r, home);
    if Less(LastSeen(r), LastSeen(top)) {
      LessAsymmetric(LastSeen(r), LastSeen(top));
    }
    LessIrreflexive(LastSeen(top));
  }

  /**
   The merge, deleting one losing row at a time and judging each against the rows that are left at
   that moment.  Whatever order the rows are visited in, exactly the top row of each agent remains.
   */
  method MergeStatus(agents: Agents, status: set<Status>) returns (merged: set<Status>)
    requires KeysUnique(status)
    ensures forall r :: r in merged <==> Survives(agents, status, r)
  {
    merged := status;
    var todo := status;
    while todo != {}
      invariant todo <= status && merged <= status
      invariant forall r :: Survives(agents, status, r) ==> r in merged
      invariant forall r :: r in merged && r !in todo ==> Survives(agents, status, r)
      decreases |todo|
    {
      var loser :| loser in todo;
      todo := todo - {loser};
      if loser.agent in agents {
        var home := agents[loser.agent];
        ghost var top := ExactlyOneSurvivor(agents, status, loser);
        assert loser == top ==> forall k :: k in merged ==> !Beats(k, loser, home) by {
          forall k | k in merged && loser == top ensures !Beats(k, loser, home) {
            if k.agent == loser.agent && k != loser {
              BeatsIsAsymmetric(loser, k, home);
            }
          }
        }
        if exists keeper :: keeper in merged && Beats(keeper, loser, home) {
          merged := merged - {loser};
        }
      }
    }
  }

  // ---------------------------------------------------------------- re-parenting

  predicate AtHome(agents: Agents, id: string, org: string) {
    id in agents && agents[id] == org
  }

  function Rehomed(agents: Agents, id: string, org: string): string {
    if id in agents && agents[id] != org then agents[id] else org
  }

  /** Same rows in the same order, each in its agent's organisation. */
  ghost predicate SameButRehomed(agents: Agents, before: seq<Ref>, after: seq<Ref>) {
    && |after| == |before|
    && forall i :: 0 <= i < |before| ==> after[i] == before[i].(org := Rehomed(agents, before[i].agent, before[i].org))
  }

  /** The update of one history table. */
  method ReparentTable(agents: Agents, rows: seq<Ref>) returns (out: seq<Ref>)
    ensures SameButRehomed(agents, rows, out)
  {
    out := rows;
    for i := 0 to |rows|
      invariant |out| == |rows|
      invariant forall j :: 0 <= j < i ==> out[j] == rows[j].(org := Rehomed(agents, rows[j].agent, rows[j].org))
      invariant forall j :: i <= j < |rows| ==> out[j] == rows[j]
    {
      var r := out[i];
      if r.agent in agents && agents[r.agent] != r.org {
        out := out[i := r.(org := agents[r.agent])];
      }
    }
  }

  method ReparentTables(agents: Agents, tables: seq<seq<Ref>>) returns (out: seq<seq<Ref>>)
    ensures |out| == |tables|
    ensures forall t :: 0 <= t < |tables| ==> SameButRehomed(agents, tables[t], out[t])
  {
    out := [];
    for t := 0 to |tables|
      invariant |out| == t
      invariant forall s :: 0 <= s < t ==> SameButRehomed(agents, tables[s], out[s])
    {
      var rows := ReparentTable(agents, tables[t]);
      out := out + [rows];
    }
  }

  /** The update of the status table. */
  function ReparentStatus(agents: Agents, status: set<Status>): set<Status> {
    set r | r in status :: r.(org := Rehomed(agents, r.agent, r.org))
  }

  /** Re-parenting merged rows makes no two of them collide on (org, agent). */
  lemma ReparentedKeysUnique(agents: Agents, status: set<Status>, merged: set<Status>)
    requires KeysUnique(status)
    requires forall r :: r in status ==> r.agent in agents
    requires forall r :: r in merged <==> Survives(agents, status, r)
    ensures KeysUnique(ReparentStatus(agents, merged))
    ensures forall r :: r in ReparentStatus(agents, merged) ==> AtHome(agents, r.agent, r.org)
    ensures forall x :: x in status ==> exists r :: r in ReparentStatus(agents, merged) && r.agent == x.agent
  {
    var out := ReparentStatus(agents, merged);
    forall r, s | r in out && s in out && r.agent == s.agent ensures r == s {
      var p :| p in merged && r == p.(org := Rehomed(agents, p.agent, p.org));
      var q :| q in merged && s == q.(org := Rehomed(agents, q.agent, q.org));
      var top := ExactlyOneSurvivor(agents, status, p);
      assert p == top && q == top;
    }
    forall x | x in status ensures exists r :: r in out && r.agent == x.agent {
      var top := ExactlyOneSurvivor(agents, status, x);
      assert top.(org := Rehomed(agents, top.agent, top.org)) in out;
    }
  }

  /** Every boot runs the migration again; on what it has produced it deletes and moves nothing. */
  lemma MigratedIsFixed(agents: Agents, tables: seq<seq<Ref>>, out: seq<seq<Ref>>, status: set<Status>,
                        merged: set<Status>)
    requires forall t, i :: 0 <= t < |tables| && 0 <= i < |tables[t]| ==>
               AtHome(agents, tables[t][i].agent, tables[t][i].org)
    requires KeysUnique(status) && forall r :: r in status ==> AtHome(agents, r.agent, r.org)
    requires |out| == |tables| && forall t :: 0 <= t < |tables| ==> SameButRehomed(agents, tables[t], out[t])
    requires forall r :: r in merged <==> Survives(agents, status, r)
    ensures out == tables && ReparentStatus(agents, merged) == status
  {
    forall t | 0 <= t < |tables| ensures out[t] == tables[t] {
      assert SameButRehomed(agents, tables[t], out[t]);
      forall i | 0 <= i < |tables[t]| ensures out[t][i] == tables[t][i] {
        assert AtHome(agents, tables[t][i].agent, tables[t][i].org);
      }
    }
    assert merged == status;
    forall r | r in status ensures r.(org := Rehomed(agents, r.agent, r.org)) == r {
      assert AtHome(agents, r.agent, r.org);
    }
  }

  // ---------------------------------------------------------------- the pipeline

  lemma {:induction false} CountPositive(rows: seq<Ref>, i: nat)
    requires i < |rows|
    ensures Count(rows, rows[i].agent, rows[i].org) > 0
    decreases |rows|
  {
    if i < |rows| - 1 {
      CountPositive(rows[..|rows| - 1], i);
    }
  }

  lemma {:induction false} CountAllPositive(tables: seq<seq<Ref>>, t: nat, i: nat)
    requires t < |tables| && i < |tables[t]|
    ensures CountAll(tables, tables[t][i].agent, tables[t][i].org) > 0
    decreases |tables|
  {
    if t < |tables| - 1 {
      CountAllPositive(tables[..|tables| - 1], t, i);
    } else {
      CountPositive(tables[t], i);
    }
  }

  lemma EveryRowIsReferenced(tables: seq<seq<Ref>>, status: set<Status>)
    ensures forall t, i :: 0 <= t < |tables| && 0 <= i < |tables[t]| ==> Referenced(tables, status, tables[t][i].agent)
    ensures forall r :: r in status ==> Referenced(tables, status, r.agent)
  {
    forall t, i | 0 <= t < |tables| && 0 <= i < |tables[t]| ensures Referenced(tables, status, tables[t][i].agent) {
      CountAllPositive(tables, t, i);
      assert References(tables, status, tables[t][i].agent, tables[t][i].org) > 0;
    }
    forall r | r in status ensures Referenced(tables, status, r.agent) {
      assert References(tables, status, r.agent, r.org) > 0;
    }
  }

  class Database {
    var agents: Agents
    /** threads, thread_messages, action_summaries and introspections. */
    var tables: seq<seq<Ref>>
    var status: set<Status>

    constructor (agents: Agents, tables: seq<seq<Ref>>, status: set<Status>)
      ensures this.agents == agents && this.tables == tables && this.status == status
    {
      this.agents, this.tables, this.status := agents, tables, status;
    }

    /**
     The whole repair.  When it goes through, every row of the five tables references an agent of
     its own organisation, the status keys are unique and every agent that had a status still has
     exactly one, the other tables lost nothing, and the only new agents are the missing ones, each
     in its majority organisation.
     */
    method Migrate(less: Order, repair: bool) returns (ok: bool)
      requires StrictTotal(less) && KeysUnique(status)
      modifies this
      ensures ok <==> repair || forall id :: Referenced(old(tables), old(status), id) ==> id in old(agents)
      ensures !ok ==> agents == old(agents) && tables == old(tables) && status == old(status)
      ensures ok ==> forall id :: id in agents <==> id in old(agents) || Referenced(old(tables), old(status), id)
      ensures ok ==> forall id :: id in old(agents) ==> agents[id] == old(agents)[id]
      ensures ok ==> forall id :: id in agents && id !in old(agents) ==>
                Majority(less, old(tables), old(status), id, agents[id])
      ensures ok ==> |tables| == |old(tables)|
      ensures ok ==> forall t :: 0 <= t < |tables| ==> SameButRehomed(agents, old(tables)[t], tables[t])
      ensures ok ==> forall t, i :: 0 <= t < |tables| && 0 <= i < |tables[t]| ==>
                       AtHome(agents, tables[t][i].agent, tables[t][i].org)
      ensures ok ==> KeysUnique(status) && forall r :: r in status ==> AtHome(agents, r.agent, r.org)
      ensures ok ==> forall x :: x in old(status) ==> exists r :: r in status && r.agent == x.agent
      ensures ok ==> forall r :: r in status <==>
                exists x: Status ::
                  x.agent in agents && Survives(agents, old(status), x) && r == x.(org := agents[x.agent])
    {
      ok, agents := ResolveDangling(less, agents, tables, status, repair);
      if !ok {
        return;
      }
      EveryRowIsReferenced(tables, status);
      var merged := MergeStatus(agents, status);
      ReparentedKeysUnique(agents, status, merged);
      status := ReparentStatus(agents, merged);
      tables := ReparentTables(agents, tables);
    }
  }
}
