/**
 Migration v12: revocations move to the organisation that owns the agent.  The pass is meant to run
 once, but boot rewinds the schema version, so it runs at every start; the claims are therefore
 about any interleaving of registering, revoking and booting.
 */
module Revocation {
  import opened Common

  datatype Key = Key(org: string, agent: string)

  /** When and by whom; times are comparable strings. */
  datatype Mark = Mark(at: string, actor: string)

  type Revoked = map<Key, Mark>

  predicate Holds(agents: set<Key>, id: string) {
    exists a :: a in agents && a.agent == id
  }

  /** A revocation of an id in an organisation that has no such agent, while another has. */
  predicate StaleRow(agents: set<Key>, k: Key) {
    k !in agents && Holds(agents, k.agent)
  }

  predicate HasStale(agents: set<Key>, revoked: Revoked, id: string) {
    exists k :: k in revoked && k.agent == id && StaleRow(agents, k)
  }

  /** `m` is the mark of an earliest revocation of the id. */
  ghost predicate Earliest(revoked: Revoked, id: string, m: Mark) {
    && (exists k :: k in revoked && k.agent == id && revoked[k] == m)
    && (forall k :: k in revoked && k.agent == id ==> !Less(revoked[k].at, m.at))
  }

  /**
   The outcome of the pass for one key.  A stale row disappears, and its id is then revoked in every
   organisation that has the agent; every other row stays exactly as it is.
   */
  ghost predicate KeyRescoped(agents: set<Key>, before: Revoked, after: Revoked, k: Key) {
    && (k in after <==> if k in agents then k in before || HasStale(agents, before, k.agent)
                        else k in before && !StaleRow(agents, k))
    && (k in before && k in after ==> after[k] == before[k])
    && (k in after && k !in before ==> Earliest(before, k.agent, after[k]))
  }

  ghost predicate Rescoped(agents: set<Key>, before: Revoked, after: Revoked) {
    forall k :: KeyRescoped(agents, before, after, k)
  }

  /** The first row of an id in the order of revocation time. */
  method FindEarliest(revoked: Revoked, id: string) returns (m: Mark)
    requires exists k :: k in revoked && k.agent == id
    ensures Earliest(revoked, id, m)
  {
    var rows := set k | k in revoked && k.agent == id;
    var first :| first in revoked && first.agent == id;
    m := revoked[first];
    LessIrreflexive(m.at);
    ghost var at := first;
    var todo := rows - {first};
    while todo != {}
      invariant todo <= rows
      invariant at in rows && revoked[at] == m
      invariant forall k :: k in rows && k !in todo ==> !Less(revoked[k].at, m.at)
      decreases |todo|
    {
      var k :| k in todo;
      todo := todo - {k};
      LessIrreflexive(revoked[k].at);
      if Less(revoked[k].at, m.at) {
        forall j | j in rows && j !in todo && j != k ensures !Less(revoked[j].at, revoked[k].at) {
          if Less(revoked[j].at, revoked[k].at) {
            LessTransitive(revoked[j].at, revoked[k].at, m.at);
          }
        }
        m := revoked[k];
        at := k;
      }
    }
  }

  ghost predicate KeyKept(before: Revoked, after: Revoked, k: Key) {
    (k in after <==> k in before) && (k in after ==> after[k] == before[k])
  }

  /** The two queries of one id: it has stale rows exactly when both find something. */
  lemma HomesAndStale(agents: set<Key>, revoked: Revoked, id: string, homes: set<Key>, stale: set<Key>)
    requires homes == set a | a in agents && a.agent == id
    requires stale == set k | k in revoked && k.agent == id && k !in homes
    ensures HasStale(agents, revoked, id) <==> homes != {} && stale != {}
  {
    if HasStale(agents, revoked, id) {
      var k :| k in revoked && k.agent == id && StaleRow(agents, k);
      var a :| a in agents && a.agent == id;
      assert a in homes && k in stale;
    }
    if homes != {} && stale != {} {
      var a :| a in homes;
      var k :| k in stale;
      assert a.agent == k.agent && StaleRow(agents, k);
    }
  }

  /** Without stale rows of its id, a key is as it has to be. */
  lemma NothingStale(agents: set<Key>, revoked: Revoked, k: Key)
    requires !HasStale(agents, revoked, k.agent)
    ensures KeyRescoped(agents, revoked, revoked, k)
  {
  }

  /** One id: insert it for every organisation that has the agent, then delete its stale rows. */
  method RescopeId(agents: set<Key>, revoked: Revoked, id: string, earliest: Mark) returns (out: Revoked)
    requires Earliest(revoked, id, earliest)
    ensures forall k: Key :: k.agent == id ==> KeyRescoped(agents, revoked, out, k)
    ensures forall k: Key :: k.agent != id ==> KeyKept(revoked, out, k)
  {
    var homes := set a | a in agents && a.agent == id;
    var stale := set k | k in revoked && k.agent == id && k !in homes;
    HomesAndStale(agents, revoked, id, homes, stale);
    if homes == {} || stale == {} {
      forall k: Key | k.agent == id ensures KeyRescoped(agents, revoked, revoked, k) {
        NothingStale(agents, revoked, k);
      }
      return revoked;
    }
    out := revoked;
    var todo := homes;
    while todo != {}
      invariant todo <= homes
      invariant out.Keys == revoked.Keys + (homes - todo)
      invariant forall k :: k in out ==> out[k] == if k in revoked then revoked[k] else earliest
      decreases |todo|
    {
      var home :| home in todo;
      todo := todo - {home};
      if home !in out {
        out := out[home := earliest];
      }
    }
    out := out - stale;
  }

  /** The whole pass over the distinct ids that have a revocation. */
  method Rescope(agents: set<Key>, revoked: Revoked) returns (out: Revoked)
    ensures Rescoped(agents, revoked, out)
  {
    out := revoked;
    var todo := set k | k in revoked :: k.agent;
    while todo != {}
      invariant forall id :: id in todo ==> exists k :: k in revoked && k.agent == id
      invariant forall k: Key :: k.agent in todo ==> KeyKept(revoked, out, k)
      invariant forall k: Key :: k.agent !in todo ==> KeyRescoped(agents, revoked, out, k)
      decreases |todo|
    {
      var id :| id in todo;
      var earliest := FindEarliest(revoked, id);
      out := RescopeNext(agents, revoked, out, todo, id, earliest);
      todo := todo - {id};
    }
  }

  method RescopeNext(agents: set<Key>, ghost revoked: Revoked, sofar: Revoked, ghost todo: set<string>, id: string,
                     earliest: Mark)
    returns (out: Revoked)
    requires id in todo && Earliest(revoked, id, earliest)
    requires forall k: Key :: k.agent in todo ==> KeyKept(revoked, sofar, k)
    requires forall k: Key :: k.agent !in todo ==> KeyRescoped(agents, revoked, sofar, k)
    ensures forall k: Key :: k.agent in todo - {id} ==> KeyKept(revoked, out, k)
    ensures forall k: Key :: k.agent !in todo - {id} ==> KeyRescoped(agents, revoked, out, k)
  {
    assert Earliest(sofar, id, earliest) by {
      var k :| k in revoked && k.agent == id && revoked[k] == earliest;
      assert KeyKept(revoked, sofar, k);
      forall k | k in sofar && k.agent == id ensures !Less(sofar[k].at, earliest.at) {
        assert KeyKept(revoked, sofar, k);
      }
    }
    out := RescopeId(agents, sofar, id, earliest);
    forall k: Key | k.agent in todo - {id} ensures KeyKept(revoked, out, k) {
      assert KeyKept(revoked, sofar, k) && KeyKept(sofar, out, k);
    }
    forall k: Key | k.agent !in todo - {id} ensures KeyRescoped(agents, revoked, out, k) {
      if k.agent == id {
        SameRowsSameOutcome(agents, revoked, sofar, out, k);
      } else {
        assert KeyRescoped(agents, revoked, sofar, k) && KeyKept(sofar, out, k);
      }
    }
  }

  /** The outcome for a key depends only on the rows of its own id. */
  lemma SameRowsSameOutcome(agents: set<Key>, revoked: Revoked, sofar: Revoked, out: Revoked, k: Key)
    requires forall j: Key :: j.agent == k.agent ==> KeyKept(revoked, sofar, j)
    requires KeyRescoped(agents, sofar, out, k)
    ensures KeyRescoped(agents, revoked, out, k)
  {
    assert KeyKept(revoked, sofar, k);
    assert HasStale(agents, revoked, k.agent) <==> HasStale(agents, sofar, k.agent) by {
      forall j: Key | j.agent == k.agent ensures j in revoked <==> j in sofar {
        assert KeyKept(revoked, sofar, j);
      }
    }
    if k in out && k !in sofar {
      var j :| j in sofar && j.agent == k.agent && sofar[j] == out[k];
      assert KeyKept(revoked, sofar, j);
      forall j | j in revoked && j.agent == k.agent ensures !Less(revoked[j].at, out[k].at) {
        assert KeyKept(revoked, sofar, j);
      }
    }
  }

  // ---------------------------------------------------------------- what the pass guarantees

  /** A second pass over the result changes nothing. */
  lemma RescopeIdempotent(agents: set<Key>, before: Revoked, after: Revoked, again: Revoked)
    requires Rescoped(agents, before, after) && Rescoped(agents, after, again)
    ensures again == after
  {
    forall k ensures k in after ==> !StaleRow(agents, k) {
      assert KeyRescoped(agents, before, after, k);
    }
    forall k ensures KeyKept(after, again, k) {
      assert KeyRescoped(agents, after, again, k);
    }
    assert again.Keys == after.Keys by {
      forall k ensures k in again.Keys <==> k in after.Keys {
        assert KeyKept(after, again, k);
      }
    }
    forall k | k in after ensures again[k] == after[k] {
      assert KeyKept(after, again, k);
    }
  }

  /** The exact effect on a registered agent: revoked afterwards iff it was, or its id had a stale row. */
  lemma RevokedAfterPass(agents: set<Key>, before: Revoked, after: Revoked, k: Key)
    requires Rescoped(agents, before, after) && k in agents
    ensures k in after <==> k in before || HasStale(agents, before, k.agent)
  {
    assert KeyRescoped(agents, before, after, k);
  }

  /** An id revoked only where it is registered keeps exactly its rows. */
  lemma DeliberateRowsUntouched(agents: set<Key>, before: Revoked, after: Revoked, id: string)
    requires Rescoped(agents, before, after)
    requires forall k :: k in before && k.agent == id ==> k in agents
    ensures forall k: Key :: k.agent == id ==> KeyKept(before, after, k)
  {
    forall k: Key | k.agent == id ensures KeyKept(before, after, k) {
      assert KeyRescoped(agents, before, after, k);
    }
  }

  /** While ids are globally unique, the per-organisation lookup answers what the global one did. */
  lemma PerOrgLookupMatchesGlobal(agents: set<Key>, before: Revoked, after: Revoked, k: Key)
    requires forall a, b :: a in agents && b in agents && a.agent == b.agent ==> a == b
    requires Rescoped(agents, before, after) && k in agents
    ensures k in after <==> exists j :: j in before && j.agent == k.agent
  {
    assert KeyRescoped(agents, before, after, k);
    assert forall j :: j in before && j.agent == k.agent && j != k ==> StaleRow(agents, j);
  }

  // ---------------------------------------------------------------- whole runs

  datatype State = State(agents: set<Key>, revoked: Revoked)

  datatype Op = Register(who: Key) | Revoke(who: Key, mark: Mark) | Boot(outcome: Revoked)

  /** `INSERT OR IGNORE` for a revocation; a boot may produce any outcome the pass allows. */
  ghost predicate Steps(s: State, op: Op, t: State) {
    match op
    case Register(k) => t == s.(agents := s.agents + {k})
    case Revoke(k, m) => t == s.(revoked := if k in s.revoked then s.revoked else s.revoked[k := m])
    case Boot(r) => Rescoped(s.agents, s.revoked, r) && t == s.(revoked := r)
  }

  ghost predicate IsRun(trace: seq<State>, ops: seq<Op>) {
    && |trace| == |ops| + 1
    && forall i :: 0 <= i < |ops| ==> Steps(trace[i], ops[i], trace[i + 1])
  }

  /** Once a registered agent is revoked it stays registered and revoked, with the same mark. */
  lemma {:induction false} RevocationIsPermanent(trace: seq<State>, ops: seq<Op>, i: nat, j: nat, k: Key)
    requires IsRun(trace, ops) && i <= j < |trace|
    requires k in trace[i].agents && k in trace[i].revoked
    ensures k in trace[j].agents && k in trace[j].revoked && trace[j].revoked[k] == trace[i].revoked[k]
    decreases j
  {
    if i < j {
      RevocationIsPermanent(trace, ops, i, j - 1, k);
      assert Steps(trace[j - 1], ops[j - 1], trace[j]);
      if ops[j - 1].Boot? {
        assert KeyRescoped(trace[j].agents, trace[j - 1].revoked, trace[j].revoked, k);
      }
    }
  }

  /** A mark somebody has set for the id by step `n`. */
  ghost predicate WasRevoked(ops: seq<Op>, n: nat, id: string, m: Mark)
    requires n <= |ops|
  {
    exists i :: 0 <= i < n && ops[i].Revoke? && ops[i].who.agent == id && ops[i].mark == m
  }

  /** Whatever boots move, every revocation carries the mark of somebody's revoking that id. */
  lemma {:induction false} RevocationHasOrigin(trace: seq<State>, ops: seq<Op>, j: nat, k: Key)
    requires IsRun(trace, ops) && j < |trace| && trace[0].revoked == map[] && k in trace[j].revoked
    ensures WasRevoked(ops, j, k.agent, trace[j].revoked[k])
    decreases j
  {
    if j > 0 {
      var s, op, t := trace[j - 1], ops[j - 1], trace[j];
      assert Steps(s, op, t);
      if k in s.revoked && t.revoked[k] == s.revoked[k] {
        RevocationHasOrigin(trace, ops, j - 1, k);
      } else if op.Boot? {
        assert KeyRescoped(s.agents, s.revoked, t.revoked, k);
        var first :| first in s.revoked && first.agent == k.agent && s.revoked[first] == t.revoked[k];
        RevocationHasOrigin(trace, ops, j - 1, first);
      } else {
        assert op.Revoke? && op.who == k && op.mark == t.revoked[k];
      }
    }
  }

  /**
   Boots spread a revocation to an organisation that nobody revoked the agent in.  This happens to a
   registered agent at a boot exactly when its id has a row in an organisation without that agent.
   */
  lemma BootSpreads(s: State, r: Revoked, t: State, k: Key)
    requires Steps(s, Boot(r), t) && k in s.agents && k !in s.revoked
    ensures k in t.revoked <==> exists j :: j in s.revoked && j.agent == k.agent && j !in s.agents
  {
    assert KeyRescoped(s.agents, s.revoked, r, k);
    assert Holds(s.agents, k.agent);
  }

  /** The smallest such run: one organisation revokes a name it does not have, another one has it. */
  lemma ForeignRevocationSpreads(a: string, b: string, id: string, m: Mark, r: Revoked)
    requires a != b
    requires Rescoped({Key(b, id)}, map[Key(a, id) := m], r)
    ensures r == map[Key(b, id) := m]
  {
    var before := map[Key(a, id) := m];
    assert Key(a, id) in before && StaleRow({Key(b, id)}, Key(a, id));
    assert KeyRescoped({Key(b, id)}, before, r, Key(b, id));
    forall k | k in r ensures k == Key(b, id) {
      assert KeyRescoped({Key(b, id)}, before, r, k);
    }
    assert r.Keys == {Key(b, id)};
  }
}
