/**
 The audit table over whole runs: chained appends, retention, and boots that rewrite outcomes,
 backfill hashes and insert migration rows without one.

 Beside the table runs a ledger that knows no hashes, only how each row came to be.  With ideal
 digests the verifier accepts the table exactly when the ledger is in order.
 */
module AuditRuns {
  import opened Common
  import opened AuditChain

  // ---------------------------------------------------------------- the table

  /** `nextId` is the AUTOINCREMENT counter: ids are never used twice. */
  datatype Log = Log(rows: seq<Row>, nextId: int)

  /** What a migration says about itself. */
  datatype Note = Note(action: string, metadata: string)

  datatype Op =
    | Emit(fields: Fields, keyed: bool)
    | Retain(keep: seq<nat>)
    | Reboot(metadata: string, inserted: seq<Note>)

  function NoteFields(n: Note): Fields {
    Fields(n.action, None, None, None, None, Some(n.metadata), Some("success"), None, None)
  }

  function Marked(f: Fields): Fields {
    if f.outcome == None then f.(outcome := Some("legacy_unknown")) else f
  }

  function MarkedRow(r: Row): Row {
    r.(fields := Marked(r.fields))
  }

  function MarkLegacy(s: Log): (t: Log)
    ensures |t.rows| == |s.rows| && t.nextId == s.nextId
    ensures forall i :: 0 <= i < |s.rows| ==> t.rows[i] == MarkedRow(s.rows[i])
  {
    Log(seq(|s.rows|, i requires 0 <= i < |s.rows| => MarkedRow(s.rows[i])), s.nextId)
  }

  predicate AnyUnmarked(s: Log) {
    exists i :: 0 <= i < |s.rows| && s.rows[i].fields.outcome == None
  }

  /** A plain INSERT, which leaves both hash columns empty. */
  function Insert(s: Log, f: Fields): Log {
    Log(s.rows + [Row(s.nextId, f, None, None)], s.nextId + 1)
  }

  function InsertAll(s: Log, fs: seq<Fields>): Log
    decreases |fs|
  {
    if fs == [] then s else InsertAll(Insert(s, fs[0]), fs[1..])
  }

  function Fill(h: Hasher, s: Log): Log {
    Log(Backfilled(h, s.rows), s.nextId)
  }

  function NotesFields(ns: seq<Note>): (r: seq<Fields>)
    ensures |r| == |ns| && forall i :: 0 <= i < |ns| ==> r[i] == NoteFields(ns[i])
  {
    seq(|ns|, i requires 0 <= i < |ns| => NoteFields(ns[i]))
  }

  /** The note that outcomes were rewritten, when any was. */
  function Provenance(any: bool, metadata: string): seq<Fields> {
    if any then [NoteFields(Note("migration.audit_backfill", metadata))] else []
  }

  /** Outcomes rewritten and noted, hashes filled in, then the later migrations' own rows. */
  function Boot(h: Hasher, s: Log, metadata: string, inserted: seq<Note>): Log {
    InsertAll(Fill(h, InsertAll(MarkLegacy(s), Provenance(AnyUnmarked(s), metadata))), NotesFields(inserted))
  }

  function Append(h: Hasher, key: string, s: Log, f: Fields, keyed: bool): Log {
    Log(s.rows + [Chained(h, s.rows, s.nextId, f, if keyed then Some(key) else None)], s.nextId + 1)
  }

  ghost function Step(h: Hasher, key: string, s: Log, op: Op): Log {
    match op
    case Emit(f, keyed) => Append(h, key, s, f, keyed)
    case Retain(keep) => if Selects(keep, |s.rows|) then Log(Kept(s.rows, keep), s.nextId) else s
    case Reboot(metadata, inserted) => Boot(h, s, metadata, inserted)
  }

  /** The log starts with the rows of a release that had no chain. */
  ghost function Run(h: Hasher, key: string, legacy: seq<Fields>, ops: seq<Op>): Log {
    if ops == [] then InsertAll(Log([], 1), legacy)
    else Step(h, key, Run(h, key, legacy, ops[..|ops| - 1]), ops[|ops| - 1])
  }

  /** The verifier, given the key, has no failure to report. */
  predicate Verifies(h: Hasher, key: string, rows: seq<Row>) {
    Ok(Report(h, Some(key), rows, |rows|))
  }

  // ---------------------------------------------------------------- the ledger

  /**
   What is remembered of a row: whether it has hashes, whether they link it to the row numbered one
   less, which algorithm made them, and whether its outcome is empty or was rewritten under its hash.
   */
  datatype Mark = Mark(id: int, hashed: bool, linked: bool, keyed: bool, noOutcome: bool, rewritten: bool)

  datatype Ledger = Ledger(marks: seq<Mark>, nextId: int)

  predicate Follows(marks: seq<Mark>, i: int)
    requires 0 <= i < |marks|
  {
    i > 0 && marks[i].id == marks[i - 1].id + 1
  }

  function NoteInsert(b: Ledger, f: Fields): Ledger {
    Ledger(b.marks + [Mark(b.nextId, false, false, false, f.outcome == None, false)], b.nextId + 1)
  }

  function NoteInsertAll(b: Ledger, fs: seq<Fields>): Ledger
    decreases |fs|
  {
    if fs == [] then b else NoteInsertAll(NoteInsert(b, fs[0]), fs[1..])
  }

  function NoteMarked(m: Mark): Mark {
    m.(noOutcome := false, rewritten := m.rewritten || (m.hashed && m.noOutcome))
  }

  function NoteMarkLegacy(b: Ledger): (c: Ledger)
    ensures |c.marks| == |b.marks| && c.nextId == b.nextId
    ensures forall i :: 0 <= i < |b.marks| ==> c.marks[i] == NoteMarked(b.marks[i])
  {
    Ledger(seq(|b.marks|, i requires 0 <= i < |b.marks| => NoteMarked(b.marks[i])), b.nextId)
  }

  predicate AnyNoOutcome(b: Ledger) {
    exists i :: 0 <= i < |b.marks| && b.marks[i].noOutcome
  }

  /**
   A filled row continues the fill of the row before it; onto a hashed row it links only when it is
   the first to be filled and that row the newest hashed one.
   */
  predicate LinksWhenFilled(marks: seq<Mark>, i: int)
    requires 0 <= i < |marks|
  {
    && Follows(marks, i)
    && (!marks[i - 1].hashed
        || ((forall j :: 0 <= j < i ==> marks[j].hashed) && (forall j :: i < j < |marks| ==> !marks[j].hashed)))
  }

  function NoteFilled(marks: seq<Mark>, i: int): Mark
    requires 0 <= i < |marks|
  {
    if marks[i].hashed then marks[i] else marks[i].(hashed := true, linked := LinksWhenFilled(marks, i))
  }

  function NoteFill(b: Ledger): (c: Ledger)
    ensures |c.marks| == |b.marks| && c.nextId == b.nextId
    ensures forall i :: 0 <= i < |b.marks| ==> c.marks[i] == NoteFilled(b.marks, i)
  {
    Ledger(seq(|b.marks|, i requires 0 <= i < |b.marks| => NoteFilled(b.marks, i)), b.nextId)
  }

  function NoteBoot(b: Ledger, metadata: string, inserted: seq<Note>): Ledger {
    NoteInsertAll(NoteFill(NoteInsertAll(NoteMarkLegacy(b), Provenance(AnyNoOutcome(b), metadata))),
                  NotesFields(inserted))
  }

  function NoteAppend(b: Ledger, f: Fields, keyed: bool): Ledger {
    var n := |b.marks|;
    var linked := n > 0 && b.marks[n - 1].hashed && b.marks[n - 1].id + 1 == b.nextId;
    Ledger(b.marks + [Mark(b.nextId, true, linked, keyed, f.outcome == None, false)], b.nextId + 1)
  }

  ghost function NoteStep(b: Ledger, op: Op): Ledger {
    match op
    case Emit(f, keyed) => NoteAppend(b, f, keyed)
    case Retain(keep) => if Selects(keep, |b.marks|) then Ledger(Kept(b.marks, keep), b.nextId) else b
    case Reboot(metadata, inserted) => NoteBoot(b, metadata, inserted)
  }

  ghost function LedgerRun(legacy: seq<Fields>, ops: seq<Op>): Ledger {
    if ops == [] then NoteInsertAll(Ledger([], 1), legacy)
    else NoteStep(LedgerRun(legacy, ops[..|ops| - 1]), ops[|ops| - 1])
  }

  /** Every row hashed and not rewritten since, linked where its id follows, nothing unkeyed after something keyed. */
  ghost predicate InOrder(b: Ledger) {
    && (forall i :: 0 <= i < |b.marks| ==> b.marks[i].hashed && !b.marks[i].rewritten)
    && (forall i :: 0 <= i < |b.marks| && Follows(b.marks, i) ==> b.marks[i].linked)
    && (forall i, j :: 0 <= i < j < |b.marks| && b.marks[i].keyed ==> b.marks[j].keyed)
  }

  // ---------------------------------------------------------------- what the operations write

  /** An append adds one row: the next id, the given fields, hashed onto the newest stored hash. */
  lemma AppendWrites(h: Hasher, key: string, s: Log, f: Fields, keyed: bool)
    ensures var t, tip := Append(h, key, s, f, keyed), Tip(s.rows);
            && t.nextId == s.nextId + 1 && |t.rows| == |s.rows| + 1 && t.rows[..|s.rows|] == s.rows
            && var r := t.rows[|s.rows|];
               && r.id == s.nextId && r.fields == f && r.prevHash == Some(tip)
               && r.rowHash == Some(if keyed then HmacV1(h.hmac(key, tip, f)) else Sha256(h.sha(tip, f)))
  {
  }

  lemma {:induction false} InsertAllWrites(s: Log, fs: seq<Fields>)
    ensures var t := InsertAll(s, fs);
            && t.nextId == s.nextId + |fs| && |t.rows| == |s.rows| + |fs| && t.rows[..|s.rows|] == s.rows
            && forall i :: 0 <= i < |fs| ==> t.rows[|s.rows| + i] == Row(s.nextId + i, fs[i], None, None)
    decreases |fs|
  {
    if fs != [] {
      var u := Insert(s, fs[0]);
      InsertAllWrites(u, fs[1..]);
      var t := InsertAll(s, fs);
      assert t.rows[..|s.rows|] == t.rows[..|u.rows|][..|s.rows|];
      assert t.rows[|s.rows|] == t.rows[..|u.rows|][|s.rows|];
    }
  }

  /** A row as a boot leaves it: an empty outcome marked, every other field and a stored hash as they were. */
  predicate BootedRow(before: Row, after: Row) {
    var outcome := if before.fields.outcome == None then Some("legacy_unknown") else before.fields.outcome;
    && FilledRow(before.(fields := before.fields.(outcome := outcome)), after)
  }

  /** The same row with its hashes, those it had or new ones. */
  predicate FilledRow(before: Row, after: Row) {
    && after.id == before.id && after.fields == before.fields && after.rowHash.Some?
    && (before.rowHash.Some? ==> after == before)
  }

  lemma FillWrites(h: Hasher, s: Log)
    ensures |Fill(h, s).rows| == |s.rows| && Fill(h, s).nextId == s.nextId
    ensures forall i :: 0 <= i < |s.rows| ==> FilledRow(s.rows[i], Fill(h, s).rows[i])
  {
    FillHashes(h, Tip(s.rows), s.rows);
    forall i | 0 <= i < |s.rows| ensures FilledRow(s.rows[i], Fill(h, s).rows[i]) {
      BackfillWrites(h, s.rows, i);
    }
  }

  /** The row a boot adds when it has marked an outcome. */
  function BackfillNote(metadata: string): Fields {
    Fields("migration.audit_backfill", None, None, None, None, Some(metadata), Some("success"), None, None)
  }

  ghost predicate AnyWithoutOutcome(rows: seq<Row>) {
    exists i :: 0 <= i < |rows| && rows[i].fields.outcome == None
  }

  lemma MarkedAndNoted(s: Log, metadata: string)
    ensures var u, n := InsertAll(MarkLegacy(s), Provenance(AnyUnmarked(s), metadata)), |s.rows|;
            && |u.rows| == n + (if AnyWithoutOutcome(s.rows) then 1 else 0)
            && u.nextId == s.nextId + |u.rows| - n
            && (forall i :: 0 <= i < n ==> u.rows[i] == MarkedRow(s.rows[i]))
            && (AnyWithoutOutcome(s.rows) ==> u.rows[n] == Row(s.nextId, BackfillNote(metadata), None, None))
  {
    var marked, note := MarkLegacy(s), Provenance(AnyUnmarked(s), metadata);
    InsertAllWrites(marked, note);
    var u := InsertAll(marked, note);
    forall i | 0 <= i < |s.rows| ensures u.rows[i] == MarkedRow(s.rows[i]) {
      assert u.rows[i] == u.rows[..|s.rows|][i];
    }
  }

  /** A boot marks empty outcomes, notes that it did, fills every hash, and adds its un-hashed migration rows. */
  lemma BootWrites(h: Hasher, s: Log, metadata: string, inserted: seq<Note>)
    ensures var t, n := Boot(h, s, metadata, inserted), |s.rows|;
            var noted := n + if AnyWithoutOutcome(s.rows) then 1 else 0;
            && |t.rows| == noted + |inserted|
            && (forall i :: 0 <= i < n ==> BootedRow(s.rows[i], t.rows[i]))
            && (noted > n ==> FilledRow(Row(s.nextId, BackfillNote(metadata), None, None), t.rows[n]))
            && (forall i :: 0 <= i < |inserted| ==>
                  t.rows[noted + i] == Row(s.nextId + noted - n + i, NoteFields(inserted[i]), None, None))
  {
    MarkedAndNoted(s, metadata);
    var u := InsertAll(MarkLegacy(s), Provenance(AnyUnmarked(s), metadata));
    FillWrites(h, u);
    var filled := Fill(h, u);
    InsertAllWrites(filled, NotesFields(inserted));
    var t := InsertAll(filled, NotesFields(inserted));
    forall i | 0 <= i < |u.rows| ensures FilledRow(u.rows[i], t.rows[i]) {
      assert t.rows[i] == t.rows[..|filled.rows|][i];
    }
  }

  // ---------------------------------------------------------------- what the ledger says of the table

  predicate Matches(h: Hasher, key: string, r: Row, m: Mark) {
    && r.id == m.id
    && (m.hashed <==> r.rowHash.Some?) && (m.hashed <==> r.prevHash.Some?)
    && (m.keyed <==> Keyed(r))
    && (m.noOutcome <==> r.fields.outcome == None)
    && (m.rewritten ==> m.hashed && !m.noOutcome)
    && (m.hashed && !m.rewritten ==> Recomputes(h, Some(key), r))
  }

  /** A row marked as linked is; a row chained past an un-hashed one is not marked as linked. */
  predicate LinkMatches(prev: Row, r: Row, m: Mark) {
    r.id == prev.id + 1 && m.hashed && m.linked ==> prev.rowHash.Some? && r.prevHash == prev.rowHash
  }

  ghost predicate Coupled(h: Hasher, key: string, s: Log, b: Ledger) {
    && |s.rows| == |b.marks| && s.nextId == b.nextId
    && Ascending(s.rows)
    && (forall i :: 0 <= i < |s.rows| ==> s.rows[i].id < s.nextId)
    && (forall i :: 0 <= i < |s.rows| ==> Matches(h, key, s.rows[i], b.marks[i]))
    && (forall i :: 0 < i < |s.rows| ==> LinkMatches(s.rows[i - 1], s.rows[i], b.marks[i]))
  }

  lemma InsertCoupled(h: Hasher, key: string, s: Log, b: Ledger, f: Fields)
    requires Coupled(h, key, s, b)
    ensures Coupled(h, key, Insert(s, f), NoteInsert(b, f))
  {
  }

  lemma {:induction false} InsertAllCoupled(h: Hasher, key: string, s: Log, b: Ledger, fs: seq<Fields>)
    requires Coupled(h, key, s, b)
    ensures Coupled(h, key, InsertAll(s, fs), NoteInsertAll(b, fs))
    decreases |fs|
  {
    if fs != [] {
      InsertCoupled(h, key, s, b, fs[0]);
      InsertAllCoupled(h, key, Insert(s, fs[0]), NoteInsert(b, fs[0]), fs[1..]);
    }
  }

  lemma MarkCoupled(h: Hasher, key: string, s: Log, b: Ledger)
    requires Coupled(h, key, s, b)
    ensures Coupled(h, key, MarkLegacy(s), NoteMarkLegacy(b))
    ensures AnyUnmarked(s) <==> AnyNoOutcome(b)
  {
    var t, c := MarkLegacy(s), NoteMarkLegacy(b);
    forall i | 0 <= i < |s.rows|
      ensures Matches(h, key, t.rows[i], c.marks[i]) && (s.rows[i].fields.outcome == None <==> b.marks[i].noOutcome)
    {
      assert Matches(h, key, s.rows[i], b.marks[i]);
    }
    forall i | 0 < i < |s.rows| ensures LinkMatches(t.rows[i - 1], t.rows[i], c.marks[i]) {
      assert LinkMatches(s.rows[i - 1], s.rows[i], b.marks[i]);
    }
  }

  /** The tip is the hash of the newest hashed row, if there is one. */
  lemma {:induction false} TipIsNewest(rows: seq<Row>, m: nat)
    requires m < |rows| && rows[m].rowHash.Some? && NoneHashed(rows[m + 1..])
    ensures Tip(rows) == rows[m].rowHash.value
  {
    assert rows == rows[..m + 1] + rows[m + 1..];
    TipIgnoresUnhashed(rows[..m + 1], rows[m + 1..]);
  }

  lemma {:induction false} NewestHashed(rows: seq<Row>) returns (m: nat)
    requires !NoneHashed(rows)
    ensures m < |rows| && rows[m].rowHash.Some? && Tip(rows) == rows[m].rowHash.value
    ensures forall j :: m < j < |rows| ==> rows[j].rowHash == None
    decreases |rows|
  {
    m := |rows| - 1;
    if rows[m].rowHash == None {
      assert !NoneHashed(rows[..m]);
      m := NewestHashed(rows[..m]);
    }
  }

  /** What the ledger says of a filled row after a hashed one, read off the table. */
  lemma LinksOnRows(h: Hasher, key: string, s: Log, b: Ledger, i: nat)
    requires Coupled(h, key, s, b) && 0 < i < |s.rows| && Follows(b.marks, i) && b.marks[i - 1].hashed
             && !b.marks[i].hashed
    ensures LinksWhenFilled(b.marks, i) <==> AllHashed(s.rows[..i]) && NoneHashed(s.rows[i..])
  {
    forall j | 0 <= j < |s.rows| ensures b.marks[j].hashed <==> s.rows[j].rowHash.Some? {
      assert Matches(h, key, s.rows[j], b.marks[j]);
    }
    assert forall j :: 0 <= j < i ==> s.rows[..i][j] == s.rows[j];
    assert forall j :: i <= j < |s.rows| ==> s.rows[i..][j - i] == s.rows[j];
  }

  /** A filled row continues the fill of the row before it. */
  lemma FilledOnFilled(h: Hasher, rows: seq<Row>, i: nat)
    requires 0 < i < |rows| && rows[i - 1].rowHash == None && rows[i].rowHash == None
    ensures var t := Backfilled(h, rows);
            t[i - 1].rowHash.Some? && t[i].prevHash == t[i - 1].rowHash
  {
    FilledAt(h, Tip(rows), rows, i - 1);
    FilledAt(h, Tip(rows), rows, i);
    FillSnoc(h, Tip(rows), rows, i - 1);
  }

  /** The first row to be filled links to the newest hashed one. */
  lemma FilledOnTip(h: Hasher, rows: seq<Row>, i: nat)
    requires 0 < i < |rows| && AllHashed(rows[..i]) && NoneHashed(rows[i..])
    ensures var t := Backfilled(h, rows);
            t[i - 1].rowHash.Some? && t[i].prevHash == t[i - 1].rowHash
  {
    assert rows[..i][i - 1] == rows[i - 1] && rows[i..][0] == rows[i];
    FilledAt(h, Tip(rows), rows, i - 1);
    FilledAt(h, Tip(rows), rows, i);
    CarriedPastHashed(h, Tip(rows), rows[..i]);
    TipIsNewest(rows, i - 1);
  }

  /** Two neighbours of which the second is filled, when the ledger says they link. */
  lemma FilledLinks(h: Hasher, key: string, s: Log, b: Ledger, i: nat)
    requires Coupled(h, key, s, b) && 0 < i < |s.rows| && !b.marks[i].hashed && LinksWhenFilled(b.marks, i)
    ensures var t := Backfilled(h, s.rows);
            t[i - 1].rowHash.Some? && t[i].prevHash == t[i - 1].rowHash
  {
    assert Matches(h, key, s.rows[i], b.marks[i]) && Matches(h, key, s.rows[i - 1], b.marks[i - 1]);
    if b.marks[i - 1].hashed {
      LinksOnRows(h, key, s, b, i);
      FilledOnTip(h, s.rows, i);
    } else {
      FilledOnFilled(h, s.rows, i);
    }
  }

  lemma FillCoupled(h: Hasher, key: string, s: Log, b: Ledger)
    requires Coupled(h, key, s, b)
    ensures Coupled(h, key, Fill(h, s), NoteFill(b))
  {
    var t, c := Fill(h, s), NoteFill(b);
    FillKeepsIds(h, Tip(s.rows), s.rows);
    forall i | 0 <= i < |s.rows| ensures Matches(h, key, t.rows[i], c.marks[i]) {
      FillMatches(h, key, s, b, i);
    }
    forall i | 0 < i < |s.rows| ensures LinkMatches(t.rows[i - 1], t.rows[i], c.marks[i]) {
      FillLinkMatches(h, key, s, b, i);
    }
  }

  lemma FillMatches(h: Hasher, key: string, s: Log, b: Ledger, i: nat)
    requires Coupled(h, key, s, b) && i < |s.rows|
    ensures Matches(h, key, Backfilled(h, s.rows)[i], NoteFilled(b.marks, i))
  {
    assert Matches(h, key, s.rows[i], b.marks[i]);
    FilledAt(h, Tip(s.rows), s.rows, i);
  }

  lemma FillLinkMatches(h: Hasher, key: string, s: Log, b: Ledger, i: nat)
    requires Coupled(h, key, s, b) && 0 < i < |s.rows|
    ensures LinkMatches(Backfilled(h, s.rows)[i - 1], Backfilled(h, s.rows)[i], NoteFilled(b.marks, i))
  {
    assert Matches(h, key, s.rows[i], b.marks[i]) && Matches(h, key, s.rows[i - 1], b.marks[i - 1]);
    assert LinkMatches(s.rows[i - 1], s.rows[i], b.marks[i]);
    FilledAt(h, Tip(s.rows), s.rows, i);
    FilledAt(h, Tip(s.rows), s.rows, i - 1);
    if !b.marks[i].hashed && LinksWhenFilled(b.marks, i) {
      FilledLinks(h, key, s, b, i);
    }
  }

  lemma AppendCoupled(h: Hasher, key: string, s: Log, b: Ledger, f: Fields, keyed: bool)
    requires Coupled(h, key, s, b)
    ensures Coupled(h, key, Append(h, key, s, f, keyed), NoteAppend(b, f, keyed))
  {
    var t, c, n := Append(h, key, s, f, keyed), NoteAppend(b, f, keyed), |s.rows|;
    forall i | 0 <= i < |t.rows| ensures Matches(h, key, t.rows[i], c.marks[i]) {
      assert i < n ==> Matches(h, key, s.rows[i], b.marks[i]);
    }
    forall i | 0 < i < |t.rows| ensures LinkMatches(t.rows[i - 1], t.rows[i], c.marks[i]) {
      assert Matches(h, key, s.rows[i - 1], b.marks[i - 1]);
      assert i < n ==> LinkMatches(s.rows[i - 1], s.rows[i], b.marks[i]);
    }
  }

  lemma RetainCoupled(h: Hasher, key: string, s: Log, b: Ledger, keep: seq<nat>)
    requires Coupled(h, key, s, b) && Selects(keep, |s.rows|)
    ensures Coupled(h, key, Log(Kept(s.rows, keep), s.nextId), Ledger(Kept(b.marks, keep), b.nextId))
  {
    var rows, marks := Kept(s.rows, keep), Kept(b.marks, keep);
    forall k | 0 < k < |keep| ensures LinkMatches(rows[k - 1], rows[k], marks[k]) {
      StillNeighbours(s.rows, keep, k);
      assert LinkMatches(s.rows[keep[k] - 1], s.rows[keep[k]], b.marks[keep[k]]);
    }
  }

  /** Kept rows with consecutive ids were neighbours before. */
  lemma StillNeighbours(rows: seq<Row>, keep: seq<nat>, k: nat)
    requires Ascending(rows) && Selects(keep, |rows|) && 0 < k < |keep|
    ensures rows[keep[k]].id == rows[keep[k - 1]].id + 1 ==> keep[k - 1] + 1 == keep[k]
  {
    var i, j := keep[k - 1], keep[k];
    assert i + 1 < j ==> rows[i].id < rows[i + 1].id < rows[j].id;
  }

  lemma BootCoupled(h: Hasher, key: string, s: Log, b: Ledger, metadata: string, inserted: seq<Note>)
    requires Coupled(h, key, s, b)
    ensures Coupled(h, key, Boot(h, s, metadata, inserted), NoteBoot(b, metadata, inserted))
  {
    MarkCoupled(h, key, s, b);
    var note := Provenance(AnyUnmarked(s), metadata);
    InsertAllCoupled(h, key, MarkLegacy(s), NoteMarkLegacy(b), note);
    var t, c := InsertAll(MarkLegacy(s), note), NoteInsertAll(NoteMarkLegacy(b), note);
    FillCoupled(h, key, t, c);
    InsertAllCoupled(h, key, Fill(h, t), NoteFill(c), NotesFields(inserted));
  }

  lemma {:induction false} RunCoupled(h: Hasher, key: string, legacy: seq<Fields>, ops: seq<Op>)
    ensures Coupled(h, key, Run(h, key, legacy, ops), LedgerRun(legacy, ops))
    decreases |ops|
  {
    if ops == [] {
      InsertAllCoupled(h, key, Log([], 1), Ledger([], 1), legacy);
    } else {
      var ops', op := ops[..|ops| - 1], ops[|ops| - 1];
      RunCoupled(h, key, legacy, ops');
      var s, b := Run(h, key, legacy, ops'), LedgerRun(legacy, ops');
      match op
      case Emit(f, keyed) => AppendCoupled(h, key, s, b, f, keyed);
      case Retain(keep) => if Selects(keep, |s.rows|) { RetainCoupled(h, key, s, b, keep); }
      case Reboot(metadata, inserted) => BootCoupled(h, key, s, b, metadata, inserted);
    }
  }

  lemma InOrderAccepted(h: Hasher, key: string, s: Log, b: Ledger)
    requires Coupled(h, key, s, b) && InOrder(b)
    ensures ChainOk(h, Some(key), s.rows)
  {
    forall i | 0 <= i < |s.rows|
      ensures Recomputes(h, Some(key), s.rows[i]) && (b.marks[i].keyed <==> Keyed(s.rows[i]))
    {
      assert Matches(h, key, s.rows[i], b.marks[i]);
    }
    forall i | 0 < i < |s.rows| ensures LinkedTo(s.rows[i - 1], s.rows[i]) {
      assert LinkMatches(s.rows[i - 1], s.rows[i], b.marks[i]);
      assert Follows(b.marks, i) ==> b.marks[i].linked;
    }
  }

  // ---------------------------------------------------------------- with ideal digests

  ghost predicate Ideal(h: Hasher, rank: Hash -> nat) {
    Injective(h) && Ranked(h, rank)
  }

  function HashRank(rank: Hash -> nat, hash: Option<Hash>): nat {
    if hash.Some? then rank(hash.value) else 0
  }

  /** Rows chained since row `j` went in without a hash rank above the row before it. */
  ghost predicate AbovePredecessor(rank: Hash -> nat, rows: seq<Row>, j: int, m: int)
    requires 0 < j < |rows| && 0 <= m < |rows|
  {
    rows[j].rowHash == None && rows[j].id == rows[j - 1].id + 1 && j < m && rows[m].rowHash.Some?
    ==> HashRank(rank, rows[j - 1].rowHash) < HashRank(rank, rows[m].rowHash)
  }

  /** Rows chained since row `j` went in without a hash rank above what the earlier ones of them were chained onto. */
  ghost predicate AboveTips(rank: Hash -> nat, rows: seq<Row>, j: int, k: int, m: int)
    requires 0 <= j < |rows| && 0 <= k < |rows| && 0 <= m < |rows|
  {
    rows[j].rowHash == None && j < k <= m && rows[k].rowHash.Some? && rows[m].rowHash.Some?
    ==> HashRank(rank, rows[k].prevHash) < HashRank(rank, rows[m].rowHash)
  }

  ghost predicate RanksGrow(rank: Hash -> nat, rows: seq<Row>) {
    && (forall j, m :: 0 < j < |rows| && 0 <= m < |rows| ==> AbovePredecessor(rank, rows, j, m))
    && (forall j, k, m :: 0 <= j < |rows| && 0 <= k < |rows| && 0 <= m < |rows| ==> AboveTips(rank, rows, j, k, m))
  }

  predicate Unlinked(prev: Row, r: Row, m: Mark) {
    r.id == prev.id + 1 && m.hashed && prev.rowHash.Some? && !m.linked ==> r.prevHash != prev.rowHash
  }

  /** The ledger misses nothing: a rewritten row does not recompute, and a row not marked as linked is not. */
  ghost predicate Exact(h: Hasher, key: string, rank: Hash -> nat, s: Log, b: Ledger)
    requires Coupled(h, key, s, b)
  {
    && (forall i :: 0 <= i < |s.rows| && b.marks[i].rewritten ==> !Recomputes(h, Some(key), s.rows[i]))
    && (forall i :: 0 < i < |s.rows| ==> Unlinked(s.rows[i - 1], s.rows[i], b.marks[i]))
    && RanksGrow(rank, s.rows)
  }

  lemma InsertExact(h: Hasher, key: string, rank: Hash -> nat, s: Log, b: Ledger, f: Fields)
    requires Coupled(h, key, s, b) && Exact(h, key, rank, s, b)
    ensures Coupled(h, key, Insert(s, f), NoteInsert(b, f))
    ensures Exact(h, key, rank, Insert(s, f), NoteInsert(b, f))
  {
    InsertCoupled(h, key, s, b, f);
    var rows, n := Insert(s, f).rows, |s.rows|;
    forall j, m | 0 < j < |rows| && 0 <= m < |rows| ensures AbovePredecessor(rank, rows, j, m) {
      assert j < n && m < n ==> AbovePredecessor(rank, s.rows, j, m);
    }
    forall j, k, m | 0 <= j < |rows| && 0 <= k < |rows| && 0 <= m < |rows| ensures AboveTips(rank, rows, j, k, m) {
      assert j < n && k < n && m < n ==> AboveTips(rank, s.rows, j, k, m);
    }
  }

  lemma {:induction false} InsertAllExact(h: Hasher, key: string, rank: Hash -> nat, s: Log, b: Ledger, fs: seq<Fields>)
    requires Coupled(h, key, s, b) && Exact(h, key, rank, s, b)
    ensures Coupled(h, key, InsertAll(s, fs), NoteInsertAll(b, fs))
    ensures Exact(h, key, rank, InsertAll(s, fs), NoteInsertAll(b, fs))
    decreases |fs|
  {
    if fs != [] {
      InsertExact(h, key, rank, s, b, fs[0]);
      InsertAllExact(h, key, rank, Insert(s, fs[0]), NoteInsert(b, fs[0]), fs[1..]);
    }
  }

  /** Rewriting the outcome under a hash is noticed. */
  lemma RewriteNoticed(h: Hasher, key: string, r: Row)
    requires Injective(h) && Recomputes(h, Some(key), r) && r.fields.outcome == None
    ensures !Recomputes(h, Some(key), MarkedRow(r))
  {
    var p, f, g := r.prevHash.value, r.fields, Marked(r.fields);
    assert f != g;
    assert h.sha(p, f) != h.sha(p, g);
    assert h.hmac(key, p, f) != h.hmac(key, p, g);
  }

  lemma MarkExact(h: Hasher, key: string, rank: Hash -> nat, s: Log, b: Ledger)
    requires Ideal(h, rank) && Coupled(h, key, s, b) && Exact(h, key, rank, s, b)
    ensures Coupled(h, key, MarkLegacy(s), NoteMarkLegacy(b))
    ensures Exact(h, key, rank, MarkLegacy(s), NoteMarkLegacy(b))
  {
    MarkCoupled(h, key, s, b);
    var t, c := MarkLegacy(s), NoteMarkLegacy(b);
    forall i | 0 <= i < |s.rows| && c.marks[i].rewritten ensures !Recomputes(h, Some(key), t.rows[i]) {
      assert Matches(h, key, s.rows[i], b.marks[i]);
      if b.marks[i].noOutcome && !b.marks[i].rewritten {
        RewriteNoticed(h, key, s.rows[i]);
      }
    }
    forall i | 0 < i < |s.rows| ensures Unlinked(t.rows[i - 1], t.rows[i], c.marks[i]) {
      assert Unlinked(s.rows[i - 1], s.rows[i], b.marks[i]);
    }
    MarkRanks(rank, s);
  }

  lemma MarkRanks(rank: Hash -> nat, s: Log)
    requires RanksGrow(rank, s.rows)
    ensures RanksGrow(rank, MarkLegacy(s).rows)
  {
    var rows := MarkLegacy(s).rows;
    forall j, m | 0 < j < |rows| && 0 <= m < |rows| ensures AbovePredecessor(rank, rows, j, m) {
      assert AbovePredecessor(rank, s.rows, j, m);
    }
    forall j, k, m | 0 <= j < |rows| && 0 <= k < |rows| && 0 <= m < |rows| ensures AboveTips(rank, rows, j, k, m) {
      assert AboveTips(rank, s.rows, j, k, m);
    }
  }

  /** Filling only climbs. */
  lemma {:induction false} CarriedRanks(h: Hasher, rank: Hash -> nat, prev: Hash, rows: seq<Row>)
    requires Ranked(h, rank)
    ensures rank(CarriedPast(h, prev, rows)) >= rank(prev)
    ensures !AllHashed(rows) ==> rank(CarriedPast(h, prev, rows)) > rank(prev)
    decreases |rows|
  {
    if rows != [] {
      var next := Carried(h, prev, rows[0]);
      assert rows[0].rowHash == None ==> next == RowHash(h, prev, rows[0].fields, None);
      CarriedRanks(h, rank, next, rows[1..]);
      assert rows[0].rowHash.Some? && AllHashed(rows[1..]) ==> AllHashed(rows);
    }
  }

  /** A row that is filled ranks above the tip. */
  lemma FilledAboveTip(h: Hasher, rank: Hash -> nat, rows: seq<Row>, i: nat)
    requires Ranked(h, rank) && i < |rows| && rows[i].rowHash == None
    ensures HashRank(rank, Backfilled(h, rows)[i].rowHash) > rank(Tip(rows))
  {
    var prev := CarriedPast(h, Tip(rows), rows[..i]);
    FilledAt(h, Tip(rows), rows, i);
    CarriedRanks(h, rank, Tip(rows), rows[..i]);
    assert rank(RowHash(h, prev, rows[i].fields, None)) > rank(prev);
  }

  /** A row chained past an un-hashed one does not link to it once that one is filled. */
  lemma PastStaysUnlinked(h: Hasher, rank: Hash -> nat, rows: seq<Row>, i: nat)
    requires Ranked(h, rank) && RanksGrow(rank, rows) && 0 < i < |rows|
    requires rows[i].rowHash.Some? && rows[i].prevHash.Some? && rows[i - 1].rowHash == None
    ensures Backfilled(h, rows)[i].prevHash != Backfilled(h, rows)[i - 1].rowHash
  {
    assert !NoneHashed(rows);
    var m := NewestHashed(rows);
    assert i <= m;
    assert AboveTips(rank, rows, i - 1, i, m);
    FilledAboveTip(h, rank, rows, i - 1);
    FilledAt(h, Tip(rows), rows, i);
  }

  /** The row before an un-hashed one does not rank above the tip, and below it when it is not the tip. */
  lemma PredecessorBelowTip(rank: Hash -> nat, rows: seq<Row>, i: nat)
    requires RanksGrow(rank, rows) && 0 < i < |rows| && rows[i].id == rows[i - 1].id + 1
    requires rows[i].rowHash == None && rows[i - 1].rowHash.Some?
    ensures HashRank(rank, rows[i - 1].rowHash) <= rank(Tip(rows))
    ensures !NoneHashed(rows[i..]) ==> HashRank(rank, rows[i - 1].rowHash) < rank(Tip(rows))
  {
    assert !NoneHashed(rows);
    var m := NewestHashed(rows);
    assert i - 1 <= m;
    assert AbovePredecessor(rank, rows, i, m);
  }

  /** A filled row does not link to a hashed one unless it is the first to be filled, and that the newest hashed. */
  lemma FilledOffTip(h: Hasher, rank: Hash -> nat, rows: seq<Row>, i: nat)
    requires Ranked(h, rank) && RanksGrow(rank, rows) && 0 < i < |rows| && rows[i].id == rows[i - 1].id + 1
    requires rows[i].rowHash == None && rows[i - 1].rowHash.Some?
    requires !(AllHashed(rows[..i]) && NoneHashed(rows[i..]))
    ensures Backfilled(h, rows)[i].prevHash != Backfilled(h, rows)[i - 1].rowHash
  {
    var tip := Tip(rows);
    FilledAt(h, tip, rows, i);
    FilledAt(h, tip, rows, i - 1);
    CarriedRanks(h, rank, tip, rows[..i]);
    PredecessorBelowTip(rank, rows, i);
    if AllHashed(rows[..i]) {
      CarriedPastHashed(h, tip, rows[..i]);
    }
  }

  lemma FillExact(h: Hasher, key: string, rank: Hash -> nat, s: Log, b: Ledger)
    requires Ideal(h, rank) && Coupled(h, key, s, b) && Exact(h, key, rank, s, b)
    ensures Coupled(h, key, Fill(h, s), NoteFill(b))
    ensures Exact(h, key, rank, Fill(h, s), NoteFill(b))
  {
    FillCoupled(h, key, s, b);
    var t, c := Fill(h, s), NoteFill(b);
    forall i | 0 <= i < |s.rows| && c.marks[i].rewritten ensures !Recomputes(h, Some(key), t.rows[i]) {
      assert Matches(h, key, s.rows[i], b.marks[i]);
      FilledAt(h, Tip(s.rows), s.rows, i);
    }
    forall i | 0 < i < |s.rows| ensures Unlinked(t.rows[i - 1], t.rows[i], c.marks[i]) {
      assert Matches(h, key, s.rows[i], b.marks[i]) && Matches(h, key, s.rows[i - 1], b.marks[i - 1]);
      assert Matches(h, key, t.rows[i], c.marks[i]) && Matches(h, key, t.rows[i - 1], c.marks[i - 1]);
      FillUnlinked(h, key, rank, s, b, i);
    }
    FillHashes(h, Tip(s.rows), s.rows);
    assert RanksGrow(rank, t.rows);
  }

  lemma FillUnlinked(h: Hasher, key: string, rank: Hash -> nat, s: Log, b: Ledger, i: nat)
    requires Ideal(h, rank) && Coupled(h, key, s, b) && Exact(h, key, rank, s, b) && 0 < i < |s.rows|
    ensures Unlinked(Backfilled(h, s.rows)[i - 1], Backfilled(h, s.rows)[i], NoteFill(b).marks[i])
  {
    assert Matches(h, key, s.rows[i], b.marks[i]) && Matches(h, key, s.rows[i - 1], b.marks[i - 1]);
    assert Unlinked(s.rows[i - 1], s.rows[i], b.marks[i]);
    FilledAt(h, Tip(s.rows), s.rows, i);
    FilledAt(h, Tip(s.rows), s.rows, i - 1);
    FillKeepsIds(h, Tip(s.rows), s.rows);
    if b.marks[i].hashed && !b.marks[i - 1].hashed {
      PastStaysUnlinked(h, rank, s.rows, i);
    } else if !b.marks[i].hashed && b.marks[i - 1].hashed && Follows(b.marks, i) && !LinksWhenFilled(b.marks, i) {
      LinksOnRows(h, key, s, b, i);
      FilledOffTip(h, rank, s.rows, i);
    }
  }

  /** A chained row ranks above every stored hash that ranks at most as high as the tip. */
  lemma AppendRanks(h: Hasher, key: string, rank: Hash -> nat, s: Log, b: Ledger, f: Fields, keyed: bool)
    requires Ideal(h, rank) && Coupled(h, key, s, b) && RanksGrow(rank, s.rows)
    ensures RanksGrow(rank, Append(h, key, s, f, keyed).rows)
  {
    var rows, n := Append(h, key, s, f, keyed).rows, |s.rows|;
    assert HashRank(rank, rows[n].rowHash) > rank(Tip(s.rows)) == HashRank(rank, rows[n].prevHash);
    forall j, m | 0 < j < |rows| && 0 <= m < |rows| ensures AbovePredecessor(rank, rows, j, m) {
      if j < n && m < n {
        assert AbovePredecessor(rank, s.rows, j, m);
      } else if j < n && rows[j].rowHash == None && rows[j].id == rows[j - 1].id + 1 && rows[j - 1].rowHash.Some? {
        PredecessorBelowTip(rank, s.rows, j);
      }
    }
    forall j, k, m | 0 <= j < |rows| && 0 <= k < |rows| && 0 <= m < |rows| ensures AboveTips(rank, rows, j, k, m) {
      if j < n && k < n && m < n {
        assert AboveTips(rank, s.rows, j, k, m);
      } else if j < k < n && rows[j].rowHash == None && rows[k].rowHash.Some? {
        ChainedBelowTip(rank, s.rows, j, k);
      }
    }
  }

  lemma ChainedBelowTip(rank: Hash -> nat, rows: seq<Row>, j: nat, k: nat)
    requires RanksGrow(rank, rows) && j < k < |rows| && rows[j].rowHash == None && rows[k].rowHash.Some?
    ensures HashRank(rank, rows[k].prevHash) < rank(Tip(rows))
  {
    assert !NoneHashed(rows);
    var m := NewestHashed(rows);
    assert k <= m;
    assert AboveTips(rank, rows, j, k, m);
  }

  lemma AppendExact(h: Hasher, key: string, rank: Hash -> nat, s: Log, b: Ledger, f: Fields, keyed: bool)
    requires Ideal(h, rank) && Coupled(h, key, s, b) && Exact(h, key, rank, s, b)
    ensures Coupled(h, key, Append(h, key, s, f, keyed), NoteAppend(b, f, keyed))
    ensures Exact(h, key, rank, Append(h, key, s, f, keyed), NoteAppend(b, f, keyed))
  {
    AppendCoupled(h, key, s, b, f, keyed);
    AppendRanks(h, key, rank, s, b, f, keyed);
    var t, c, n := Append(h, key, s, f, keyed), NoteAppend(b, f, keyed), |s.rows|;
    forall i | 0 < i < |t.rows| ensures Unlinked(t.rows[i - 1], t.rows[i], c.marks[i]) {
      if i < n {
        assert Unlinked(s.rows[i - 1], s.rows[i], b.marks[i]);
      } else {
        assert Matches(h, key, s.rows[n - 1], b.marks[n - 1]);
      }
    }
  }

  lemma RetainExact(h: Hasher, key: string, rank: Hash -> nat, s: Log, b: Ledger, keep: seq<nat>)
    requires Coupled(h, key, s, b) && Exact(h, key, rank, s, b) && Selects(keep, |s.rows|)
    ensures Coupled(h, key, Log(Kept(s.rows, keep), s.nextId), Ledger(Kept(b.marks, keep), b.nextId))
    ensures Exact(h, key, rank, Log(Kept(s.rows, keep), s.nextId), Ledger(Kept(b.marks, keep), b.nextId))
  {
    RetainCoupled(h, key, s, b, keep);
    var rows, marks := Kept(s.rows, keep), Kept(b.marks, keep);
    forall k | 0 < k < |keep| ensures Unlinked(rows[k - 1], rows[k], marks[k]) {
      StillNeighbours(s.rows, keep, k);
      assert Unlinked(s.rows[keep[k] - 1], s.rows[keep[k]], b.marks[keep[k]]);
    }
    RetainRanks(rank, s.rows, keep);
  }

  lemma RetainRanks(rank: Hash -> nat, rows: seq<Row>, keep: seq<nat>)
    requires Ascending(rows) && Selects(keep, |rows|) && RanksGrow(rank, rows)
    ensures RanksGrow(rank, Kept(rows, keep))
  {
    var r := Kept(rows, keep);
    forall j, m | 0 < j < |r| && 0 <= m < |r| ensures AbovePredecessor(rank, r, j, m) {
      StillNeighbours(rows, keep, j);
      assert keep[j] > keep[j - 1] && AbovePredecessor(rank, rows, keep[j], keep[m]);
    }
    forall j, k, m | 0 <= j < |r| && 0 <= k < |r| && 0 <= m < |r| ensures AboveTips(rank, r, j, k, m) {
      assert AboveTips(rank, rows, keep[j], keep[k], keep[m]);
      assert k < m ==> keep[k] < keep[m];
    }
  }

  lemma BootExact(h: Hasher, key: string, rank: Hash -> nat, s: Log, b: Ledger, metadata: string, inserted: seq<Note>)
    requires Ideal(h, rank) && Coupled(h, key, s, b) && Exact(h, key, rank, s, b)
    ensures Coupled(h, key, Boot(h, s, metadata, inserted), NoteBoot(b, metadata, inserted))
    ensures Exact(h, key, rank, Boot(h, s, metadata, inserted), NoteBoot(b, metadata, inserted))
  {
    MarkCoupled(h, key, s, b);
    MarkExact(h, key, rank, s, b);
    var note := Provenance(AnyUnmarked(s), metadata);
    InsertAllExact(h, key, rank, MarkLegacy(s), NoteMarkLegacy(b), note);
    var t, c := InsertAll(MarkLegacy(s), note), NoteInsertAll(NoteMarkLegacy(b), note);
    FillExact(h, key, rank, t, c);
    InsertAllExact(h, key, rank, Fill(h, t), NoteFill(c), NotesFields(inserted));
  }

  lemma {:induction false} RunExact(h: Hasher, key: string, rank: Hash -> nat, legacy: seq<Fields>, ops: seq<Op>)
    requires Ideal(h, rank)
    ensures Coupled(h, key, Run(h, key, legacy, ops), LedgerRun(legacy, ops))
    ensures Exact(h, key, rank, Run(h, key, legacy, ops), LedgerRun(legacy, ops))
    decreases |ops|
  {
    if ops == [] {
      InsertAllExact(h, key, rank, Log([], 1), Ledger([], 1), legacy);
    } else {
      var ops', op := ops[..|ops| - 1], ops[|ops| - 1];
      RunExact(h, key, rank, legacy, ops');
      var s, b := Run(h, key, legacy, ops'), LedgerRun(legacy, ops');
      match op
      case Emit(f, keyed) => AppendExact(h, key, rank, s, b, f, keyed);
      case Retain(keep) => if Selects(keep, |s.rows|) { RetainExact(h, key, rank, s, b, keep); }
      case Reboot(metadata, inserted) => BootExact(h, key, rank, s, b, metadata, inserted);
    }
  }

  lemma AcceptedInOrder(h: Hasher, key: string, rank: Hash -> nat, s: Log, b: Ledger)
    requires Coupled(h, key, s, b) && Exact(h, key, rank, s, b) && ChainOk(h, Some(key), s.rows)
    ensures InOrder(b)
  {
    forall i | 0 <= i < |s.rows|
      ensures b.marks[i].hashed && !b.marks[i].rewritten && (b.marks[i].keyed <==> Keyed(s.rows[i]))
    {
      assert Matches(h, key, s.rows[i], b.marks[i]) && Recomputes(h, Some(key), s.rows[i]);
    }
    forall i | 0 <= i < |s.rows| && Follows(b.marks, i) ensures b.marks[i].linked {
      assert Matches(h, key, s.rows[i], b.marks[i]) && Matches(h, key, s.rows[i - 1], b.marks[i - 1]);
      assert LinkedTo(s.rows[i - 1], s.rows[i]) && Unlinked(s.rows[i - 1], s.rows[i], b.marks[i]);
    }
  }

  /** Over any run: the verifier, given the key, accepts the table if and only if the ledger is in order. */
  lemma AcceptedIffInOrder(h: Hasher, key: string, rank: Hash -> nat, legacy: seq<Fields>, ops: seq<Op>)
    requires Ideal(h, rank)
    ensures var rows := Run(h, key, legacy, ops).rows;
            Verifies(h, key, rows) <==> InOrder(LedgerRun(legacy, ops))
  {
    var s, b := Run(h, key, legacy, ops), LedgerRun(legacy, ops);
    RunExact(h, key, rank, legacy, ops);
    AcceptedIffChainOk(h, Some(key), s.rows);
    if InOrder(b) {
      InOrderAccepted(h, key, s, b);
    }
    if ChainOk(h, Some(key), s.rows) {
      AcceptedInOrder(h, key, rank, s, b);
    }
  }

  // ---------------------------------------------------------------- telling it from the operations

  /**
   What an operator can keep track of: `sound` until something irreparable happened, `bare` while the
   newest rows have no hash, whether a keyed row and a chained row without an outcome were written.
   */
  datatype Watch = Watch(sound: bool, bare: bool, keyedRow: bool, noOutcomeRow: bool)

  function WatchStep(w: Watch, op: Op): Watch {
    match op
    case Emit(f, keyed) =>
      Watch(w.sound && !w.bare && (keyed || !w.keyedRow), w.bare, w.keyedRow || keyed,
            w.noOutcomeRow || f.outcome == None)
    case Retain(_) => w
    case Reboot(_, inserted) =>
      Watch(w.sound && !w.noOutcomeRow && (!w.bare || !w.keyedRow), inserted != [], w.keyedRow, false)
  }

  function Watched(legacy: seq<Fields>, ops: seq<Op>): Watch {
    if ops == [] then Watch(true, legacy != [], false, false)
    else WatchStep(Watched(legacy, ops[..|ops| - 1]), ops[|ops| - 1])
  }

  ghost predicate Numbered(b: Ledger) {
    && (forall i, j :: 0 <= i < j < |b.marks| ==> b.marks[i].id < b.marks[j].id)
    && (forall i :: 0 <= i < |b.marks| ==> b.marks[i].id < b.nextId)
  }

  /** Row `i` is intact as far as it goes. */
  predicate Intact(marks: seq<Mark>, i: int)
    requires 0 <= i < |marks|
  {
    && !marks[i].rewritten
    && (marks[i].hashed && Follows(marks, i) ==> marks[i].linked)
    && (marks[i].keyed ==> marks[i].hashed)
  }

  ghost predicate AnyBare(b: Ledger) { exists i :: 0 <= i < |b.marks| && !b.marks[i].hashed }
  ghost predicate AnyKeyed(b: Ledger) { exists i :: 0 <= i < |b.marks| && b.marks[i].keyed }
  ghost predicate AnyChainedNoOutcome(b: Ledger) {
    exists i :: 0 <= i < |b.marks| && b.marks[i].hashed && b.marks[i].noOutcome
  }

  /** Hashed rows first, intact, no unkeyed one after a keyed one. */
  ghost predicate Sound(b: Ledger) {
    && Numbered(b)
    && (forall i :: 0 <= i < |b.marks| ==> Intact(b.marks, i))
    && (forall i, j :: 0 <= i < j < |b.marks| && b.marks[j].hashed ==> b.marks[i].hashed)
    && (forall i, j :: 0 <= i < j < |b.marks| && b.marks[j].hashed && b.marks[i].keyed ==> b.marks[j].keyed)
  }

  /** While sound, the watch has seen whatever is in the ledger. */
  ghost predicate Seen(w: Watch, b: Ledger) {
    && Sound(b)
    && (AnyBare(b) ==> w.bare) && (AnyKeyed(b) ==> w.keyedRow) && (AnyChainedNoOutcome(b) ==> w.noOutcomeRow)
  }

  lemma {:induction false} InsertAllSound(b: Ledger, fs: seq<Fields>)
    requires Sound(b)
    ensures var c := NoteInsertAll(b, fs);
            && Sound(c)
            && (AnyBare(c) <==> AnyBare(b) || fs != [])
            && (AnyKeyed(c) <==> AnyKeyed(b)) && (AnyChainedNoOutcome(c) <==> AnyChainedNoOutcome(b))
    decreases |fs|
  {
    if fs != [] {
      InsertSound(b, fs[0]);
      InsertAllSound(NoteInsert(b, fs[0]), fs[1..]);
    }
  }

  lemma InsertSound(b: Ledger, f: Fields)
    requires Sound(b)
    ensures var c := NoteInsert(b, f);
            && Sound(c) && AnyBare(c)
            && (AnyKeyed(c) <==> AnyKeyed(b)) && (AnyChainedNoOutcome(c) <==> AnyChainedNoOutcome(b))
  {
    var c, n := NoteInsert(b, f), |b.marks|;
    assert !c.marks[n].hashed;
    forall i | 0 <= i < n ensures c.marks[i] == b.marks[i] && Intact(c.marks, i) {
      assert Intact(b.marks, i);
    }
  }

  lemma MarkSound(b: Ledger)
    requires Sound(b) && !AnyChainedNoOutcome(b)
    ensures var c := NoteMarkLegacy(b);
            Sound(c) && (AnyBare(c) <==> AnyBare(b)) && (AnyKeyed(c) <==> AnyKeyed(b)) && !AnyNoOutcome(c)
    ensures AnyNoOutcome(b) ==> AnyBare(b)
  {
    var c := NoteMarkLegacy(b);
    forall i | 0 <= i < |b.marks|
      ensures Intact(c.marks, i) && c.marks[i] == b.marks[i].(noOutcome := false)
    {
      assert Intact(b.marks, i);
    }
  }

  lemma FillSound(b: Ledger)
    requires Sound(b) && !AnyNoOutcome(b) && (AnyBare(b) ==> !AnyKeyed(b))
    ensures var c := NoteFill(b);
            Sound(c) && !AnyBare(c) && (AnyKeyed(c) <==> AnyKeyed(b)) && !AnyNoOutcome(c)
  {
    var c := NoteFill(b);
    forall i | 0 <= i < |b.marks|
      ensures Intact(c.marks, i) && c.marks[i].hashed && c.marks[i].keyed == b.marks[i].keyed && !c.marks[i].noOutcome
    {
      assert Intact(b.marks, i);
      assert Follows(c.marks, i) <==> Follows(b.marks, i);
    }
  }

  lemma ProvenanceHasOutcome(b: Ledger, any: bool, metadata: string)
    requires !AnyNoOutcome(b)
    ensures !AnyNoOutcome(NoteInsertAll(b, Provenance(any, metadata)))
  {
    var fs := Provenance(any, metadata);
    if any {
      assert fs[1..] == [];
      assert NoteInsertAll(b, fs) == NoteInsert(b, fs[0]);
    }
  }

  lemma NotedSound(b: Ledger, metadata: string)
    requires Sound(b) && !AnyChainedNoOutcome(b)
    ensures var c := NoteInsertAll(NoteMarkLegacy(b), Provenance(AnyNoOutcome(b), metadata));
            Sound(c) && !AnyNoOutcome(c) && (AnyBare(c) <==> AnyBare(b)) && (AnyKeyed(c) <==> AnyKeyed(b))
  {
    MarkSound(b);
    InsertAllSound(NoteMarkLegacy(b), Provenance(AnyNoOutcome(b), metadata));
    ProvenanceHasOutcome(NoteMarkLegacy(b), AnyNoOutcome(b), metadata);
  }

  lemma OutcomesKnown(b: Ledger)
    requires !AnyNoOutcome(b)
    ensures !AnyChainedNoOutcome(b)
  {
  }

  /** A boot that finds no outcome to rewrite under a hash, and un-hashed rows only on an unkeyed chain. */
  lemma BootSound(b: Ledger, metadata: string, inserted: seq<Note>)
    requires Sound(b) && !AnyChainedNoOutcome(b) && (AnyBare(b) ==> !AnyKeyed(b))
    ensures var c := NoteBoot(b, metadata, inserted);
            && Sound(c)
            && (AnyBare(c) <==> inserted != []) && (AnyKeyed(c) <==> AnyKeyed(b)) && !AnyChainedNoOutcome(c)
  {
    NotedSound(b, metadata);
    var noted := NoteInsertAll(NoteMarkLegacy(b), Provenance(AnyNoOutcome(b), metadata));
    FillSound(noted);
    InsertAllSound(NoteFill(noted), NotesFields(inserted));
    OutcomesKnown(NoteFill(noted));
  }

  lemma AppendKeepsSound(b: Ledger, f: Fields, keyed: bool)
    requires Sound(b) && !AnyBare(b) && (AnyKeyed(b) ==> keyed)
    ensures Sound(NoteAppend(b, f, keyed))
  {
    var c, n := NoteAppend(b, f, keyed), |b.marks|;
    assert forall i :: 0 <= i < n ==> c.marks[i] == b.marks[i];
    assert forall i :: 0 <= i < n ==> b.marks[i].hashed && (b.marks[i].keyed ==> keyed);
    forall i | 0 <= i <= n ensures Intact(c.marks, i) {
      assert i < n ==> Intact(b.marks, i);
    }
  }

  lemma AppendSeen(b: Ledger, f: Fields, keyed: bool)
    ensures var c := NoteAppend(b, f, keyed);
            && (AnyBare(c) <==> AnyBare(b))
            && (AnyKeyed(c) <==> AnyKeyed(b) || keyed)
            && (AnyChainedNoOutcome(c) <==> AnyChainedNoOutcome(b) || f.outcome == None)
  {
    var c, n := NoteAppend(b, f, keyed), |b.marks|;
    assert forall i :: 0 <= i < n ==> c.marks[i] == b.marks[i];
    assert c.marks[n].hashed && c.marks[n].keyed == keyed && c.marks[n].noOutcome == (f.outcome == None);
  }

  lemma AppendSound(b: Ledger, f: Fields, keyed: bool)
    requires Sound(b) && !AnyBare(b) && (AnyKeyed(b) ==> keyed)
    ensures var c := NoteAppend(b, f, keyed);
            && Sound(c) && !AnyBare(c)
            && (AnyKeyed(c) <==> AnyKeyed(b) || keyed)
            && (AnyChainedNoOutcome(c) <==> AnyChainedNoOutcome(b) || f.outcome == None)
  {
    AppendKeepsSound(b, f, keyed);
    AppendSeen(b, f, keyed);
  }

  lemma RetainSound(b: Ledger, keep: seq<nat>)
    requires Sound(b) && Selects(keep, |b.marks|)
    ensures var c := Ledger(Kept(b.marks, keep), b.nextId);
            && Sound(c)
            && (AnyBare(c) ==> AnyBare(b)) && (AnyKeyed(c) ==> AnyKeyed(b))
            && (AnyChainedNoOutcome(c) ==> AnyChainedNoOutcome(b))
  {
    var marks := Kept(b.marks, keep);
    forall k | 0 <= k < |keep| ensures Intact(marks, k) {
      assert Intact(b.marks, keep[k]);
      if k > 0 {
        var i, j := keep[k - 1], keep[k];
        assert i + 1 < j ==> b.marks[i].id < b.marks[i + 1].id < b.marks[j].id;
      }
    }
  }

  /** While the watch is sound it has seen everything. */
  lemma {:induction false} RunSeen(legacy: seq<Fields>, ops: seq<Op>)
    requires Watched(legacy, ops).sound
    ensures Seen(Watched(legacy, ops), LedgerRun(legacy, ops))
    decreases |ops|
  {
    if ops == [] {
      InsertAllSound(Ledger([], 1), legacy);
    } else {
      var ops', op := ops[..|ops| - 1], ops[|ops| - 1];
      RunSeen(legacy, ops');
      var b := LedgerRun(legacy, ops');
      match op
      case Emit(f, keyed) => AppendSound(b, f, keyed);
      case Retain(keep) => if Selects(keep, |b.marks|) { RetainSound(b, keep); }
      case Reboot(metadata, inserted) => BootSound(b, metadata, inserted);
    }
  }

  predicate Accepts(w: Watch) {
    w.sound && !w.bare
  }

  lemma SeenInOrder(w: Watch, b: Ledger)
    requires Seen(w, b) && Accepts(w)
    ensures InOrder(b)
  {
    forall i | 0 <= i < |b.marks|
      ensures b.marks[i].hashed && !b.marks[i].rewritten && (Follows(b.marks, i) ==> b.marks[i].linked)
    {
      assert Intact(b.marks, i) && !AnyBare(b);
    }
  }

  /**
   Over any run, retention included and whatever the digests: a table whose operations the watch
   accepts is accepted by the verifier.
   */
  lemma WatchedLogVerifies(h: Hasher, key: string, legacy: seq<Fields>, ops: seq<Op>)
    requires Accepts(Watched(legacy, ops))
    ensures var rows := Run(h, key, legacy, ops).rows;
            Verifies(h, key, rows)
  {
    var s, b := Run(h, key, legacy, ops), LedgerRun(legacy, ops);
    RunSeen(legacy, ops);
    SeenInOrder(Watched(legacy, ops), b);
    RunCoupled(h, key, legacy, ops);
    InOrderAccepted(h, key, s, b);
    AcceptedIffChainOk(h, Some(key), s.rows);
  }

  // ---------------------------------------------------------------- without retention, exactly

  /** Damage that no later append or boot undoes. */
  ghost predicate Broken(marks: seq<Mark>) {
    || (exists i :: 0 <= i < |marks| && marks[i].rewritten)
    || (exists i :: 0 <= i < |marks| && Follows(marks, i) && marks[i].hashed && !marks[i].linked)
    || (exists i, j :: 0 <= i < j < |marks| && marks[i].keyed && marks[j].hashed && !marks[j].keyed)
  }

  /** `later` has the rows of `marks`, each hashed row with its hashes, its link and its algorithm. */
  ghost predicate Continues(marks: seq<Mark>, later: seq<Mark>) {
    && |marks| <= |later|
    && forall i :: 0 <= i < |marks| ==>
         && later[i].id == marks[i].id
         && (marks[i].rewritten ==> later[i].rewritten)
         && (marks[i].hashed ==> later[i].hashed && later[i].linked == marks[i].linked)
         && later[i].keyed == marks[i].keyed
  }

  lemma BrokenStays(marks: seq<Mark>, later: seq<Mark>)
    requires Broken(marks) && Continues(marks, later)
    ensures Broken(later)
  {
    if i :| 0 <= i < |marks| && marks[i].rewritten {
      assert later[i].rewritten;
    } else if i :| 0 <= i < |marks| && Follows(marks, i) && marks[i].hashed && !marks[i].linked {
      assert Follows(later, i) && later[i].hashed && !later[i].linked;
    } else {
      var i, j :| 0 <= i < j < |marks| && marks[i].keyed && marks[j].hashed && !marks[j].keyed;
      assert later[i].keyed && later[j].hashed && !later[j].keyed;
    }
  }

  lemma BrokenOutOfOrder(b: Ledger)
    requires Broken(b.marks)
    ensures !InOrder(b)
  {
  }

  /** Without retention the ids are consecutive up to the counter. */
  ghost predicate Dense(b: Ledger) {
    forall i :: 0 <= i < |b.marks| ==> b.marks[i].id == b.nextId - |b.marks| + i
  }

  lemma {:induction false} InsertAllContinues(b: Ledger, fs: seq<Fields>)
    ensures Continues(b.marks, NoteInsertAll(b, fs).marks)
    ensures Dense(b) ==> Dense(NoteInsertAll(b, fs))
    decreases |fs|
  {
    if fs != [] {
      var c := NoteInsert(b, fs[0]);
      assert forall i :: 0 <= i < |b.marks| ==> c.marks[i] == b.marks[i];
      InsertAllContinues(c, fs[1..]);
    }
  }

  /** The stages of a boot on the ledger. */
  lemma BootContinues(b: Ledger, metadata: string, inserted: seq<Note>)
    ensures var marked := NoteMarkLegacy(b);
            var noted := NoteInsertAll(marked, Provenance(AnyNoOutcome(b), metadata));
            var c := NoteBoot(b, metadata, inserted);
            && Continues(marked.marks, c.marks) && Continues(NoteFill(noted).marks, c.marks)
            && |b.marks| == |marked.marks| <= |noted.marks|
            && (Dense(b) ==> Dense(c))
    ensures Continues(b.marks, NoteBoot(b, metadata, inserted).marks)
  {
    var marked, note := NoteMarkLegacy(b), Provenance(AnyNoOutcome(b), metadata);
    var noted := NoteInsertAll(marked, note);
    var filled := NoteFill(noted);
    assert Continues(b.marks, marked.marks);
    InsertAllContinues(marked, note);
    assert Continues(noted.marks, filled.marks);
    InsertAllContinues(filled, NotesFields(inserted));
    var c := NoteInsertAll(filled, NotesFields(inserted));
    ContinuesTransitive(noted.marks, filled.marks, c.marks);
    ContinuesTransitive(marked.marks, noted.marks, c.marks);
    ContinuesTransitive(b.marks, marked.marks, c.marks);
  }

  lemma ContinuesTransitive(a: seq<Mark>, b: seq<Mark>, c: seq<Mark>)
    requires Continues(a, b) && Continues(b, c)
    ensures Continues(a, c)
  {
  }

  /** A boot that rewrites an outcome under a hash breaks the chain for good. */
  lemma RewriteBreaks(b: Ledger, metadata: string, inserted: seq<Note>)
    requires AnyChainedNoOutcome(b)
    ensures Broken(NoteBoot(b, metadata, inserted).marks)
  {
    BootContinues(b, metadata, inserted);
    var marked := NoteMarkLegacy(b);
    var i :| 0 <= i < |b.marks| && b.marks[i].hashed && b.marks[i].noOutcome;
    assert marked.marks[i].rewritten;
    BrokenStays(marked.marks, NoteBoot(b, metadata, inserted).marks);
  }

  lemma KeyedThenBare(b: Ledger) returns (i: nat, j: nat)
    requires Sound(b) && AnyBare(b) && AnyKeyed(b)
    ensures i < j < |b.marks| && b.marks[i].keyed && !b.marks[j].hashed && !b.marks[j].keyed
  {
    i :| 0 <= i < |b.marks| && b.marks[i].keyed;
    j :| 0 <= j < |b.marks| && !b.marks[j].hashed;
    assert Intact(b.marks, i) && Intact(b.marks, j);
  }

  lemma FillDowngrades(b: Ledger, i: nat, j: nat)
    requires i < j < |b.marks| && b.marks[i].keyed && !b.marks[j].keyed
    ensures Broken(NoteFill(b).marks)
  {
    var c := NoteFill(b).marks;
    assert c[i].keyed && c[j].hashed && !c[j].keyed;
  }

  /** A boot that fills a row after a keyed one breaks the chain for good. */
  lemma DowngradeBreaks(b: Ledger, metadata: string, inserted: seq<Note>)
    requires Sound(b) && AnyBare(b) && AnyKeyed(b)
    ensures Broken(NoteBoot(b, metadata, inserted).marks)
  {
    BootContinues(b, metadata, inserted);
    var marked, note := NoteMarkLegacy(b), Provenance(AnyNoOutcome(b), metadata);
    var noted := NoteInsertAll(marked, note);
    var i, j := KeyedThenBare(b);
    InsertAllContinues(marked, note);
    FillDowngrades(noted, i, j);
    BrokenStays(NoteFill(noted).marks, NoteBoot(b, metadata, inserted).marks);
  }

  /** A row chained past an un-hashed one, or unkeyed after a keyed one, breaks the chain for good. */
  lemma AppendBreaks(b: Ledger, f: Fields, keyed: bool)
    requires Sound(b) && Dense(b) && (AnyBare(b) || (AnyKeyed(b) && !keyed))
    ensures Broken(NoteAppend(b, f, keyed).marks)
  {
    var c, n := NoteAppend(b, f, keyed).marks, |b.marks|;
    if AnyBare(b) {
      assert !b.marks[n - 1].hashed;
      assert c[n - 1] == b.marks[n - 1] && Follows(c, n);
    } else {
      var i :| 0 <= i < n && b.marks[i].keyed;
      assert c[i].keyed && c[n].hashed && !c[n].keyed;
    }
  }

  ghost predicate NoRetention(ops: seq<Op>) {
    forall i :: 0 <= i < |ops| ==> !ops[i].Retain?
  }

  /** The watch knows the ledger: exactly while it is sound, that something broke when it is not. */
  ghost predicate Tracks(w: Watch, b: Ledger) {
    && Dense(b)
    && (!w.sound ==> Broken(b.marks))
    && (w.sound ==> Sound(b) && (AnyBare(b) <==> w.bare) && (AnyKeyed(b) <==> w.keyedRow)
                    && (AnyChainedNoOutcome(b) <==> w.noOutcomeRow))
  }

  lemma AppendTracks(w: Watch, b: Ledger, f: Fields, keyed: bool)
    requires Tracks(w, b)
    ensures Tracks(WatchStep(w, Emit(f, keyed)), NoteAppend(b, f, keyed))
  {
    if !w.sound {
      BrokenStays(b.marks, NoteAppend(b, f, keyed).marks);
    } else if w.bare || (w.keyedRow && !keyed) {
      AppendBreaks(b, f, keyed);
    } else {
      AppendSound(b, f, keyed);
    }
  }

  lemma BootTracks(w: Watch, b: Ledger, metadata: string, inserted: seq<Note>)
    requires Tracks(w, b)
    ensures Tracks(WatchStep(w, Reboot(metadata, inserted)), NoteBoot(b, metadata, inserted))
  {
    BootContinues(b, metadata, inserted);
    if !w.sound {
      BrokenStays(b.marks, NoteBoot(b, metadata, inserted).marks);
    } else if w.noOutcomeRow {
      RewriteBreaks(b, metadata, inserted);
    } else if w.bare && w.keyedRow {
      DowngradeBreaks(b, metadata, inserted);
    } else {
      BootSound(b, metadata, inserted);
    }
  }

  lemma {:induction false} RunTracks(legacy: seq<Fields>, ops: seq<Op>)
    requires NoRetention(ops)
    ensures Tracks(Watched(legacy, ops), LedgerRun(legacy, ops))
    decreases |ops|
  {
    if ops == [] {
      InsertAllSound(Ledger([], 1), legacy);
      InsertAllContinues(Ledger([], 1), legacy);
    } else {
      var ops', op := ops[..|ops| - 1], ops[|ops| - 1];
      RunTracks(legacy, ops');
      var w, b := Watched(legacy, ops'), LedgerRun(legacy, ops');
      match op
      case Emit(f, keyed) => AppendTracks(w, b, f, keyed);
      case Reboot(metadata, inserted) => BootTracks(w, b, metadata, inserted);
    }
  }

  /**
   Over any run of appends and boots: the verifier accepts the table if and only if the newest rows
   are not without a hash, nothing was appended past un-hashed rows or unkeyed after a keyed row, and
   no boot found a chained row without an outcome, or un-hashed rows on a keyed chain.
   */
  lemma AcceptedIffWatched(h: Hasher, key: string, rank: Hash -> nat, legacy: seq<Fields>, ops: seq<Op>)
    requires Ideal(h, rank) && NoRetention(ops)
    ensures var rows := Run(h, key, legacy, ops).rows;
            Verifies(h, key, rows) <==> Accepts(Watched(legacy, ops))
  {
    var w, b := Watched(legacy, ops), LedgerRun(legacy, ops);
    AcceptedIffInOrder(h, key, rank, legacy, ops);
    RunTracks(legacy, ops);
    if Accepts(w) {
      SeenInOrder(w, b);
    } else if !w.sound {
      BrokenOutOfOrder(b);
    }
  }

  // ---------------------------------------------------------------- the two ways a boot spoils an intact log

  /** A boot that reports a migration leaves a table that is rejected at once, whatever the digests. */
  lemma MigrationRowRejected(h: Hasher, key: string, legacy: seq<Fields>, ops: seq<Op>, metadata: string,
                             inserted: seq<Note>)
    requires inserted != []
    ensures var rows := Run(h, key, legacy, ops + [Reboot(metadata, inserted)]).rows;
            !Verifies(h, key, rows)
  {
    var all := ops + [Reboot(metadata, inserted)];
    assert all[..|all| - 1] == ops;
    var s := Run(h, key, legacy, ops);
    var filled := Fill(h, InsertAll(MarkLegacy(s), Provenance(AnyUnmarked(s), metadata)));
    InsertedLast(filled, NotesFields(inserted));
    var rows := Run(h, key, legacy, all).rows;
    assert !Recomputes(h, Some(key), rows[|rows| - 1]);
    AcceptedIffChainOk(h, Some(key), rows);
  }

  lemma {:induction false} InsertedLast(s: Log, fs: seq<Fields>)
    requires fs != []
    ensures var rows := InsertAll(s, fs).rows; rows != [] && rows[|rows| - 1].rowHash == None
    decreases |fs|
  {
    if |fs| > 1 {
      InsertedLast(Insert(s, fs[0]), fs[1..]);
    }
  }

  /** One row chained without an outcome verifies, until the next boot rewrites the outcome under its hash. */
  lemma RewrittenOutcomeRejected(h: Hasher, key: string, rank: Hash -> nat, f: Fields, keyed: bool, metadata: string)
    requires Ideal(h, rank) && f.outcome == None
    ensures var before := Run(h, key, [], [Emit(f, keyed)]).rows;
            Verifies(h, key, before)
    ensures var after := Run(h, key, [], [Emit(f, keyed), Reboot(metadata, [])]).rows;
            !Verifies(h, key, after)
  {
    var one, two := [Emit(f, keyed)], [Emit(f, keyed), Reboot(metadata, [])];
    assert one[..0] == [] && two[..1] == one;
    assert Watched([], []) == Watch(true, false, false, false);
    assert Watched([], one) == Watch(true, false, keyed, true);
    AcceptedIffWatched(h, key, rank, [], one);
    AcceptedIffWatched(h, key, rank, [], two);
  }

  // ---------------------------------------------------------------- ideal digests exist

  /** Self-delimiting: every character announced, the end announced. */
  function Delimited(s: string): (r: string)
    ensures |r| > |s|
  {
    if s == [] then "0" else "1" + [s[0]] + Delimited(s[1..])
  }

  function Flag(o: Option<string>): char {
    if o == None then '0' else '1'
  }

  function Body(o: Option<string>): string {
    if o == None then "" else Delimited(o.value)
  }

  function DelimitedOption(o: Option<string>): string {
    [Flag(o)] + Body(o)
  }

  function DelimitedAll(os: seq<Option<string>>): string {
    if os == [] then "" else DelimitedOption(os[0]) + DelimitedAll(os[1..])
  }

  function Columns(f: Fields): seq<Option<string>> {
    [Some(f.action), f.actorOrgId, f.actorIp, f.actorUserAgent, f.actorUserId, f.metadataJson,
     f.outcome, f.requestId, f.target]
  }

  /** A digest that spells out what it was made from. */
  function Spelled(prev: Hash, f: Fields): string {
    [if prev.Sha256? then '0' else '1'] + (Delimited(prev.digest) + DelimitedAll(Columns(f)))
  }

  lemma {:induction false} DelimitedUnique(a: string, x: string, b: string, y: string)
    requires Delimited(a) + x == Delimited(b) + y
    ensures a == b && x == y
    decreases |a|
  {
    var l, r := Delimited(a) + x, Delimited(b) + y;
    assert l[0] == r[0];
    if a == [] {
      assert l[1..] == x && r[1..] == y;
    } else {
      assert l[1] == a[0] && r[1] == b[0];
      assert l[2..] == Delimited(a[1..]) + x && r[2..] == Delimited(b[1..]) + y;
      DelimitedUnique(a[1..], x, b[1..], y);
      assert a == [a[0]] + a[1..] && b == [b[0]] + b[1..];
    }
  }

  lemma SameTail(c: char, s: string, d: char, t: string)
    requires [c] + s == [d] + t
    ensures c == d && s == t
  {
    assert ([c] + s)[0] == c && ([d] + t)[0] == d;
    assert ([c] + s)[1..] == s && ([d] + t)[1..] == t;
  }

  lemma Regrouped(o: Option<string>, x: string)
    ensures DelimitedOption(o) + x == [Flag(o)] + (Body(o) + x)
  {
  }

  lemma DelimitedOptionUnique(a: Option<string>, x: string, b: Option<string>, y: string)
    requires DelimitedOption(a) + x == DelimitedOption(b) + y
    ensures a == b && x == y
  {
    Regrouped(a, x);
    Regrouped(b, y);
    SameTail(Flag(a), Body(a) + x, Flag(b), Body(b) + y);
    if a.Some? {
      DelimitedUnique(a.value, x, b.value, y);
    } else {
      assert Body(a) + x == x && Body(b) + y == y;
    }
  }

  lemma {:induction false} DelimitedAllUnique(a: seq<Option<string>>, b: seq<Option<string>>)
    requires |a| == |b| && DelimitedAll(a) == DelimitedAll(b)
    ensures a == b
    decreases |a|
  {
    if a != [] {
      DelimitedOptionUnique(a[0], DelimitedAll(a[1..]), b[0], DelimitedAll(b[1..]));
      DelimitedAllUnique(a[1..], b[1..]);
      assert a == [a[0]] + a[1..] && b == [b[0]] + b[1..];
    }
  }

  lemma SpelledUnique(p: Hash, f: Fields, q: Hash, g: Fields)
    requires Spelled(p, f) == Spelled(q, g)
    ensures p == q && f == g
  {
    var x, y := DelimitedAll(Columns(f)), DelimitedAll(Columns(g));
    SameTail(if p.Sha256? then '0' else '1', Delimited(p.digest) + x,
             if q.Sha256? then '0' else '1', Delimited(q.digest) + y);
    DelimitedUnique(p.digest, x, q.digest, y);
    DelimitedAllUnique(Columns(f), Columns(g));
    ColumnsUnique(f, g);
  }

  lemma ColumnsUnique(f: Fields, g: Fields)
    requires Columns(f) == Columns(g)
    ensures f == g
  {
    assert Columns(f)[0] == Columns(g)[0] && Columns(f)[1] == Columns(g)[1] && Columns(f)[2] == Columns(g)[2];
    assert Columns(f)[3] == Columns(g)[3] && Columns(f)[4] == Columns(g)[4] && Columns(f)[5] == Columns(g)[5];
    assert Columns(f)[6] == Columns(g)[6] && Columns(f)[7] == Columns(g)[7] && Columns(f)[8] == Columns(g)[8];
  }

  /** What the exact theorems ask of the digests can be met. */
  lemma IdealDigestsExist() returns (h: Hasher, rank: Hash -> nat)
    ensures Ideal(h, rank)
  {
    h := Hasher((p, f) => Spelled(p, f), (k, p, f) => Spelled(p, f));
    rank := (x: Hash) => |x.digest|;
    forall p, f, q, g | Spelled(p, f) == Spelled(q, g) ensures p == q && f == g {
      SpelledUnique(p, f, q, g);
    }
  }
}
