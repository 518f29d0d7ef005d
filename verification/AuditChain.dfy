/**
 The audit log's hash chain: the verifier script, the boot-time backfill and chained appends.

 The two digest functions are parameters.  Nothing is assumed of them except where a lemma asks
 for `Injective` or `Ranked`; the stored hash keeps the algorithm marker that the source keeps as a prefix.
 */
module AuditChain {
  import opened Common

  datatype Hash = Sha256(digest: string) | HmacV1(digest: string)

  const GENESIS: Hash := Sha256("0000000000000000000000000000000000000000000000000000000000000000")

  datatype Fields = Fields(
    action: string,
    actorOrgId: Option<string>,
    actorIp: Option<string>,
    actorUserAgent: Option<string>,
    actorUserId: Option<string>,
    metadataJson: Option<string>,
    outcome: Option<string>,
    requestId: Option<string>,
    target: Option<string>)

  datatype Row = Row(id: int, fields: Fields, prevHash: Option<Hash>, rowHash: Option<Hash>)

  datatype Hasher = Hasher(sha: (Hash, Fields) -> string, hmac: (string, Hash, Fields) -> string)

  function RowHash(h: Hasher, prev: Hash, f: Fields, key: Option<string>): Hash {
    if key.Some? then HmacV1(h.hmac(key.value, prev, f)) else Sha256(h.sha(prev, f))
  }

  ghost predicate Injective(h: Hasher) {
    && (forall p, f, q, g :: h.sha(p, f) == h.sha(q, g) ==> p == q && f == g)
    && (forall k, p, f, q, g :: h.hmac(k, p, f) == h.hmac(k, q, g) ==> p == q && f == g)
  }

  // ---------------------------------------------------------------- the verifier

  datatype Finding =
    | MissingHash(id: int)
    | WrongRowHash(id: int, expected: Hash, actual: Hash)
    | WrongPrevHash(id: int, expected: Hash, actual: Hash)
    | IdGapBefore(id: int, gap: int)
    | NoKeyForHmac(id: int)
    | DowngradedAlg(id: int)

  predicate Hashed(r: Row) {
    r.prevHash.Some? && r.rowHash.Some?
  }

  predicate Keyed(r: Row) {
    r.rowHash.Some? && r.rowHash.value.HmacV1?
  }

  predicate GapBefore(rows: seq<Row>, i: nat)
    requires i < |rows|
  {
    i > 0 && rows[i].id != rows[i - 1].id + 1
  }

  /** What row `i` must link to: the last hash since the last gap, if there is one. */
  function Expected(rows: seq<Row>, i: nat): Option<Hash>
    requires i < |rows|
  {
    if i == 0 || GapBefore(rows, i) then None
    else if Hashed(rows[i - 1]) then rows[i - 1].rowHash
    else Expected(rows, i - 1)
  }

  predicate KeyedBefore(rows: seq<Row>, i: nat)
    requires i <= |rows|
  {
    exists j :: 0 <= j < i && Hashed(rows[j]) && Keyed(rows[j])
  }

  function Recomputed(h: Hasher, key: Option<string>, r: Row): Hash
    requires Hashed(r)
  {
    RowHash(h, r.prevHash.value, r.fields, if Keyed(r) then key else None)
  }

  /** The gap before row `i`, if there is one. */
  function GapFinding(rows: seq<Row>, i: nat): seq<Finding>
    requires i < |rows|
  {
    if GapBefore(rows, i) then [IdGapBefore(rows[i].id, rows[i].id - rows[i - 1].id - 1)] else []
  }

  /** The failures of row `i`. */
  function Verdicts(h: Hasher, key: Option<string>, rows: seq<Row>, i: nat): (r: seq<Finding>)
    requires i < |rows|
    ensures forall k :: 0 <= k < |r| ==> !r[k].IdGapBefore?
  {
    var r := rows[i];
    if !Hashed(r) then [MissingHash(r.id)]
    else
      (if Expected(rows, i).Some? && r.prevHash != Expected(rows, i)
       then [WrongPrevHash(r.id, Expected(rows, i).value, r.prevHash.value)] else [])
      + if Keyed(r) && key == None then [NoKeyForHmac(r.id)]
        else
          (if !Keyed(r) && KeyedBefore(rows, i) then [DowngradedAlg(r.id)] else [])
          + if Recomputed(h, key, r) != r.rowHash.value
            then [WrongRowHash(r.id, Recomputed(h, key, r), r.rowHash.value)] else []
  }

  /** What the verifier has to say about row `i` of the table. */
  function RowFindings(h: Hasher, key: Option<string>, rows: seq<Row>, i: nat): seq<Finding>
    requires i < |rows|
  {
    GapFinding(rows, i) + Verdicts(h, key, rows, i)
  }

  /** What is said of each row. */
  function RowReport(h: Hasher, key: Option<string>, rows: seq<Row>): int -> seq<Finding> {
    i => if 0 <= i < |rows| then RowFindings(h, key, rows, i) else []
  }

  /** What is said of the first `n`, one after the other. */
  function Collected(row: int -> seq<Finding>, n: nat): seq<Finding> {
    if n == 0 then [] else Collected(row, n - 1) + row(n - 1)
  }

  function Report(h: Hasher, key: Option<string>, rows: seq<Row>, n: nat): seq<Finding>
    requires n <= |rows|
  {
    Collected(RowReport(h, key, rows), n)
  }

  // ---------------------------------------------------------------- what each finding means

  /** Row `j` is the last hashed one before `i`, and the ids from it to `i` have no gap. */
  ghost predicate LastHashSinceGap(rows: seq<Row>, i: nat, j: nat)
    requires i < |rows|
  {
    && j < i && Hashed(rows[j])
    && (forall k :: j < k < i ==> !Hashed(rows[k]))
    && (forall k :: j < k <= i ==> rows[k].id == rows[k - 1].id + 1)
  }

  lemma {:induction false} ExpectedMeans(rows: seq<Row>, i: nat, hash: Hash)
    requires i < |rows|
    ensures Expected(rows, i) == Some(hash) <==>
            exists j: nat :: LastHashSinceGap(rows, i, j) && rows[j].rowHash == Some(hash)
  {
    if i > 0 && !GapBefore(rows, i) {
      if Hashed(rows[i - 1]) {
        assert rows[i - 1].rowHash.Some? ==> LastHashSinceGap(rows, i, i - 1);
      } else {
        ExpectedMeans(rows, i - 1, hash);
        forall j: nat ensures LastHashSinceGap(rows, i, j) <==> LastHashSinceGap(rows, i - 1, j) {
        }
      }
    }
  }

  /** The cause of each finding about row `i`, from the table, the key and the digests. */
  ghost predicate Deserves(h: Hasher, key: Option<string>, rows: seq<Row>, i: nat, f: Finding)
    requires i < |rows|
  {
    var r := rows[i];
    var whole := r.prevHash.Some? && r.rowHash.Some?;
    && f.id == r.id
    && match f
       case IdGapBefore(_, gap) => i > 0 && r.id != rows[i - 1].id + 1 && gap == r.id - rows[i - 1].id - 1
       case MissingHash(_) => !whole
       case WrongPrevHash(_, expected, actual) =>
         && whole && r.prevHash == Some(actual) && actual != expected
         && exists j: nat :: LastHashSinceGap(rows, i, j) && rows[j].rowHash == Some(expected)
       case NoKeyForHmac(_) => whole && r.rowHash.value.HmacV1? && key == None
       case DowngradedAlg(_) =>
         && whole && r.rowHash.value.Sha256?
         && exists j :: 0 <= j < i && rows[j].prevHash.Some? && rows[j].rowHash.Some? && rows[j].rowHash.value.HmacV1?
       case WrongRowHash(_, expected, actual) =>
         && whole && r.rowHash == Some(actual) && actual != expected
         && if actual.Sha256? then expected == Sha256(h.sha(r.prevHash.value, r.fields))
            else key.Some? && expected == HmacV1(h.hmac(key.value, r.prevHash.value, r.fields))
  }

  lemma VerdictsAreDeserved(h: Hasher, key: Option<string>, rows: seq<Row>, i: nat, f: Finding)
    requires i < |rows| && !f.IdGapBefore?
    ensures f in Verdicts(h, key, rows, i) <==> Deserves(h, key, rows, i, f)
  {
    if f.WrongPrevHash? {
      ExpectedMeans(rows, i, f.expected);
    }
  }

  lemma {:induction false} CollectedHolds(row: int -> seq<Finding>, n: nat, f: Finding)
    ensures f in Collected(row, n) <==> exists i :: 0 <= i < n && f in row(i)
  {
    if n > 0 {
      CollectedHolds(row, n - 1, f);
    }
  }

  lemma RowFindingIsDeserved(h: Hasher, key: Option<string>, rows: seq<Row>, i: nat, f: Finding)
    requires i < |rows|
    ensures f in RowFindings(h, key, rows, i) <==> Deserves(h, key, rows, i, f)
  {
    var gap, verdicts := GapFinding(rows, i), Verdicts(h, key, rows, i);
    assert f in gap + verdicts <==> f in gap || f in verdicts;
    if f.IdGapBefore? {
      assert f !in verdicts;
    } else {
      VerdictsAreDeserved(h, key, rows, i, f);
    }
  }

  /** The report names exactly what is wrong with some row, kind by kind. */
  lemma ReportedIffDeserved(h: Hasher, key: Option<string>, rows: seq<Row>, f: Finding)
    ensures f in Report(h, key, rows, |rows|) <==> exists i :: 0 <= i < |rows| && Deserves(h, key, rows, i, f)
  {
    var row := RowReport(h, key, rows);
    CollectedHolds(row, |rows|, f);
    forall i | 0 <= i < |rows| ensures f in row(i) <==> Deserves(h, key, rows, i, f) {
      RowFindingIsDeserved(h, key, rows, i, f);
    }
  }

  /** What the loop carries from row to row. */
  datatype Carry = Carry(prevHash: Option<Hash>, sawHmac: bool)

  /** The carry is right for row `i`, whose gap check has already cleared the hash if need be. */
  ghost predicate CarryOk(rows: seq<Row>, i: nat, c: Carry)
    requires i < |rows|
  {
    c.prevHash == Expected(rows, i) && c.sawHmac == KeyedBefore(rows, i)
  }

  /** The body of the loop after the gap check. */
  method CheckRow(h: Hasher, key: Option<string>, row: Row, c: Carry, ghost rows: seq<Row>, ghost i: nat)
    returns (findings: seq<Finding>, next: Carry)
    requires i < |rows| && row == rows[i] && CarryOk(rows, i, c)
    ensures findings == Verdicts(h, key, rows, i)
    ensures next.prevHash == if Hashed(row) then row.rowHash else c.prevHash
    ensures next.sawHmac == (c.sawHmac || (Hashed(row) && Keyed(row)))
  {
    findings, next := [], c;
    if row.rowHash == None || row.prevHash == None {
      return [MissingHash(row.id)], c;
    }
    if c.prevHash.Some? && row.prevHash != c.prevHash {
      findings := [WrongPrevHash(row.id, c.prevHash.value, row.prevHash.value)];
    }
    next := next.(prevHash := row.rowHash);
    var keyed := row.rowHash.value.HmacV1?;
    if keyed {
      next := next.(sawHmac := true);
      if key == None {
        findings := findings + [NoKeyForHmac(row.id)];
        return;
      }
    } else if c.sawHmac {
      findings := findings + [DowngradedAlg(row.id)];
    }
    var recomputed := RowHash(h, row.prevHash.value, row.fields, if keyed then key else None);
    if recomputed != row.rowHash.value {
      findings := findings + [WrongRowHash(row.id, recomputed, row.rowHash.value)];
    }
  }

  /** The loop of the script: one pass carrying the previous hash, the previous id and a flag. */
  method Verify(h: Hasher, key: Option<string>, rows: seq<Row>) returns (findings: seq<Finding>)
    ensures findings == Report(h, key, rows, |rows|)
  {
    findings := [];
    ghost var row := ReportByRow(h, key, rows);
    var c, prevId: Option<int> := Carry(None, false), None;
    for i := 0 to |rows|
      invariant findings == Collected(row, i)
      invariant prevId == if i == 0 then None else Some(rows[i - 1].id)
      invariant i < |rows| && !GapBefore(rows, i) ==> c.prevHash == Expected(rows, i)
      invariant c.sawHmac == KeyedBefore(rows, i)
    {
      var found, next := CheckGapAndRow(h, key, rows[i], prevId, c, rows, i);
      findings, c, prevId := findings + found, next, Some(rows[i].id);
    }
  }

  lemma ReportByRow(h: Hasher, key: Option<string>, rows: seq<Row>) returns (row: int -> seq<Finding>)
    ensures Report(h, key, rows, |rows|) == Collected(row, |rows|)
    ensures forall i :: 0 <= i < |rows| ==> row(i) == RowFindings(h, key, rows, i)
  {
    row := RowReport(h, key, rows);
  }

  /** One iteration: the gap before the row, then the row. */
  method CheckGapAndRow(h: Hasher, key: Option<string>, row: Row, prevId: Option<int>, c: Carry,
                        ghost rows: seq<Row>, ghost i: nat)
    returns (found: seq<Finding>, next: Carry)
    requires i < |rows| && row == rows[i] && prevId == if i == 0 then None else Some(rows[i - 1].id)
    requires (!GapBefore(rows, i) ==> c.prevHash == Expected(rows, i)) && c.sawHmac == KeyedBefore(rows, i)
    ensures found == RowFindings(h, key, rows, i)
    ensures next.prevHash == if Hashed(row) then row.rowHash else Expected(rows, i)
    ensures next.sawHmac == KeyedBefore(rows, i + 1)
  {
    found := [];
    var carry := c;
    if prevId.Some? && row.id != prevId.value + 1 {
      found := [IdGapBefore(row.id, row.id - prevId.value - 1)];
      carry := c.(prevHash := None);
    }
    assert found == GapFinding(rows, i);
    var more;
    more, next := CheckRow(h, key, row, carry, rows, i);
    found := found + more;
  }

  /** The filter of the script's summary: gaps alone do not fail verification. */
  predicate Ok(findings: seq<Finding>) {
    forall k :: 0 <= k < |findings| ==> findings[k].IdGapBefore?
  }

  function GapTotal(findings: seq<Finding>): int {
    if findings == [] then 0
    else GapTotal(findings[..|findings| - 1])
         + if findings[|findings| - 1].IdGapBefore? then findings[|findings| - 1].gap else 0
  }

  // ---------------------------------------------------------------- what acceptance means

  predicate Recomputes(h: Hasher, key: Option<string>, r: Row) {
    Hashed(r) && (Keyed(r) ==> key.Some?) && Recomputed(h, key, r) == r.rowHash.value
  }

  predicate LinkedTo(r: Row, next: Row) {
    next.id == r.id + 1 ==> next.prevHash == r.rowHash
  }

  /** Every hash present and right, id-adjacent rows linked, nothing unkeyed after something keyed. */
  ghost predicate ChainOk(h: Hasher, key: Option<string>, rows: seq<Row>) {
    && (forall i :: 0 <= i < |rows| ==> Recomputes(h, key, rows[i]))
    && (forall i :: 0 < i < |rows| ==> LinkedTo(rows[i - 1], rows[i]))
    && (forall i, j :: 0 <= i < j < |rows| && Keyed(rows[i]) ==> Keyed(rows[j]))
  }

  /** Row `i` gives the verifier nothing to fail on. */
  predicate RowClean(h: Hasher, key: Option<string>, rows: seq<Row>, i: nat)
    requires i < |rows|
  {
    && Recomputes(h, key, rows[i])
    && (Expected(rows, i).Some? ==> rows[i].prevHash == Expected(rows, i))
    && (KeyedBefore(rows, i) ==> Keyed(rows[i]))
  }

  lemma RowFindingsOk(h: Hasher, key: Option<string>, rows: seq<Row>, i: nat)
    requires i < |rows|
    ensures Ok(RowFindings(h, key, rows, i)) <==> RowClean(h, key, rows, i)
  {
    assert Verdicts(h, key, rows, i) == [] <==> RowClean(h, key, rows, i);
    OkConcat(GapFinding(rows, i), Verdicts(h, key, rows, i));
    NoGapsOk(Verdicts(h, key, rows, i));
  }

  lemma NoGapsOk(fs: seq<Finding>)
    requires forall k :: 0 <= k < |fs| ==> !fs[k].IdGapBefore?
    ensures Ok(fs) <==> fs == []
  {
    assert fs != [] ==> !fs[0].IdGapBefore?;
  }

  /** A clean row is what extends an intact chain. */
  lemma CleanExtends(h: Hasher, key: Option<string>, rows: seq<Row>, i: nat)
    requires i < |rows| && ChainOk(h, key, rows[..i])
    ensures RowClean(h, key, rows, i) <==> ChainOk(h, key, rows[..i + 1])
  {
    var p, q := rows[..i], rows[..i + 1];
    assert q == p + [rows[i]];
    assert forall j :: 0 <= j < i ==> Recomputes(h, key, p[j]) && p[j] == rows[j];
    if i > 0 {
      assert Hashed(rows[i - 1]);
      assert LinkedTo(rows[i - 1], rows[i]) <==> (GapBefore(rows, i) || rows[i].prevHash == Expected(rows, i));
    }
    if ChainOk(h, key, q) {
      assert Recomputes(h, key, q[i]);
      assert i > 0 ==> LinkedTo(q[i - 1], q[i]);
      assert KeyedBefore(rows, i) ==> Keyed(q[i]);
    }
  }

  lemma OkConcat(fs: seq<Finding>, gs: seq<Finding>)
    ensures Ok(fs + gs) <==> Ok(fs) && Ok(gs)
  {
    assert forall k :: 0 <= k < |fs| ==> (fs + gs)[k] == fs[k];
    assert forall k :: 0 <= k < |gs| ==> (fs + gs)[|fs| + k] == gs[k];
  }

  lemma ChainPrefix(h: Hasher, key: Option<string>, rows: seq<Row>, n: nat)
    requires n <= |rows| && ChainOk(h, key, rows)
    ensures ChainOk(h, key, rows[..n])
  {
    assert forall i :: 0 <= i < n ==> rows[..n][i] == rows[i];
  }

  lemma {:induction false} CollectedOk(row: int -> seq<Finding>, n: nat)
    ensures Ok(Collected(row, n)) <==> forall i :: 0 <= i < n ==> Ok(row(i))
  {
    if n > 0 {
      CollectedOk(row, n - 1);
      OkConcat(Collected(row, n - 1), row(n - 1));
    }
  }

  ghost predicate CleanUpTo(h: Hasher, key: Option<string>, rows: seq<Row>, n: nat)
    requires n <= |rows|
  {
    forall i :: 0 <= i < n ==> RowClean(h, key, rows, i)
  }

  lemma {:induction false} CleanIsIntact(h: Hasher, key: Option<string>, rows: seq<Row>, n: nat)
    requires n <= |rows|
    ensures CleanUpTo(h, key, rows, n) <==> ChainOk(h, key, rows[..n])
  {
    if n > 0 {
      CleanIsIntact(h, key, rows, n - 1);
      assert rows[..n][..n - 1] == rows[..n - 1];
      if ChainOk(h, key, rows[..n]) {
        ChainPrefix(h, key, rows[..n], n - 1);
      }
      if ChainOk(h, key, rows[..n - 1]) {
        CleanExtends(h, key, rows, n - 1);
      }
    }
  }

  /** The script exits 0 exactly when the table is an intact chain. */
  lemma AcceptedIffChainOk(h: Hasher, key: Option<string>, rows: seq<Row>)
    ensures Ok(Report(h, key, rows, |rows|)) <==> ChainOk(h, key, rows)
  {
    var row := RowReport(h, key, rows);
    CollectedOk(row, |rows|);
    forall i | 0 <= i < |rows| ensures Ok(row(i)) <==> RowClean(h, key, rows, i) {
      RowFindingsOk(h, key, rows, i);
    }
    CleanIsIntact(h, key, rows, |rows|);
    assert rows[..|rows|] == rows;
  }

  lemma {:induction false} GapTotalConcat(fs: seq<Finding>, gs: seq<Finding>)
    ensures GapTotal(fs + gs) == GapTotal(fs) + GapTotal(gs)
    decreases |gs|
  {
    if gs == [] {
      assert fs + gs == fs;
    } else {
      assert (fs + gs)[..|fs + gs| - 1] == fs + gs[..|gs| - 1];
      GapTotalConcat(fs, gs[..|gs| - 1]);
    }
  }

  /** A row contributes the size of the gap before it, whatever else is wrong with it. */
  lemma RowGap(h: Hasher, key: Option<string>, rows: seq<Row>, i: nat)
    requires i < |rows|
    ensures GapTotal(RowFindings(h, key, rows, i)) == if i == 0 then 0 else rows[i].id - rows[i - 1].id - 1
  {
    GapTotalConcat(GapFinding(rows, i), Verdicts(h, key, rows, i));
    NoGaps(Verdicts(h, key, rows, i));
    if GapBefore(rows, i) {
      assert GapFinding(rows, i)[..0] == [];
    }
  }

  lemma {:induction false} NoGaps(fs: seq<Finding>)
    requires forall k :: 0 <= k < |fs| ==> !fs[k].IdGapBefore?
    ensures GapTotal(fs) == 0
    decreases |fs|
  {
    if fs != [] {
      NoGaps(fs[..|fs| - 1]);
    }
  }

  /** The ids missing between row `i` and the one before it. */
  function IdsSkipped(ids: seq<int>, i: int): int
    requires 0 <= i < |ids|
  {
    if i == 0 then 0 else ids[i] - ids[i - 1] - 1
  }

  function IdsOf(rows: seq<Row>): (ids: seq<int>)
    ensures |ids| == |rows| && forall i :: 0 <= i < |rows| ==> ids[i] == rows[i].id
  {
    seq(|rows|, i requires 0 <= i < |rows| => rows[i].id)
  }

  lemma RowReportGap(h: Hasher, key: Option<string>, rows: seq<Row>, i: nat)
    requires i < |rows|
    ensures GapTotal(RowReport(h, key, rows)(i)) == IdsSkipped(IdsOf(rows), i)
  {
    RowGap(h, key, rows, i);
  }

  lemma ReportWithGaps(h: Hasher, key: Option<string>, rows: seq<Row>) returns (row: int -> seq<Finding>)
    ensures Report(h, key, rows, |rows|) == Collected(row, |rows|) && GapsAre(row, IdsOf(rows), |rows|)
  {
    row := RowReport(h, key, rows);
    forall i | 0 <= i < |rows| ensures GapTotal(RowReport(h, key, rows)(i)) == IdsSkipped(IdsOf(rows), i) {
      RowReportGap(h, key, rows, i);
    }
  }

  ghost predicate GapsAre(row: int -> seq<Finding>, ids: seq<int>, n: nat) {
    n <= |ids| && forall i :: 0 <= i < n ==> GapTotal(row(i)) == IdsSkipped(ids, i)
  }

  lemma {:induction false} CollectedGaps(row: int -> seq<Finding>, ids: seq<int>, n: nat)
    requires 0 < n && GapsAre(row, ids, n)
    ensures GapTotal(Collected(row, n)) + n == ids[n - 1] - ids[0] + 1
  {
    GapTotalConcat(Collected(row, n - 1), row(n - 1));
    assert GapTotal(row(n - 1)) == IdsSkipped(ids, n - 1);
    if n > 1 {
      CollectedGaps(row, ids, n - 1);
    } else {
      assert Collected(row, 0) == [] && GapTotal([]) == 0;
    }
  }

  /** Reported gap sizes and surviving rows together account for the whole id range. */
  lemma GapsAccountForIds(h: Hasher, key: Option<string>, rows: seq<Row>)
    requires rows != []
    ensures GapTotal(Report(h, key, rows, |rows|)) + |rows| == rows[|rows| - 1].id - rows[0].id + 1
  {
    var row := ReportWithGaps(h, key, rows);
    CollectedGaps(row, IdsOf(rows), |rows|);
  }

  function Failures(findings: seq<Finding>): nat {
    if findings == [] then 0
    else Failures(findings[..|findings| - 1]) + if findings[|findings| - 1].IdGapBefore? then 0 else 1
  }

  lemma {:induction false} FailuresConcat(fs: seq<Finding>, gs: seq<Finding>)
    ensures Failures(fs + gs) == Failures(fs) + Failures(gs)
    decreases |gs|
  {
    if gs == [] {
      assert fs + gs == fs;
    } else {
      assert (fs + gs)[..|fs + gs| - 1] == fs + gs[..|gs| - 1];
      FailuresConcat(fs, gs[..|gs| - 1]);
    }
  }

  lemma {:induction false} AllFailures(fs: seq<Finding>)
    requires forall k :: 0 <= k < |fs| ==> !fs[k].IdGapBefore?
    ensures Failures(fs) == |fs|
    decreases |fs|
  {
    if fs != [] {
      AllFailures(fs[..|fs| - 1]);
    }
  }

  lemma RowFailureCount(h: Hasher, key: Option<string>, rows: seq<Row>, i: nat)
    requires i < |rows|
    ensures Failures(RowFindings(h, key, rows, i)) == |Verdicts(h, key, rows, i)|
  {
    FailuresConcat(GapFinding(rows, i), Verdicts(h, key, rows, i));
    AllFailures(Verdicts(h, key, rows, i));
    if GapBefore(rows, i) {
      assert GapFinding(rows, i)[..0] == [];
    }
  }

  /** The number of failures of each row. */
  function RowFailures(h: Hasher, key: Option<string>, rows: seq<Row>): (r: seq<nat>)
    ensures |r| == |rows|
  {
    seq(|rows|, i requires 0 <= i < |rows| => |Verdicts(h, key, rows, i)|)
  }

  function Sum(ns: seq<nat>): nat {
    if ns == [] then 0 else Sum(ns[..|ns| - 1]) + ns[|ns| - 1]
  }

  function Zeros(ns: seq<nat>): nat {
    if ns == [] then 0 else Zeros(ns[..|ns| - 1]) + if ns[|ns| - 1] == 0 then 1 else 0
  }

  lemma {:induction false} CollectedFailures(row: int -> seq<Finding>, ns: seq<nat>, n: nat)
    requires n <= |ns| && forall i :: 0 <= i < n ==> Failures(row(i)) == ns[i]
    ensures Failures(Collected(row, n)) == Sum(ns[..n])
  {
    if n > 0 {
      CollectedFailures(row, ns, n - 1);
      assert ns[..n][..n - 1] == ns[..n - 1];
      FailuresConcat(Collected(row, n - 1), row(n - 1));
    }
  }

  lemma {:induction false} ZerosAtLeast(ns: seq<nat>)
    ensures |ns| - Sum(ns) <= Zeros(ns)
    ensures |ns| - Sum(ns) == Zeros(ns) <==> forall i :: 0 <= i < |ns| ==> ns[i] <= 1
    decreases |ns|
  {
    if ns != [] {
      ZerosAtLeast(ns[..|ns| - 1]);
      assert ns == ns[..|ns| - 1] + [ns[|ns| - 1]];
    }
  }

  /**
   The summary's `verified_rows` is the row count minus the number of failures.  It never exceeds
   the number of rows without one, and equals it exactly when no row fails in two ways at once.
   */
  lemma VerifiedRowsIsALowerBound(h: Hasher, key: Option<string>, rows: seq<Row>)
    ensures var verified := |rows| - Failures(Report(h, key, rows, |rows|));
            var failures := RowFailures(h, key, rows);
            && verified <= Zeros(failures)
            && (verified == Zeros(failures) <==> forall i :: 0 <= i < |failures| ==> failures[i] <= 1)
  {
    var failures := RowFailures(h, key, rows);
    var row := RowReport(h, key, rows);
    forall i | 0 <= i < |rows| ensures Failures(row(i)) == failures[i] {
      RowFailureCount(h, key, rows, i);
    }
    CollectedFailures(row, failures, |rows|);
    assert failures[..|rows|] == failures;
    ZerosAtLeast(failures);
  }

  // ---------------------------------------------------------------- retention

  ghost predicate Ascending(rows: seq<Row>) {
    forall i, j :: 0 <= i < j < |rows| ==> rows[i].id < rows[j].id
  }

  /** A choice of rows, by position, in table order. */
  ghost predicate Selects(keep: seq<nat>, n: nat) {
    && (forall k :: 0 <= k < |keep| ==> keep[k] < n)
    && (forall j, k :: 0 <= j < k < |keep| ==> keep[j] < keep[k])
  }

  function Kept<T>(rows: seq<T>, keep: seq<nat>): (r: seq<T>)
    requires forall k :: 0 <= k < |keep| ==> keep[k] < |rows|
    ensures |r| == |keep| && forall k :: 0 <= k < |keep| ==> r[k] == rows[keep[k]]
  {
    seq(|keep|, k requires 0 <= k < |keep| => rows[keep[k]])
  }

  /** Deleting any set of rows from an accepted table leaves an accepted table. */
  lemma DeletionKeepsAcceptance(h: Hasher, key: Option<string>, rows: seq<Row>, keep: seq<nat>)
    requires Ascending(rows) && Selects(keep, |rows|) && ChainOk(h, key, rows)
    ensures ChainOk(h, key, Kept(rows, keep)) && Ascending(Kept(rows, keep))
  {
    var r := Kept(rows, keep);
    forall k | 0 < k < |r| ensures LinkedTo(r[k - 1], r[k]) {
      var i, j := keep[k - 1], keep[k];
      assert i + 1 < j ==> rows[i].id < rows[i + 1].id < rows[j].id;
      assert LinkedTo(rows[j - 1], rows[j]);
    }
  }

  // ---------------------------------------------------------------- binding

  ghost predicate GapFree(rows: seq<Row>) {
    forall i :: 0 < i < |rows| ==> rows[i].id == rows[i - 1].id + 1
  }

  lemma SameHashSameRow(h: Hasher, key: Option<string>, r: Row, s: Row)
    requires Injective(h) && Recomputes(h, key, r) && Recomputes(h, key, s)
    requires r.rowHash == s.rowHash && r.id == s.id
    ensures r == s
  {
    if Keyed(r) {
      assert h.hmac(key.value, r.prevHash.value, r.fields) == h.hmac(key.value, s.prevHash.value, s.fields);
    } else {
      assert h.sha(r.prevHash.value, r.fields) == h.sha(s.prevHash.value, s.fields);
    }
  }

  /**
   The tip binds the table: two accepted gap-free tables over the same ids with the same tip hash
   are the same table, down to the hash the first row claims to follow.
   */
  lemma {:induction false} TipBindsTable(h: Hasher, key: Option<string>, a: seq<Row>, b: seq<Row>)
    requires Injective(h) && ChainOk(h, key, a) && ChainOk(h, key, b)
    requires GapFree(a) && GapFree(b)
    requires |a| == |b| > 0
    requires a[|a| - 1].id == b[|b| - 1].id && a[|a| - 1].rowHash == b[|b| - 1].rowHash
    ensures a == b
    decreases |a|
  {
    var n := |a| - 1;
    SameHashSameRow(h, key, a[n], b[n]);
    if n > 0 {
      assert LinkedTo(a[n - 1], a[n]) && LinkedTo(b[n - 1], b[n]);
      ChainPrefix(h, key, a, n);
      ChainPrefix(h, key, b, n);
      TipBindsTable(h, key, a[..n], b[..n]);
    }
    assert a == a[..n] + [a[n]] && b == b[..n] + [b[n]];
  }

  // ---------------------------------------------------------------- backfill

  /** The newest stored hash, or the genesis constant. */
  function Tip(rows: seq<Row>): Hash {
    if rows == [] then GENESIS
    else if rows[|rows| - 1].rowHash.Some? then rows[|rows| - 1].rowHash.value
    else Tip(rows[..|rows| - 1])
  }

  function Filled(h: Hasher, prev: Hash, r: Row): Row {
    if r.rowHash.Some? then r else r.(prevHash := Some(prev), rowHash := Some(RowHash(h, prev, r.fields, None)))
  }

  /** The hash carried past row `r`. */
  function Carried(h: Hasher, prev: Hash, r: Row): Hash {
    if r.rowHash.Some? then prev else RowHash(h, prev, r.fields, None)
  }

  function FillFrom(h: Hasher, prev: Hash, rows: seq<Row>): (r: seq<Row>)
    ensures |r| == |rows|
    decreases |rows|
  {
    if rows == [] then [] else [Filled(h, prev, rows[0])] + FillFrom(h, Carried(h, prev, rows[0]), rows[1..])
  }

  function Backfilled(h: Hasher, rows: seq<Row>): seq<Row> {
    FillFrom(h, Tip(rows), rows)
  }

  /** `WHERE row_hash IS NOT NULL ORDER BY id DESC LIMIT 1`, or the genesis constant. */
  method FindTip(table: array<Row>) returns (tip: Hash)
    ensures tip == Tip(table[..])
  {
    var t := table.Length;
    assert table[..t] == table[..];
    while t > 0 && table[t - 1].rowHash == None
      invariant 0 <= t <= table.Length
      invariant Tip(table[..t]) == Tip(table[..])
    {
      assert table[..t][..t - 1] == table[..t - 1];
      t := t - 1;
    }
    tip := if t > 0 then table[t - 1].rowHash.value else GENESIS;
  }

  /** The walk over the un-hashed rows in id order, each hashed onto the one before. */
  method Backfill(h: Hasher, table: array<Row>)
    modifies table
    ensures table[..] == Backfilled(h, old(table[..]))
  {
    ghost var was := table[..];
    var prevHash := FindTip(table);
    ghost var first := prevHash;
    for i := 0 to table.Length
      invariant table[i..] == was[i..]
      invariant table[..i] == FillFrom(h, first, was[..i]) && prevHash == CarriedPast(h, first, was[..i])
    {
      FillSnoc(h, first, was, i);
      ghost var done := table[..i];
      if table[i].rowHash == None {
        var rowHash := RowHash(h, prevHash, table[i].fields, None);
        table[i] := table[i].(prevHash := Some(prevHash), rowHash := Some(rowHash));
        prevHash := rowHash;
      }
      assert table[..i + 1] == done + [table[i]];
    }
    assert table[..table.Length] == table[..] && was[..table.Length] == was;
  }

  lemma FillSnoc(h: Hasher, prev: Hash, rows: seq<Row>, i: nat)
    requires i < |rows|
    ensures FillFrom(h, prev, rows[..i + 1]) ==
            FillFrom(h, prev, rows[..i]) + [Filled(h, CarriedPast(h, prev, rows[..i]), rows[i])]
    ensures CarriedPast(h, prev, rows[..i + 1]) == Carried(h, CarriedPast(h, prev, rows[..i]), rows[i])
  {
    assert rows[..i + 1] == rows[..i] + [rows[i]];
    FillConcat(h, prev, rows[..i], [rows[i]]);
    CarriedConcat(h, prev, rows[..i], [rows[i]]);
    assert [rows[i]][1..] == [];
  }

  lemma FilledAt(h: Hasher, prev: Hash, rows: seq<Row>, i: nat)
    requires i < |rows|
    ensures FillFrom(h, prev, rows)[i] == Filled(h, CarriedPast(h, prev, rows[..i]), rows[i])
  {
    FillConcat(h, prev, rows[..i], rows[i..]);
    assert rows == rows[..i] + rows[i..];
  }

  /**
   What the backfill writes: only the two hash columns, only where they were empty, an unkeyed digest
   of the row's own fields onto the newest stored hash, or onto the row filled just before it.
   */
  lemma BackfillWrites(h: Hasher, rows: seq<Row>, i: nat)
    requires i < |rows|
    ensures var t := Backfilled(h, rows);
            && |t| == |rows| && t[i].id == rows[i].id && t[i].fields == rows[i].fields
            && (rows[i].rowHash.Some? ==> t[i] == rows[i])
            && (rows[i].rowHash == None ==>
                  && t[i].prevHash.Some? && t[i].rowHash == Some(Sha256(h.sha(t[i].prevHash.value, rows[i].fields)))
                  && (AllHashed(rows[..i]) ==> t[i].prevHash == Some(Tip(rows)))
                  && forall j: nat :: j < i && rows[j].rowHash == None && AllHashed(rows[j + 1..i]) ==>
                       t[i].prevHash == t[j].rowHash)
  {
    FilledAt(h, Tip(rows), rows, i);
    if rows[i].rowHash == None {
      if AllHashed(rows[..i]) {
        CarriedPastHashed(h, Tip(rows), rows[..i]);
      }
      forall j: nat | j < i && rows[j].rowHash == None && AllHashed(rows[j + 1..i])
        ensures Backfilled(h, rows)[i].prevHash == Backfilled(h, rows)[j].rowHash
      {
        FilledAt(h, Tip(rows), rows, j);
        FillSnoc(h, Tip(rows), rows, j);
        assert rows[..i] == rows[..j + 1] + rows[j + 1..i];
        CarriedConcat(h, Tip(rows), rows[..j + 1], rows[j + 1..i]);
        CarriedPastHashed(h, CarriedPast(h, Tip(rows), rows[..j + 1]), rows[j + 1..i]);
      }
    }
  }

  ghost predicate AllHashed(rows: seq<Row>) {
    forall i :: 0 <= i < |rows| ==> rows[i].rowHash.Some?
  }

  ghost predicate NoneHashed(rows: seq<Row>) {
    forall i :: 0 <= i < |rows| ==> rows[i].rowHash == None
  }

  lemma {:induction false} FillHashes(h: Hasher, prev: Hash, rows: seq<Row>)
    ensures AllHashed(FillFrom(h, prev, rows))
    decreases |rows|
  {
    if rows != [] {
      FillHashes(h, Carried(h, prev, rows[0]), rows[1..]);
    }
  }

  lemma {:induction false} FillKeepsHashed(h: Hasher, prev: Hash, rows: seq<Row>)
    requires AllHashed(rows)
    ensures FillFrom(h, prev, rows) == rows
    decreases |rows|
  {
    if rows != [] {
      FillKeepsHashed(h, prev, rows[1..]);
    }
  }

  /** Running the backfill again changes nothing, whatever the table looked like. */
  lemma BackfillIdempotent(h: Hasher, rows: seq<Row>)
    ensures Backfilled(h, Backfilled(h, rows)) == Backfilled(h, rows)
  {
    FillHashes(h, Tip(rows), rows);
    FillKeepsHashed(h, Tip(Backfilled(h, rows)), Backfilled(h, rows));
  }

  /** The hash carried past a whole block of rows. */
  function CarriedPast(h: Hasher, prev: Hash, rows: seq<Row>): Hash
    decreases |rows|
  {
    if rows == [] then prev else CarriedPast(h, Carried(h, prev, rows[0]), rows[1..])
  }

  lemma {:induction false} FillConcat(h: Hasher, prev: Hash, a: seq<Row>, b: seq<Row>)
    ensures FillFrom(h, prev, a + b) == FillFrom(h, prev, a) + FillFrom(h, CarriedPast(h, prev, a), b)
    decreases |a|
  {
    if a == [] {
      assert a + b == b;
    } else {
      assert (a + b)[1..] == a[1..] + b;
      FillConcat(h, Carried(h, prev, a[0]), a[1..], b);
    }
  }

  lemma {:induction false} CarriedPastHashed(h: Hasher, prev: Hash, rows: seq<Row>)
    requires AllHashed(rows)
    ensures CarriedPast(h, prev, rows) == prev
    decreases |rows|
  {
    if rows != [] {
      CarriedPastHashed(h, prev, rows[1..]);
    }
  }

  /** Past un-hashed rows the carried hash is the one stored in the last of them. */
  lemma {:induction false} CarriedPastUnhashed(h: Hasher, prev: Hash, rows: seq<Row>)
    requires NoneHashed(rows) && rows != []
    ensures FillFrom(h, prev, rows)[|rows| - 1].rowHash == Some(CarriedPast(h, prev, rows))
    decreases |rows|
  {
    if |rows| > 1 {
      CarriedPastUnhashed(h, Carried(h, prev, rows[0]), rows[1..]);
    }
  }

  lemma {:induction false} TipIgnoresUnhashed(a: seq<Row>, b: seq<Row>)
    requires NoneHashed(b)
    ensures Tip(a + b) == Tip(a)
    decreases |b|
  {
    if b == [] {
      assert a + b == a;
    } else {
      assert (a + b)[..|a + b| - 1] == a + b[..|b| - 1];
      TipIgnoresUnhashed(a, b[..|b| - 1]);
    }
  }

  /**
   A backfill that is interrupted by later un-hashed rows resumes where it stopped: doing the rows
   in two goes equals doing them in one, when the un-hashed rows are the newest ones.
   */
  lemma BackfillResumes(h: Hasher, p: seq<Row>, u: seq<Row>, b: seq<Row>)
    requires AllHashed(p) && NoneHashed(u) && NoneHashed(b)
    ensures Backfilled(h, p + u + b) == Backfilled(h, Backfilled(h, p + u) + b)
  {
    var a := p + u;
    var tip := Tip(a);
    TipIgnoresUnhashed(a, b);
    FillConcat(h, tip, a, b);
    var done := Backfilled(h, a);
    FillHashes(h, tip, a);
    TipIgnoresUnhashed(done, b);
    FillConcat(h, Tip(done), done, b);
    FillKeepsHashed(h, Tip(done), done);
    CarriedPastHashed(h, Tip(done), done);
    assert Tip(done) == CarriedPast(h, tip, a) by {
      TipIgnoresUnhashed(p, u);
      FillConcat(h, tip, p, u);
      CarriedPastHashed(h, tip, p);
      FillKeepsHashed(h, tip, p);
      CarriedConcat(h, tip, p, u);
      if u == [] {
        assert a == p;
      } else {
        CarriedPastUnhashed(h, tip, u);
        assert done[|done| - 1] == FillFrom(h, tip, u)[|u| - 1];
      }
    }
  }

  lemma {:induction false} CarriedConcat(h: Hasher, prev: Hash, a: seq<Row>, b: seq<Row>)
    ensures CarriedPast(h, prev, a + b) == CarriedPast(h, CarriedPast(h, prev, a), b)
    decreases |a|
  {
    if a == [] {
      assert a + b == b;
    } else {
      assert (a + b)[1..] == a[1..] + b;
      CarriedConcat(h, Carried(h, prev, a[0]), a[1..], b);
    }
  }

  // ---------------------------------------------------------------- chained appends

  /** A new row hashed onto the newest stored hash. */
  function Chained(h: Hasher, rows: seq<Row>, id: int, f: Fields, key: Option<string>): Row {
    Row(id, f, Some(Tip(rows)), Some(RowHash(h, Tip(rows), f, key)))
  }

  ghost predicate SomeKeyed(rows: seq<Row>) {
    exists i :: 0 <= i < |rows| && Keyed(rows[i])
  }

  /**
   Appending to an accepted table keeps it accepted exactly when an unkeyed row does not follow a
   keyed one; `policy` is the key the writer was configured with, none or the verifier's.
   */
  lemma AppendAccepted(h: Hasher, key: Option<string>, rows: seq<Row>, id: int, f: Fields, policy: Option<string>)
    requires ChainOk(h, key, rows) && (policy == None || policy == key)
    ensures ChainOk(h, key, rows + [Chained(h, rows, id, f, policy)]) <==> (policy.Some? || !SomeKeyed(rows))
  {
    var r := Chained(h, rows, id, f, policy);
    var all := rows + [r];
    var n := |rows|;
    assert n > 0 ==> Recomputes(h, key, rows[n - 1]);
    assert forall i :: 0 <= i < n ==> all[i] == rows[i];
    if policy.Some? || !SomeKeyed(rows) {
      assert forall i :: 0 < i < n ==> LinkedTo(rows[i - 1], rows[i]);
      forall i | 0 < i < |all| ensures LinkedTo(all[i - 1], all[i]) {
      }
    } else {
      var i :| 0 <= i < n && Keyed(rows[i]);
      assert Keyed(all[i]) && !Keyed(all[n]);
    }
  }

  lemma {:induction false} BackfillExtends(h: Hasher, key: Option<string>, done: seq<Row>, u: seq<Row>)
    requires ChainOk(h, key, done) && NoneHashed(u)
    ensures ChainOk(h, key, done + FillFrom(h, Tip(done), u)) <==> (u == [] || !SomeKeyed(done))
    decreases |u|
  {
    if u == [] {
      assert done + FillFrom(h, Tip(done), u) == done;
    } else {
      var r := Filled(h, Tip(done), u[0]);
      assert r == Chained(h, done, u[0].id, u[0].fields, None);
      AppendAccepted(h, key, done, u[0].id, u[0].fields, None);
      var all := done + FillFrom(h, Tip(done), u);
      assert all == (done + [r]) + FillFrom(h, Tip(done + [r]), u[1..]);
      assert all[..|done| + 1] == done + [r];
      if SomeKeyed(done) {
        if ChainOk(h, key, all) {
          ChainPrefix(h, key, all, |done| + 1);
        }
      } else {
        assert !SomeKeyed(done + [r]);
        BackfillExtends(h, key, done + [r], u[1..]);
      }
    }
  }

  /** The un-hashed rows are the newest: accepted iff there are none or the chain had not gone keyed. */
  lemma BackfillAccepted(h: Hasher, key: Option<string>, p: seq<Row>, u: seq<Row>)
    requires ChainOk(h, key, p) && NoneHashed(u)
    ensures ChainOk(h, key, Backfilled(h, p + u)) <==> (u == [] || !SomeKeyed(p))
  {
    ChainIsHashed(h, key, p);
    TipIgnoresUnhashed(p, u);
    FillConcat(h, Tip(p), p, u);
    FillKeepsHashed(h, Tip(p), p);
    CarriedPastHashed(h, Tip(p), p);
    BackfillExtends(h, key, p, u);
  }

  // ---------------------------------------------------------------- rows chained past un-hashed ones

  /** No digest lies on a cycle: a row's hash ranks above the hash it was made from. */
  ghost predicate Ranked(h: Hasher, rank: Hash -> nat) {
    forall p, f, k :: rank(RowHash(h, p, f, k)) > rank(p)
  }

  lemma {:induction false} TipOfConcat(a: seq<Row>, b: seq<Row>)
    requires b != [] && AllHashed(b)
    ensures Tip(a + b) == b[|b| - 1].rowHash.value
  {
  }

  /** Along a linked chain ranks grow from the hash the first row was chained onto. */
  lemma {:induction false} ChainRanks(h: Hasher, key: Option<string>, rank: Hash -> nat, c: seq<Row>, i: nat)
    requires Ranked(h, rank) && ChainOk(h, key, c) && GapFree(c) && i < |c|
    ensures c[i].rowHash.Some? && c[0].prevHash.Some? && rank(c[i].rowHash.value) > rank(c[0].prevHash.value)
  {
    assert Recomputes(h, key, c[i]) && Recomputes(h, key, c[0]);
    assert rank(c[i].rowHash.value) > rank(c[i].prevHash.value);
    if i > 0 {
      assert LinkedTo(c[i - 1], c[i]);
      ChainRanks(h, key, rank, c, i - 1);
    }
  }

  lemma {:induction false} FillRanks(h: Hasher, rank: Hash -> nat, prev: Hash, u: seq<Row>)
    requires Ranked(h, rank) && NoneHashed(u) && u != []
    ensures rank(CarriedPast(h, prev, u)) > rank(prev)
    decreases |u|
  {
    if |u| > 1 {
      FillRanks(h, rank, Carried(h, prev, u[0]), u[1..]);
    }
  }

  /** `c` was chained onto the tip of `p`, past the rows `u` that had no hash at the time. */
  ghost predicate ChainedPast(h: Hasher, key: Option<string>, p: seq<Row>, u: seq<Row>, c: seq<Row>) {
    && ChainOk(h, key, p) && NoneHashed(u) && ChainOk(h, key, c)
    && GapFree(p + u + c)
    && (c != [] ==> c[0].prevHash == Some(Tip(p)) && (SomeKeyed(p) ==> Keyed(c[0])))
  }

  /** Where the backfill puts its hashes when rows were chained past the un-hashed ones. */
  lemma BackfilledPast(h: Hasher, key: Option<string>, p: seq<Row>, u: seq<Row>, c: seq<Row>)
    requires ChainedPast(h, key, p, u, c) && c != []
    ensures Backfilled(h, p + u + c) == p + FillFrom(h, c[|c| - 1].rowHash.value, u) + c
  {
    ChainIsHashed(h, key, p);
    ChainIsHashed(h, key, c);
    var tip := c[|c| - 1].rowHash.value;
    TipOfConcat(p + u, c);
    FillConcat(h, tip, p + u, c);
    FillConcat(h, tip, p, u);
    FillKeepsHashed(h, tip, p);
    CarriedPastHashed(h, tip, p);
    FillKeepsHashed(h, CarriedPast(h, tip, p + u), c);
  }

  lemma ChainConcat(h: Hasher, key: Option<string>, p: seq<Row>, c: seq<Row>)
    requires ChainedPast(h, key, p, [], c)
    ensures ChainOk(h, key, p + c)
  {
    var all := p + c;
    assert p + [] + c == all;
    forall i | 0 <= i < |all| ensures Recomputes(h, key, all[i]) {
      assert all[i] == if i < |p| then p[i] else c[i - |p|];
    }
    forall i | 0 < i < |all| ensures LinkedTo(all[i - 1], all[i]) {
      if i < |p| {
        assert LinkedTo(p[i - 1], p[i]);
      } else if i == |p| {
        assert Recomputes(h, key, p[|p| - 1]);
      } else {
        assert LinkedTo(c[i - |p| - 1], c[i - |p|]);
      }
    }
    forall i, j | 0 <= i < j < |all| && Keyed(all[i]) ensures Keyed(all[j]) {
      if i < |p| && j >= |p| {
        assert Keyed(p[i]);
        assert j > |p| ==> Keyed(c[0]) ==> Keyed(c[j - |p|]);
      }
    }
  }

  /**
   The backfill against what boot leaves behind: an intact chain `p`, rows `u` inserted without a
   hash, and rows `c` chained onto `p`'s tip past them.  The result is accepted if and only if there
   was nothing to fill, or nothing was chained past and the chain had not gone keyed.
   */
  lemma BackfillAcceptedIff(h: Hasher, key: Option<string>, rank: Hash -> nat, p: seq<Row>, u: seq<Row>, c: seq<Row>)
    requires Ranked(h, rank) && ChainedPast(h, key, p, u, c)
    ensures ChainOk(h, key, Backfilled(h, p + u + c)) <==> u == [] || (c == [] && !SomeKeyed(p))
  {
    if c == [] {
      assert p + u + c == p + u;
      BackfillAccepted(h, key, p, u);
    } else if u == [] {
      NothingToFill(h, key, p, c);
    } else {
      ChainedPastBreaks(h, key, rank, p, u, c);
    }
  }

  lemma NothingToFill(h: Hasher, key: Option<string>, p: seq<Row>, c: seq<Row>)
    requires ChainedPast(h, key, p, [], c)
    ensures ChainOk(h, key, Backfilled(h, p + [] + c))
  {
    var all := p + [] + c;
    assert all == p + c;
    ChainConcat(h, key, p, c);
    ChainIsHashed(h, key, all);
    FillKeepsHashed(h, Tip(all), all);
  }

  lemma ChainIsHashed(h: Hasher, key: Option<string>, rows: seq<Row>)
    requires ChainOk(h, key, rows)
    ensures AllHashed(rows)
  {
    forall i | 0 <= i < |rows| ensures rows[i].rowHash.Some? {
      assert Recomputes(h, key, rows[i]);
    }
  }

  /** The rows chained past the un-hashed ones follow them without a gap. */
  lemma PastFollows(p: seq<Row>, u: seq<Row>, c: seq<Row>)
    requires GapFree(p + u + c) && u != [] && c != []
    ensures GapFree(c) && c[0].id == u[|u| - 1].id + 1
  {
    var all, n := p + u + c, |p + u|;
    assert forall i :: 0 <= i < |c| ==> all[n + i] == c[i];
    assert all[n - 1] == u[|u| - 1];
  }

  /** What the last filled row is hashed to ranks above what the first row past it was chained onto. */
  lemma FilledAbovePast(h: Hasher, key: Option<string>, rank: Hash -> nat, u: seq<Row>, c: seq<Row>)
    requires Ranked(h, rank) && NoneHashed(u) && u != [] && c != [] && ChainOk(h, key, c) && GapFree(c)
    ensures c[|c| - 1].rowHash.Some?
    ensures FillFrom(h, c[|c| - 1].rowHash.value, u)[|u| - 1].rowHash != c[0].prevHash
  {
    ChainRanks(h, key, rank, c, |c| - 1);
    var tip := c[|c| - 1].rowHash.value;
    FillRanks(h, rank, tip, u);
    CarriedPastUnhashed(h, tip, u);
  }

  /** The filled rows are hashed onto the newest row, so the first row chained past them no longer links. */
  lemma ChainedPastBreaks(h: Hasher, key: Option<string>, rank: Hash -> nat, p: seq<Row>, u: seq<Row>, c: seq<Row>)
    requires Ranked(h, rank) && ChainedPast(h, key, p, u, c) && u != [] && c != []
    ensures !ChainOk(h, key, Backfilled(h, p + u + c))
  {
    PastFollows(p, u, c);
    FilledAbovePast(h, key, rank, u, c);
    BackfilledPast(h, key, p, u, c);
    var all, filled := Backfilled(h, p + u + c), FillFrom(h, c[|c| - 1].rowHash.value, u);
    FillKeepsIds(h, c[|c| - 1].rowHash.value, u);
    BrokenBetween(h, key, all, p + filled, c);
  }

  lemma BrokenBetween(h: Hasher, key: Option<string>, all: seq<Row>, a: seq<Row>, c: seq<Row>)
    requires all == a + c && a != [] && c != []
    requires c[0].id == a[|a| - 1].id + 1 && c[0].prevHash != a[|a| - 1].rowHash
    ensures !ChainOk(h, key, all)
  {
    assert all[|a| - 1] == a[|a| - 1] && all[|a|] == c[0];
    assert !LinkedTo(all[|a| - 1], all[|a|]);
  }

  lemma {:induction false} FillKeepsIds(h: Hasher, prev: Hash, rows: seq<Row>)
    ensures forall i :: 0 <= i < |rows| ==> FillFrom(h, prev, rows)[i].id == rows[i].id
    decreases |rows|
  {
    if rows != [] {
      FillKeepsIds(h, Carried(h, prev, rows[0]), rows[1..]);
    }
  }

  /** The smallest case, on a chain that never was keyed: one un-hashed row, one row chained past it. */
  lemma OneChainedPastOne(h: Hasher, rank: Hash -> nat, first: int, f: Fields, bare: Fields, g: Fields)
    requires Ranked(h, rank)
    ensures var p := [Chained(h, [], first, f, None)];
            var u := [Row(first + 1, bare, None, None)];
            var c := [Chained(h, p + u, first + 2, g, None)];
            ChainOk(h, None, p) && !ChainOk(h, None, Backfilled(h, p + u + c))
  {
    var p := [Chained(h, [], first, f, None)];
    var u := [Row(first + 1, bare, None, None)];
    TipIgnoresUnhashed(p, u);
    var c := [Chained(h, p + u, first + 2, g, None)];
    assert Recomputes(h, None, p[0]) && Recomputes(h, None, c[0]);
    assert ChainedPast(h, None, p, u, c);
    ChainedPastBreaks(h, None, rank, p, u, c);
  }
}
