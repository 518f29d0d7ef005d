/**
 The command-line migration that encrypts or decrypts every token, walking the user table in
 batches with a cursor on the id.  Specified by what it does to each row alone, so the result and
 the counters cannot depend on the batch size.
 */
module TokenMigration {
  import opened Common
  import opened EncryptionModel

  datatype Row = Row(id: string, access: Column, refresh: Column)

  datatype Summary = Summary(scanned: nat, changed: nat, skippedCas: nat, alreadyDone: nat, nullSkipped: nat)

  const NOTHING: Summary := Summary(0, 0, 0, 0, 0)

  /** Rows in id order, ids distinct: the table seen through its primary key. */
  ghost predicate Sorted(rows: seq<Row>) {
    forall i, j :: 0 <= i < j < |rows| ==> Less(rows[i].id, rows[j].id)
  }

  // ---------------------------------------------------------------- one column, one row

  datatype Verdict = ToNull | ToDone | ToChange

  function EncryptVerdict(c: Column): Verdict {
    if c == Null || c == Plain("") then ToNull else if c.Enc? then ToDone else ToChange
  }

  function DecryptVerdict(c: Column): Verdict {
    if c == Null then ToNull else if c.Plain? then ToDone else ToChange
  }

  function EncryptColumn(c: Column, key: string): Column {
    if EncryptVerdict(c).ToChange? then Enc(key, c.text) else c
  }

  function DecryptColumn(c: Column): Column {
    if c.Enc? then Plain(c.text) else c
  }

  function Tally(s: Summary, v: Verdict): Summary {
    match v
    case ToNull => s.(nullSkipped := s.nullSkipped + 1)
    case ToDone => s.(alreadyDone := s.alreadyDone + 1)
    case ToChange => s.(changed := s.changed + 1)
  }

  /** The cursor starts below every id but the empty one, which is therefore never visited. */
  predicate Visited(r: Row) {
    r.id != ""
  }

  function EncryptRow(r: Row, key: string): Row {
    if Visited(r) then Row(r.id, EncryptColumn(r.access, key), EncryptColumn(r.refresh, key)) else r
  }

  function DecryptRow(r: Row): Row {
    if Visited(r) then Row(r.id, DecryptColumn(r.access), DecryptColumn(r.refresh)) else r
  }

  function EncryptTally(s: Summary, r: Row): Summary {
    if Visited(r) then
      Tally(Tally(s.(scanned := s.scanned + 1), EncryptVerdict(r.access)), EncryptVerdict(r.refresh))
    else s
  }

  /** Decryption only selects rows that hold a ciphertext. */
  predicate Selected(r: Row) {
    Visited(r) && (r.access.Enc? || r.refresh.Enc?)
  }

  function DecryptTally(s: Summary, r: Row): Summary {
    if Selected(r) then
      Tally(Tally(s.(scanned := s.scanned + 1), DecryptVerdict(r.access)), DecryptVerdict(r.refresh))
    else s
  }

  // ---------------------------------------------------------------- the whole table

  function EncryptAll(rows: seq<Row>, key: string): (r: seq<Row>)
    ensures |r| == |rows| && forall i :: 0 <= i < |rows| ==> r[i] == EncryptRow(rows[i], key)
  {
    seq(|rows|, i requires 0 <= i < |rows| => EncryptRow(rows[i], key))
  }

  function DecryptAll(rows: seq<Row>): (r: seq<Row>)
    ensures |r| == |rows| && forall i :: 0 <= i < |rows| ==> r[i] == DecryptRow(rows[i])
  {
    seq(|rows|, i requires 0 <= i < |rows| => DecryptRow(rows[i]))
  }

  function EncryptTotals(rows: seq<Row>): Summary {
    if rows == [] then NOTHING else EncryptTally(EncryptTotals(rows[..|rows| - 1]), rows[|rows| - 1])
  }

  function DecryptTotals(rows: seq<Row>): Summary {
    if rows == [] then NOTHING else DecryptTally(DecryptTotals(rows[..|rows| - 1]), rows[|rows| - 1])
  }

  /** Every ciphertext of a visited row was made with this key. */
  predicate Readable(r: Row, key: string) {
    Visited(r) ==> (r.access.Enc? ==> r.access.key == key) && (r.refresh.Enc? ==> r.refresh.key == key)
  }

  // ---------------------------------------------------------------- what the reports mean

  /** The places of the rows that satisfy `p`. */
  ghost function Places(rows: seq<Row>, p: Row -> bool): set<int> {
    set i | 0 <= i < |rows| && p(rows[i])
  }

  lemma PlacesNext(rows: seq<Row>, p: Row -> bool)
    requires rows != []
    ensures |Places(rows, p)| == |Places(rows[..|rows| - 1], p)| + if p(rows[|rows| - 1]) then 1 else 0
  {
    var n := |rows| - 1;
    if p(rows[n]) {
      assert Places(rows, p) == Places(rows[..n], p) + {n};
    } else {
      assert Places(rows, p) == Places(rows[..n], p);
    }
  }

  function ByAccess(chosen: Row -> bool, p: Column -> bool): Row -> bool {
    (r: Row) => chosen(r) && p(r.access)
  }

  function ByRefresh(chosen: Row -> bool, p: Column -> bool): Row -> bool {
    (r: Row) => chosen(r) && p(r.refresh)
  }

  /** How many tokens of the chosen rows satisfy `p`. */
  ghost function Tokens(rows: seq<Row>, chosen: Row -> bool, p: Column -> bool): nat {
    |Places(rows, ByAccess(chosen, p))| + |Places(rows, ByRefresh(chosen, p))|
  }

  lemma TokensNext(rows: seq<Row>, chosen: Row -> bool, p: Column -> bool)
    requires rows != []
    ensures var r := rows[|rows| - 1];
            Tokens(rows, chosen, p) == Tokens(rows[..|rows| - 1], chosen, p)
            + (if chosen(r) && p(r.access) then 1 else 0) + if chosen(r) && p(r.refresh) then 1 else 0
  {
    PlacesNext(rows, ByAccess(chosen, p));
    PlacesNext(rows, ByRefresh(chosen, p));
  }

  /** How many tokens differ between the two tables. */
  ghost function Changes(before: seq<Row>, after: seq<Row>): nat
    requires |after| == |before|
  {
    |set i | 0 <= i < |before| && after[i].access != before[i].access|
    + |set i | 0 <= i < |before| && after[i].refresh != before[i].refresh|
  }

  lemma ChangesAre(before: seq<Row>, after: seq<Row>, access: Row -> bool, refresh: Row -> bool)
    requires |after| == |before|
    requires forall i :: 0 <= i < |before| ==> (after[i].access != before[i].access <==> access(before[i]))
    requires forall i :: 0 <= i < |before| ==> (after[i].refresh != before[i].refresh <==> refresh(before[i]))
    ensures Changes(before, after) == |Places(before, access)| + |Places(before, refresh)|
  {
    assert (set i | 0 <= i < |before| && after[i].access != before[i].access) == Places(before, access);
    assert (set i | 0 <= i < |before| && after[i].refresh != before[i].refresh) == Places(before, refresh);
  }

  function HasId(): Row -> bool {
    (r: Row) => r.id != ""
  }

  function HoldsCiphertext(): Row -> bool {
    (r: Row) => r.id != "" && (r.access.Enc? || r.refresh.Enc?)
  }

  function IsNull(): Column -> bool {
    (c: Column) => c == Null
  }

  function IsBlank(): Column -> bool {
    (c: Column) => c == Null || c == Plain("")
  }

  function IsEncrypted(): Column -> bool {
    (c: Column) => c.Enc?
  }

  function IsPlain(): Column -> bool {
    (c: Column) => c.Plain?
  }

  function IsPlainText(): Column -> bool {
    (c: Column) => c.Plain? && c.text != ""
  }

  /** The summary of an encryption, counter by counter from the tables. */
  ghost predicate EncryptReport(before: seq<Row>, after: seq<Row>, s: Summary)
    requires |after| == |before|
  {
    && s.scanned == |Places(before, HasId())|
    && s.nullSkipped == Tokens(before, HasId(), IsBlank())
    && s.alreadyDone == Tokens(before, HasId(), IsEncrypted())
    && s.changed == Changes(before, after)
    && s.skippedCas == 0
  }

  /** The summary of a decryption, counter by counter from the tables. */
  ghost predicate DecryptReport(before: seq<Row>, after: seq<Row>, s: Summary)
    requires |after| == |before|
  {
    && s.scanned == |Places(before, HoldsCiphertext())|
    && s.nullSkipped == Tokens(before, HoldsCiphertext(), IsNull())
    && s.alreadyDone == Tokens(before, HoldsCiphertext(), IsPlain())
    && s.changed == Changes(before, after)
    && s.skippedCas == 0
  }

  /** Each token of a user with an id is encrypted if it is non-empty plaintext; nothing else changes. */
  ghost predicate EncryptedTable(before: seq<Row>, after: seq<Row>, key: string) {
    && |after| == |before|
    && forall i :: 0 <= i < |before| ==>
         && after[i].id == before[i].id
         && TokenEncrypted(before[i].id, before[i].access, after[i].access, key)
         && TokenEncrypted(before[i].id, before[i].refresh, after[i].refresh, key)
  }

  predicate TokenEncrypted(id: string, before: Column, after: Column, key: string) {
    after == if id != "" && before.Plain? && before.text != "" then Enc(key, before.text) else before
  }

  /** Each ciphertext of a user with an id becomes its text; nothing else changes. */
  ghost predicate DecryptedTable(before: seq<Row>, after: seq<Row>) {
    && |after| == |before|
    && forall i :: 0 <= i < |before| ==>
         && after[i].id == before[i].id
         && TokenDecrypted(before[i].id, before[i].access, after[i].access)
         && TokenDecrypted(before[i].id, before[i].refresh, after[i].refresh)
  }

  predicate TokenDecrypted(id: string, before: Column, after: Column) {
    after == if id != "" && before.Enc? then Plain(before.text) else before
  }

  lemma {:induction false} EncryptTotalsMean(rows: seq<Row>)
    ensures var s := EncryptTotals(rows);
            && s.scanned == |Places(rows, HasId())| && s.skippedCas == 0
            && s.nullSkipped == Tokens(rows, HasId(), IsBlank())
            && s.alreadyDone == Tokens(rows, HasId(), IsEncrypted())
            && s.changed == Tokens(rows, HasId(), IsPlainText())
    decreases |rows|
  {
    if rows == [] {
      NoPlaces();
    } else {
      EncryptTotalsMean(rows[..|rows| - 1]);
      PlacesNext(rows, HasId());
      TokensNext(rows, HasId(), IsBlank());
      TokensNext(rows, HasId(), IsEncrypted());
      TokensNext(rows, HasId(), IsPlainText());
    }
  }

  lemma NoPlaces()
    ensures forall p :: |Places([], p)| == 0
    ensures forall c, p :: Tokens([], c, p) == 0
  {
    forall p ensures Places([], p) == {} {
    }
  }

  lemma {:induction false} DecryptTotalsMean(rows: seq<Row>)
    ensures var s := DecryptTotals(rows);
            && s.scanned == |Places(rows, HoldsCiphertext())| && s.skippedCas == 0
            && s.nullSkipped == Tokens(rows, HoldsCiphertext(), IsNull())
            && s.alreadyDone == Tokens(rows, HoldsCiphertext(), IsPlain())
            && s.changed == Tokens(rows, HoldsCiphertext(), IsEncrypted())
    decreases |rows|
  {
    if rows == [] {
      NoPlaces();
    } else {
      DecryptTotalsMean(rows[..|rows| - 1]);
      PlacesNext(rows, HoldsCiphertext());
      TokensNext(rows, HoldsCiphertext(), IsNull());
      TokensNext(rows, HoldsCiphertext(), IsPlain());
      TokensNext(rows, HoldsCiphertext(), IsEncrypted());
    }
  }

  ghost predicate IsEncryption(before: seq<Row>, after: seq<Row>, key: string, s: Summary) {
    EncryptedTable(before, after, key) && EncryptReport(before, after, s)
  }

  ghost predicate IsDecryption(before: seq<Row>, after: seq<Row>, s: Summary) {
    DecryptedTable(before, after) && DecryptReport(before, after, s)
  }

  lemma EncryptedRowMeans(r: Row, key: string)
    ensures var t := EncryptRow(r, key);
            && t.id == r.id
            && TokenEncrypted(r.id, r.access, t.access, key) && TokenEncrypted(r.id, r.refresh, t.refresh, key)
            && (t.access != r.access <==> HasId()(r) && IsPlainText()(r.access))
            && (t.refresh != r.refresh <==> HasId()(r) && IsPlainText()(r.refresh))
  {
  }

  lemma DecryptedRowMeans(r: Row)
    ensures var t := DecryptRow(r);
            && t.id == r.id && TokenDecrypted(r.id, r.access, t.access) && TokenDecrypted(r.id, r.refresh, t.refresh)
            && (t.access != r.access <==> HoldsCiphertext()(r) && IsEncrypted()(r.access))
            && (t.refresh != r.refresh <==> HoldsCiphertext()(r) && IsEncrypted()(r.refresh))
  {
  }

  /** The table and the summary of an encryption, from the table it started with. */
  lemma EncryptionMeans(rows: seq<Row>, key: string)
    ensures EncryptedTable(rows, EncryptAll(rows, key), key)
    ensures EncryptReport(rows, EncryptAll(rows, key), EncryptTotals(rows))
  {
    var after := EncryptAll(rows, key);
    var access, refresh := ByAccess(HasId(), IsPlainText()), ByRefresh(HasId(), IsPlainText());
    forall i | 0 <= i < |rows|
      ensures after[i].access != rows[i].access <==> access(rows[i])
      ensures after[i].refresh != rows[i].refresh <==> refresh(rows[i])
      ensures after[i].id == rows[i].id
      ensures TokenEncrypted(rows[i].id, rows[i].access, after[i].access, key)
      ensures TokenEncrypted(rows[i].id, rows[i].refresh, after[i].refresh, key)
    {
      EncryptedRowMeans(rows[i], key);
    }
    ChangesAre(rows, after, access, refresh);
    EncryptTotalsMean(rows);
  }

  lemma DecryptionMeans(rows: seq<Row>)
    ensures DecryptedTable(rows, DecryptAll(rows))
    ensures DecryptReport(rows, DecryptAll(rows), DecryptTotals(rows))
  {
    var after := DecryptAll(rows);
    var access := ByAccess(HoldsCiphertext(), IsEncrypted());
    var refresh := ByRefresh(HoldsCiphertext(), IsEncrypted());
    forall i | 0 <= i < |rows|
      ensures after[i].access != rows[i].access <==> access(rows[i])
      ensures after[i].refresh != rows[i].refresh <==> refresh(rows[i])
      ensures after[i].id == rows[i].id
      ensures TokenDecrypted(rows[i].id, rows[i].access, after[i].access)
      ensures TokenDecrypted(rows[i].id, rows[i].refresh, after[i].refresh)
    {
      DecryptedRowMeans(rows[i]);
    }
    ChangesAre(rows, after, access, refresh);
    DecryptTotalsMean(rows);
  }

  // ---------------------------------------------------------------- the cursor

  /** Everything before position `p` is at or below the cursor, everything from it on is above. */
  ghost predicate CursorAt(rows: seq<Row>, last: string, p: nat) {
    && p <= |rows|
    && (forall i :: 0 <= i < p ==> !Less(last, rows[i].id))
    && (forall i :: p <= i < |rows| ==> Less(last, rows[i].id))
  }

  lemma CursorAfter(rows: seq<Row>, i: nat)
    requires Sorted(rows) && i < |rows|
    ensures CursorAt(rows, rows[i].id, i + 1)
  {
    LessIrreflexive(rows[i].id);
    forall j | 0 <= j < i ensures !Less(rows[i].id, rows[j].id) {
      LessAsymmetric(rows[j].id, rows[i].id);
    }
  }

  /** Where the walk starts: past the row with the empty id, if there is one. */
  lemma CursorAtStart(rows: seq<Row>) returns (p: nat)
    requires Sorted(rows)
    ensures p <= 1 && CursorAt(rows, "", p)
    ensures forall i :: 0 <= i < |rows| ==> (Visited(rows[i]) <==> p <= i)
  {
    p := if |rows| > 0 && rows[0].id == "" then 1 else 0;
    forall i | p <= i < |rows| ensures rows[i].id != "" {
      if i > 0 {
        assert Less(rows[0].id, rows[i].id);
      }
    }
  }

  /** Ids, and with them the order and the cursor, survive any rewriting of columns. */
  ghost predicate SameIds(a: seq<Row>, b: seq<Row>) {
    |a| == |b| && forall i :: 0 <= i < |a| ==> a[i].id == b[i].id
  }

  /** Encryption has committed exactly the rows before `p`. */
  ghost predicate EncryptedUpTo(now: seq<Row>, before: seq<Row>, p: nat, key: string) {
    && p <= |now| == |before|
    && (forall i :: 0 <= i < p ==> now[i] == EncryptRow(before[i], key))
    && (forall i :: p <= i < |now| ==> now[i] == before[i])
  }

  /** Decryption has committed exactly the rows before `p`, all of them readable. */
  ghost predicate DecryptedUpTo(now: seq<Row>, before: seq<Row>, p: nat, key: string) {
    && p <= |now| == |before|
    && (forall i :: 0 <= i < p ==> now[i] == DecryptRow(before[i]) && Readable(before[i], key))
    && (forall i :: p <= i < |now| ==> now[i] == before[i])
  }

  lemma DecryptedNext(now: seq<Row>, before: seq<Row>, p: nat, key: string)
    requires DecryptedUpTo(now, before, p, key) && p < |before| && Readable(before[p], key)
    ensures DecryptedUpTo(now[p := DecryptRow(now[p])], before, p + 1, key)
  {
  }

  lemma EncryptedNext(now: seq<Row>, before: seq<Row>, p: nat, key: string)
    requires EncryptedUpTo(now, before, p, key) && p < |before|
    ensures EncryptedUpTo(now[p := EncryptRow(before[p], key)], before, p + 1, key)
  {
  }

  lemma EncryptTotalsNext(rows: seq<Row>, i: nat)
    requires i < |rows|
    ensures EncryptTotals(rows[..i + 1]) == EncryptTally(EncryptTotals(rows[..i]), rows[i])
  {
    assert rows[..i + 1][..i] == rows[..i];
  }

  lemma DecryptTotalsNext(rows: seq<Row>, i: nat)
    requires i < |rows|
    ensures DecryptTotals(rows[..i + 1]) == DecryptTally(DecryptTotals(rows[..i]), rows[i])
  {
    assert rows[..i + 1][..i] == rows[..i];
  }

  /** How many of the first `n` rows decryption selects. */
  function SelectedBefore(rows: seq<Row>, n: nat): nat
    requires n <= |rows|
  {
    if n == 0 then 0 else SelectedBefore(rows, n - 1) + if Selected(rows[n - 1]) then 1 else 0
  }

  lemma {:induction false} SelectedBeforeGrows(rows: seq<Row>, m: nat, n: nat)
    requires m <= n <= |rows|
    ensures SelectedBefore(rows, m) <= SelectedBefore(rows, n)
    ensures SelectedBefore(rows, m) == SelectedBefore(rows, n) <==> forall i :: m <= i < n ==> !Selected(rows[i])
    decreases n
  {
    if m < n {
      SelectedBeforeGrows(rows, m, n - 1);
    }
  }

  /** The table with its first `n` selected rows decrypted. */
  function DecryptFirst(rows: seq<Row>, n: nat): (r: seq<Row>)
    ensures |r| == |rows|
    ensures forall i :: 0 <= i < |rows| ==> r[i] == if SelectedBefore(rows, i) < n then DecryptRow(rows[i]) else rows[i]
  {
    seq(|rows|, i requires 0 <= i < |rows| => if SelectedBefore(rows, i) < n then DecryptRow(rows[i]) else rows[i])
  }

  ghost predicate NoneSelected(rows: seq<Row>, p: nat) {
    forall i :: p <= i < |rows| ==> !Selected(rows[i])
  }

  predicate FirstUnreadable(rows: seq<Row>, key: string, b: nat) {
    b < |rows| && !Readable(rows[b], key) && forall i :: 0 <= i < b ==> Readable(rows[i], key)
  }

  lemma UpToIsFirst(now: seq<Row>, before: seq<Row>, p: nat, key: string)
    requires DecryptedUpTo(now, before, p, key)
    ensures now == DecryptFirst(before, SelectedBefore(before, p))
  {
    forall i | 0 <= i < |before| ensures now[i] == DecryptFirst(before, SelectedBefore(before, p))[i] {
      if i < p {
        SelectedBeforeGrows(before, i, p);
      } else {
        SelectedBeforeGrows(before, p, i);
      }
    }
  }

  lemma UnreadableWithin(rows: seq<Row>, key: string, lo: nat, bad: nat, hi: nat)
    requires lo <= bad < hi <= |rows| && !Readable(rows[bad], key)
    ensures SelectedBefore(rows, lo) <= SelectedBefore(rows, bad) < SelectedBefore(rows, hi)
  {
    SelectedBeforeGrows(rows, lo, bad);
    SelectedBeforeGrows(rows, bad + 1, hi);
  }

  /** `k` batches of `size` rows. */
  function Batches(k: nat, size: nat): nat {
    if k == 0 then 0 else Batches(k - 1, size) + size
  }

  lemma {:induction false} BatchesMore(j: nat, k: nat, size: nat)
    requires j < k
    ensures Batches(j, size) + size <= Batches(k, size)
  {
    if j < k - 1 {
      BatchesMore(j, k - 1, size);
    }
  }

  lemma {:induction false} BatchesAreProduct(k: nat, size: nat)
    ensures Batches(k, size) == k * size
  {
    if k > 0 {
      BatchesAreProduct(k - 1, size);
      assert k * size == (k - 1) * size + size;
    }
  }

  lemma WholeBatches(k: nat, size: nat, b: nat)
    requires size > 0 && Batches(k, size) <= b < Batches(k, size) + size
    ensures b / size * size == Batches(k, size)
  {
    var q := b / size;
    assert q * size <= b < q * size + size;
    BatchesAreProduct(q, size);
    if q < k {
      BatchesMore(q, k, size);
    } else if k < q {
      BatchesMore(k, q, size);
    }
  }

  /** Every ciphertext of a user with an id was made with this key. */
  ghost predicate AllMadeWith(rows: seq<Row>, key: string) {
    forall i :: 0 <= i < |rows| && rows[i].id != "" ==>
      (rows[i].access.Enc? ==> rows[i].access.key == key) && (rows[i].refresh.Enc? ==> rows[i].refresh.key == key)
  }

  lemma ReadableMeans(rows: seq<Row>, key: string)
    requires AllMadeWith(rows, key)
    ensures forall b: nat :: !FirstUnreadable(rows, key, b)
  {
    assert forall i :: 0 <= i < |rows| ==> Readable(rows[i], key);
  }

  /** The batch after `p` holds the first unreadable row. */
  ghost predicate Stuck(before: seq<Row>, key: string, p: nat, size: nat, bad: nat) {
    && p <= bad && FirstUnreadable(before, key, bad)
    && SelectedBefore(before, p) <= SelectedBefore(before, bad) < SelectedBefore(before, p) + size
  }

  /** The batch from `p` to `q` is full, or the last. */
  ghost predicate BatchEnds(before: seq<Row>, p: nat, size: nat, q: nat) {
    && p < q <= |before|
    && (SelectedBefore(before, q) == SelectedBefore(before, p) + size || NoneSelected(before, q))
  }

  /** The walk has committed whole batches, except perhaps the last. */
  ghost predicate InBatches(before: seq<Row>, p: nat, size: nat, k: nat) {
    p <= |before| && (SelectedBefore(before, p) == Batches(k, size) || NoneSelected(before, p))
  }

  lemma UnreadableIsSelected(before: seq<Row>, key: string, p: nat, size: nat, bad: nat)
    requires Stuck(before, key, p, size, bad)
    ensures !NoneSelected(before, p)
  {
    assert Selected(before[bad]);
  }

  lemma WalkFinished(now: seq<Row>, before: seq<Row>, p: nat, key: string)
    requires DecryptedUpTo(now, before, p, key) && NoneSelected(before, p)
    ensures now == DecryptAll(before) && DecryptTotals(before[..p]) == DecryptTotals(before)
    ensures IsDecryption(before, now, DecryptTotals(before))
    ensures AllMadeWith(before, key)
  {
    RestNeedsNothing(before, p);
    DecryptionMeans(before);
    forall i | 0 <= i < |before| ensures now[i] == DecryptRow(before[i]) && Readable(before[i], key) {
      assert i >= p ==> !Selected(before[i]);
    }
  }

  lemma WalkStuck(now: seq<Row>, before: seq<Row>, p: nat, key: string, size: nat, k: nat, bad: nat)
    requires size > 0 && DecryptedUpTo(now, before, p, key) && InBatches(before, p, size, k)
             && Stuck(before, key, p, size, bad)
    ensures now == DecryptFirst(before, SelectedBefore(before, bad) / size * size)
    ensures forall b: nat :: FirstUnreadable(before, key, b) ==> b == bad
    ensures !AllMadeWith(before, key)
  {
    assert !Readable(before[bad], key);
    UnreadableIsSelected(before, key, p, size, bad);
    WholeBatches(k, size, SelectedBefore(before, bad));
    UpToIsFirst(now, before, p, key);
  }

  lemma EncryptKeepsIds(now: seq<Row>, before: seq<Row>, p: nat, key: string)
    requires EncryptedUpTo(now, before, p, key)
    ensures SameIds(now, before)
  {
    forall i | 0 <= i < |now| ensures now[i].id == before[i].id {
    }
  }

  lemma DecryptKeepsIds(now: seq<Row>, before: seq<Row>, p: nat, key: string)
    requires DecryptedUpTo(now, before, p, key)
    ensures SameIds(now, before)
  {
    forall i | 0 <= i < |now| ensures now[i].id == before[i].id {
    }
  }

  /** One row of a decrypting batch. */
  method DecryptOne(row: Row, key: string, s: Summary) returns (ok: bool, next: Row, out: Summary)
    ensures ok <==> Readable(row, key)
    ensures ok ==> next == DecryptRow(row) && out == DecryptTally(s, row)
  {
    ok, next, out := true, row, s;
    if Selected(row) {
      if (row.access.Enc? && row.access.key != key) || (row.refresh.Enc? && row.refresh.key != key) {
        return false, row, s;
      }
      out := out.(scanned := out.scanned + 1);
      out := Tally(Tally(out, DecryptVerdict(row.access)), DecryptVerdict(row.refresh));
      next := Row(row.id, DecryptColumn(row.access), DecryptColumn(row.refresh));
    }
  }

  class UserTable {
    var rows: seq<Row>

    constructor (rows: seq<Row>)
      ensures this.rows == rows
    {
      this.rows := rows;
    }

    /** `WHERE id > last ORDER BY id LIMIT n`. */
    method SelectAfter(last: string, limit: nat, ghost before: seq<Row>, ghost p: nat) returns (lo: nat, hi: nat)
      requires limit > 0 && SameIds(rows, before) && CursorAt(before, last, p)
      ensures lo == p && lo <= |rows|
      ensures hi == if lo + limit <= |rows| then lo + limit else |rows|
    {
      lo := 0;
      while lo < |rows| && !Less(last, rows[lo].id)
        invariant 0 <= lo <= p
      {
        lo := lo + 1;
      }
      hi := if lo + limit <= |rows| then lo + limit else |rows|;
    }

    /** The new cursor after a batch that ends before `hi`. */
    method LastId(hi: nat, ghost before: seq<Row>) returns (lastId: string)
      requires 0 < hi <= |rows| && SameIds(rows, before) && Sorted(before)
      ensures CursorAt(before, lastId, hi)
    {
      lastId := rows[hi - 1].id;
      CursorAfter(before, hi - 1);
    }

    function Cell(i: nat, isRefresh: bool): Column
      requires i < |rows|
      reads this
    {
      if isRefresh then rows[i].refresh else rows[i].access
    }

    /** Write a cell if it still holds `value`, and count which it was. */
    method CompareAndSet(i: nat, isRefresh: bool, value: Column, next: Column, s: Summary) returns (out: Summary)
      requires i < |rows|
      modifies this
      ensures if old(Cell(i, isRefresh)) == value
              then out == s.(changed := s.changed + 1)
                   && var was := old(rows)[i];
                      rows == old(rows)[i := if isRefresh then was.(refresh := next) else was.(access := next)]
              else out == s.(skippedCas := s.skippedCas + 1) && rows == old(rows)
    {
      if Cell(i, isRefresh) == value {
        rows := rows[i := if isRefresh then rows[i].(refresh := next) else rows[i].(access := next)];
        out := s.(changed := s.changed + 1);
      } else {
        out := s.(skippedCas := s.skippedCas + 1);
      }
    }

    /** One row of an encrypting batch, as it was read. */
    method EncryptOne(i: nat, row: Row, key: string, s: Summary) returns (out: Summary)
      requires i < |rows| && row == rows[i] && Visited(row)
      modifies this
      ensures rows == old(rows)[i := EncryptRow(row, key)]
      ensures out == EncryptTally(s, row)
    {
      out := s.(scanned := s.scanned + 1);
      if row.access == Null || row.access == Plain("") {
        out := out.(nullSkipped := out.nullSkipped + 1);
      } else if row.access.Enc? {
        out := out.(alreadyDone := out.alreadyDone + 1);
      } else {
        out := CompareAndSet(i, false, row.access, Enc(key, row.access.text), out);
      }
      if row.refresh == Null || row.refresh == Plain("") {
        out := out.(nullSkipped := out.nullSkipped + 1);
      } else if row.refresh.Enc? {
        out := out.(alreadyDone := out.alreadyDone + 1);
      } else {
        out := CompareAndSet(i, true, row.refresh, Enc(key, row.refresh.text), out);
      }
    }

    /** One transaction; `before` is the table at the start of the migration. */
    method EncryptBatch(lo: nat, hi: nat, key: string, s: Summary, ghost before: seq<Row>) returns (out: Summary)
      requires lo <= hi <= |before| && EncryptedUpTo(rows, before, lo, key) && s == EncryptTotals(before[..lo])
      requires forall j :: lo <= j < |before| ==> Visited(before[j])
      modifies this
      ensures EncryptedUpTo(rows, before, hi, key) && out == EncryptTotals(before[..hi])
    {
      var batch := rows[lo..hi];
      out := s;
      for i := lo to hi
        invariant EncryptedUpTo(rows, before, i, key) && out == EncryptTotals(before[..i])
      {
        EncryptTotalsNext(before, i);
        EncryptedNext(rows, before, i, key);
        out := EncryptOne(i, batch[i - lo], key, out);
      }
    }

    /** One turn of the walk: a committed batch, or nothing left. */
    method EncryptTurn(last: string, batchSize: nat, key: string, s: Summary, ghost before: seq<Row>, ghost p: nat)
      returns (more: bool, lastId: string, out: Summary, ghost q: nat)
      requires Sorted(before) && batchSize > 0 && forall j :: p <= j < |before| ==> Visited(before[j])
      requires EncryptedUpTo(rows, before, p, key) && CursorAt(before, last, p) && s == EncryptTotals(before[..p])
      modifies this
      ensures p <= q && EncryptedUpTo(rows, before, q, key) && CursorAt(before, lastId, q)
              && out == EncryptTotals(before[..q])
      ensures if more then p < q else q == |before|
    {
      EncryptKeepsIds(rows, before, p, key);
      var lo, hi := SelectAfter(last, batchSize, before, p);
      if lo == hi {
        return false, last, s, p;
      }
      lastId := LastId(hi, before);
      out := EncryptBatch(lo, hi, key, s, before);
      more, q := true, hi;
    }

    method RunEncryptBatches(key: string, batchSize: nat) returns (summary: Summary)
      requires Sorted(rows) && batchSize > 0
      modifies this
      ensures rows == EncryptAll(old(rows), key) && summary == EncryptTotals(old(rows))
      ensures IsEncryption(old(rows), rows, key, summary)
    {
      ghost var before := rows;
      summary := NOTHING;
      var lastId, more := "", true;
      ghost var p: nat := CursorAtStart(rows);
      assert p == 1 ==> before[..1][..0] == [];
      while more
        invariant EncryptedUpTo(rows, before, p, key) && CursorAt(before, lastId, p)
        invariant forall i :: p <= i < |before| ==> Visited(before[i])
        invariant summary == EncryptTotals(before[..p])
        invariant !more ==> p == |before|
        decreases more, |before| - p
      {
        more, lastId, summary, p := EncryptTurn(lastId, batchSize, key, summary, before, p);
      }
      assert before[..p] == before;
      assert rows == EncryptAll(before, key);
      EncryptionMeans(before, key);
    }

    /** As above, restricted to rows that hold a ciphertext; the batch is those rows within [lo, hi). */
    method SelectEncryptedAfter(last: string, limit: nat, ghost before: seq<Row>, ghost p: nat)
      returns (lo: nat, hi: nat)
      requires limit > 0 && SameIds(rows, before) && CursorAt(before, last, p)
      requires forall i :: p <= i < |rows| ==> rows[i] == before[i]
      ensures lo == p && lo <= hi <= |rows|
      ensures lo < hi ==> Selected(before[hi - 1])
      ensures var found := SelectedBefore(before, hi) - SelectedBefore(before, lo);
              found == limit || (found < limit && NoneSelected(before, hi))
    {
      lo := 0;
      while lo < |rows| && !Less(last, rows[lo].id)
        invariant 0 <= lo <= p
      {
        lo := lo + 1;
      }
      hi := lo;
      var found := 0;
      for i := lo to |rows|
        invariant lo <= hi <= i
        invariant lo < hi ==> Selected(before[hi - 1])
        invariant found == SelectedBefore(before, hi) - SelectedBefore(before, lo) <= limit
        invariant found < limit ==> forall j :: hi <= j < i ==> !Selected(before[j])
      {
        if found < limit && Selected(rows[i]) {
          SelectedBeforeGrows(before, hi, i);
          found := found + 1;
          hi := i + 1;
        }
      }
    }

    /** One decrypting transaction: all of the batch, or nothing when a token cannot be read. */
    method DecryptBatch(lo: nat, hi: nat, key: string, s: Summary, ghost before: seq<Row>)
      returns (ok: bool, out: Summary, ghost bad: nat)
      requires lo <= hi <= |before| && DecryptedUpTo(rows, before, lo, key) && s == DecryptTotals(before[..lo])
      modifies this
      ensures ok ==> DecryptedUpTo(rows, before, hi, key) && out == DecryptTotals(before[..hi])
      ensures !ok ==> rows == old(rows) && lo <= bad < hi && FirstUnreadable(before, key, bad)
    {
      var tx := rows;
      out, bad := s, lo;
      for i := lo to hi
        invariant rows == old(rows)
        invariant DecryptedUpTo(tx, before, i, key) && out == DecryptTotals(before[..i])
      {
        DecryptTotalsNext(before, i);
        var readable, next;
        readable, next, out := DecryptOne(tx[i], key, out);
        if !readable {
          return false, s, i;
        }
        DecryptedNext(tx, before, i, key);
        tx := tx[i := next];
      }
      rows := tx;
      ok := true;
    }

    /** One turn of the walk: nothing left, a batch that cannot be read, or a committed batch. */
    method DecryptTurn(last: string, batchSize: nat, key: string, s: Summary, ghost before: seq<Row>, ghost p: nat)
      returns (turn: Turn, lastId: string, out: Summary, ghost q: nat, ghost bad: nat)
      requires Sorted(before) && batchSize > 0
      requires DecryptedUpTo(rows, before, p, key) && CursorAt(before, last, p) && s == DecryptTotals(before[..p])
      modifies this
      ensures turn.Finished? ==> rows == old(rows) && out == s && NoneSelected(before, p)
      ensures turn.Failed? ==> rows == old(rows) && Stuck(before, key, p, batchSize, bad)
      ensures turn.Committed? ==> DecryptedUpTo(rows, before, q, key) && CursorAt(before, lastId, q)
                                  && out == DecryptTotals(before[..q]) && BatchEnds(before, p, batchSize, q)
    {
      q, lastId, out, bad := p, last, s, p;
      DecryptKeepsIds(rows, before, p, key);
      var lo, hi := SelectEncryptedAfter(last, batchSize, before, p);
      if lo == hi {
        return Finished, last, s, p, p;
      }
      lastId := LastId(hi, before);
      var ok;
      ok, out, bad := DecryptBatch(lo, hi, key, s, before);
      turn, q := if ok then Committed else Failed, hi;
      if !ok {
        UnreadableWithin(before, key, lo, bad, hi);
      }
    }

    /**
     Decryption succeeds exactly when every visited token is readable.  When it fails, the whole
     batches before the first unreadable row stay decrypted and the rest of the table is as it was.
     */
    method RunDecryptBatches(key: string, batchSize: nat) returns (ok: bool, summary: Summary)
      requires Sorted(rows) && batchSize > 0
      modifies this
      ensures ok <==> AllMadeWith(old(rows), key)
      ensures ok ==> rows == DecryptAll(old(rows)) && summary == DecryptTotals(old(rows))
      ensures ok ==> IsDecryption(old(rows), rows, summary)
      ensures forall b: nat :: FirstUnreadable(old(rows), key, b) ==>
                rows == DecryptFirst(old(rows), SelectedBefore(old(rows), b) / batchSize * batchSize)
    {
      ghost var before := rows;
      summary := NOTHING;
      var lastId := "";
      ghost var done: nat := CursorAtStart(rows);
      ghost var batches: nat, bad: nat := 0, 0;
      assert done == 1 ==> before[..1][..0] == [];
      assert SelectedBefore(before, done) == 0;
      var turn := Committed;
      while turn.Committed?
        invariant DecryptedUpTo(rows, before, done, key) && InBatches(before, done, batchSize, batches)
        invariant turn.Committed? ==> CursorAt(before, lastId, done)
        invariant !turn.Failed? ==> summary == DecryptTotals(before[..done])
        invariant turn.Finished? ==> NoneSelected(before, done)
        invariant turn.Failed? ==> Stuck(before, key, done, batchSize, bad)
        decreases turn.Committed?, |before| - done
      {
        ghost var q;
        turn, lastId, summary, q, bad := DecryptTurn(lastId, batchSize, key, summary, before, done);
        if turn.Committed? {
          done, batches := q, batches + 1;
        }
      }
      ok := turn.Finished?;
      if ok {
        WalkFinished(rows, before, done, key);
        ReadableMeans(before, key);
      } else {
        WalkStuck(rows, before, done, key, batchSize, batches, bad);
      }
    }
  }

  datatype Turn = Finished | Failed | Committed

  /** Rows that are not selected are already what decryption would make of them. */
  lemma {:induction false} RestNeedsNothing(rows: seq<Row>, p: nat)
    requires p <= |rows| && NoneSelected(rows, p)
    ensures forall i :: p <= i < |rows| ==> DecryptRow(rows[i]) == rows[i]
    ensures DecryptTotals(rows) == DecryptTotals(rows[..p])
    decreases |rows|
  {
    if p == |rows| {
      assert rows[..p] == rows;
    } else {
      var n := |rows| - 1;
      assert rows[..n][..p] == rows[..p];
      RestNeedsNothing(rows[..n], p);
      assert DecryptTotals(rows) == DecryptTally(DecryptTotals(rows[..n]), rows[n]);
      forall i | p <= i < |rows| ensures DecryptRow(rows[i]) == rows[i] {
      }
    }
  }

  // ---------------------------------------------------------------- what the specification gives

  /** Every column of every scanned row is counted once, and none was lost to a concurrent writer. */
  lemma {:induction false} CountersBalance(rows: seq<Row>)
    ensures var s := EncryptTotals(rows);
            s.changed + s.alreadyDone + s.nullSkipped == 2 * s.scanned && s.skippedCas == 0
    ensures var s := DecryptTotals(rows);
            s.changed + s.alreadyDone + s.nullSkipped == 2 * s.scanned && s.skippedCas == 0
    decreases |rows|
  {
    if rows != [] {
      CountersBalance(rows[..|rows| - 1]);
    }
  }

  ghost predicate AllPlaintext(rows: seq<Row>) {
    forall i :: 0 <= i < |rows| ==> !rows[i].access.Enc? && !rows[i].refresh.Enc?
  }

  /** Decrypting what was encrypted with the same key restores a plaintext table, and cannot fail. */
  lemma DecryptUndoesEncrypt(rows: seq<Row>, key: string)
    requires AllPlaintext(rows)
    ensures DecryptAll(EncryptAll(rows, key)) == rows
    ensures forall i :: 0 <= i < |rows| ==> Readable(EncryptAll(rows, key)[i], key)
  {
    forall i | 0 <= i < |rows| ensures DecryptRow(EncryptRow(rows[i], key)) == rows[i] {
    }
  }

  lemma EncryptIdempotent(rows: seq<Row>, key: string, other: string)
    ensures EncryptAll(EncryptAll(rows, key), other) == EncryptAll(rows, key)
  {
    forall i | 0 <= i < |rows| ensures EncryptRow(EncryptRow(rows[i], key), other) == EncryptRow(rows[i], key) {
    }
  }

  /** What stays in plaintext: exactly the empty tokens and the tokens of a user with an empty id. */
  lemma LeftInPlaintext(rows: seq<Row>, key: string, i: nat)
    requires i < |rows|
    ensures EncryptAll(rows, key)[i].access.Plain? <==>
            rows[i].access.Plain? && (rows[i].id == "" || rows[i].access.text == "")
    ensures EncryptAll(rows, key)[i].refresh.Plain? <==>
            rows[i].refresh.Plain? && (rows[i].id == "" || rows[i].refresh.text == "")
  {
    assert EncryptAll(rows, key)[i] == EncryptRow(rows[i], key);
  }
}
