/**
 Verification of the event ledger: a full hash-chain scan, and a probe that checks only what was appended since its
 checkpoint. The table is given as its rows in the order of the queries, by time and then by id. The three places
 that link a row to its predecessor hash the same text, with a unit separator between the two parts. The kernel's
 check of the events looks up each event's parents among the rows it is given, and nowhere else.
 */
module EventLedger {
  import opened Common

  /** `body` stands for the episode, the type and the payload of the event. */
  datatype Row = Row(id: int, t: int, hash: string, ledgerHash: string, parents: seq<int>, body: string)

  /** The digest of an event and its parents' hashes, and the one that links a row to the ledger before it. */
  datatype Kernel = Kernel(
    digest: (int, int, seq<int>, string, seq<string>) -> string,
    link: (string, string) -> string)

  ghost predicate LinkInjective(k: Kernel) {
    && (forall a, b, c, d {:trigger k.link(a, b), k.link(c, d)} :: k.link(a, b) == k.link(c, d) ==> a == c && b == d)
    && (forall a, b :: k.link(a, b) != "")
  }

  predicate Before(t: int, id: int, r: Row) {
    t < r.t || (t == r.t && id < r.id)
  }

  predicate Sorted(rows: seq<Row>) {
    forall i, j :: 0 <= i < j < |rows| ==> Before(rows[i].t, rows[i].id, rows[j]) && rows[i].id != rows[j].id
  }

  // ---------------------------------------------------------------------------------------------------------
  // The kernel's check of the events, `verifyEventChain`.

  function Ids(rows: seq<Row>): set<int> {
    set r | r in rows :: r.id
  }

  /** The map from ids to rows; a later row with the same id replaces an earlier one. */
  function ById(rows: seq<Row>, id: int): (r: Option<Row>)
    ensures r.Some? <==> id in Ids(rows)
    ensures r.Some? ==> r.value in rows && r.value.id == id
  {
    if rows == [] then None
    else if rows[|rows| - 1].id == id then Some(rows[|rows| - 1])
    else
      assert rows == rows[..|rows| - 1] + [rows[|rows| - 1]];
      ById(rows[..|rows| - 1], id)
  }

  /** A parent that is not among the rows contributes the empty hash. */
  function ParentHash(rows: seq<Row>, parent: int): string {
    if ById(rows, parent).Some? then ById(rows, parent).value.hash else ""
  }

  function ParentHashes(rows: seq<Row>, parents: seq<int>): (hashes: seq<string>)
    ensures |hashes| == |parents| && forall i :: 0 <= i < |hashes| ==> hashes[i] == ParentHash(rows, parents[i])
  {
    seq(|parents|, i requires 0 <= i < |parents| => ParentHash(rows, parents[i]))
  }

  predicate HashHolds(k: Kernel, rows: seq<Row>, r: Row) {
    r.hash == k.digest(r.id, r.t, r.parents, r.body, ParentHashes(rows, r.parents))
  }

  predicate ParentsPresent(rows: seq<Row>, r: Row) {
    forall p :: p in r.parents ==> p in Ids(rows)
  }

  /** The event of a row holds among these rows. */
  predicate EventHolds(k: Kernel, rows: seq<Row>, r: Row) {
    HashHolds(k, rows, r) && ParentsPresent(rows, r)
  }

  predicate TimesRise(rows: seq<Row>) {
    forall i, j :: 0 <= i < j < |rows| ==> rows[i].t <= rows[j].t
  }

  predicate ChainOk(k: Kernel, rows: seq<Row>) {
    (forall r :: r in rows ==> EventHolds(k, rows, r)) && TimesRise(rows)
  }

  predicate HashesHold(k: Kernel, rows: seq<Row>, n: nat)
    requires n <= |rows|
  {
    forall r :: r in rows[..n] ==> HashHolds(k, rows, r)
  }

  predicate AllParentsPresent(rows: seq<Row>, n: nat)
    requires n <= |rows|
  {
    forall r :: r in rows[..n] ==> ParentsPresent(rows, r)
  }

  /** The latest time among the first `n` rows. */
  function Peak(rows: seq<Row>, n: nat): Option<int>
    requires n <= |rows|
  {
    if n == 0 then None
    else
      var before := Peak(rows, n - 1);
      Some(if before.Some? then Max(before.value, rows[n - 1].t) else rows[n - 1].t)
  }

  lemma {:induction false} PeakBounds(rows: seq<Row>, n: nat) returns (at: nat)
    requires 0 < n <= |rows|
    ensures at < n && Peak(rows, n) == Some(rows[at].t)
    ensures forall j :: 0 <= j < n ==> rows[j].t <= rows[at].t
  {
    if n == 1 {
      at := 0;
    } else {
      at := PeakBounds(rows, n - 1);
      if rows[at].t < rows[n - 1].t {
        at := n - 1;
      }
    }
  }

  /** What one more row means for each of the three conditions. */
  lemma OneMoreRow(k: Kernel, rows: seq<Row>, i: nat)
    requires i < |rows|
    ensures HashesHold(k, rows, i + 1) <==> HashesHold(k, rows, i) && HashHolds(k, rows, rows[i])
    ensures AllParentsPresent(rows, i + 1) <==> AllParentsPresent(rows, i) && ParentsPresent(rows, rows[i])
    ensures TimesRise(rows[..i + 1])
            <==> TimesRise(rows[..i]) && (Peak(rows, i).Some? ==> Peak(rows, i).value <= rows[i].t)
  {
    hide HashHolds, ParentsPresent;
    var more := rows[..i + 1];
    assert more == rows[..i] + [rows[i]];
    assert forall j :: 0 <= j < i ==> rows[..i][j] == rows[j] == more[j];
    if i > 0 {
      var at := PeakBounds(rows, i);
      assert more[at] == rows[at] && more[i] == rows[i];
    }
  }

  /** The loop of the check, with its three lists as counts. */
  method VerifyEventChain(k: Kernel, rows: seq<Row>) returns (ok: bool)
    ensures ok == ChainOk(k, rows)
  {
    hide *;
    var brokenHashes, missingParents, timeViolations: nat := 0, 0, 0;
    var previous: Option<int> := None;
    NoRows(k, rows);
    for i := 0 to |rows|
      invariant brokenHashes == 0 <==> HashesHold(k, rows, i)
      invariant missingParents == 0 <==> AllParentsPresent(rows, i)
      invariant timeViolations == 0 <==> TimesRise(rows[..i])
      invariant previous == Peak(rows, i)
    {
      var row := rows[i];
      OneMoreRow(k, rows, i);
      var broken, missing := CheckEvent(k, rows, row);
      if broken {
        brokenHashes := brokenHashes + 1;
      }
      missingParents := missingParents + missing;
      if previous.Some? && row.t < previous.value {
        timeViolations := timeViolations + 1;
      }
      PeakStep(rows, i);
      previous := Some(if previous.Some? then Max(previous.value, row.t) else row.t);
    }
    AllRows(k, rows);
    ok := brokenHashes == 0 && missingParents == 0 && timeViolations == 0;
  }

  lemma NoRows(k: Kernel, rows: seq<Row>)
    ensures HashesHold(k, rows, 0) && AllParentsPresent(rows, 0) && TimesRise(rows[..0]) && Peak(rows, 0) == None
  {
  }

  lemma PeakStep(rows: seq<Row>, i: nat)
    requires i < |rows|
    ensures Peak(rows, i + 1)
         == Some(if Peak(rows, i).Some? then Max(Peak(rows, i).value, rows[i].t) else rows[i].t)
  {
  }

  lemma AllRows(k: Kernel, rows: seq<Row>)
    ensures ChainOk(k, rows)
            <==> HashesHold(k, rows, |rows|) && AllParentsPresent(rows, |rows|) && TimesRise(rows[..|rows|])
  {
    hide HashHolds, ParentsPresent, TimesRise;
    assert rows[..|rows|] == rows;
  }

  /** One event of the loop: its recomputed hash, and its parents that are not among the rows. */
  method CheckEvent(k: Kernel, rows: seq<Row>, row: Row) returns (broken: bool, missing: nat)
    ensures broken <==> !HashHolds(k, rows, row)
    ensures missing == 0 <==> ParentsPresent(rows, row)
  {
    var expected := k.digest(row.id, row.t, row.parents, row.body, ParentHashes(rows, row.parents));
    broken := row.hash != expected;
    missing := CountMissing(rows, row.parents);
  }

  method CountMissing(rows: seq<Row>, parents: seq<int>) returns (missing: nat)
    ensures missing == 0 <==> forall p :: p in parents ==> p in Ids(rows)
  {
    missing := 0;
    for i := 0 to |parents|
      invariant missing == 0 <==> forall p :: p in parents[..i] ==> p in Ids(rows)
    {
      assert parents[..i + 1] == parents[..i] + [parents[i]];
      if ById(rows, parents[i]).None? {
        missing := missing + 1;
      }
    }
    assert parents[..|parents|] == parents;
  }

  // ---------------------------------------------------------------------------------------------------------
  // Cutting a table: the check of a suffix alone misses the parents in front of it.

  /** Some row from `n` on names a parent before it. */
  predicate ReachesBack(rows: seq<Row>, n: nat)
    requires n <= |rows|
  {
    exists r, p :: r in rows[n..] && p in r.parents && p in Ids(rows[..n])
  }

  lemma {:induction false} ByIdAppend(a: seq<Row>, b: seq<Row>, id: int)
    ensures ById(a + b, id) == if ById(b, id).Some? then ById(b, id) else ById(a, id)
  {
    hide Ids;
    if b == [] {
      assert a + b == a;
    } else {
      var n := |b| - 1;
      assert (a + b)[..|a + b| - 1] == a + b[..n];
      ByIdAppend(a, b[..n], id);
    }
  }

  lemma IdsAppend(a: seq<Row>, b: seq<Row>)
    ensures Ids(a + b) == Ids(a) + Ids(b)
  {
    assert forall r :: r in a + b <==> r in a || r in b;
  }

  /** In a sorted table no id stands on both sides of a cut. */
  lemma IdsApart(rows: seq<Row>, n: nat)
    requires Sorted(rows) && n <= |rows|
    ensures Ids(rows[..n]) !! Ids(rows[n..])
  {
    var a, b := rows[..n], rows[n..];
    assert forall j :: 0 <= j < |b| ==> b[j] == rows[n + j];
    forall i, j | 0 <= i < |a| && 0 <= j < |b|
      ensures a[i].id != b[j].id
    {
      assert a[i] == rows[i] && b[j] == rows[n + j];
    }
  }

  lemma SortedRises(rows: seq<Row>)
    requires Sorted(rows)
    ensures TimesRise(rows)
  {
    assert forall i, j :: 0 <= i < j < |rows| ==> Before(rows[i].t, rows[i].id, rows[j]);
  }

  lemma SortedSlice(rows: seq<Row>, n: nat)
    requires Sorted(rows) && n <= |rows|
    ensures Sorted(rows[..n]) && Sorted(rows[n..])
  {
    var a, b := rows[..n], rows[n..];
    assert forall i :: 0 <= i < |a| ==> a[i] == rows[i];
    assert forall i :: 0 <= i < |b| ==> b[i] == rows[n + i];
  }

  /** Rows that agree on an event's parents agree on the event. */
  lemma SameParentsSameEvent(k: Kernel, a: seq<Row>, b: seq<Row>, r: Row)
    requires forall p :: p in r.parents ==> ById(a, p) == ById(b, p)
    ensures EventHolds(k, a, r) <==> EventHolds(k, b, r)
  {
    assert forall p :: p in r.parents ==> (p in Ids(a) <==> ById(a, p).Some?);
    assert forall p :: p in r.parents ==> (p in Ids(b) <==> ById(b, p).Some?);
    assert ParentHashes(a, r.parents) == ParentHashes(b, r.parents);
  }

  /**
   A row behind the cut holds in the table, without naming a parent before it, exactly when it holds in the suffix.
   */
  lemma EventBehindCut(k: Kernel, rows: seq<Row>, n: nat, r: Row)
    requires Sorted(rows) && n <= |rows| && r in rows[n..]
    ensures
      EventHolds(k, rows[n..], r)
      <==> EventHolds(k, rows, r) && forall p :: p in r.parents ==> p !in Ids(rows[..n])
  {
    var a, b := rows[..n], rows[n..];
    assert rows == a + b;
    IdsApart(rows, n);
    IdsAppend(a, b);
    hide Sorted, HashHolds, Ids;
    if forall p :: p in r.parents ==> p !in Ids(a) {
      forall p | p in r.parents
        ensures ById(rows, p) == ById(b, p)
      {
        ByIdAppend(a, b, p);
        assert ById(a, p).None?;
      }
      SameParentsSameEvent(k, rows, b, r);
    }
  }

  /** A row before the cut that holds on its own side holds in the whole table. */
  lemma EventBeforeCut(k: Kernel, rows: seq<Row>, n: nat, r: Row)
    requires Sorted(rows) && n <= |rows| && EventHolds(k, rows[..n], r)
    ensures EventHolds(k, rows, r)
  {
    var a, b := rows[..n], rows[n..];
    assert rows == a + b;
    IdsApart(rows, n);
    hide Sorted, HashHolds, Ids;
    forall p | p in r.parents
      ensures ById(rows, p) == ById(a, p)
    {
      ByIdAppend(a, b, p);
    }
    SameParentsSameEvent(k, rows, a, r);
  }

  predicate FrontHolds(k: Kernel, rows: seq<Row>, n: nat)
    requires n <= |rows|
  {
    forall r :: r in rows[..n] ==> EventHolds(k, rows, r)
  }

  /** The suffix passes on its own exactly as far as the table's rows hold and none of them reaches back. */
  lemma ChainCut(k: Kernel, rows: seq<Row>, n: nat)
    requires Sorted(rows) && n <= |rows|
    ensures ChainOk(k, rows) && !ReachesBack(rows, n) <==> FrontHolds(k, rows, n) && ChainOk(k, rows[n..])
  {
    var a, b := rows[..n], rows[n..];
    assert rows == a + b;
    SortedSlice(rows, n);
    SortedRises(rows);
    SortedRises(b);
    forall r | r in b
      ensures EventHolds(k, b, r) <==> EventHolds(k, rows, r) && forall p :: p in r.parents ==> p !in Ids(a)
    {
      EventBehindCut(k, rows, n, r);
    }
    hide EventHolds, Sorted, TimesRise, Ids;
    assert forall r :: r in rows <==> r in a || r in b;
  }

  // ---------------------------------------------------------------------------------------------------------
  // The hash chain.

  /** The stored hashes continue the chain from `previous`. */
  predicate LinksFrom(k: Kernel, previous: string, rows: seq<Row>)
    decreases |rows|
  {
    rows == [] || (rows[0].ledgerHash == k.link(previous, rows[0].hash) && LinksFrom(k, rows[0].ledgerHash, rows[1..]))
  }

  function Head(previous: string, rows: seq<Row>): string {
    if rows == [] then previous else rows[|rows| - 1].ledgerHash
  }

  lemma {:induction false} LinksAppend(k: Kernel, previous: string, a: seq<Row>, b: seq<Row>)
    ensures LinksFrom(k, previous, a + b) <==> LinksFrom(k, previous, a) && LinksFrom(k, Head(previous, a), b)
    decreases |a|
  {
    if a == [] {
      assert a + b == b;
    } else {
      assert (a + b)[1..] == a[1..] + b;
      LinksAppend(k, a[0].ledgerHash, a[1..], b);
    }
  }

  lemma LinksOne(k: Kernel, previous: string, r: Row)
    ensures LinksFrom(k, previous, [r]) <==> r.ledgerHash == k.link(previous, r.hash)
  {
    assert [r][1..] == [];
  }

  /** Two complete chains with the same head have the same row hashes all the way back. */
  lemma {:induction false} SameHeadSameHistory(k: Kernel, a: seq<Row>, b: seq<Row>)
    requires LinkInjective(k)
    requires LinksFrom(k, "", a) && LinksFrom(k, "", b) && Head("", a) == Head("", b)
    ensures |a| == |b| && forall i :: 0 <= i < |a| ==> a[i].hash == b[i].hash && a[i].ledgerHash == b[i].ledgerHash
  {
    if a != [] && b != [] {
      var (n, m) := (|a| - 1, |b| - 1);
      assert a == a[..n] + [a[n]] && b == b[..m] + [b[m]];
      LinksAppend(k, "", a[..n], [a[n]]);
      LinksAppend(k, "", b[..m], [b[m]]);
      LinksOne(k, Head("", a[..n]), a[n]);
      LinksOne(k, Head("", b[..m]), b[m]);
      SameHeadSameHistory(k, a[..n], b[..m]);
    } else {
      NonEmptyHead(k, a);
      NonEmptyHead(k, b);
    }
  }

  ghost predicate DigestInjective(k: Kernel) {
    forall i, t, ps, b, hs, i', t', ps', b', hs' {:trigger k.digest(i, t, ps, b, hs), k.digest(i', t', ps', b', hs')} ::
      k.digest(i, t, ps, b, hs) == k.digest(i', t', ps', b', hs') ==> i == i' && t == t' && ps == ps' && b == b'
  }

  /** When the digest binds an event, two ledgers that pass a full scan with the same head are the same, row by row. */
  lemma SameHeadSameRows(k: Kernel, a: seq<Row>, b: seq<Row>)
    requires LinkInjective(k) && DigestInjective(k)
    requires FullScan(k, a).passed && FullScan(k, b).passed && Head("", a) == Head("", b)
    ensures a == b
  {
    SameHeadSameHistory(k, a, b);
    forall i | 0 <= i < |a|
      ensures a[i] == b[i]
    {
      assert a[i] in a && b[i] in b;
      assert HashHolds(k, a, a[i]) && HashHolds(k, b, b[i]);
    }
  }

  lemma NonEmptyHead(k: Kernel, a: seq<Row>)
    requires LinkInjective(k) && LinksFrom(k, "", a)
    ensures Head("", a) == "" <==> a == []
  {
    if a != [] {
      var n := |a| - 1;
      assert a == a[..n] + [a[n]];
      LinksAppend(k, "", a[..n], [a[n]]);
      LinksOne(k, Head("", a[..n]), a[n]);
    }
  }

  // ---------------------------------------------------------------------------------------------------------
  // Observations.

  datatype Reason =
    | Verified | VerifiedIncremental | VerifiedWindow | LedgerEmpty | EventChainInvalid | LedgerChainInvalid
    | AnchorMutatedOrMissing | ProbeFailed

  datatype Observation = Observation(passed: bool, events: nat, latest: Option<string>, reason: Reason)

  datatype Checkpoint = Checkpoint(
    anchorId: int, anchorT: int, anchorHash: string, anchorLedgerHash: string, total: nat)

  function Latest(rows: seq<Row>): Option<string> {
    if rows == [] then None else Some(rows[|rows| - 1].ledgerHash)
  }

  /** `verifyPostgresEventLedgerRows`. */
  function FullScan(k: Kernel, rows: seq<Row>): Observation {
    Observation(
      rows != [] && ChainOk(k, rows) && LinksFrom(k, "", rows),
      |rows|,
      Latest(rows),
      if rows == [] then LedgerEmpty
      else if !ChainOk(k, rows) then EventChainInvalid
      else if !LinksFrom(k, "", rows) then LedgerChainInvalid
      else Verified)
  }

  function CheckpointAt(r: Row, total: nat): Checkpoint {
    Checkpoint(r.id, r.t, r.hash, r.ledgerHash, total)
  }

  function FindRow(rows: seq<Row>, id: int): (r: Option<Row>)
    ensures r.Some? ==> r.value in rows && r.value.id == id
    ensures r.None? ==> forall row :: row in rows ==> row.id != id
  {
    if rows == [] then None else if rows[0].id == id then Some(rows[0]) else FindRow(rows[1..], id)
  }

  /** The rows behind a position, in order. */
  function RowsAfter(rows: seq<Row>, t: int, id: int): seq<Row> {
    if rows == [] then []
    else (if Before(t, id, rows[0]) then [rows[0]] else []) + RowsAfter(rows[1..], t, id)
  }

  function Incremental(k: Kernel, c: Checkpoint, rows: seq<Row>): (Observation, Option<Checkpoint>) {
    var anchor := FindRow(rows, c.anchorId);
    if anchor.None? || anchor.value.hash != c.anchorHash || anchor.value.ledgerHash != c.anchorLedgerHash then
      (Observation(false, 0, None, AnchorMutatedOrMissing), None)
    else
      var suffix := RowsAfter(rows, anchor.value.t, c.anchorId);
      var passed := ChainOk(k, suffix) && LinksFrom(k, c.anchorLedgerHash, suffix);
      var total := c.total + |suffix|;
      (Observation(
         passed,
         total,
         Some(if suffix == [] then anchor.value.ledgerHash else suffix[|suffix| - 1].ledgerHash),
         if passed then VerifiedIncremental
         else if !ChainOk(k, suffix) then EventChainInvalid
         else LedgerChainInvalid),
       if !passed then None
       else if suffix == [] then Some(c)
       else Some(CheckpointAt(suffix[|suffix| - 1], total)))
  }

  function FullStart(k: Kernel, rows: seq<Row>): (Observation, Option<Checkpoint>) {
    var o := FullScan(k, rows);
    (o, if o.passed then Some(CheckpointAt(rows[|rows| - 1], |rows|)) else None)
  }

  /** The bounded first scan: only the newest rows, and no check of the first one's own link. */
  function WindowStart(k: Kernel, window: nat, rows: seq<Row>): (Observation, Option<Checkpoint>)
    requires window > 0
  {
    var tail := rows[WindowFrom(window, rows)..];
    if tail == [] then (Observation(false, 0, None, LedgerEmpty), None)
    else
      var passed := ChainOk(k, tail) && LinksFrom(k, tail[0].ledgerHash, tail[1..]);
      (Observation(
         passed,
         |rows|,
         Latest(tail),
         if passed then VerifiedWindow else if !ChainOk(k, tail) then EventChainInvalid else LedgerChainInvalid),
       if passed then Some(CheckpointAt(tail[|tail| - 1], |rows|)) else None)
  }

  /** `None` for a full scan on start, or the number of rows of the bounded one. */
  type Start = s: Option<nat> | s.Some? ==> s.value > 0 witness None

  /** One call of the probe. `None` for the table is a storage error. */
  function Observe(
    k: Kernel, start: Start, checkpoint: Option<Checkpoint>, table: Option<seq<Row>>): (Observation, Option<Checkpoint>)
  {
    if table.None? then (Observation(false, 0, None, ProbeFailed), None)
    else if checkpoint.Some? then Incremental(k, checkpoint.value, table.value)
    else if start.Some? then WindowStart(k, start.value, table.value)
    else FullStart(k, table.value)
  }

  /** A failed observation leaves no checkpoint, in every mode. */
  lemma FailureClearsCheckpoint(k: Kernel, start: Start, checkpoint: Option<Checkpoint>, table: Option<seq<Row>>)
    ensures
      var (o, c) := Observe(k, start, checkpoint, table);
      !o.passed <==> c.None?
  {
  }

  predicate RowHashed(rows: seq<Row>, id: int, hash: string) {
    exists q :: q in rows && q.id == id && q.hash == hash
  }

  /** The hashes of an event's parents, each of some row of the table with that id. */
  predicate ParentsHashed(rows: seq<Row>, parents: seq<int>, hashes: seq<string>) {
    |hashes| == |parents| && forall j :: 0 <= j < |parents| ==> RowHashed(rows, parents[j], hashes[j])
  }

  /** The event of a row is hashed with its parents, every one of them in the table. */
  ghost predicate Hashed(k: Kernel, rows: seq<Row>, r: Row) {
    exists hashes :: ParentsHashed(rows, r.parents, hashes) && r.hash == k.digest(r.id, r.t, r.parents, r.body, hashes)
  }

  predicate LinkedAt(k: Kernel, previous: string, rows: seq<Row>, i: nat)
    requires i < |rows|
  {
    rows[i].ledgerHash == k.link(if i == 0 then previous else rows[i - 1].ledgerHash, rows[i].hash)
  }

  /** What a full scan says of a table, row by row: its parents are stored and hashed with it, and it is linked. */
  lemma ScanMeans(k: Kernel, rows: seq<Row>)
    requires Sorted(rows)
    ensures FullScan(k, rows).passed
            <==> rows != [] && forall i :: 0 <= i < |rows| ==> Hashed(k, rows, rows[i]) && LinkedAt(k, "", rows, i)
  {
    SortedRises(rows);
    LinksRowByRow(k, "", rows);
    forall r | r in rows
      ensures EventHolds(k, rows, r) <==> Hashed(k, rows, r)
    {
      EventMeans(k, rows, r);
    }
    assert forall r :: r in rows <==> exists i :: 0 <= i < |rows| && rows[i] == r;
    assert ChainOk(k, rows) <==> forall i :: 0 <= i < |rows| ==> Hashed(k, rows, rows[i]);
    hide EventHolds, Hashed, LinksFrom, LinkedAt, Sorted, TimesRise;
  }

  lemma EventMeans(k: Kernel, rows: seq<Row>, r: Row)
    requires Sorted(rows)
    ensures EventHolds(k, rows, r) <==> Hashed(k, rows, r)
  {
    if EventHolds(k, rows, r) {
      var hashes := ParentHashes(rows, r.parents);
      forall j | 0 <= j < |r.parents|
        ensures RowHashed(rows, r.parents[j], hashes[j])
      {
        assert r.parents[j] in r.parents;
        assert ById(rows, r.parents[j]).value in rows;
      }
      assert ParentsHashed(rows, r.parents, hashes);
    }
    if Hashed(k, rows, r) {
      var hashes :|
        ParentsHashed(rows, r.parents, hashes) && r.hash == k.digest(r.id, r.t, r.parents, r.body, hashes);
      forall j | 0 <= j < |r.parents|
        ensures r.parents[j] in Ids(rows) && hashes[j] == ParentHash(rows, r.parents[j])
      {
        assert RowHashed(rows, r.parents[j], hashes[j]);
        HashedById(rows, r.parents[j], hashes[j]);
      }
      assert hashes == ParentHashes(rows, r.parents);
    }
  }

  lemma HashedById(rows: seq<Row>, id: int, hash: string)
    requires Sorted(rows) && RowHashed(rows, id, hash)
    ensures id in Ids(rows) && hash == ParentHash(rows, id)
  {
    var q :| q in rows && q.id == id && q.hash == hash;
    var i :| 0 <= i < |rows| && rows[i] == q;
    assert q.id in Ids(rows);
    var j :| 0 <= j < |rows| && rows[j] == ById(rows, id).value;
  }

  lemma {:induction false} LinksRowByRow(k: Kernel, previous: string, rows: seq<Row>)
    ensures LinksFrom(k, previous, rows) <==> forall i :: 0 <= i < |rows| ==> LinkedAt(k, previous, rows, i)
    decreases |rows|
  {
    if rows != [] {
      var rest := rows[1..];
      LinksRowByRow(k, rows[0].ledgerHash, rest);
      var moved := forall i :: 0 <= i < |rest| ==> LinkedAt(k, rows[0].ledgerHash, rest, i);
      if moved && LinkedAt(k, previous, rows, 0) {
        forall i | 0 <= i < |rows|
          ensures LinkedAt(k, previous, rows, i)
        {
          if i > 0 {
            assert LinkedAt(k, rows[0].ledgerHash, rest, i - 1);
          }
        }
      }
      if forall i :: 0 <= i < |rows| ==> LinkedAt(k, previous, rows, i) {
        assert LinkedAt(k, previous, rows, 0);
        forall i | 0 <= i < |rest|
          ensures LinkedAt(k, rows[0].ledgerHash, rest, i)
        {
          assert LinkedAt(k, previous, rows, i + 1);
        }
      }
    }
  }

  /** Some row still is the one the checkpoint was set at. */
  predicate HoldsAnchor(c: Checkpoint, rows: seq<Row>) {
    exists r :: r in rows && r.id == c.anchorId && r.hash == c.anchorHash && r.ledgerHash == c.anchorLedgerHash
  }

  /**
   For every table and checkpoint, earned or not: the observation fails at the anchor, and leaves no checkpoint, exactly
   when no row has the anchor's id and both its hashes; so a passing one means that such a row stands.
   */
  lemma AnchorFailureIff(k: Kernel, start: Start, c: Checkpoint, rows: seq<Row>)
    requires Sorted(rows)
    ensures
      var (o, c') := Observe(k, start, Some(c), Some(rows));
      && (o.reason == AnchorMutatedOrMissing <==> !HoldsAnchor(c, rows))
      && (!HoldsAnchor(c, rows) ==> o == Observation(false, 0, None, AnchorMutatedOrMissing) && c' == None)
      && (o.passed ==> HoldsAnchor(c, rows))
  {
    if HoldsAnchor(c, rows) {
      var r :| r in rows && r.id == c.anchorId && r.hash == c.anchorHash && r.ledgerHash == c.anchorLedgerHash;
      var i :| 0 <= i < |rows| && rows[i] == r;
      FindRowAt(rows, i);
    }
  }

  /** An anchor whose stored hashes were overwritten in place is reported, whatever follows it. */
  lemma OverwrittenAnchorAlarms(k: Kernel, start: Start, rows: seq<Row>, m: nat, changed: Row)
    requires Sorted(rows) && 1 <= m <= |rows| && changed.id == rows[m - 1].id && changed.t == rows[m - 1].t
    requires changed.hash != rows[m - 1].hash || changed.ledgerHash != rows[m - 1].ledgerHash
    ensures
      var c := CheckpointAt(rows[m - 1], m);
      Observe(k, start, Some(c), Some(rows[m - 1 := changed]))
      == (Observation(false, 0, None, AnchorMutatedOrMissing), None)
  {
    var c, after := CheckpointAt(rows[m - 1], m), rows[m - 1 := changed];
    assert Sorted(after);
    assert forall i :: 0 <= i < |after| && i != m - 1 ==> after[i].id != c.anchorId;
    AnchorFailureIff(k, start, c, after);
  }

  /** What the reasons of a first call and of a storage error mean. */
  lemma StartReasons(k: Kernel, start: Start, checkpoint: Option<Checkpoint>, table: Option<seq<Row>>)
    ensures
      var (o, c) := Observe(k, start, checkpoint, table);
      && (o.reason == ProbeFailed <==> table.None?)
      && (o.reason == LedgerEmpty <==> table == Some([]) && checkpoint.None?)
      && (o.passed <==> o.reason == Verified || o.reason == VerifiedIncremental || o.reason == VerifiedWindow)
      && (table.Some? && checkpoint.None? && table.value != [] ==>
            var read := if start.Some? then table.value[Max(0, |table.value| - start.value)..] else table.value;
            && (o.reason == EventChainInvalid <==> !ChainOk(k, read))
            && (o.passed ==> c == Some(CheckpointAt(table.value[|table.value| - 1], |table.value|))))
  {
  }

  // ---------------------------------------------------------------------------------------------------------
  // The incremental observation agrees with the full scan.

  /** The checkpoint was earned by a passing verification of the first rows of this table. */
  ghost predicate Earned(k: Kernel, c: Checkpoint, rows: seq<Row>) {
    && 1 <= c.total <= |rows|
    && CheckpointAt(rows[c.total - 1], c.total) == c
    && FullScan(k, rows[..c.total]).passed
  }

  /** What callers act on. */
  predicate Agree(a: Observation, b: Observation) {
    a.passed == b.passed && a.events == b.events && a.latest == b.latest
  }

  lemma {:induction false} FindRowAt(rows: seq<Row>, i: nat)
    requires Sorted(rows) && i < |rows|
    ensures FindRow(rows, rows[i].id) == Some(rows[i])
  {
    var r := FindRow(rows, rows[i].id);
    assert rows[i] in rows;
    var j :| 0 <= j < |rows| && rows[j] == r.value;
    assert !(i < j) && !(j < i);
  }

  /** In a sorted table the rows behind one of them are those with a larger index. */
  lemma {:induction false} RowsAfterAt(rows: seq<Row>, i: nat)
    requires Sorted(rows) && i < |rows|
    ensures RowsAfter(rows, rows[i].t, rows[i].id) == rows[i + 1..]
  {
    if i == 0 {
      AllBehind(rows[1..], rows[0].t, rows[0].id);
      assert !Before(rows[0].t, rows[0].id, rows[0]);
    } else {
      assert Before(rows[0].t, rows[0].id, rows[i]);
      assert !Before(rows[i].t, rows[i].id, rows[0]);
      RowsAfterAt(rows[1..], i - 1);
      assert rows[1..][i..] == rows[i + 1..];
    }
  }

  lemma {:induction false} AllBehind(rows: seq<Row>, t: int, id: int)
    requires forall r :: r in rows ==> Before(t, id, r)
    ensures RowsAfter(rows, t, id) == rows
  {
    if rows != [] {
      assert rows == [rows[0]] + rows[1..];
      AllBehind(rows[1..], t, id);
    }
  }

  /** The rows before a position hold in the table, and its ledger chain holds up to `links` rows. */
  predicate Stands(k: Kernel, rows: seq<Row>, n: nat, links: nat)
    requires n <= |rows| && links <= |rows|
  {
    FrontHolds(k, rows, n) && LinksFrom(k, "", rows[..links])
  }

  /** A full scan in terms of the part before a cut and the check of the suffix behind it. */
  lemma ScanCut(k: Kernel, rows: seq<Row>, n: nat)
    requires Sorted(rows) && 1 <= n <= |rows|
    ensures
      FullScan(k, rows).passed && !ReachesBack(rows, n)
      <==> Stands(k, rows, n, n) && ChainOk(k, rows[n..]) && LinksFrom(k, rows[n - 1].ledgerHash, rows[n..])
  {
    ChainCut(k, rows, n);
    assert rows == rows[..n] + rows[n..];
    hide ChainOk, ReachesBack, FrontHolds, Sorted;
    LinksAppend(k, "", rows[..n], rows[n..]);
    assert rows[..n][n - 1] == rows[n - 1];
  }

  /** A prefix that passes a full scan stands in the table. */
  lemma PassedStands(k: Kernel, rows: seq<Row>, n: nat)
    requires Sorted(rows) && 1 <= n <= |rows| && FullScan(k, rows[..n]).passed
    ensures Stands(k, rows, n, n)
  {
    forall r | r in rows[..n]
      ensures EventHolds(k, rows, r)
    {
      EventBeforeCut(k, rows, n, r);
    }
  }

  /** The anchor row still stands at position `m` of a table that may otherwise differ before it. */
  predicate AnchorStands(c: Checkpoint, rows: seq<Row>, m: nat) {
    1 <= m <= |rows| && rows[m - 1].id == c.anchorId && rows[m - 1].hash == c.anchorHash
    && rows[m - 1].ledgerHash == c.anchorLedgerHash
  }

  /** The incremental observation of a table that holds the anchor at `m`. */
  lemma IncrementalAt(k: Kernel, c: Checkpoint, rows: seq<Row>, m: nat)
    requires Sorted(rows) && AnchorStands(c, rows, m)
    ensures
      var (o, c') := Incremental(k, c, rows);
      && (o.passed <==> ChainOk(k, rows[m..]) && LinksFrom(k, rows[m - 1].ledgerHash, rows[m..]))
      && o.events == c.total + (|rows| - m) && o.latest == Latest(rows)
      && (o.reason == EventChainInvalid <==> !ChainOk(k, rows[m..]))
      && (o.reason == LedgerChainInvalid
          <==> ChainOk(k, rows[m..]) && !LinksFrom(k, rows[m - 1].ledgerHash, rows[m..]))
      && c' == if !o.passed then None
               else if m == |rows| then Some(c)
               else Some(CheckpointAt(rows[|rows| - 1], c.total + (|rows| - m)))
  {
    FindRowAt(rows, m - 1);
    RowsAfterAt(rows, m - 1);
    hide LinksFrom, ChainOk, FindRow, RowsAfter, Sorted;
    LastOfSuffix(rows, m);
  }

  /**
   With the anchor in place the two verdicts differ exactly when the probe passes and the rows up to the anchor do not
   stand, or the full scan passes and a row behind the anchor names a parent at or before it. The counts differ
   exactly when rows were added or lost before the anchor.
   */
  lemma TamperSeenIff(k: Kernel, c: Checkpoint, rows: seq<Row>, m: nat)
    requires Sorted(rows) && AnchorStands(c, rows, m)
    ensures
      var o, full := Incremental(k, c, rows).0, FullScan(k, rows);
      && (full.passed && !ReachesBack(rows, m) <==> o.passed && Stands(k, rows, m, m))
      && (o.passed != full.passed <==> (o.passed && !Stands(k, rows, m, m)) || (full.passed && ReachesBack(rows, m)))
      && (o.events == |rows| <==> m == c.total)
      && o.latest == Latest(rows)
  {
    IncrementalAt(k, c, rows, m);
    ScanCut(k, rows, m);
    hide LinksFrom, ChainOk, Sorted, ReachesBack, Stands, Incremental, AnchorStands;
  }

  /**
   From an earned checkpoint the incremental observation passes exactly when a full scan would and no row behind the
   anchor names a parent at or before it. So the two agree exactly when the full scan fails or no row does.
   */
  lemma ObserveAgreesIff(k: Kernel, c: Checkpoint, rows: seq<Row>)
    requires Sorted(rows) && Earned(k, c, rows)
    ensures
      var (o, c') := Incremental(k, c, rows);
      var full := FullScan(k, rows);
      && (o.passed <==> full.passed && !ReachesBack(rows, c.total))
      && (Agree(o, full) <==> !full.passed || !ReachesBack(rows, c.total))
      && o.events == full.events && o.latest == full.latest
      && (c'.Some? ==> Earned(k, c'.value, rows))
  {
    hide *;
    EarnedStands(k, c, rows);
    TamperSeenIff(k, c, rows, c.total);
    NewCheckpointEarned(k, c, rows);
    AgreeWhen(Incremental(k, c, rows).0, FullScan(k, rows));
    FullCounts(k, rows);
  }

  lemma AgreeWhen(a: Observation, b: Observation)
    ensures Agree(a, b) <==> a.passed == b.passed && a.events == b.events && a.latest == b.latest
  {
  }

  lemma FullCounts(k: Kernel, rows: seq<Row>)
    ensures FullScan(k, rows).events == |rows| && FullScan(k, rows).latest == Latest(rows)
  {
  }

  lemma EarnedStands(k: Kernel, c: Checkpoint, rows: seq<Row>)
    requires Sorted(rows) && Earned(k, c, rows)
    ensures AnchorStands(c, rows, c.total) && Stands(k, rows, c.total, c.total)
  {
    PassedStands(k, rows, c.total);
  }

  lemma PassedEarns(k: Kernel, rows: seq<Row>)
    requires FullScan(k, rows).passed
    ensures |rows| > 0 && Earned(k, CheckpointAt(rows[|rows| - 1], |rows|), rows)
  {
    hide ChainOk, LinksFrom;
    assert rows[..|rows|] == rows;
  }

  /** A checkpoint left behind was earned by the whole table, or is the old one. */
  lemma NewCheckpointEarned(k: Kernel, c: Checkpoint, rows: seq<Row>)
    requires Sorted(rows) && Earned(k, c, rows)
    ensures var c' := Incremental(k, c, rows).1; c'.Some? ==> Earned(k, c'.value, rows)
  {
    hide *;
    EarnedStands(k, c, rows);
    PassingProbe(k, c, rows);
    IncrementalAt(k, c, rows, c.total);
    if FullScan(k, rows).passed {
      PassedEarns(k, rows);
    }
  }

  lemma PassingProbe(k: Kernel, c: Checkpoint, rows: seq<Row>)
    requires Sorted(rows) && Earned(k, c, rows)
    ensures Incremental(k, c, rows).0.passed ==> FullScan(k, rows).passed
  {
    EarnedStands(k, c, rows);
    TamperSeenIff(k, c, rows, c.total);
    hide *;
  }

  lemma LastOfSuffix(rows: seq<Row>, n: nat)
    requires n <= |rows|
    ensures |rows[n..]| == |rows| - n
    ensures rows[n..] != [] ==> rows[n..][|rows[n..]| - 1] == rows[|rows| - 1]
  {
  }

  /** Where the bounded window starts. */
  function WindowFrom(window: nat, rows: seq<Row>): nat {
    if |rows| > window then |rows| - window else 0
  }

  /**
   The bounded first scan against a full scan of the same table: the scan of the window passes and the older rows stand
   exactly when the full scan passes and no row in the window names an older parent. So on a table that passes a full
   scan the window raises an alarm exactly when one does, and otherwise leaves the same observation and checkpoint.
   */
  lemma WindowAlarmIff(k: Kernel, window: nat, rows: seq<Row>)
    requires Sorted(rows) && window > 0 && rows != []
    ensures
      var (o, c) := WindowStart(k, window, rows);
      var full, from := FullScan(k, rows), Max(0, |rows| - window);
      && (full.passed && !ReachesBack(rows, from) <==> o.passed && Stands(k, rows, from, from + 1))
      && o.events == full.events && o.latest == full.latest
      && (full.passed ==> (Agree(o, full) <==> !ReachesBack(rows, from)))
      && (full.passed && !ReachesBack(rows, from) ==> c == FullStart(k, rows).1)
  {
    var from := WindowFrom(window, rows);
    var tail := rows[from..];
    ChainCut(k, rows, from);
    assert tail[|tail| - 1] == rows[|rows| - 1] && tail[0] == rows[from];
    assert rows == rows[..from + 1] + rows[from + 1..] && tail[1..] == rows[from + 1..];
    hide ChainOk, ReachesBack, FrontHolds, Sorted, LinksFrom;
    LinksAppend(k, "", rows[..from + 1], rows[from + 1..]);
    assert rows[..from + 1][from] == rows[from];
  }

  /** The checkpoint a series of calls leaves behind. */
  function CheckpointAfter(
    k: Kernel, start: Start, checkpoint: Option<Checkpoint>, tables: seq<seq<Row>>): Option<Checkpoint>
  {
    if tables == [] then checkpoint
    else
      var before := CheckpointAfter(k, start, checkpoint, tables[..|tables| - 1]);
      Observe(k, start, before, Some(tables[|tables| - 1])).1
  }

  /** The rows that a bounded first scan leaves out stand, and the first one it reads continues their chain. */
  predicate OldRowsStand(k: Kernel, start: Start, rows: seq<Row>) {
    start.Some? && rows != [] ==>
      var from := WindowFrom(start.value, rows);
      from < |rows| && Stands(k, rows, from, from + 1)
  }

  /** In a ledger that passes a full scan they do. */
  lemma PassedOldRowsStand(k: Kernel, start: Start, rows: seq<Row>)
    requires FullScan(k, rows).passed
    ensures OldRowsStand(k, start, rows)
  {
    if start.Some? {
      var from := WindowFrom(start.value, rows);
      assert rows == rows[..from + 1] + rows[from + 1..];
      LinksAppend(k, "", rows[..from + 1], rows[from + 1..]);
      assert forall r :: r in rows[..from] ==> r in rows;
    }
  }

  /**
   Between calls the table may change in any way behind the checkpoint: every table is sorted and still begins with
   the rows the checkpoint covers. Where there is no checkpoint, the rows that a bounded scan leaves out stand.
   */
  ghost predicate Evolves(k: Kernel, start: Start, checkpoint: Option<Checkpoint>, tables: seq<seq<Row>>)
  {
    forall i :: 0 <= i < |tables| ==> Sorted(tables[i]) && StillCovered(k, start, checkpoint, tables, i)
  }

  ghost predicate StillCovered(k: Kernel, start: Start, checkpoint: Option<Checkpoint>, tables: seq<seq<Row>>, i: nat)
    requires i < |tables|
  {
    var c := CheckpointAfter(k, start, checkpoint, tables[..i]);
    if c.None? then OldRowsStand(k, start, tables[i])
    else if i == 0 then Earned(k, c.value, tables[0])
    else
      && |tables[i]| >= c.value.total && |tables[i - 1]| >= c.value.total
      && tables[i][..c.value.total] == tables[i - 1][..c.value.total]
  }

  lemma EarnedCarries(k: Kernel, c: Checkpoint, a: seq<Row>, b: seq<Row>)
    requires Earned(k, c, a) && |b| >= c.total && b[..c.total] == a[..c.total]
    ensures Earned(k, c, b)
  {
    assert a[c.total - 1] == a[..c.total][c.total - 1] == b[c.total - 1];
  }

  lemma FullStartEarns(k: Kernel, rows: seq<Row>)
    ensures FullStart(k, rows).1.Some? ==> Earned(k, FullStart(k, rows).1.value, rows)
  {
    if FullScan(k, rows).passed {
      PassedEarns(k, rows);
    }
  }

  /** How many rows a call leaves out of its check. */
  function Skipped(start: Start, c: Option<Checkpoint>, rows: seq<Row>): nat {
    if c.Some? then c.value.total else if start.Some? then WindowFrom(start.value, rows) else 0
  }

  /** What a call relies on: its checkpoint was earned by rows of this table, or what it leaves out stands. */
  ghost predicate Ready(k: Kernel, start: Start, c: Option<Checkpoint>, rows: seq<Row>) {
    if c.Some? then Earned(k, c.value, rows) else OldRowsStand(k, start, rows)
  }

  lemma OneObservation(k: Kernel, start: Start, c: Option<Checkpoint>, rows: seq<Row>)
    requires Sorted(rows) && Ready(k, start, c, rows)
    ensures
      var (o, c') := Observe(k, start, c, Some(rows));
      var full, skipped := FullScan(k, rows), Skipped(start, c, rows);
      && skipped <= |rows|
      && (o.passed <==> full.passed && !ReachesBack(rows, skipped))
      && o.events == full.events && o.latest == full.latest
      && (c'.Some? ==> Earned(k, c'.value, rows))
  {
    if c.Some? {
      ObserveAgreesIff(k, c.value, rows);
    } else if start.None? {
      FullStartEarns(k, rows);
      assert Ids(rows[..0]) == {};
    } else if rows != [] {
      hide *;
      WindowObservation(k, start.value, rows);
    }
  }

  /** A call that passes leaves the newest row as the anchor, with its time and hashes and the count of all rows. */
  lemma PassingAnchorsNewest(k: Kernel, start: Start, c: Option<Checkpoint>, rows: seq<Row>)
    requires Sorted(rows) && Ready(k, start, c, rows)
    ensures
      var (o, c') := Observe(k, start, c, Some(rows));
      o.passed ==>
        && rows != []
        && var last := rows[|rows| - 1];
           && o.events == |rows| && o.latest == Some(last.ledgerHash)
           && c' == Some(Checkpoint(last.id, last.t, last.hash, last.ledgerHash, |rows|))
  {
    if c.Some? {
      EarnedStands(k, c.value, rows);
      IncrementalAt(k, c.value, rows, c.value.total);
    }
  }

  lemma WindowObservation(k: Kernel, window: nat, rows: seq<Row>)
    requires window > 0 && Sorted(rows) && rows != [] && OldRowsStand(k, Some(window), rows)
    ensures
      var (o, c') := Observe(k, Some(window), None, Some(rows));
      var full, skipped := FullScan(k, rows), Skipped(Some(window), None, rows);
      && skipped <= |rows|
      && (o.passed <==> full.passed && !ReachesBack(rows, skipped))
      && o.events == full.events && o.latest == full.latest
      && (c'.Some? ==> Earned(k, c'.value, rows))
  {
    WindowAlarmIff(k, window, rows);
    FailureClearsCheckpoint(k, Some(window), None, Some(rows));
    FullStartEarns(k, rows);
    hide ReachesBack, Stands, FullScan, WindowStart, Earned, FullStart;
  }

  /** Every call of the series is ready. */
  lemma {:induction false} CheckpointEarned(
    k: Kernel, start: Start, checkpoint: Option<Checkpoint>, tables: seq<seq<Row>>)
    requires Evolves(k, start, checkpoint, tables) && tables != []
    ensures Ready(k, start, CheckpointAfter(k, start, checkpoint, tables[..|tables| - 1]), tables[|tables| - 1])
    decreases |tables|
  {
    hide *;
    var i := |tables| - 1;
    if i == 0 {
      FirstReady(k, start, checkpoint, tables);
    } else {
      EvolvesPrefix(k, start, checkpoint, tables);
      CheckpointEarned(k, start, checkpoint, tables[..i]);
      EvolvesSorted(k, start, checkpoint, tables, i - 1);
      AfterOneMore(k, start, checkpoint, tables[..i]);
      StepCovered(k, start, checkpoint, tables, i);
    }
  }

  lemma FirstReady(k: Kernel, start: Start, checkpoint: Option<Checkpoint>, tables: seq<seq<Row>>)
    requires Evolves(k, start, checkpoint, tables) && tables != []
    ensures Ready(k, start, CheckpointAfter(k, start, checkpoint, tables[..0]), tables[0])
  {
    assert StillCovered(k, start, checkpoint, tables, 0);
  }

  lemma EvolvesSorted(k: Kernel, start: Start, checkpoint: Option<Checkpoint>, tables: seq<seq<Row>>, i: nat)
    requires Evolves(k, start, checkpoint, tables) && i < |tables|
    ensures Sorted(tables[i])
  {
    assert StillCovered(k, start, checkpoint, tables, i);
  }

  lemma AfterOneMore(k: Kernel, start: Start, checkpoint: Option<Checkpoint>, front: seq<seq<Row>>)
    requires front != [] && Sorted(front[|front| - 1])
    requires Ready(k, start, CheckpointAfter(k, start, checkpoint, front[..|front| - 1]), front[|front| - 1])
    ensures
      var c := CheckpointAfter(k, start, checkpoint, front);
      c.Some? ==> Earned(k, c.value, front[|front| - 1])
  {
    OneObservation(k, start, CheckpointAfter(k, start, checkpoint, front[..|front| - 1]), front[|front| - 1]);
  }

  lemma StepCovered(k: Kernel, start: Start, checkpoint: Option<Checkpoint>, tables: seq<seq<Row>>, i: nat)
    requires Evolves(k, start, checkpoint, tables) && 0 < i < |tables|
    requires var c := CheckpointAfter(k, start, checkpoint, tables[..i]); c.Some? ==> Earned(k, c.value, tables[i - 1])
    ensures Ready(k, start, CheckpointAfter(k, start, checkpoint, tables[..i]), tables[i])
  {
    var c := CheckpointAfter(k, start, checkpoint, tables[..i]);
    assert StillCovered(k, start, checkpoint, tables, i);
    if c.Some? {
      EarnedCarries(k, c.value, tables[i - 1], tables[i]);
    }
  }

  /**
   Over any series of changes and calls, with either kind of start, every observation is the one a full scan would have
   made, exactly unless that scan passes and a row names a parent that the call leaves out.
   */
  lemma EveryObservationAgreesIff(k: Kernel, start: Start, checkpoint: Option<Checkpoint>, tables: seq<seq<Row>>)
    requires Evolves(k, start, checkpoint, tables) && tables != []
    ensures
      var i := |tables| - 1;
      var c := CheckpointAfter(k, start, checkpoint, tables[..i]);
      var o, full := Observe(k, start, c, Some(tables[i])).0, FullScan(k, tables[i]);
      && Skipped(start, c, tables[i]) <= |tables[i]|
      && (o.passed <==> full.passed && !ReachesBack(tables[i], Skipped(start, c, tables[i])))
      && (Agree(o, full) <==> !full.passed || !ReachesBack(tables[i], Skipped(start, c, tables[i])))
  {
    var i := |tables| - 1;
    CheckpointEarned(k, start, checkpoint, tables);
    EvolvesSorted(k, start, checkpoint, tables, i);
    OneObservation(k, start, CheckpointAfter(k, start, checkpoint, tables[..i]), tables[i]);
  }

  lemma EvolvesPrefix(k: Kernel, start: Start, checkpoint: Option<Checkpoint>, tables: seq<seq<Row>>)
    requires Evolves(k, start, checkpoint, tables) && tables != []
    ensures Evolves(k, start, checkpoint, tables[..|tables| - 1])
  {
    var front := tables[..|tables| - 1];
    forall i | 0 <= i < |front|
      ensures Sorted(front[i]) && StillCovered(k, start, checkpoint, front, i)
    {
      assert front[i] == tables[i] && front[..i] == tables[..i] && front[0] == tables[0];
      assert StillCovered(k, start, checkpoint, tables, i);
    }
  }

  // ---------------------------------------------------------------------------------------------------------
  // What the checkpoint cannot see.

  /** A changed hash before the anchor goes unseen by the probe, and fails the full scan. */
  lemma TamperBeforeAnchorUnseen(k: Kernel, rows: seq<Row>, i: nat, hash: string) returns (tampered: seq<Row>)
    requires LinkInjective(k) && Sorted(rows) && FullScan(k, rows).passed
    requires i < |rows| - 1 && hash != rows[i].hash
    ensures |tampered| == |rows| && tampered[i] == rows[i].(hash := hash)
    ensures Incremental(k, CheckpointAt(rows[|rows| - 1], |rows|), tampered).0.passed
    ensures !FullScan(k, tampered).passed
  {
    tampered := rows[i := rows[i].(hash := hash)];
    var n := |rows|;
    assert Sorted(tampered);
    IncrementalAt(k, CheckpointAt(rows[n - 1], n), tampered, n);
    assert tampered[n..] == [] && ChainOk(k, []);
    hide Incremental, Sorted, ChainOk;
    if FullScan(k, tampered).passed {
      SameHeadSameHistory(k, rows, tampered);
    }
  }

  /** Two events, the second a child of the first, that every digest and link make a valid ledger. */
  function ParentAndChild(k: Kernel): seq<Row> {
    var parentHash := k.digest(1, 0, [], "", []);
    var childHash := k.digest(2, 0, [1], "", [parentHash]);
    var parentLedger := k.link("", parentHash);
    [Row(1, 0, parentHash, parentLedger, [], ""), Row(2, 0, childHash, k.link(parentLedger, childHash), [1], "")]
  }

  /** A child appended after its parent was checkpointed: a false alarm that also clears the checkpoint. */
  lemma ParentAcrossAnchorAlarms(k: Kernel)
    ensures
      var rows := ParentAndChild(k);
      && Sorted(rows) && FullScan(k, rows).passed
      && FullStart(k, rows[..1]).1 == Some(CheckpointAt(rows[0], 1))
      && Incremental(k, CheckpointAt(rows[0], 1), rows).1 == None
      && Incremental(k, CheckpointAt(rows[0], 1), rows).0.reason == EventChainInvalid
  {
    var rows := ParentAndChild(k);
    var parent, child := rows[0], rows[1];
    assert rows[..1] == [parent] && rows[1..] == [child];
    OneEvent(k, parent);
    TwoEvents(k, parent, child);
    LinksOne(k, "", parent);
    LinksOne(k, parent.ledgerHash, child);
    FindRowAt(rows, 0);
    RowsAfterAt(rows, 0);
    assert 1 in child.parents && Ids([child]) == {2};
    assert !EventHolds(k, [child], child);
    assert child in [child];
  }

  lemma OneEvent(k: Kernel, r: Row)
    requires r.parents == [] && r.hash == k.digest(r.id, r.t, [], r.body, [])
    ensures ChainOk(k, [r])
  {
    assert ParentHashes([r], []) == [];
  }

  lemma TwoEvents(k: Kernel, parent: Row, child: Row)
    requires parent.parents == [] && parent.hash == k.digest(parent.id, parent.t, [], parent.body, [])
    requires child.parents == [parent.id] && child.id != parent.id && child.t == parent.t
    requires child.hash == k.digest(child.id, child.t, [parent.id], child.body, [parent.hash])
    ensures ChainOk(k, [parent, child])
  {
    var rows := [parent, child];
    assert rows[..1] == [parent] && [parent][..0] == [];
    assert parent in rows && parent.id in Ids(rows);
    assert ById(rows, parent.id) == ById([parent], parent.id) == Some(parent);
    assert ParentHashes(rows, []) == [] && ParentHashes(rows, [parent.id]) == [parent.hash];
  }

  // ---------------------------------------------------------------------------------------------------------
  // The probe as it runs.

  /** A row whose stored ledger hash is not the one computed from its predecessor's stored hash. */
  datatype Broken = Broken(id: int, expected: string, observed: string)

  function BrokenLinks(k: Kernel, previous: string, rows: seq<Row>): (r: seq<Broken>)
    ensures r == [] <==> LinksFrom(k, previous, rows)
    decreases |rows|
  {
    if rows == [] then []
    else
      var expected := k.link(previous, rows[0].hash);
      (if rows[0].ledgerHash != expected then [Broken(rows[0].id, expected, rows[0].ledgerHash)] else [])
      + BrokenLinks(k, rows[0].ledgerHash, rows[1..])
  }

  lemma BrokenStep(k: Kernel, running: string, rows: seq<Row>, i: nat, broken: seq<Broken>)
    requires i < |rows|
    ensures
      var expected := k.link(running, rows[i].hash);
      var one := Broken(rows[i].id, expected, rows[i].ledgerHash);
      var found := if rows[i].ledgerHash != expected then broken + [one] else broken;
      broken + BrokenLinks(k, running, rows[i..]) == found + BrokenLinks(k, rows[i].ledgerHash, rows[i + 1..])
  {
    assert rows[i..][1..] == rows[i + 1..];
  }

  /** The loop over `runningLedgerHash`, or `previousLedgerHash`. */
  method CheckLinks(k: Kernel, start: string, rows: seq<Row>) returns (broken: seq<Broken>)
    ensures broken == BrokenLinks(k, start, rows)
  {
    broken := [];
    var running := start;
    for i := 0 to |rows|
      invariant broken + BrokenLinks(k, running, rows[i..]) == BrokenLinks(k, start, rows)
    {
      var row := rows[i];
      BrokenStep(k, running, rows, i, broken);
      var expected := k.link(running, row.hash);
      if row.ledgerHash != expected {
        broken := broken + [Broken(row.id, expected, row.ledgerHash)];
      }
      running := row.ledgerHash;
    }
  }

  class Probe {
    const start: Start
    var checkpoint: Option<Checkpoint>

    constructor (start: Start)
      ensures this.start == start && checkpoint == None
    {
      this.start := start;
      checkpoint := None;
    }

    method ObserveEventLedger(k: Kernel, table: Option<seq<Row>>) returns (o: Observation)
      modifies this
      ensures (o, checkpoint) == Observe(k, start, old(checkpoint), table)
    {
      if table.None? {
        checkpoint := None;
        return Observation(false, 0, None, ProbeFailed);
      }
      if checkpoint.Some? {
        o := ObserveSuffix(k, table.value);
      } else if start.Some? {
        o := ObserveWindow(k, start.value, table.value);
      } else {
        o := ObserveAll(k, table.value);
      }
    }

    method ObserveSuffix(k: Kernel, rows: seq<Row>) returns (o: Observation)
      requires checkpoint.Some?
      modifies this
      ensures (o, checkpoint) == Incremental(k, old(checkpoint).value, rows)
    {
      var c := checkpoint.value;
      var anchor := FindRow(rows, c.anchorId);
      if anchor.None? || anchor.value.hash != c.anchorHash || anchor.value.ledgerHash != c.anchorLedgerHash {
        checkpoint := None;
        return Observation(false, 0, None, AnchorMutatedOrMissing);
      }
      var suffix := RowsAfter(rows, anchor.value.t, c.anchorId);
      var chainOk := VerifyEventChain(k, suffix);
      var broken := CheckLinks(k, c.anchorLedgerHash, suffix);
      var passed := chainOk && broken == [];
      if passed {
        if suffix != [] {
          checkpoint := Some(CheckpointAt(suffix[|suffix| - 1], c.total + |suffix|));
        }
      } else {
        checkpoint := None;
      }
      o := Observation(
        passed,
        c.total + |suffix|,
        Some(if suffix == [] then anchor.value.ledgerHash else suffix[|suffix| - 1].ledgerHash),
        if passed then VerifiedIncremental else if !chainOk then EventChainInvalid else LedgerChainInvalid);
    }

    method ObserveWindow(k: Kernel, window: nat, rows: seq<Row>) returns (o: Observation)
      requires checkpoint.None? && window > 0
      modifies this
      ensures (o, checkpoint) == WindowStart(k, window, rows)
    {
      var tail := rows[WindowFrom(window, rows)..];
      if tail == [] {
        return Observation(false, 0, None, LedgerEmpty);
      }
      var chainOk := VerifyEventChain(k, tail);
      var broken := CheckLinks(k, tail[0].ledgerHash, tail[1..]);
      var passed := chainOk && broken == [];
      if passed {
        checkpoint := Some(CheckpointAt(tail[|tail| - 1], |rows|));
      }
      o := Observation(passed, |rows|, Latest(tail),
        if passed then VerifiedWindow else if !chainOk then EventChainInvalid else LedgerChainInvalid);
    }

    method ObserveAll(k: Kernel, rows: seq<Row>) returns (o: Observation)
      requires checkpoint.None?
      modifies this
      ensures (o, checkpoint) == FullStart(k, rows)
    {
      var chainOk := VerifyEventChain(k, rows);
      var broken := CheckLinks(k, "", rows);
      var passed := rows != [] && chainOk && broken == [];
      if passed {
        checkpoint := Some(CheckpointAt(rows[|rows| - 1], |rows|));
      }
      o := Observation(passed, |rows|, Latest(rows),
        if rows == [] then LedgerEmpty
        else if !chainOk then EventChainInvalid
        else if broken != [] then LedgerChainInvalid
        else Verified);
    }
  }
}
