/** Reading a committed contract graph page by page (ai-service/app/api/contract_graph_router.py,
    `read_contract_graph`; ai-service/app/tools/contract_graph_read_model.py).

    Tenants, dossiers, digests and jobs are numbers; a job's number is its place in text order. */
module GraphPaging {
  import opened Basics
  import opened Strings

  datatype Kind = Operation | PairRelation

  datatype Row = Row(id: Text, tenant: nat, dossier: nat, job: nat, digest: nat, body: nat)

  datatype JobStatus = Queued | Running | Succeeded | OtherEnd

  datatype Job = Job(id: nat, tenant: nat, dossier: nat, status: JobStatus, created: int)

  datatype Stage = StageCompleted | StageSkipped | StageFailed | StagePending | StageUnavailable | StageOther

  datatype Write = NoWrite | Committed | WriteSkipped | WriteFailed | WriteOther

  datatype Receipt = Receipt(
    tenant: nat, dossier: nat, job: nat, kind: Kind, digest: nat, stage: Stage, write: Write, rowCount: int)

  datatype Db = Db(
    jobs: seq<Job>, snapshots: map<(nat, nat), nat>, receipts: seq<Receipt>, edges: seq<Row>, relations: seq<Row>)

  datatype Status = Ready | Pending | Failed | Stale | PersistFailed | PersistenceUnknown | Skipped | Unavailable

  type Limit = n: nat | 1 <= n <= 100 witness 50

  /** `kind` is absent when the caller names no known kind; `tenant` when its envelope is missing or refused. */
  datatype Request = Request(job: nat, dossier: nat, digest: nat, kind: Option<Kind>, limit: Limit, tenant: Option<nat>)

  datatype Response =
    | Refused(code: nat)
    | Answer(status: Status, edges: seq<Row>, total: int, hasMore: bool, next: Option<Text>, digest: Option<nat>)

  // ---------------------------------------------------------------- gates

  predicate CursorOk(cursor: Text, kind: Kind) {
    6 <= |cursor.chars| <= 80 && cursor.chars[..6] == if kind == Operation then "cedge:" else "cpair:"
  }

  function GraphReadStatus(stage: Stage, write: Write, rowCount: int): Status {
    if write == WriteFailed then PersistFailed
    else match stage
      case StageFailed => Failed
      case StageSkipped => Skipped
      case StagePending => Pending
      case StageUnavailable => Unavailable
      case StageOther => PersistenceUnknown
      case StageCompleted =>
        if write == WriteSkipped then Skipped
        else if write == Committed && rowCount >= 0 then Ready
        else PersistenceUnknown
  }

  predicate Later(a: Job, b: Job) {
    a.created > b.created || (a.created == b.created && a.id > b.id)
  }

  predicate Done(j: Job, tenant: nat, dossier: nat) {
    j.tenant == tenant && j.dossier == dossier && j.status == Succeeded
  }

  /** The first job in the order newest first. */
  function Latest(jobs: seq<Job>, tenant: nat, dossier: nat): Option<Job> {
    if jobs == [] then None
    else
      var rest := Latest(jobs[1..], tenant, dossier);
      if Done(jobs[0], tenant, dossier) && (rest.None? || !Later(rest.value, jobs[0])) then Some(jobs[0]) else rest
  }

  function FindJob(jobs: seq<Job>, id: nat, tenant: nat, dossier: nat): Option<Job> {
    if jobs == [] then None
    else if jobs[0].id == id && jobs[0].tenant == tenant && jobs[0].dossier == dossier then Some(jobs[0])
    else FindJob(jobs[1..], id, tenant, dossier)
  }

  function FindReceipt(receipts: seq<Receipt>, tenant: nat, req: Request): Option<Receipt>
    requires req.kind.Some?
  {
    if receipts == [] then None
    else
      var r := receipts[0];
      if r.tenant == tenant && r.dossier == req.dossier && r.job == req.job && r.kind == req.kind.value
        && r.digest == req.digest
      then Some(r) else FindReceipt(receipts[1..], tenant, req)
  }

  // ---------------------------------------------------------------- rows and pages

  predicate ById(a: Row, b: Row) {
    Before(a.id.chars, b.id.chars)
  }

  predicate Matches(r: Row, tenant: nat, req: Request) {
    r.tenant == tenant && r.dossier == req.dossier && r.job == req.job && r.digest == req.digest
  }

  function Matching(rows: seq<Row>, tenant: nat, req: Request): seq<Row> {
    if rows == [] then []
    else
      var before, r := Matching(rows[..|rows| - 1], tenant, req), rows[|rows| - 1];
      if Matches(r, tenant, req) then before + [r] else before
  }

  function TableOf(db: Db, kind: Kind): seq<Row> {
    if kind == Operation then db.edges else db.relations
  }

  predicate IsAfter(r: Row, cursor: Option<Text>) {
    cursor.None? || !Before(r.id.chars, cursor.value.chars)
  }

  function AfterCursor(rows: seq<Row>, cursor: Option<Text>): seq<Row> {
    if rows == [] then []
    else
      var before, r := AfterCursor(rows[..|rows| - 1], cursor), rows[|rows| - 1];
      if IsAfter(r, cursor) then before + [r] else before
  }

  function Take(rows: seq<Row>, n: nat): seq<Row> {
    if |rows| <= n then rows else rows[..n]
  }

  /** One row more than asked for tells whether there is another page. */
  function Page(rows: seq<Row>, req: Request, cursor: Option<Text>, total: int): Response {
    var fetched := Take(StableSort(AfterCursor(rows, cursor), ById), req.limit + 1);
    var page := Take(fetched, req.limit);
    var hasMore := |fetched| > req.limit;
    Answer(Ready, page, total, hasMore, if hasMore then Some(page[|page| - 1].id) else None, Some(req.digest))
  }

  function Nothing(status: Status, total: int, digest: Option<nat>): Response {
    Answer(status, [], total, false, None, digest)
  }

  function CurrentDigest(db: Db, tenant: nat, dossier: nat): Option<nat> {
    if (tenant, dossier) in db.snapshots then Some(db.snapshots[(tenant, dossier)]) else None
  }

  function ReadCommitted(db: Db, tenant: nat, req: Request, cursor: Option<Text>): Response
    requires req.kind.Some?
  {
    var receipt := FindReceipt(db.receipts, tenant, req);
    if receipt.None? then Nothing(PersistenceUnknown, 0, Some(req.digest))
    else
      var rows := Matching(TableOf(db, req.kind.value), tenant, req);
      var status := GraphReadStatus(receipt.value.stage, receipt.value.write, receipt.value.rowCount);
      if status != Ready then Nothing(status, receipt.value.rowCount, Some(req.digest))
      else if |rows| != receipt.value.rowCount then
        Nothing(PersistenceUnknown, receipt.value.rowCount, Some(req.digest))
      else Page(rows, req, cursor, receipt.value.rowCount)
  }

  /** No database is configured when `db` is absent. */
  function Read(db: Option<Db>, req: Request, cursor: Option<Text>): Response {
    if req.kind.None? || (cursor.Some? && !CursorOk(cursor.value, req.kind.value)) then Refused(400)
    else if req.tenant.None? then Refused(401)
    else if db.None? then Nothing(Unavailable, 0, Some(req.digest))
    else
      var tenant := req.tenant.value;
      var job := FindJob(db.value.jobs, req.job, tenant, req.dossier);
      if job.None? then Refused(404)
      else if job.value.status == Queued || job.value.status == Running then Nothing(Pending, 0, Some(req.digest))
      else if job.value.status != Succeeded then Nothing(Failed, 0, Some(req.digest))
      else
        var latest := Latest(db.value.jobs, tenant, req.dossier);
        if latest.None? || latest.value.id != req.job then Nothing(Stale, 0, Some(req.digest))
        else if CurrentDigest(db.value, tenant, req.dossier) != Some(req.digest) then
          Nothing(Stale, 0, CurrentDigest(db.value, tenant, req.dossier))
        else ReadCommitted(db.value, tenant, req, cursor)
  }

  // ---------------------------------------------------------------- when rows are served

  /** The state serves rows, whatever the cursor. */
  predicate Serves(db: Option<Db>, req: Request) {
    && req.kind.Some? && req.tenant.Some? && db.Some?
    && var tenant := req.tenant.value;
       var job := FindJob(db.value.jobs, req.job, tenant, req.dossier);
       var latest := Latest(db.value.jobs, tenant, req.dossier);
       var receipt := FindReceipt(db.value.receipts, tenant, req);
       && job.Some? && job.value.status == Succeeded
       && latest.Some? && latest.value.id == req.job
       && CurrentDigest(db.value, tenant, req.dossier) == Some(req.digest)
       && receipt.Some? && receipt.value.stage == StageCompleted && receipt.value.write == Committed
       && receipt.value.rowCount == |Matching(TableOf(db.value, req.kind.value), tenant, req)|
  }

  lemma {:induction false} CommittedRead(db: Db, tenant: nat, req: Request, cursor: Option<Text>)
    requires req.kind.Some?
    ensures
      var receipt, rows := FindReceipt(db.receipts, tenant, req), Matching(TableOf(db, req.kind.value), tenant, req);
      var answer := ReadCommitted(db, tenant, req, cursor);
      && answer.Answer?
      && (answer.status == Ready <==>
            receipt.Some? && receipt.value.stage == StageCompleted && receipt.value.write == Committed
            && receipt.value.rowCount == |rows|)
      && (answer.status != Ready ==> answer.edges == [] && !answer.hasMore && answer.next.None?)
      && (answer.status == Ready ==> answer == Page(rows, req, cursor, answer.total))
  {
  }

  /** Rows come only from the newest finished job, for the current snapshot, when the receipt says they
      were committed and as many are stored as it counted. Every other answer ends the walk. */
  lemma {:induction false} RowsOnlyWhenServed(db: Option<Db>, req: Request, cursor: Option<Text>)
    ensures Read(db, req, cursor).Answer? && Read(db, req, cursor).status == Ready
       <==> Serves(db, req) && (cursor.None? || CursorOk(cursor.value, req.kind.value))
    ensures Read(db, req, cursor).Answer? && Read(db, req, cursor).status != Ready ==>
      Read(db, req, cursor).edges == [] && !Read(db, req, cursor).hasMore && Read(db, req, cursor).next.None?
    ensures Read(db, req, cursor).Answer? && Read(db, req, cursor).status == Ready ==>
      var rows := Matching(TableOf(db.value, req.kind.value), req.tenant.value, req);
      Read(db, req, cursor) == Page(rows, req, cursor, Read(db, req, cursor).total)
  {
    if db.Some? && req.kind.Some? && req.tenant.Some? {
      CommittedRead(db.value, req.tenant.value, req, cursor);
    }
  }

  lemma {:induction false} LatestIsNewest(jobs: seq<Job>, tenant: nat, dossier: nat)
    ensures var latest := Latest(jobs, tenant, dossier);
      && (latest.Some? ==> latest.value in jobs && Done(latest.value, tenant, dossier))
      && (forall j :: j in jobs && Done(j, tenant, dossier) ==> latest.Some? && !Later(j, latest.value))
  {
    if jobs != [] {
      LatestIsNewest(jobs[1..], tenant, dossier);
      assert jobs == [jobs[0]] + jobs[1..];
    }
  }

  /** A newer finished job of the dossier stops the walk. */
  lemma {:induction false} NewerJobStops(db: Db, req: Request, job: Job, newer: Job)
    requires req.tenant.Some?
    requires job in db.jobs && newer in db.jobs && newer.id != job.id && job.id == req.job
    requires forall a, b :: a in db.jobs && b in db.jobs && a.id == b.id ==> a == b
    requires Done(newer, req.tenant.value, req.dossier) && Later(newer, job)
    ensures !Serves(Some(db), req)
  {
    LatestIsNewest(db.jobs, req.tenant.value, req.dossier);
  }

  /** A newer snapshot of the dossier stops the walk. */
  lemma {:induction false} NewSnapshotStops(db: Db, req: Request)
    requires req.tenant.Some? && CurrentDigest(db, req.tenant.value, req.dossier) != Some(req.digest)
    ensures !Serves(Some(db), req)
  {
  }

  // ---------------------------------------------------------------- one page of the sorted rows

  ghost predicate Increasing(rows: seq<Row>) {
    forall i, j :: 0 <= i < j < |rows| ==> Before(rows[i].id.chars, rows[j].id.chars) && rows[i].id != rows[j].id
  }

  ghost predicate UniqueRows(rows: seq<Row>) {
    forall i, j :: 0 <= i < j < |rows| ==> rows[i].id != rows[j].id
  }

  lemma {:induction false} IdOrder()
    ensures Ordering(ById)
  {
    forall a: Row, b: Row ensures ById(a, b) || ById(b, a) {
      BeforeIsTotal(a.id.chars, b.id.chars);
    }
    forall a: Row, b: Row, c: Row | ById(a, b) && ById(b, c) ensures ById(a, c) {
      BeforeIsTransitive(a.id.chars, b.id.chars, c.id.chars);
    }
  }

  lemma {:induction false} PutFirst(x: Row, rows: seq<Row>)
    requires Increasing(rows) && forall r :: r in rows ==> r.id != x.id && Before(x.id.chars, r.id.chars)
    ensures Increasing([x] + rows)
  {
    assert forall i :: 0 <= i < |rows| ==> rows[i] in rows;
  }

  lemma {:induction false} InsertKeepsIncreasing(x: Row, rows: seq<Row>)
    requires Increasing(rows) && forall r :: r in rows ==> r.id != x.id
    ensures Increasing(Insert(x, rows, ById))
    ensures forall r :: r in Insert(x, rows, ById) <==> r == x || r in rows
  {
    if rows == [] {
    } else if ById(x, rows[0]) {
      forall r | r in rows ensures Before(x.id.chars, r.id.chars) {
        FirstIsLeast(rows, r);
        BeforeIsTransitive(x.id.chars, rows[0].id.chars, r.id.chars);
      }
      PutFirst(x, rows);
    } else {
      var rest := Insert(x, rows[1..], ById);
      assert rows == [rows[0]] + rows[1..];
      InsertKeepsIncreasing(x, rows[1..]);
      BeforeIsTotal(x.id.chars, rows[0].id.chars);
      forall r | r in rest ensures r.id != rows[0].id && Before(rows[0].id.chars, r.id.chars) {
        if r != x {
          InTail(rows, r);
          FirstIsLeast(rows, r);
        }
      }
      PutFirst(rows[0], rest);
    }
  }

  lemma {:induction false} SortIncreases(rows: seq<Row>)
    requires UniqueRows(rows)
    ensures Increasing(StableSort(rows, ById))
    ensures forall r :: r in StableSort(rows, ById) <==> r in rows
    ensures |StableSort(rows, ById)| == |rows|
  {
    IdOrder();
    SortIsPermutation(rows, ById);
    if rows != [] {
      SortIncreases(rows[1..]);
      assert rows == [rows[0]] + rows[1..];
      InsertKeepsIncreasing(rows[0], StableSort(rows[1..], ById));
    }
  }

  /** Increasing lists with the same members are equal. */
  lemma {:induction false} IncreasingIsUnique(a: seq<Row>, b: seq<Row>)
    requires Increasing(a) && Increasing(b) && forall r :: r in a <==> r in b
    ensures a == b
  {
    assert |a| > 0 ==> a[0] in a;
    assert |b| > 0 ==> b[0] in b;
    if a != [] {
      FirstIsLeast(a, b[0]);
      FirstIsLeast(b, a[0]);
      BeforeIsAntisymmetric(a[0].id.chars, b[0].id.chars);
      SameId(a, a[0], b[0]);
      forall r ensures r in a[1..] <==> r in b[1..] {
        InTail(a, r);
        InTail(b, r);
      }
      IncreasingIsUnique(a[1..], b[1..]);
      assert a == [a[0]] + a[1..] && b == [b[0]] + b[1..];
    }
  }

  lemma {:induction false} FirstIsLeast(rows: seq<Row>, r: Row)
    requires Increasing(rows) && r in rows
    ensures Before(rows[0].id.chars, r.id.chars)
  {
    var i :| 0 <= i < |rows| && rows[i] == r;
    if i == 0 {
      BeforeIsTotal(r.id.chars, r.id.chars);
    }
  }

  lemma {:induction false} SameId(rows: seq<Row>, a: Row, b: Row)
    requires Increasing(rows) && a in rows && b in rows && a.id.chars == b.id.chars
    ensures a == b
  {
    var i :| 0 <= i < |rows| && rows[i] == a;
    var j :| 0 <= j < |rows| && rows[j] == b;
    assert a.id == b.id by {
      assert Text(a.id.chars) == Text(b.id.chars);
    }
  }

  lemma {:induction false} InTail(rows: seq<Row>, r: Row)
    requires Increasing(rows) && rows != []
    ensures r in rows[1..] <==> r in rows && r != rows[0]
  {
    assert rows == [rows[0]] + rows[1..];
    if r in rows[1..] {
      var i :| 0 <= i < |rows[1..]| && rows[1..][i] == r;
      assert rows[i + 1] == r;
    }
  }

  lemma {:induction false} AfterCursorMembers(rows: seq<Row>, cursor: Option<Text>, r: Row)
    ensures r in AfterCursor(rows, cursor) <==> r in rows && IsAfter(r, cursor)
  {
    if rows != [] {
      AfterCursorMembers(rows[..|rows| - 1], cursor, r);
      assert rows == rows[..|rows| - 1] + [rows[|rows| - 1]];
    }
  }

  lemma {:induction false} AfterCursorUnique(rows: seq<Row>, cursor: Option<Text>)
    requires UniqueRows(rows)
    ensures UniqueRows(AfterCursor(rows, cursor))
  {
    if rows != [] {
      var init, last := rows[..|rows| - 1], rows[|rows| - 1];
      var before := AfterCursor(init, cursor);
      AfterCursorUnique(init, cursor);
      forall i | 0 <= i < |before| ensures before[i].id != last.id {
        AfterCursorMembers(init, cursor, before[i]);
        assert before[i] in init;
      }
    }
  }

  /** The cursor a walk holds after `k` of the sorted rows. */
  function CursorAt(sorted: seq<Row>, k: nat): Option<Text>
    requires k <= |sorted|
  {
    if k == 0 then None else Some(sorted[k - 1].id)
  }

  lemma {:induction false} AfterTheFirst(sorted: seq<Row>, k: nat, r: Row)
    requires Increasing(sorted) && k <= |sorted|
    ensures r in sorted[k..] <==> r in sorted && IsAfter(r, CursorAt(sorted, k))
  {
    assert sorted == sorted[..k] + sorted[k..];
    if r in sorted && k > 0 {
      var i :| 0 <= i < |sorted| && sorted[i] == r;
      if i < k {
        if i == k - 1 {
          BeforeIsTotal(r.id.chars, r.id.chars);
        }
        assert forall j :: k <= j < |sorted| ==> sorted[j].id != r.id;
      } else {
        assert sorted[k..][i - k] == r;
        assert Text(r.id.chars) != Text(sorted[k - 1].id.chars);
        NotBefore(sorted[k - 1].id.chars, r.id.chars);
      }
    }
  }

  /** The rows after the cursor, sorted, are the rest of the sorted rows. */
  lemma {:induction false} RestOfTheRows(rows: seq<Row>, sorted: seq<Row>, k: nat)
    requires UniqueRows(rows) && sorted == StableSort(rows, ById) && k <= |sorted|
    ensures StableSort(AfterCursor(rows, CursorAt(sorted, k)), ById) == sorted[k..]
  {
    var cursor := CursorAt(sorted, k);
    var after := AfterCursor(rows, cursor);
    SortIncreases(rows);
    AfterCursorUnique(rows, cursor);
    SortIncreases(after);
    forall r ensures r in StableSort(after, ById) <==> r in sorted[k..] {
      AfterCursorMembers(rows, cursor, r);
      AfterTheFirst(sorted, k, r);
    }
    IncreasingIsUnique(StableSort(after, ById), sorted[k..]);
  }

  // ---------------------------------------------------------------- the walk

  function Next(r: Response): Option<Text> {
    if r.Answer? then r.next else None
  }

  function EdgesOf(r: Response): seq<Row> {
    if r.Answer? then r.edges else []
  }

  function CursorFor(answers: seq<Response>, i: nat): Option<Text>
    requires i <= |answers|
  {
    if i == 0 then None else Next(answers[i - 1])
  }

  /** Answer `i` is asked for with the cursor of the answer before, if that named one. */
  ghost predicate Follows(states: seq<Option<Db>>, req: Request, answers: seq<Response>, i: nat)
    requires i < |answers| <= |states|
  {
    && answers[i] == Read(states[i], req, CursorFor(answers, i))
    && (i > 0 ==> CursorFor(answers, i).Some?)
  }

  /** A client asks one database state after the other for as long as it is given a cursor. */
  ghost predicate IsWalk(states: seq<Option<Db>>, req: Request, answers: seq<Response>) {
    |answers| <= |states| && forall i :: 0 <= i < |answers| ==> Follows(states, req, answers, i)
  }

  function Collected(answers: seq<Response>, n: nat): seq<Row>
    requires n <= |answers|
  {
    if n == 0 then [] else Collected(answers, n - 1) + EdgesOf(answers[n - 1])
  }

  function Least(a: nat, b: nat): nat {
    if a < b then a else b
  }

  /** A state in which the rows committed for the request may have been deleted, but not exchanged:
      the receipt, while it is there, still tells how many were committed. */
  ghost predicate KeepsCommitted(db: Option<Db>, req: Request, committed: seq<Row>) {
    req.kind.Some? && req.tenant.Some? && db.Some? ==>
      var rows := Matching(TableOf(db.value, req.kind.value), req.tenant.value, req);
      var receipt := FindReceipt(db.value.receipts, req.tenant.value, req);
      && UniqueRows(rows) && (forall r :: r in rows ==> r in committed)
      && (receipt.Some? ==> receipt.value.rowCount == |committed|)
  }

  /** The ids the graph stages issue, a prefix and 24 hexadecimal digits, may serve as cursors. */
  ghost predicate Committable(committed: seq<Row>, req: Request) {
    UniqueRows(committed) && req.kind.Some? && forall r :: r in committed ==> CursorOk(r.id, req.kind.value)
  }

  lemma {:induction false} MembersAsMany(part: seq<Row>, whole: seq<Row>)
    requires UniqueRows(part) && UniqueRows(whole) && |part| == |whole| && forall r :: r in part ==> r in whole
    ensures forall r :: r in whole ==> r in part
  {
    assert Distinct(part) && Distinct(whole);
    DistinctBySize(part);
    DistinctBySize(whole);
    var missing := Elements(whole) - Elements(part);
    assert Elements(whole) == Elements(part) + missing;
    assert missing == {};
    assert forall r :: r in whole ==> r in Elements(whole);
  }

  /** Rows are served only while all committed rows are there. */
  lemma {:induction false} ServedRowsAreComplete(db: Option<Db>, req: Request, committed: seq<Row>)
    requires Serves(db, req) && KeepsCommitted(db, req, committed) && UniqueRows(committed)
    ensures var rows := Matching(TableOf(db.value, req.kind.value), req.tenant.value, req);
      UniqueRows(rows) && StableSort(rows, ById) == StableSort(committed, ById)
  {
    var rows := Matching(TableOf(db.value, req.kind.value), req.tenant.value, req);
    MembersAsMany(rows, committed);
    SortIncreases(rows);
    SortIncreases(committed);
    IncreasingIsUnique(StableSort(rows, ById), StableSort(committed, ById));
  }

  /** A page read off the sorted rows after the cursor. */
  ghost predicate PageOf(r: Response, rest: seq<Row>, limit: Limit) {
    var fetched := Take(rest, limit + 1);
    && r.Answer? && r.edges == Take(fetched, limit) && r.hasMore == (|fetched| > limit)
    && r.next == if |fetched| > limit then Some(r.edges[|r.edges| - 1].id) else None
  }

  lemma {:induction false} PageOfSorted(rows: seq<Row>, req: Request, cursor: Option<Text>, total: int)
    ensures PageOf(Page(rows, req, cursor, total), StableSort(AfterCursor(rows, cursor), ById), req.limit)
  {
  }

  lemma {:induction false} PageOfSlice(r: Response, sorted: seq<Row>, k: nat, limit: Limit, rest: seq<Row>)
    requires k <= |sorted| && rest == sorted[k..] && PageOf(r, rest, limit)
    ensures r.edges == sorted[k..Least(|sorted|, k + limit)]
    ensures r.hasMore == (k + limit < |sorted|)
    ensures r.next == if k + limit < |sorted| then CursorAt(sorted, Least(|sorted|, k + limit)) else None
  {
  }

  lemma {:induction false} PageOfRest(rows: seq<Row>, sorted: seq<Row>, k: nat, req: Request, r: Response, total: int)
    requires UniqueRows(rows) && sorted == StableSort(rows, ById) && k <= |sorted|
    requires r == Page(rows, req, CursorAt(sorted, k), total)
    ensures PageOf(r, sorted[k..], req.limit)
  {
    RestOfTheRows(rows, sorted, k);
    PageOfSorted(rows, req, CursorAt(sorted, k), total);
  }

  /** The rows from `k` up to `e`. */
  function Segment(rows: seq<Row>, k: nat, e: nat): seq<Row>
    requires e <= |rows|
    decreases e
  {
    if k >= e then [] else Segment(rows, k, e - 1) + [rows[e - 1]]
  }

  lemma {:induction false} SegmentIsSlice(rows: seq<Row>, k: nat, e: nat)
    requires k <= e <= |rows|
    ensures Segment(rows, k, e) == rows[k..e]
  {
    if k < e {
      SegmentIsSlice(rows, k, e - 1);
    }
  }

  lemma {:induction false} SegmentsJoin(rows: seq<Row>, k: nat, e: nat, m: nat)
    requires k <= e <= m <= |rows|
    ensures Segment(rows, k, e) + Segment(rows, e, m) == Segment(rows, k, m)
  {
    if e == m {
      ConcatEmpty(Segment(rows, k, e));
    } else {
      SegmentsJoin(rows, k, e, m - 1);
      ConcatAssoc(Segment(rows, k, e), Segment(rows, e, m - 1), [rows[m - 1]]);
    }
  }

  /** What a serving state answers after `k` rows. */
  ghost predicate IsPage(r: Response, sorted: seq<Row>, k: nat, limit: nat)
    requires k <= |sorted|
  {
    && r.Answer? && r.edges == Segment(sorted, k, Least(|sorted|, k + limit))
    && r.next == if k + limit < |sorted| then CursorAt(sorted, k + limit) else None
  }

  lemma {:induction false} PageOfSegment(r: Response, sorted: seq<Row>, k: nat, limit: Limit)
    requires k <= |sorted| && PageOf(r, sorted[k..], limit)
    ensures IsPage(r, sorted, k, limit)
  {
    PageOfSlice(r, sorted, k, limit, sorted[k..]);
    SegmentIsSlice(sorted, k, Least(|sorted|, k + limit));
  }

  lemma {:induction false} CursorOfRow(committed: seq<Row>, req: Request, sorted: seq<Row>, k: nat)
    requires Committable(committed, req) && sorted == StableSort(committed, ById) && k <= |sorted|
    ensures k > 0 ==> CursorOk(sorted[k - 1].id, req.kind.value)
  {
    SortIncreases(committed);
    assert k > 0 ==> sorted[k - 1] in sorted;
  }

  lemma {:induction false} ServedRest(db: Option<Db>, req: Request, committed: seq<Row>, sorted: seq<Row>, k: nat)
    requires Serves(db, req) && KeepsCommitted(db, req, committed) && Committable(committed, req)
    requires sorted == StableSort(committed, ById) && k <= |sorted|
    ensures PageOf(Read(db, req, CursorAt(sorted, k)), sorted[k..], req.limit)
  {
    var cursor := CursorAt(sorted, k);
    ServedRowsAreComplete(db, req, committed);
    CursorOfRow(committed, req, sorted, k);
    RowsOnlyWhenServed(db, req, cursor);
    var rows := Matching(TableOf(db.value, req.kind.value), req.tenant.value, req);
    PageOfRest(rows, sorted, k, req, Read(db, req, cursor), Read(db, req, cursor).total);
  }

  lemma {:induction false} ServedPage(db: Option<Db>, req: Request, committed: seq<Row>, sorted: seq<Row>, k: nat)
    requires Serves(db, req) && KeepsCommitted(db, req, committed) && Committable(committed, req)
    requires sorted == StableSort(committed, ById) && k <= |sorted|
    ensures IsPage(Read(db, req, CursorAt(sorted, k)), sorted, k, req.limit)
  {
    ServedRest(db, req, committed, sorted, k);
    PageOfSegment(Read(db, req, CursorAt(sorted, k)), sorted, k, req.limit);
  }

  /** What any state answers after `k` rows. */
  ghost predicate IsStep(r: Response, sorted: seq<Row>, k: nat, limit: nat, serves: bool)
    requires k <= |sorted|
  {
    && EdgesOf(r) == (if serves then Segment(sorted, k, Least(|sorted|, k + limit)) else [])
    && Next(r) == if serves && k + limit < |sorted| then CursorAt(sorted, k + limit) else None
  }

  lemma {:induction false} AnyState(db: Option<Db>, req: Request, committed: seq<Row>, sorted: seq<Row>, k: nat)
    requires KeepsCommitted(db, req, committed) && Committable(committed, req)
    requires sorted == StableSort(committed, ById) && k <= |sorted|
    ensures IsStep(Read(db, req, CursorAt(sorted, k)), sorted, k, req.limit, Serves(db, req))
  {
    RowsOnlyWhenServed(db, req, CursorAt(sorted, k));
    if Serves(db, req) {
      ServedPage(db, req, committed, sorted, k);
    }
  }

  /** Before its answer number `i` the walk stands after `i` full pages. */
  lemma {:induction false} Position(
    states: seq<Option<Db>>, req: Request, answers: seq<Response>, committed: seq<Row>, sorted: seq<Row>, i: nat)
    requires Committable(committed, req) && forall j :: 0 <= j < |states| ==> KeepsCommitted(states[j], req, committed)
    requires IsWalk(states, req, answers) && sorted == StableSort(committed, ById) && i < |answers|
    ensures 0 <= i * req.limit <= |sorted| && (i > 0 ==> i * req.limit < |sorted|)
    ensures CursorFor(answers, i) == CursorAt(sorted, i * req.limit)
    ensures IsStep(answers[i], sorted, i * req.limit, req.limit, Serves(states[i], req))
  {
    assert Follows(states, req, answers, i);
    if i > 0 {
      Position(states, req, answers, committed, sorted, i - 1);
      NextPosition(answers, sorted, req.limit, i - 1, Serves(states[i - 1], req));
    }
    AnyState(states[i], req, committed, sorted, i * req.limit);
  }

  lemma OneMore(i: nat, limit: nat)
    requires i > 0
    ensures i * limit == (i - 1) * limit + limit
  {
  }

  /** A cursor is named only after a full page that leaves rows, and it stands at the end of that page. */
  lemma {:induction false} NextPosition(answers: seq<Response>, sorted: seq<Row>, limit: nat, i: nat, serves: bool)
    requires i < |answers| && 0 <= i * limit <= |sorted| && IsStep(answers[i], sorted, i * limit, limit, serves)
    requires Next(answers[i]).Some?
    ensures serves && 0 <= (i + 1) * limit < |sorted|
    ensures CursorFor(answers, i + 1) == CursorAt(sorted, (i + 1) * limit)
  {
    OneMore(i + 1, limit);
  }

  lemma {:induction false} PageBeforeCursor(answers: seq<Response>, sorted: seq<Row>, limit: nat, i: nat, serves: bool)
    requires i < |answers| && 0 <= i * limit <= |sorted| && IsStep(answers[i], sorted, i * limit, limit, serves)
    requires Next(answers[i]).Some?
    ensures FullPageAt(answers, sorted, limit, i)
  {
    NextPosition(answers, sorted, limit, i, serves);
    OneMore(i + 1, limit);
  }

  /** Every answer but the last holds a full page. */
  lemma {:induction false} FullPage(
    states: seq<Option<Db>>, req: Request, answers: seq<Response>, committed: seq<Row>, sorted: seq<Row>, i: nat)
    requires Committable(committed, req) && forall j :: 0 <= j < |states| ==> KeepsCommitted(states[j], req, committed)
    requires IsWalk(states, req, answers) && sorted == StableSort(committed, ById) && i + 1 < |answers|
    ensures FullPageAt(answers, sorted, req.limit, i)
  {
    Position(states, req, answers, committed, sorted, i);
    assert Follows(states, req, answers, i + 1);
    PageBeforeCursor(answers, sorted, req.limit, i, Serves(states[i], req));
  }

  ghost predicate FullPageAt(answers: seq<Response>, sorted: seq<Row>, limit: nat, i: nat)
    requires i < |answers|
  {
    && 0 <= i * limit <= (i + 1) * limit <= |sorted|
    && EdgesOf(answers[i]) == Segment(sorted, i * limit, (i + 1) * limit)
  }

  lemma {:induction false} FullPagesCollected(answers: seq<Response>, sorted: seq<Row>, limit: nat, n: nat)
    requires n <= |answers| && forall i :: 0 <= i < n ==> FullPageAt(answers, sorted, limit, i)
    ensures 0 <= n * limit <= |sorted| && Collected(answers, n) == Segment(sorted, 0, n * limit)
  {
    if n > 0 {
      FullPagesCollected(answers, sorted, limit, n - 1);
      assert FullPageAt(answers, sorted, limit, n - 1);
      SegmentsJoin(sorted, 0, (n - 1) * limit, n * limit);
    }
  }

  /** All a walk collects: full pages, then the last answer's. */
  lemma {:induction false} CollectedInAll(
    states: seq<Option<Db>>, req: Request, answers: seq<Response>, committed: seq<Row>, sorted: seq<Row>)
    returns (m: nat)
    requires Committable(committed, req) && forall j :: 0 <= j < |states| ==> KeepsCommitted(states[j], req, committed)
    requires IsWalk(states, req, answers) && sorted == StableSort(committed, ById) && answers != []
    ensures m <= |sorted| && Collected(answers, |answers|) == Segment(sorted, 0, m)
    ensures Serves(states[|answers| - 1], req) && Next(answers[|answers| - 1]).None? ==> m == |sorted|
  {
    var last := |answers| - 1;
    forall i: nat | i < last ensures FullPageAt(answers, sorted, req.limit, i) {
      FullPage(states, req, answers, committed, sorted, i);
    }
    FullPagesCollected(answers, sorted, req.limit, last);
    Position(states, req, answers, committed, sorted, last);
    m := last * req.limit;
    if Serves(states[last], req) {
      m := Least(|sorted|, last * req.limit + req.limit);
      SegmentsJoin(sorted, 0, last * req.limit, m);
    } else {
      ConcatEmpty(Collected(answers, last));
    }
  }

  /** Whatever happens to the other jobs, the snapshot, the receipt and the stored rows in between, a walk collects
      a beginning of the committed rows in order, each at most once and none left out, and it ends. */
  lemma {:induction false} WalkCollectsABeginning(
    states: seq<Option<Db>>, req: Request, answers: seq<Response>, committed: seq<Row>)
    requires Committable(committed, req) && forall j :: 0 <= j < |states| ==> KeepsCommitted(states[j], req, committed)
    requires IsWalk(states, req, answers)
    ensures Collected(answers, |answers|) <= StableSort(committed, ById)
    ensures |answers| > 1 ==> (|answers| - 1) * req.limit < |committed|
  {
    if answers != [] {
      var sorted := StableSort(committed, ById);
      var m := CollectedInAll(states, req, answers, committed, sorted);
      SegmentIsSlice(sorted, 0, m);
      Position(states, req, answers, committed, sorted, |answers| - 1);
      SortIncreases(committed);
    }
  }

  /** A walk that is served to its end collects the committed rows sorted by id, each exactly once, whatever the page
      size. */
  lemma {:induction false} WalkIsTheSortedRows(
    states: seq<Option<Db>>, req: Request, answers: seq<Response>, committed: seq<Row>)
    requires Committable(committed, req) && forall j :: 0 <= j < |states| ==> KeepsCommitted(states[j], req, committed)
    requires IsWalk(states, req, answers) && answers != []
    requires Serves(states[|answers| - 1], req) && Next(answers[|answers| - 1]).None?
    ensures Collected(answers, |answers|) == StableSort(committed, ById)
    ensures multiset(Collected(answers, |answers|)) == multiset(committed)
    ensures Increasing(Collected(answers, |answers|))
  {
    var sorted := StableSort(committed, ById);
    var m := CollectedInAll(states, req, answers, committed, sorted);
    SegmentIsSlice(sorted, 0, |sorted|);
    SortIncreases(committed);
    IdOrder();
    SortIsPermutation(committed, ById);
  }

  /** A walk through serving states goes on exactly as long as rows are left. */
  lemma {:induction false} ServedWalkGoesOn(
    states: seq<Option<Db>>, req: Request, answers: seq<Response>, committed: seq<Row>, i: nat)
    requires Committable(committed, req) && forall j :: 0 <= j < |states| ==> KeepsCommitted(states[j], req, committed)
    requires IsWalk(states, req, answers) && i < |answers| && Serves(states[i], req)
    ensures Next(answers[i]).Some? <==> (i + 1) * req.limit < |committed|
  {
    var sorted := StableSort(committed, ById);
    Position(states, req, answers, committed, sorted, i);
    SortIncreases(committed);
    OneMore(i + 1, req.limit);
  }

  /** The first state that does not serve ends the walk and adds nothing. */
  lemma {:induction false} WalkEndsWithService(states: seq<Option<Db>>, req: Request, answers: seq<Response>, i: nat)
    requires IsWalk(states, req, answers) && i < |answers| && !Serves(states[i], req)
    ensures i == |answers| - 1 && EdgesOf(answers[i]) == [] && Next(answers[i]).None?
    ensures Collected(answers, |answers|) == Collected(answers, i)
  {
    assert Follows(states, req, answers, i);
    assert i + 1 < |answers| ==> Follows(states, req, answers, i + 1);
    RowsOnlyWhenServed(states[i], req, CursorFor(answers, i));
    ConcatEmpty(Collected(answers, i));
  }

  /** The dossier has moved on: it holds another snapshot, or a newer finished job than the one asked for. */
  ghost predicate Superseded(db: Db, req: Request) {
    req.tenant.Some? && (
      || CurrentDigest(db, req.tenant.value, req.dossier) != Some(req.digest)
      || exists job, newer :: IsNewer(db, req, job, newer))
  }

  ghost predicate IsNewer(db: Db, req: Request, job: Job, newer: Job) {
    && job in db.jobs && newer in db.jobs && newer.id != job.id && job.id == req.job
    && req.tenant.Some? && Done(newer, req.tenant.value, req.dossier) && Later(newer, job)
  }

  /** A walk that meets such a state ends with that answer and keeps what it collected before. */
  lemma {:induction false} SupersededWalkEnds(states: seq<Option<Db>>, req: Request, answers: seq<Response>, i: nat)
    requires IsWalk(states, req, answers) && i < |answers| && states[i].Some? && Superseded(states[i].value, req)
    requires forall a, b :: a in states[i].value.jobs && b in states[i].value.jobs && a.id == b.id ==> a == b
    ensures i == |answers| - 1 && Collected(answers, |answers|) == Collected(answers, i)
  {
    var db := states[i].value;
    if CurrentDigest(db, req.tenant.value, req.dossier) == Some(req.digest) {
      var job, newer :| IsNewer(db, req, job, newer);
      NewerJobStops(db, req, job, newer);
    } else {
      NewSnapshotStops(db, req);
    }
    WalkEndsWithService(states, req, answers, i);
  }

  // ---------------------------------------------------------------- when rows are exchanged

  /** The rows a state stores for the request. */
  ghost function Stored(db: Option<Db>, req: Request): seq<Row> {
    if db.Some? && req.kind.Some? && req.tenant.Some? then
      Matching(TableOf(db.value, req.kind.value), req.tenant.value, req)
    else []
  }

  /** A page: distinct stored rows in order, all after the cursor, the last of which the next cursor names. */
  ghost predicate PageAfter(r: Response, stored: seq<Row>, cursor: Option<Text>) {
    var edges := EdgesOf(r);
    && Increasing(edges)
    && (forall e :: e in edges ==> e in stored && IsAfter(e, cursor))
    && (Next(r).Some? ==> edges != [] && Next(r).value == edges[|edges| - 1].id)
  }

  lemma {:induction false} SlicesIncrease(rows: seq<Row>, n: nat)
    requires Increasing(rows)
    ensures Increasing(Take(rows, n)) && forall r :: r in Take(rows, n) ==> r in rows
  {
  }

  lemma {:induction false} PageOfStored(rows: seq<Row>, req: Request, cursor: Option<Text>, total: int)
    requires UniqueRows(rows)
    ensures PageAfter(Page(rows, req, cursor, total), rows, cursor)
  {
    var after := AfterCursor(rows, cursor);
    var sorted := StableSort(after, ById);
    AfterCursorUnique(rows, cursor);
    SortIncreases(after);
    SlicesIncrease(sorted, req.limit + 1);
    SlicesIncrease(Take(sorted, req.limit + 1), req.limit);
    forall e | e in sorted ensures e in rows && IsAfter(e, cursor) {
      AfterCursorMembers(rows, cursor, e);
    }
  }

  lemma {:induction false} ReadPage(db: Option<Db>, req: Request, cursor: Option<Text>)
    requires UniqueRows(Stored(db, req))
    ensures PageAfter(Read(db, req, cursor), Stored(db, req), cursor)
  {
    RowsOnlyWhenServed(db, req, cursor);
    if Read(db, req, cursor).Answer? && Read(db, req, cursor).status == Ready {
      PageOfStored(Stored(db, req), req, cursor, Read(db, req, cursor).total);
    }
  }

  ghost predicate UpToCursor(rows: seq<Row>, cursor: Option<Text>) {
    forall r :: r in rows ==> cursor.Some? && Before(r.id.chars, cursor.value.chars)
  }

  lemma {:induction false} Beyond(a: Row, b: Row, cursor: Text)
    requires Before(a.id.chars, cursor.chars) && !Before(b.id.chars, cursor.chars)
    ensures Before(a.id.chars, b.id.chars) && a.id != b.id
  {
    BeforeIsTotal(b.id.chars, cursor.chars);
    BeforeIsTransitive(a.id.chars, cursor.chars, b.id.chars);
  }

  lemma {:induction false} PageJoins(before: seq<Row>, r: Response, stored: seq<Row>, cursor: Option<Text>)
    requires Increasing(before) && UpToCursor(before, cursor) && PageAfter(r, stored, cursor)
    ensures Increasing(before + EdgesOf(r))
    ensures Next(r).Some? ==> UpToCursor(before + EdgesOf(r), Next(r))
  {
    var edges := EdgesOf(r);
    forall a, b | a in before && b in edges ensures Before(a.id.chars, b.id.chars) && a.id != b.id {
      Beyond(a, b, cursor.value);
    }
    if Next(r).Some? {
      forall x | x in before + edges ensures Before(x.id.chars, Next(r).value.chars) {
        LastIsGreatest(edges, x);
      }
    }
  }

  lemma {:induction false} LastIsGreatest(edges: seq<Row>, x: Row)
    requires Increasing(edges) && edges != []
    ensures x in edges ==> Before(x.id.chars, edges[|edges| - 1].id.chars)
  {
    if x == edges[|edges| - 1] {
      BeforeIsTotal(x.id.chars, x.id.chars);
    }
  }

  /** Whatever happens to the stored rows in between, exchanged ones included, a walk collects rows in
      increasing order of their ids, so none twice. */
  lemma {:induction false} WalkNeverRepeats(
    states: seq<Option<Db>>, req: Request, answers: seq<Response>, n: nat)
    requires IsWalk(states, req, answers) && n <= |answers|
    requires forall j :: 0 <= j < |states| ==> UniqueRows(Stored(states[j], req))
    ensures Increasing(Collected(answers, n))
    ensures CursorFor(answers, n).Some? ==> UpToCursor(Collected(answers, n), CursorFor(answers, n))
  {
    if n > 0 {
      var cursor := CursorFor(answers, n - 1);
      WalkNeverRepeats(states, req, answers, n - 1);
      assert Follows(states, req, answers, n - 1);
      ReadPage(states[n - 1], req, cursor);
      PageJoins(Collected(answers, n - 1), answers[n - 1], Stored(states[n - 1], req), cursor);
    }
  }

  /** Every row of a walk was stored, in a state that served, when its page was read. */
  lemma {:induction false} WalkReadsStoredRows(states: seq<Option<Db>>, req: Request, answers: seq<Response>, i: nat)
    requires IsWalk(states, req, answers) && i < |answers| && UniqueRows(Stored(states[i], req))
    ensures EdgesOf(answers[i]) != [] ==> Serves(states[i], req)
    ensures forall e :: e in EdgesOf(answers[i]) ==> e in Stored(states[i], req)
  {
    assert Follows(states, req, answers, i);
    RowsOnlyWhenServed(states[i], req, CursorFor(answers, i));
    ReadPage(states[i], req, CursorFor(answers, i));
  }

  // ---------------------------------------------------------------- the read in terms of the tables alone

  predicate RowOf(r: Row, tenant: nat, req: Request) {
    (r.tenant, r.dossier, r.job, r.digest) == (tenant, req.dossier, req.job, req.digest)
  }

  /** Where a table holds rows of the request. */
  ghost function PlacesOf(rows: seq<Row>, tenant: nat, req: Request, upTo: nat): set<nat>
    requires upTo <= |rows|
  {
    set i: nat | i < upTo && RowOf(rows[i], tenant, req)
  }

  lemma {:induction false} MatchingOfTable(rows: seq<Row>, tenant: nat, req: Request)
    ensures |Matching(rows, tenant, req)| == |PlacesOf(rows, tenant, req, |rows|)|
    ensures forall r :: r in Matching(rows, tenant, req) <==> r in rows && RowOf(r, tenant, req)
  {
    if rows == [] {
      assert PlacesOf(rows, tenant, req, 0) == {};
    } else {
      var init, n := rows[..|rows| - 1], |rows| - 1;
      MatchingOfTable(init, tenant, req);
      assert rows == init + [rows[n]];
      assert PlacesOf(init, tenant, req, n) == PlacesOf(rows, tenant, req, n);
      Basics.OneMore(
        PlacesOf(rows, tenant, req, n), PlacesOf(rows, tenant, req, n + 1), n, RowOf(rows[n], tenant, req));
    }
  }

  /** The rows of a READY answer come from the table of the asked kind and belong to the request, and the total is
      the number of such rows in it. */
  lemma {:induction false} ReadyRowsOfTable(db: Db, req: Request, cursor: Option<Text>)
    requires Read(Some(db), req, cursor).Answer? && Read(Some(db), req, cursor).status == Ready
    ensures req.tenant.Some? && req.kind.Some?
    ensures
      var answer, tenant := Read(Some(db), req, cursor), req.tenant.value;
      && (forall r :: r in answer.edges ==> RowOf(r, tenant, req))
      && (req.kind == Some(Operation) ==>
            && (forall r :: r in answer.edges ==> r in db.edges)
            && answer.total == |PlacesOf(db.edges, tenant, req, |db.edges|)|)
      && (req.kind == Some(PairRelation) ==>
            && (forall r :: r in answer.edges ==> r in db.relations)
            && answer.total == |PlacesOf(db.relations, tenant, req, |db.relations|)|)
  {
    RowsOnlyWhenServed(Some(db), req, cursor);
    var rows := TableOf(db, req.kind.value);
    MatchingOfTable(rows, req.tenant.value, req);
    PageFromRows(Matching(rows, req.tenant.value, req), req, cursor, Read(Some(db), req, cursor).total);
    TotalIsCount(db, req, cursor);
  }

  lemma {:induction false} TotalIsCount(db: Db, req: Request, cursor: Option<Text>)
    requires Read(Some(db), req, cursor).Answer? && Read(Some(db), req, cursor).status == Ready
    ensures req.tenant.Some? && req.kind.Some?
    ensures Read(Some(db), req, cursor).total == |Matching(TableOf(db, req.kind.value), req.tenant.value, req)|
  {
    RowsOnlyWhenServed(Some(db), req, cursor);
  }

  lemma {:induction false} PageFromRows(rows: seq<Row>, req: Request, cursor: Option<Text>, total: int)
    ensures forall r :: r in Page(rows, req, cursor, total).edges ==> r in rows
  {
    var after := AfterCursor(rows, cursor);
    IdOrder();
    SortIsPermutation(after, ById);
    forall r | r in Page(rows, req, cursor, total).edges ensures r in rows {
      assert r in StableSort(after, ById);
      assert r in multiset(StableSort(after, ById));
      AfterCursorMembers(rows, cursor, r);
    }
  }

  /** The receipt a read goes by: one of the request, for its kind, and none only if there is none. */
  lemma {:induction false} ReceiptOfRequest(receipts: seq<Receipt>, tenant: nat, req: Request)
    requires req.kind.Some?
    ensures var found := FindReceipt(receipts, tenant, req);
      && (found.Some? ==> found.value in receipts && ReceiptOf(found.value, tenant, req))
      && (found.None? ==> forall r :: r in receipts ==> !ReceiptOf(r, tenant, req))
  {
    if receipts != [] {
      ReceiptOfRequest(receipts[1..], tenant, req);
      assert receipts == [receipts[0]] + receipts[1..];
    }
  }

  predicate ReceiptOf(r: Receipt, tenant: nat, req: Request) {
    && (r.tenant, r.dossier, r.job, r.digest) == (tenant, req.dossier, req.job, req.digest)
    && req.kind == Some(r.kind)
  }

  lemma {:induction false} JobOfRequest(jobs: seq<Job>, tenant: nat, req: Request)
    ensures var found := FindJob(jobs, req.job, tenant, req.dossier);
      && (found.Some? ==> found.value in jobs && JobOf(found.value, tenant, req))
      && (found.None? ==> forall j :: j in jobs ==> !JobOf(j, tenant, req))
  {
    if jobs != [] {
      JobOfRequest(jobs[1..], tenant, req);
      assert jobs == [jobs[0]] + jobs[1..];
    }
  }

  predicate JobOf(j: Job, tenant: nat, req: Request) {
    (j.id, j.tenant, j.dossier) == (req.job, tenant, req.dossier)
  }

  function KeyOf(r: Receipt): (nat, nat, nat, Kind, nat) {
    (r.tenant, r.dossier, r.job, r.kind, r.digest)
  }

  /** Job ids and receipts are keys of their tables. */
  ghost predicate KeysHold(db: Db) {
    && (forall a, b :: a in db.jobs && b in db.jobs && a.id == b.id ==> a == b)
    && (forall a, b :: a in db.receipts && b in db.receipts && KeyOf(a) == KeyOf(b) ==> a == b)
  }

  /** A finished job of the dossier that comes after `job`. */
  predicate Overtakes(j: Job, job: Job) {
    && j.status.Succeeded? && j.tenant == job.tenant && j.dossier == job.dossier
    && (j.created > job.created || (j.created == job.created && j.id > job.id))
  }

  /** Rows are served exactly when the job finished, no other finished one of the dossier comes after it, the
      snapshot is the current one, and the receipt of the request says that the rows now stored were committed. */
  ghost predicate ServedBy(db: Db, req: Request, tenant: nat, job: Job, receipt: Receipt)
    requires req.kind.Some?
  {
    && job in db.jobs && JobOf(job, tenant, req) && job.status.Succeeded?
    && (forall j :: j in db.jobs ==> !Overtakes(j, job))
    && (tenant, req.dossier) in db.snapshots && db.snapshots[(tenant, req.dossier)] == req.digest
    && receipt in db.receipts && ReceiptOf(receipt, tenant, req)
    && receipt.stage.StageCompleted? && receipt.write.Committed?
    && receipt.rowCount
       == if req.kind.value.Operation? then |PlacesOf(db.edges, tenant, req, |db.edges|)|
          else |PlacesOf(db.relations, tenant, req, |db.relations|)|
  }

  lemma {:induction false} NewestOfJobs(jobs: seq<Job>, job: Job)
    requires forall a, b :: a in jobs && b in jobs && a.id == b.id ==> a == b
    requires job in jobs && job.status == Succeeded
    ensures var latest := Latest(jobs, job.tenant, job.dossier);
      latest.Some? && latest.value.id == job.id <==> forall j :: j in jobs ==> !Overtakes(j, job)
  {
    LatestIsNewest(jobs, job.tenant, job.dossier);
  }

  lemma {:induction false} ServesOfTables(db: Db, req: Request)
    requires KeysHold(db) && req.tenant.Some? && req.kind.Some?
    ensures Serves(Some(db), req)
       <==> exists job, receipt :: ServedBy(db, req, req.tenant.value, job, receipt)
  {
    var tenant := req.tenant.value;
    JobOfRequest(db.jobs, tenant, req);
    ReceiptOfRequest(db.receipts, tenant, req);
    MatchingOfTable(TableOf(db, req.kind.value), tenant, req);
    if Serves(Some(db), req) {
      var job := FindJob(db.jobs, req.job, tenant, req.dossier).value;
      NewestOfJobs(db.jobs, job);
      assert ServedBy(db, req, tenant, job, FindReceipt(db.receipts, tenant, req).value);
    }
    if job, receipt :| ServedBy(db, req, tenant, job, receipt) {
      NewestOfJobs(db.jobs, job);
      assert FindJob(db.jobs, req.job, tenant, req.dossier) == Some(job);
      assert FindReceipt(db.receipts, tenant, req) == Some(receipt);
    }
  }

  /** What a receipt means for the reader. */
  lemma {:induction false} StatusOfReceipt(stage: Stage, write: Write, rowCount: int)
    ensures var status := GraphReadStatus(stage, write, rowCount);
      && (status == PersistFailed <==> write == WriteFailed)
      && (status == Failed <==> write != WriteFailed && stage == StageFailed)
      && (status == Pending <==> write != WriteFailed && stage == StagePending)
      && (status == Unavailable <==> write != WriteFailed && stage == StageUnavailable)
      && (status == Skipped <==>
            write != WriteFailed && (stage == StageSkipped || (stage == StageCompleted && write == WriteSkipped)))
      && (status == Ready <==> stage == StageCompleted && write == Committed && rowCount >= 0)
      && status != Stale
  {
  }

  /** What a read answers by its receipt: rows only for a committed graph, and otherwise what became of it. */
  predicate AnswerOf(answer: Response, r: Receipt, req: Request) {
    && answer.Answer? && answer.total == r.rowCount && answer.digest == Some(req.digest)
    && (answer.status != Ready ==> answer.edges == [] && !answer.hasMore && answer.next == None)
    && match (r.write, r.stage)
       case (WriteFailed, _) => answer.status == PersistFailed
       case (_, StageFailed) => answer.status == Failed
       case (_, StageSkipped) => answer.status == Skipped
       case (_, StagePending) => answer.status == Pending
       case (_, StageUnavailable) => answer.status == Unavailable
       case (WriteSkipped, StageCompleted) => answer.status == Skipped
       case (Committed, StageCompleted) => answer.status in [Ready, PersistenceUnknown]
       case _ => answer.status == PersistenceUnknown
  }

  /** Which requests are refused, and which answers come before any receipt is read. */
  lemma {:induction false} AnswersBeforeReceipt(db: Option<Db>, req: Request, cursor: Option<Text>)
    requires db.Some? ==> KeysHold(db.value)
    ensures var answer := Read(db, req, cursor);
      && (answer == Refused(400) <==> req.kind.None? || (cursor.Some? && !CursorOk(cursor.value, req.kind.value)))
      && (answer != Refused(400) ==> (answer == Refused(401) <==> req.tenant.None?))
      && (answer != Refused(400) && req.tenant.Some? && db.None? ==>
            answer == Answer(Unavailable, [], 0, false, None, Some(req.digest)))
      && (answer != Refused(400) && req.tenant.Some? && db.Some? ==>
            (answer == Refused(404) <==> forall j :: j in db.value.jobs ==> !JobOf(j, req.tenant.value, req)))
  {
    if req.tenant.Some? && db.Some? {
      JobOfRequest(db.value.jobs, req.tenant.value, req);
    }
  }

  lemma {:induction false} AnswersOfJob(db: Db, req: Request, cursor: Option<Text>, job: Job)
    requires KeysHold(db) && req.tenant.Some? && req.kind.Some?
    requires cursor.Some? ==> CursorOk(cursor.value, req.kind.value)
    requires job in db.jobs && JobOf(job, req.tenant.value, req)
    ensures
      var answer, snapshot := Read(Some(db), req, cursor), (req.tenant.value, req.dossier);
      match job.status
      case Queued => answer == Answer(Pending, [], 0, false, None, Some(req.digest))
      case Running => answer == Answer(Pending, [], 0, false, None, Some(req.digest))
      case OtherEnd => answer == Answer(Failed, [], 0, false, None, Some(req.digest))
      case Succeeded =>
        if exists j :: j in db.jobs && Overtakes(j, job) then
          answer == Answer(Stale, [], 0, false, None, Some(req.digest))
        else if snapshot !in db.snapshots then answer == Answer(Stale, [], 0, false, None, None)
        else if db.snapshots[snapshot] != req.digest then
          answer == Answer(Stale, [], 0, false, None, Some(db.snapshots[snapshot]))
        else if forall r :: r in db.receipts ==> !ReceiptOf(r, req.tenant.value, req) then
          answer == Answer(PersistenceUnknown, [], 0, false, None, Some(req.digest))
        else exists r :: r in db.receipts && ReceiptOf(r, req.tenant.value, req) && AnswerOf(answer, r, req)
  {
    JobOfRequest(db.jobs, req.tenant.value, req);
    ReceiptOfRequest(db.receipts, req.tenant.value, req);
    if job.status.Succeeded? {
      NewestOfJobs(db.jobs, job);
      CommittedRead(db, req.tenant.value, req, cursor);
      var receipt := FindReceipt(db.receipts, req.tenant.value, req);
      if receipt.Some? {
        StatusOfReceipt(receipt.value.stage, receipt.value.write, receipt.value.rowCount);
      }
    }
  }

  /** A cursor names its kind in front, and none is accepted for both kinds. */
  lemma {:induction false} CursorsOfKinds(cursor: Text)
    ensures CursorOk(cursor, Operation)
       <==> |cursor.chars| <= 80 && exists tail: string :: cursor.chars == "cedge:" + tail
    ensures CursorOk(cursor, PairRelation)
       <==> |cursor.chars| <= 80 && exists tail: string :: cursor.chars == "cpair:" + tail
    ensures !(CursorOk(cursor, Operation) && CursorOk(cursor, PairRelation))
  {
    if |cursor.chars| >= 6 {
      assert cursor.chars == cursor.chars[..6] + cursor.chars[6..];
    }
    assert "cedge:"[1] != "cpair:"[1];
  }
}
