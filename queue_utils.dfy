/**
 * The record layer of the file-backed job queue and its advisory lock.
 *
 * The queue file is a CSV file; here it is the sequence of its records, each
 * record the sequence of its cells (CSV quoting and line breaks are not
 * modelled). A missing file is `None`. The lock path is a flag on the same
 * store: either the path exists or it does not.
 */
module QueueUtils {
  import opened Wrappers
  import opened Strings

  const StatusPending := "pending"
  const StatusInProgress := "in_progress"
  const StatusDone := "done"

  /** The five columns of the queue file, in the order they are written. */
  const QueueHeaders: seq<string> := ["id", "status", "created_at", "updated_at", "description"]

  /** One CSV record, already split into cells. */
  type Record = seq<string>

  /** A job as the queue code holds it: the id is an integer, every other field a string. */
  datatype Job = Job(id: int, status: string, createdAt: string, updatedAt: string, description: string)

  /** A row as `csv.DictReader` hands it over, before `_normalize_job`: every field a string. */
  datatype Row = Row(id: string, status: string, createdAt: string, updatedAt: string, description: string)

  /**
   * Why a queue operation raised: a named column has no value (`KeyError`,
   * or `int(None)`), the id is not an integer (`ValueError`), or
   * `DictWriter.writerow` met a key outside the five columns (`ValueError`).
   */
  datatype QueueError = MissingColumn(name: string) | InvalidId(text: string) | UnknownField

  /** Position of the last column called `name`. */
  function LastIndex(header: Record, name: string): (r: Option<nat>)
    ensures r.Some? ==> r.value < |header| && header[r.value] == name
    ensures r.Some? ==> forall k :: r.value < k < |header| ==> header[k] != name
    ensures r.None? <==> forall k :: 0 <= k < |header| ==> header[k] != name
  {
    if header == [] then None
    else if header[|header| - 1] == name then Some(|header| - 1)
    else LastIndex(header[..|header| - 1], name)
  }

  /**
   * The value `csv.DictReader` gives the key `name`: `dict(zip(header,
   * record))` keeps the cell of the last column with that name, and a column
   * beyond the end of a short record gets the `None` restval instead. `None`
   * here covers both that and a header without the column.
   */
  function Cell(header: Record, record: Record, name: string): (r: Option<string>)
    ensures r.Some? ==> exists i :: 0 <= i < |header| && i < |record| && header[i] == name && r.value == record[i]
                                   && forall k :: i < k < |header| ==> header[k] != name
    ensures r.None? ==> (forall k :: 0 <= k < |header| ==> header[k] != name)
                        || exists i :: |record| <= i < |header| && header[i] == name
  {
    match LastIndex(header, name)
    case None => None
    case Some(i) => if i < |record| then Some(record[i]) else None
  }

  /** With a column name repeated at the end of the header, the last one wins, and a record too short for it has no value. */
  lemma RepeatedColumnLastWins(header: Record, record: Record, name: string, v: string)
    requires |record| == |header|
    ensures Cell(header + [name], record + [v], name) == Some(v)
    ensures Cell(header + [name], record, name) == None
  {
    assert (header + [name])[|header|] == name;
  }

  /** `csv.DictReader`'s mapping of one record to a row keyed by the header's column names. */
  function DictRow(header: Record, record: Record): Result<Row, QueueError>
  {
    match (Cell(header, record, "id"), Cell(header, record, "status"), Cell(header, record, "created_at"),
           Cell(header, record, "updated_at"), Cell(header, record, "description"))
    case (None, _, _, _, _) => Err(MissingColumn("id"))
    case (_, None, _, _, _) => Err(MissingColumn("status"))
    case (_, _, None, _, _) => Err(MissingColumn("created_at"))
    case (_, _, _, None, _) => Err(MissingColumn("updated_at"))
    case (_, _, _, _, None) => Err(MissingColumn("description"))
    case (Some(i), Some(s), Some(c), Some(u), Some(d)) => Ok(Row(i, s, c, u, d))
  }

  /** `_normalize_job`: the id converted to an integer, nothing else touched. */
  function NormalizeJob(row: Row): (r: Result<Job, QueueError>)
    ensures r.Ok? <==> ParseInt(row.id).Some?
    ensures r.Ok? ==> Some(r.value.id) == ParseInt(row.id)
    ensures r.Ok? ==> r.value.status == row.status && r.value.createdAt == row.createdAt
                      && r.value.updatedAt == row.updatedAt && r.value.description == row.description
    ensures r.Err? ==> r.error == InvalidId(row.id)
  {
    match ParseInt(row.id)
    case None => Err(InvalidId(row.id))
    case Some(n) => Ok(Job(n, row.status, row.createdAt, row.updatedAt, row.description))
  }

  /** The job one record holds under `header`. */
  function ReadRecord(header: Record, record: Record): Result<Job, QueueError>
  {
    match DictRow(header, record)
    case Err(e) => Err(e)
    case Ok(row) => NormalizeJob(row)
  }

  /** The jobs of the records after the header, in order; blank records are skipped, the first bad record raises. */
  function ParseRecords(header: Record, records: seq<Record>): Result<seq<Job>, QueueError>
    decreases |records|
  {
    if records == [] then Ok([])
    else if records[0] == [] then ParseRecords(header, records[1..])
    else
      match ReadRecord(header, records[0])
      case Err(e) => Err(e)
      case Ok(job) =>
        match ParseRecords(header, records[1..])
        case Err(e) => Err(e)
        case Ok(rest) => Ok([job] + rest)
  }

  /** What `read_jobs` returns for an existing queue file: its first record names the columns. */
  function ParseFile(file: seq<Record>): Result<seq<Job>, QueueError>
  {
    if file == [] then Ok([]) else ParseRecords(file[0], file[1..])
  }

  /** The record `write_jobs` writes for one job: the id as a decimal string, then the other fields in column order. */
  function EncodeJob(job: Job): Record
  {
    [IntToString(job.id), job.status, job.createdAt, job.updatedAt, job.description]
  }

  /** One record per job, in list order. */
  function EncodeAll(jobs: seq<Job>): (records: seq<Record>)
    ensures |records| == |jobs|
    ensures forall i :: 0 <= i < |jobs| ==> records[i] == EncodeJob(jobs[i])
  {
    if jobs == [] then [] else [EncodeJob(jobs[0])] + EncodeAll(jobs[1..])
  }

  /** Encoding one more job appends one more record. */
  lemma EncodeAllSnoc(jobs: seq<Job>, job: Job)
    ensures EncodeAll(jobs + [job]) == EncodeAll(jobs) + [EncodeJob(job)]
  {
    assert forall i :: 0 <= i < |jobs| ==> (jobs + [job])[i] == jobs[i];
  }

  /** The whole queue file `write_jobs` leaves behind. */
  function SerializeJobs(jobs: seq<Job>): seq<Record>
  {
    [QueueHeaders] + EncodeAll(jobs)
  }

  /** The file `ensure_queue_file` leaves behind: an existing file as it was, otherwise the header alone. */
  function Ensured(file: Option<seq<Record>>): seq<Record>
  {
    if file.Some? then file.value else [QueueHeaders]
  }

  /** `write_jobs` lays the file out as the header followed by exactly one record per job, in list order. */
  lemma SerializeLayout(jobs: seq<Job>)
    ensures |SerializeJobs(jobs)| == |jobs| + 1
    ensures SerializeJobs(jobs)[0] == QueueHeaders
    ensures forall i :: 0 <= i < |jobs| ==> SerializeJobs(jobs)[i + 1] == EncodeJob(jobs[i])
  {
  }

  /** Under the fixed header, every encoded job reads back as itself, whatever cells follow the five. */
  lemma ReadEncodedRecord(job: Job, extra: Record)
    ensures ReadRecord(QueueHeaders, EncodeJob(job) + extra) == Ok(job)
  {
    assert QueueHeaders[0] != "status" && QueueHeaders[0] != "created_at" && QueueHeaders[0] != "updated_at"
      && QueueHeaders[0] != "description";
    assert QueueHeaders[1] != "id" && QueueHeaders[1] != "created_at" && QueueHeaders[1] != "updated_at"
      && QueueHeaders[1] != "description";
    assert QueueHeaders[2] != "id" && QueueHeaders[2] != "updated_at" && QueueHeaders[2] != "description";
    assert QueueHeaders[3] != "id" && QueueHeaders[3] != "description";
    assert QueueHeaders[4] != "id";
    assert LastIndex(QueueHeaders, "id") == Some(0);
    assert LastIndex(QueueHeaders, "status") == Some(1);
    assert LastIndex(QueueHeaders, "created_at") == Some(2);
    assert LastIndex(QueueHeaders, "updated_at") == Some(3);
    assert LastIndex(QueueHeaders, "description") == Some(4);
    var r := EncodeJob(job) + extra;
    assert r[0] == IntToString(job.id) && r[1] == job.status && r[2] == job.createdAt
      && r[3] == job.updatedAt && r[4] == job.description;
    IntRoundTrip(job.id);
  }

  /** The record written for a job, with nothing after it, reads back as that job. */
  lemma ReadEncodedJob(job: Job)
    ensures ReadRecord(QueueHeaders, EncodeJob(job)) == Ok(job)
  {
    ReadEncodedRecord(job, []);
    assert EncodeJob(job) + [] == EncodeJob(job);
  }

  /** A readable first record puts its job in front of the jobs of the records after it. */
  lemma ParseRecordsCons(header: Record, records: seq<Record>, job: Job, rest: seq<Job>)
    requires records != [] && records[0] != []
    requires ReadRecord(header, records[0]) == Ok(job) && ParseRecords(header, records[1..]) == Ok(rest)
    ensures ParseRecords(header, records) == Ok([job] + rest)
  {
  }

  lemma {:induction false} ParseEncodedRecords(jobs: seq<Job>)
    ensures ParseRecords(QueueHeaders, EncodeAll(jobs)) == Ok(jobs)
  {
    if jobs != [] {
      var records := EncodeAll(jobs);
      assert records[0] == EncodeJob(jobs[0]) != [];
      assert records[1..] == EncodeAll(jobs[1..]);
      ReadEncodedJob(jobs[0]);
      ParseEncodedRecords(jobs[1..]);
      ParseRecordsCons(QueueHeaders, records, jobs[0], jobs[1..]);
      assert [jobs[0]] + jobs[1..] == jobs;
    }
  }

  /** `read_jobs` after `write_jobs` gives back the same jobs in the same order; the id survives `str` and `int`. */
  lemma WriteReadRoundTrip(jobs: seq<Job>)
    ensures ParseFile(SerializeJobs(jobs)) == Ok(jobs)
  {
    assert SerializeJobs(jobs)[1..] == EncodeAll(jobs);
    ParseEncodedRecords(jobs);
  }

  /**
   * The row `DictReader` builds from `record` has a key `DictWriter` refuses:
   * a header column outside the five, or the `None` key that collects the
   * cells beyond the header.
   */
  predicate HasForeignKey(header: Record, record: Record)
  {
    |record| > |header| || exists k :: 0 <= k < |header| && header[k] !in QueueHeaders
  }

  /** For each job `ParseRecords` reads, whether its row has such a key. */
  function ForeignFlags(header: Record, records: seq<Record>): (flags: seq<bool>)
    ensures ParseRecords(header, records).Ok? ==> |flags| == |ParseRecords(header, records).value|
    decreases |records|
  {
    if records == [] then []
    else if records[0] == [] then ForeignFlags(header, records[1..])
    else [HasForeignKey(header, records[0])] + ForeignFlags(header, records[1..])
  }

  /** The flags of every job of a queue file. */
  function FileForeignFlags(file: seq<Record>): (flags: seq<bool>)
    ensures ParseFile(file).Ok? ==> |flags| == |ParseFile(file).value|
  {
    if file == [] then [] else ForeignFlags(file[0], file[1..])
  }

  /** Index of the first `true`. */
  function FirstTrue(flags: seq<bool>): (r: Option<nat>)
    ensures r.Some? ==> r.value < |flags| && flags[r.value] && forall k :: 0 <= k < r.value ==> !flags[k]
    ensures r.None? <==> forall k :: 0 <= k < |flags| ==> !flags[k]
  {
    if flags == [] then None
    else if flags[0] then Some(0)
    else match FirstTrue(flags[1..])
      case None => None
      case Some(i) => Some(i + 1)
  }

  /** Under the fixed header, only cells beyond the five give a row a key `DictWriter` refuses. */
  lemma FixedHeaderForeignKey(record: Record)
    ensures HasForeignKey(QueueHeaders, record) <==> |record| > |QueueHeaders|
  {
    forall k | 0 <= k < |QueueHeaders| ensures QueueHeaders[k] in QueueHeaders {
    }
  }

  /** A file of a header and one readable record holds that one job. */
  lemma OneRecordFile(header: Record, record: Record, job: Job)
    requires record != [] && ReadRecord(header, record) == Ok(job)
    ensures ParseFile([header, record]) == Ok([job])
    ensures FileForeignFlags([header, record]) == [HasForeignKey(header, record)]
  {
    var file := [header, record];
    assert file[0] == header && file[1..] == [record] && [record][1..] == [];
    assert ParseRecords(header, [record]) == Ok([job] + []);
    assert ForeignFlags(header, [record]) == [HasForeignKey(header, record)] + [];
    assert [job] + [] == [job] && [HasForeignKey(header, record)] + [] == [HasForeignKey(header, record)];
  }

  /** A queue file of one encoded job with `extra` cells after the five reads back as that job, flagged exactly when there are extra cells. */
  lemma SingleRecordFile(job: Job, extra: Record)
    ensures ParseFile([QueueHeaders, EncodeJob(job) + extra]) == Ok([job])
    ensures FileForeignFlags([QueueHeaders, EncodeJob(job) + extra]) == [extra != []]
  {
    var record := EncodeJob(job) + extra;
    ReadEncodedRecord(job, extra);
    assert |record| == |QueueHeaders| + |extra|;
    OneRecordFile(QueueHeaders, record, job);
    FixedHeaderForeignKey(record);
  }

  /** The file `write_jobs` leaves, and whether `writerow` raised. */
  datatype Written = Written(file: seq<Record>, raised: bool)

  /**
   * `write_jobs` exactly as written: the file is truncated and the header
   * written; `writerow` then raises `ValueError` on the first job whose row has
   * a foreign key, so only the jobs before it reach the file.
   */
  function WriteAsWritten(jobs: seq<Job>, foreign: seq<bool>): Written
    requires |foreign| == |jobs|
  {
    match FirstTrue(foreign)
    case None => Written(SerializeJobs(jobs), false)
    case Some(f) => Written(SerializeJobs(jobs[..f]), true)
  }

  /**
   * As written, a single foreign key makes `write_jobs` raise and leaves a
   * file that reads back as only the jobs before that row: every later job
   * is lost.
   */
  lemma WriteAsWrittenTruncates(jobs: seq<Job>, foreign: seq<bool>)
    requires |foreign| == |jobs|
    ensures var w := WriteAsWritten(jobs, foreign);
      && (w.raised <==> exists k :: 0 <= k < |foreign| && foreign[k])
      && (!w.raised ==> ParseFile(w.file) == Ok(jobs))
      && (w.raised ==> ParseFile(w.file) == Ok(jobs[..FirstTrue(foreign).value])
                       && |jobs[..FirstTrue(foreign).value]| < |jobs|)
  {
    match FirstTrue(foreign)
    case None => WriteReadRoundTrip(jobs);
    case Some(f) => WriteReadRoundTrip(jobs[..f]);
  }

  /** The files on disk the queue uses: the queue file and the lock path. */
  class QueueStore {
    var queueFile: Option<seq<Record>>
    var lockFile: bool

    constructor(queueFile: Option<seq<Record>>, lockFile: bool)
      ensures this.queueFile == queueFile && this.lockFile == lockFile
    {
      this.queueFile := queueFile;
      this.lockFile := lockFile;
    }

    /** `ensure_queue_file`: creates the file with only the header row when it is missing; an existing file is untouched. */
    method EnsureQueueFile()
      modifies this`queueFile
      ensures old(queueFile).Some? ==> queueFile == old(queueFile)
      ensures old(queueFile).None? ==> queueFile == Some([QueueHeaders]) && ParseFile(queueFile.value) == Ok([])
    {
      if queueFile.Some? {
        return;
      }
      queueFile := Some([QueueHeaders]);
    }

    /** `read_jobs`: ensures the file exists, then parses every record after the header. */
    method ReadJobs() returns (r: Result<seq<Job>, QueueError>)
      modifies this`queueFile
      ensures queueFile == Some(Ensured(old(queueFile)))
      ensures r == ParseFile(Ensured(old(queueFile)))
    {
      EnsureQueueFile();
      r := ParseFile(queueFile.value);
    }

    /** `write_jobs`: rewrites the whole file, the header first and then one record per job. */
    method WriteJobs(jobs: seq<Job>)
      modifies this`queueFile
      ensures queueFile == Some(SerializeJobs(jobs))
    {
      var records := [QueueHeaders];
      for i := 0 to |jobs|
        invariant records == [QueueHeaders] + EncodeAll(jobs[..i])
      {
        EncodeAllSnoc(jobs[..i], jobs[i]);
        assert jobs[..i + 1] == jobs[..i] + [jobs[i]];
        records := records + [EncodeJob(jobs[i])];
      }
      assert jobs[..|jobs|] == jobs;
      queueFile := Some(records);
    }
  }

  /**
   * What one back-off sleep of `acquire` saw: the other process still holds
   * the lock, or it released the lock leaving the queue file as given.
   */
  datatype Sleep = StillHeld | ReleasedWith(queueFile: seq<Record>)

  /** Index of the first sleep during which the holder released the lock. */
  function FirstRelease(env: seq<Sleep>): (r: Option<nat>)
    ensures r.Some? ==> r.value < |env| && env[r.value].ReleasedWith?
                        && forall k :: 0 <= k < r.value ==> env[k].StillHeld?
    ensures r.None? <==> forall k :: 0 <= k < |env| ==> env[k].StillHeld?
  {
    if env == [] then None
    else if env[0].ReleasedWith? then Some(0)
    else match FirstRelease(env[1..])
      case None => None
      case Some(i) => Some(i + 1)
  }

  /**
   * The queue file found once the lock is ours: when it was held, the file
   * its holder left at the release we waited for; otherwise the file as it was.
   */
  function FileAfterWait(file: Option<seq<Record>>, held: bool, env: seq<Sleep>): Option<seq<Record>>
  {
    if held && FirstRelease(env).Some? then Some(env[FirstRelease(env).value].queueFile) else file
  }

  /**
   * `FileLock`: an advisory lock held by creating the lock path exclusively.
   * `hasFd` stands for `self._fd is not None`.
   */
  class FileLock {
    const store: QueueStore
    var hasFd: bool

    constructor(store: QueueStore)
      ensures this.store == store && !hasFd
    {
      this.store := store;
      hasFd := false;
    }

    /**
     * `acquire` (also `__enter__`): retries the exclusive create until the
     * lock path is absent, then creates it. `env[k]` is what the k-th back-off
     * sleep saw; a release lets the next create succeed, and the queue file
     * is then whatever the process that held the lock left. When the trace
     * ends with the path still present the call has not yet returned
     * (`acquired` is false): there is no timeout.
     */
    method Acquire(env: seq<Sleep>) returns (acquired: bool)
      modifies this, store`lockFile, store`queueFile
      ensures acquired <==> !old(store.lockFile) || FirstRelease(env).Some?
      ensures acquired ==> hasFd && store.lockFile
      ensures !acquired ==> hasFd == old(hasFd) && store.lockFile
      ensures store.queueFile == FileAfterWait(old(store.queueFile), old(store.lockFile), env)
    {
      var k := 0;
      while store.lockFile && k < |env|
        invariant 0 <= k <= |env|
        invariant store.lockFile ==> old(store.lockFile) && store.queueFile == old(store.queueFile)
                                     && forall j :: 0 <= j < k ==> env[j].StillHeld?
        invariant !store.lockFile ==> !old(store.lockFile) || FirstRelease(env).Some?
        invariant !store.lockFile ==> store.queueFile == FileAfterWait(old(store.queueFile), old(store.lockFile), env)
        invariant hasFd == old(hasFd)
      {
        // The exclusive create failed; during the sleep the holder may release.
        if env[k].ReleasedWith? {
          assert FirstRelease(env) == Some(k);
          store.queueFile := Some(env[k].queueFile);
          store.lockFile := false;
        }
        k := k + 1;
      }
      if store.lockFile {
        acquired := false;
        return;
      }
      store.lockFile := true;
      hasFd := true;
      acquired := true;
    }

    /** `release` (also `__exit__`): closes the descriptor and removes the path; an absent path is tolerated. */
    method Release()
      modifies this, store`lockFile
      ensures !hasFd && !store.lockFile
      ensures !old(hasFd) && !old(store.lockFile) ==> unchanged(this, store)
    {
      if hasFd {
        hasFd := false;
      }
      if store.lockFile {
        store.lockFile := false;
      }
    }
  }
}
