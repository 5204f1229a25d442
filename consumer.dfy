/**
 * The reservation protocol of the file-backed queue: `reserve_job` and
 * `mark_done`, each a read-modify-write of the whole queue file under the
 * file lock, and the checks and the loop body of the consumer's `main`.
 * Timestamps (`utc_now()`) are parameters.
 */
module Consumer {
  import opened Wrappers
  import opened QueueUtils

  /** How a locked operation ended: it returned, it raised, or it is still waiting for the lock. */
  datatype Outcome<+T> = Done(value: T) | Raised(error: QueueError) | StillWaiting

  /** Index of the first job in stored order whose status is `pending`. */
  function FirstPending(jobs: seq<Job>): (r: Option<nat>)
    ensures r.Some? ==> r.value < |jobs| && jobs[r.value].status == StatusPending
    ensures r.Some? ==> forall k :: 0 <= k < r.value ==> jobs[k].status != StatusPending
    ensures r.None? <==> forall k :: 0 <= k < |jobs| ==> jobs[k].status != StatusPending
  {
    if jobs == [] then None
    else if jobs[0].status == StatusPending then Some(0)
    else match FirstPending(jobs[1..])
      case None => None
      case Some(i) => Some(i + 1)
  }

  /** Index of the first job in stored order whose id is `id`. */
  function FirstWithId(jobs: seq<Job>, id: int): (r: Option<nat>)
    ensures r.Some? ==> r.value < |jobs| && jobs[r.value].id == id
    ensures r.Some? ==> forall k :: 0 <= k < r.value ==> jobs[k].id != id
    ensures r.None? <==> forall k :: 0 <= k < |jobs| ==> jobs[k].id != id
  {
    if jobs == [] then None
    else if jobs[0].id == id then Some(0)
    else match FirstWithId(jobs[1..], id)
      case None => None
      case Some(i) => Some(i + 1)
  }

  /** The record a claim leaves: status `in_progress`, `updated_at` refreshed, every other field kept. */
  function Claim(job: Job, now: string): Job
  {
    job.(status := StatusInProgress, updatedAt := now)
  }

  /** The record `mark_done` leaves: status `done`, `updated_at` refreshed, every other field kept. */
  function Complete(job: Job, now: string): Job
  {
    job.(status := StatusDone, updatedAt := now)
  }

  /** No two jobs share an id. */
  predicate UniqueIds(jobs: seq<Job>)
  {
    forall i, j :: 0 <= i < j < |jobs| ==> jobs[i].id != jobs[j].id
  }

  /** The jobs after the reservation pass over `jobs`; unchanged when none is pending. */
  function AfterReserve(jobs: seq<Job>, now: string): seq<Job>
  {
    match FirstPending(jobs)
    case None => jobs
    case Some(i) => jobs[i := Claim(jobs[i], now)]
  }

  /** What a locked pass hands back and the queue file it leaves. */
  datatype Pass<+T> = Pass(outcome: Outcome<T>, file: seq<Record>)

  /**
   * The critical section of `reserve_job` on the queue file `file`: read the
   * jobs; claim the first pending one and rewrite the whole file, or return
   * `None` and leave the file as it is.
   */
  function ReservePass(file: seq<Record>, now: string): Pass<Option<Job>>
  {
    match ParseFile(file)
    case Err(e) => Pass(Raised(e), file)
    case Ok(jobs) =>
      match FirstPending(jobs)
      case None => Pass(Done(None), file)
      case Some(i) => Pass(Done(Some(Claim(jobs[i], now))), SerializeJobs(jobs[i := Claim(jobs[i], now)]))
  }

  /**
   * The critical section of `mark_done` on the queue file `file`: read the
   * jobs; complete the first one with the id and rewrite the whole file, or
   * answer false and leave the file as it is.
   */
  function MarkDonePass(file: seq<Record>, jobId: int, now: string): Pass<bool>
  {
    match ParseFile(file)
    case Err(e) => Pass(Raised(e), file)
    case Ok(jobs) =>
      match FirstWithId(jobs, jobId)
      case None => Pass(Done(false), file)
      case Some(i) => Pass(Done(true), SerializeJobs(jobs[i := Complete(jobs[i], now)]))
  }

  /** The last steps of a pass that changed a record: `write_jobs` of the updated jobs, then the lock's release. */
  method CommitAndRelease(store: QueueStore, lock: FileLock, jobs: seq<Job>)
    requires lock.store == store
    modifies store, lock
    ensures !store.lockFile && !lock.hasFd && store.queueFile == Some(SerializeJobs(jobs))
  {
    store.WriteJobs(jobs);
    lock.Release();
  }

  /**
   * The body of `reserve_job`'s `with` block, entered holding the lock: the
   * first pending job is claimed and the whole file rewritten; with no
   * pending job the file is not rewritten. The lock is released on every
   * exit, also when reading the file raised.
   */
  method ReserveLocked(store: QueueStore, lock: FileLock, now: string) returns (r: Outcome<Option<Job>>)
    requires lock.store == store && lock.hasFd && store.lockFile && store.queueFile.Some?
    modifies store, lock
    ensures !r.StillWaiting? && !store.lockFile && store.queueFile.Some?
    ensures Pass(r, store.queueFile.value) == ReservePass(old(store.queueFile).value, now)
  {
    ghost var file := store.queueFile.value;
    var read := store.ReadJobs();
    assert store.queueFile == Some(file) && read == ParseFile(file);
    if read.Err? {
      lock.Release();
      return Raised(read.error);
    }
    var claimed := ClaimFirstPending(store, lock, read.value, now);
    return Done(claimed);
  }

  /**
   * The loop of `reserve_job` over the jobs read, holding the lock: the
   * first pending job is claimed and the jobs written back, or, with none
   * pending, nothing is written. The lock is released either way.
   */
  method ClaimFirstPending(store: QueueStore, lock: FileLock, jobs: seq<Job>, now: string) returns (claimed: Option<Job>)
    requires lock.store == store && lock.hasFd && store.lockFile
    modifies store, lock
    ensures !store.lockFile
    ensures FirstPending(jobs).None? ==> claimed.None? && store.queueFile == old(store.queueFile)
    ensures FirstPending(jobs).Some? ==>
      var i := FirstPending(jobs).value;
      claimed == Some(Claim(jobs[i], now)) && store.queueFile == Some(SerializeJobs(jobs[i := Claim(jobs[i], now)]))
  {
    for i := 0 to |jobs|
      invariant forall k :: 0 <= k < i ==> jobs[k].status != StatusPending
      invariant store.lockFile && store.queueFile == old(store.queueFile) && lock.hasFd
    {
      if jobs[i].status == StatusPending {
        var job := Claim(jobs[i], now);
        assert FirstPending(jobs) == Some(i);
        CommitAndRelease(store, lock, jobs[i := job]);
        return Some(job);
      }
    }
    assert FirstPending(jobs) == None;
    lock.Release();
    return None;
  }

  /**
   * `reserve_job`: the queue file is created if missing; then, holding the
   * lock, `ReserveLocked` runs on the file found once the lock is ours.
   */
  method ReserveJob(store: QueueStore, now: string, env: seq<Sleep>) returns (r: Outcome<Option<Job>>)
    modifies store
    ensures r.StillWaiting? <==> old(store.lockFile) && FirstRelease(env).None?
    ensures r.StillWaiting? ==> store.lockFile && store.queueFile == Some(Ensured(old(store.queueFile)))
    ensures !r.StillWaiting? ==>
      (!store.lockFile && store.queueFile.Some?
       && Pass(r, store.queueFile.value)
          == ReservePass(FileAfterWait(Some(Ensured(old(store.queueFile))), old(store.lockFile), env).value, now))
  {
    store.EnsureQueueFile();
    var lock := new FileLock(store);
    var acquired := lock.Acquire(env);
    if !acquired {
      return StillWaiting;
    }
    r := ReserveLocked(store, lock, now);
  }

  /**
   * The body of `mark_done`'s `with` block, entered holding the lock: the
   * first job with the given id becomes `done` whatever its status was, the
   * whole file is rewritten and the answer is true; an absent id leaves the
   * file as read and answers false. The lock is released on every exit.
   */
  method MarkDoneLocked(store: QueueStore, lock: FileLock, jobId: int, now: string) returns (r: Outcome<bool>)
    requires lock.store == store && lock.hasFd && store.lockFile
    modifies store, lock
    ensures !r.StillWaiting? && !store.lockFile && store.queueFile.Some?
    ensures Pass(r, store.queueFile.value) == MarkDonePass(Ensured(old(store.queueFile)), jobId, now)
  {
    ghost var file := Ensured(store.queueFile);
    var read := store.ReadJobs();
    assert store.queueFile == Some(file) && read == ParseFile(file);
    if read.Err? {
      lock.Release();
      return Raised(read.error);
    }
    var found := CompleteFirstWithId(store, lock, read.value, jobId, now);
    return Done(found);
  }

  /**
   * The loop of `mark_done` over the jobs read, holding the lock: the first
   * job with the id is completed and the jobs written back, or, with no such
   * job, nothing is written. The lock is released either way.
   */
  method CompleteFirstWithId(store: QueueStore, lock: FileLock, jobs: seq<Job>, jobId: int, now: string)
    returns (found: bool)
    requires lock.store == store && lock.hasFd && store.lockFile
    modifies store, lock
    ensures !store.lockFile
    ensures found <==> FirstWithId(jobs, jobId).Some?
    ensures !found ==> store.queueFile == old(store.queueFile)
    ensures found ==>
      var i := FirstWithId(jobs, jobId).value;
      store.queueFile == Some(SerializeJobs(jobs[i := Complete(jobs[i], now)]))
  {
    for i := 0 to |jobs|
      invariant forall k :: 0 <= k < i ==> jobs[k].id != jobId
      invariant store.lockFile && store.queueFile == old(store.queueFile) && lock.hasFd
    {
      if jobs[i].id == jobId {
        assert FirstWithId(jobs, jobId) == Some(i);
        CommitAndRelease(store, lock, jobs[i := Complete(jobs[i], now)]);
        return true;
      }
    }
    assert FirstWithId(jobs, jobId) == None;
    lock.Release();
    return false;
  }

  /** `mark_done`: holding the lock, `MarkDoneLocked` runs on the file found once the lock is ours. */
  method MarkDone(store: QueueStore, jobId: int, now: string, env: seq<Sleep>) returns (r: Outcome<bool>)
    modifies store
    ensures r.StillWaiting? <==> old(store.lockFile) && FirstRelease(env).None?
    ensures r.StillWaiting? ==> store.lockFile && store.queueFile == old(store.queueFile)
    ensures !r.StillWaiting? ==>
      (!store.lockFile && store.queueFile.Some?
       && Pass(r, store.queueFile.value)
          == MarkDonePass(Ensured(FileAfterWait(old(store.queueFile), old(store.lockFile), env)), jobId, now))
  {
    var lock := new FileLock(store);
    var acquired := lock.Acquire(env);
    if !acquired {
      return StillWaiting;
    }
    r := MarkDoneLocked(store, lock, jobId, now);
  }

  /**
   * A reservation claims the first pending job, changes only that record and
   * keeps the order; the claimed record is no longer pending.
   */
  lemma ReserveChangesOnlyClaimed(jobs: seq<Job>, now: string)
    requires FirstPending(jobs).Some?
    ensures var i := FirstPending(jobs).value;
      var after := AfterReserve(jobs, now);
      && |after| == |jobs|
      && after[i].id == jobs[i].id && after[i].status == StatusInProgress && after[i].updatedAt == now
      && after[i].createdAt == jobs[i].createdAt && after[i].description == jobs[i].description
      && (forall k :: 0 <= k < |jobs| && k != i ==> after[k] == jobs[k])
  {
  }

  /** Two reservations in a row never hand out the same id when ids are unique. */
  lemma {:induction false} SuccessiveReservationsDiffer(jobs: seq<Job>, t1: string)
    requires UniqueIds(jobs)
    requires FirstPending(jobs).Some?
    ensures var after := AfterReserve(jobs, t1);
      UniqueIds(after) &&
      (FirstPending(after).Some? ==>
        after[FirstPending(after).value].id != jobs[FirstPending(jobs).value].id)
  {
    var i := FirstPending(jobs).value;
    var after := AfterReserve(jobs, t1);
    assert forall k :: 0 <= k < |jobs| ==> after[k].id == jobs[k].id;
    if FirstPending(after).Some? {
      var k := FirstPending(after).value;
      assert after[i].status == StatusInProgress;
      assert k > i;
      assert jobs[i].id != jobs[k].id;
    }
  }

  /** `mark_done` on an id that is no stored job's reports false and leaves the queue file as it was. */
  lemma MarkDoneAbsent(file: seq<Record>, id: int, now: string)
    requires ParseFile(file).Ok?
    requires forall k :: 0 <= k < |ParseFile(file).value| ==> ParseFile(file).value[k].id != id
    ensures MarkDonePass(file, id, now) == Pass(Done(false), file)
  {
  }

  /**
   * On a readable queue file `mark_done` returns, true exactly when some job
   * has the id; then the new file reads back as the jobs with only the first
   * such record completed, and otherwise the file is not rewritten.
   */
  lemma MarkDonePassReadsBack(file: seq<Record>, id: int, now: string)
    requires ParseFile(file).Ok?
    ensures var jobs := ParseFile(file).value;
      var p := MarkDonePass(file, id, now);
      && p.outcome == Done(exists k :: 0 <= k < |jobs| && jobs[k].id == id)
      && (p.outcome == Done(false) ==> p.file == file)
      && (p.outcome == Done(true) ==>
            var i := FirstWithId(jobs, id).value;
            ParseFile(p.file) == Ok(jobs[i := Complete(jobs[i], now)])
            && (forall k :: 0 <= k < i ==> jobs[k].id != id))
  {
    var jobs := ParseFile(file).value;
    if FirstWithId(jobs, id).Some? {
      var i := FirstWithId(jobs, id).value;
      WriteReadRoundTrip(jobs[i := Complete(jobs[i], now)]);
    }
  }

  /**
   * Commits `updated` with `write_jobs` exactly as written: when a row read
   * from `file` carries a key `DictWriter` refuses, `writerow` raises and the
   * file keeps only the header and the jobs before that row.
   */
  function CommitAsWritten<T>(file: seq<Record>, updated: seq<Job>, value: T): Pass<T>
    requires ParseFile(file).Ok? && |updated| == |ParseFile(file).value|
  {
    var w := WriteAsWritten(updated, FileForeignFlags(file));
    if w.raised then Pass(Raised(UnknownField), w.file) else Pass(Done(value), w.file)
  }

  /** `reserve_job`'s critical section with `write_jobs` as written. */
  function ReservePassAsWritten(file: seq<Record>, now: string): Pass<Option<Job>>
  {
    match ParseFile(file)
    case Err(e) => Pass(Raised(e), file)
    case Ok(jobs) =>
      match FirstPending(jobs)
      case None => Pass(Done(None), file)
      case Some(i) => CommitAsWritten(file, jobs[i := Claim(jobs[i], now)], Some(Claim(jobs[i], now)))
  }

  /** `mark_done`'s critical section with `write_jobs` as written. */
  function MarkDonePassAsWritten(file: seq<Record>, jobId: int, now: string): Pass<bool>
  {
    match ParseFile(file)
    case Err(e) => Pass(Raised(e), file)
    case Ok(jobs) =>
      match FirstWithId(jobs, jobId)
      case None => Pass(Done(false), file)
      case Some(i) => CommitAsWritten(file, jobs[i := Complete(jobs[i], now)], true)
  }

  /**
   * As written, a queue file whose only job is pending but carries a sixth
   * cell loses that job: the reservation raises after the header has been
   * rewritten. The corrected pass claims the job and keeps it.
   */
  lemma ReserveAsWrittenDropsQueue(job: Job, extra: Record, now: string)
    requires job.status == StatusPending && extra != []
    ensures var file := [QueueHeaders, EncodeJob(job) + extra];
      && ReservePassAsWritten(file, now) == Pass(Raised(UnknownField), [QueueHeaders])
      && ReservePass(file, now) == Pass(Done(Some(Claim(job, now))), SerializeJobs([Claim(job, now)]))
      && ParseFile(ReservePass(file, now).file) == Ok([Claim(job, now)])
  {
    SingleRecordFile(job, extra);
    assert [job][0 := Claim(job, now)] == [Claim(job, now)];
    assert [Claim(job, now)][..0] == [];
    assert SerializeJobs([]) == [QueueHeaders];
    WriteReadRoundTrip([Claim(job, now)]);
  }

  /** Without a refused key the as-written passes are the corrected ones. */
  lemma AsWrittenAgreesWithoutForeignKeys(file: seq<Record>, jobId: int, now: string)
    requires ParseFile(file).Ok?
    requires forall k :: 0 <= k < |FileForeignFlags(file)| ==> !FileForeignFlags(file)[k]
    ensures ReservePassAsWritten(file, now) == ReservePass(file, now)
    ensures MarkDonePassAsWritten(file, jobId, now) == MarkDonePass(file, jobId, now)
  {
  }

  /** The checks at the top of the consumer's `main`, before the queue is touched: `None` to go on, else the exit message. */
  function CheckConsumerArgs(pollInterval: real, workDuration: real): (r: Option<string>)
    ensures r.None? <==> pollInterval > 0.0 && workDuration > 0.0
    ensures pollInterval <= 0.0 ==> r == Some("poll-interval must be positive.")
    ensures pollInterval > 0.0 && workDuration <= 0.0 ==> r == Some("work-duration must be positive.")
  {
    if pollInterval <= 0.0 then Some("poll-interval must be positive.")
    else if workDuration <= 0.0 then Some("work-duration must be positive.")
    else None
  }


  /**
   * On a readable queue file a reservation returns; `None` exactly when no
   * job is pending, and then the file is not rewritten; otherwise the
   * returned job is the claimed record and the new file reads back as the
   * jobs with only that record changed.
   */
  lemma ReservePassReadsBack(file: seq<Record>, now: string)
    requires ParseFile(file).Ok?
    ensures var jobs := ParseFile(file).value;
      var p := ReservePass(file, now);
      && p.outcome.Done?
      && ParseFile(p.file) == Ok(AfterReserve(jobs, now))
      && (p.outcome.value.None? <==> forall k :: 0 <= k < |jobs| ==> jobs[k].status != StatusPending)
      && (p.outcome.value.None? ==> p.file == file)
      && (p.outcome.value.Some? ==> p.outcome.value.value == AfterReserve(jobs, now)[FirstPending(jobs).value])
  {
    var jobs := ParseFile(file).value;
    if FirstPending(jobs).Some? {
      WriteReadRoundTrip(AfterReserve(jobs, now));
    }
  }

  /** Two reservations in a row on the queue file never return the same id when the stored ids are unique. */
  lemma SuccessiveReservePassesDiffer(file: seq<Record>, t1: string, t2: string)
    requires ParseFile(file).Ok? && UniqueIds(ParseFile(file).value)
    ensures var p1 := ReservePass(file, t1);
      var p2 := ReservePass(p1.file, t2);
      && p1.outcome.Done? && p2.outcome.Done?
      && (p1.outcome.value.Some? && p2.outcome.value.Some? ==>
            p1.outcome.value.value.id != p2.outcome.value.value.id)
  {
    var jobs := ParseFile(file).value;
    ReservePassReadsBack(file, t1);
    var p1 := ReservePass(file, t1);
    ReservePassReadsBack(p1.file, t2);
    if p1.outcome.value.Some? {
      SuccessiveReservationsDiffer(jobs, t1);
    }
  }

  /**
   * The job a reservation hands out is found again by `mark_done`, which
   * answers true; with unique ids it is exactly that record that becomes
   * `done`.
   */
  lemma ReservedJobCompletes(file: seq<Record>, t1: string, t2: string)
    requires ParseFile(file).Ok?
    requires ReservePass(file, t1).outcome.Done? && ReservePass(file, t1).outcome.value.Some?
    ensures var jobs := ParseFile(file).value;
      var i := FirstPending(jobs).value;
      var job := ReservePass(file, t1).outcome.value.value;
      var m := MarkDonePass(ReservePass(file, t1).file, job.id, t2);
      && m.outcome == Done(true)
      && (UniqueIds(jobs) ==>
            ParseFile(m.file) == Ok(jobs[i := Complete(jobs[i], t2)]) && jobs[i].status == StatusPending)
  {
    var jobs := ParseFile(file).value;
    var i := FirstPending(jobs).value;
    ReservePassReadsBack(file, t1);
    var p1 := ReservePass(file, t1);
    var after := AfterReserve(jobs, t1);
    var job := p1.outcome.value.value;
    assert after[i] == job;
    MarkDonePassReadsBack(p1.file, job.id, t2);
    if UniqueIds(jobs) {
      CompleteAfterClaim(jobs, i, t1, t2);
    }
  }

  /** With unique ids, completing a claimed record finds it first and overwrites the claim. */
  lemma CompleteAfterClaim(jobs: seq<Job>, i: nat, t1: string, t2: string)
    requires UniqueIds(jobs) && i < |jobs|
    ensures var after := jobs[i := Claim(jobs[i], t1)];
      && FirstWithId(after, jobs[i].id) == Some(i)
      && after[i := Complete(after[i], t2)] == jobs[i := Complete(jobs[i], t2)]
  {
    var after := jobs[i := Claim(jobs[i], t1)];
    UpdateKeepsIdsUnique(jobs, i, Claim(jobs[i], t1));
    FirstWithIdUnique(after, i);
  }

  /** With unique ids, the first job with a job's id is that job. */
  lemma FirstWithIdUnique(jobs: seq<Job>, i: nat)
    requires UniqueIds(jobs) && i < |jobs|
    ensures FirstWithId(jobs, jobs[i].id) == Some(i)
  {
  }

  /** Updating one record without touching its id keeps the ids unique. */
  lemma UpdateKeepsIdsUnique(jobs: seq<Job>, i: nat, job: Job)
    requires UniqueIds(jobs) && i < |jobs| && job.id == jobs[i].id
    ensures UniqueIds(jobs[i := job])
  {
    var after := jobs[i := job];
    forall a, b | 0 <= a < b < |after| ensures after[a].id != after[b].id {
      assert after[a].id == jobs[a].id && after[b].id == jobs[b].id;
    }
  }

  /** What one iteration of the consumer loop did. */
  datatype Iteration = Idle | Worked(job: Job, markedDone: bool) | Blocked | Failed(error: QueueError)

  /**
   * The inputs of one iteration: the two clock readings and, for each of its
   * two locked calls, whether another process took the lock just before the
   * call (while this consumer polled or slept through the work) and the
   * trace of the call's wait for the lock.
   */
  datatype Round = Round(claimedAt: string, doneAt: string,
                         takenBeforeReserve: bool, reserveEnv: seq<Sleep>,
                         takenDuringWork: bool, markEnv: seq<Sleep>)

  /** No other process takes the lock during the round. */
  predicate Uncontended(round: Round)
  {
    !round.takenBeforeReserve && !round.takenDuringWork
  }

  /** Another process creates the lock path; an `acquire` now waits until its holder removes it. */
  method TakenByOther(store: QueueStore)
    modifies store`lockFile
    ensures store.lockFile
  {
    store.lockFile := true;
  }

  /**
   * One iteration of the consumer loop: reserve a job; with none, idle; with
   * one, (after the simulated work) mark it done. The reservation runs on the
   * file found once the lock is ours, and `mark_done` on the file found once
   * the lock is ours again, which another holder during the work may have
   * rewritten. Uncontended, with the lock free and a readable file, the
   * iteration neither blocks nor fails, and the job it reserves is found
   * again and completed.
   */
  method ConsumeOnce(store: QueueStore, round: Round) returns (it: Iteration)
    modifies store
    ensures !it.Blocked? ==> !store.lockFile
    ensures var held := old(store.lockFile) || round.takenBeforeReserve;
      var p1 := ReservePass(FileAfterWait(Some(Ensured(old(store.queueFile))), held, round.reserveEnv).value,
                            round.claimedAt);
      if held && FirstRelease(round.reserveEnv).None? then it.Blocked?
      else match p1.outcome
        case StillWaiting => false
        case Raised(e) => it == Failed(e)
        case Done(None) => it == Idle && store.queueFile == Some(p1.file)
        case Done(Some(job)) =>
          var p2 := MarkDonePass(FileAfterWait(Some(p1.file), round.takenDuringWork, round.markEnv).value,
                                 job.id, round.doneAt);
          if round.takenDuringWork && FirstRelease(round.markEnv).None? then it.Blocked?
          else match p2.outcome
            case StillWaiting => false
            case Raised(e) => it == Failed(e)
            case Done(b) => it == Worked(job, b) && store.queueFile == Some(p2.file)
    ensures !old(store.lockFile) && Uncontended(round) && ParseFile(Ensured(old(store.queueFile))).Ok? ==>
      var jobs := ParseFile(Ensured(old(store.queueFile))).value;
      && (it.Idle? || it.Worked?)
      && store.queueFile.Some?
      && (it.Idle? ==> store.queueFile.value == Ensured(old(store.queueFile))
                       && forall k :: 0 <= k < |jobs| ==> jobs[k].status != StatusPending)
      && (it.Worked? ==>
            && it.markedDone
            && FirstPending(jobs).Some?
            && it.job == Claim(jobs[FirstPending(jobs).value], round.claimedAt)
            && (UniqueIds(jobs) ==>
                  var i := FirstPending(jobs).value;
                  ParseFile(store.queueFile.value) == Ok(jobs[i := Complete(jobs[i], round.doneAt)])))
  {
    if round.takenBeforeReserve {
      TakenByOther(store);
    }
    ghost var found := FileAfterWait(Some(Ensured(store.queueFile)), store.lockFile, round.reserveEnv).value;
    var reserved := ReserveJob(store, round.claimedAt, round.reserveEnv);
    if reserved.StillWaiting? {
      return Blocked;
    }
    if reserved.Raised? {
      return Failed(reserved.error);
    }
    if reserved.value.None? {
      ReservePassReadsBack(found, round.claimedAt);
      return Idle;
    }
    var job := reserved.value.value;
    ReservedJobCompletes(found, round.claimedAt, round.doneAt);
    if round.takenDuringWork {
      TakenByOther(store);
    }
    var marked := MarkDone(store, job.id, round.doneAt, round.markEnv);
    if marked.StillWaiting? {
      return Blocked;
    }
    if marked.Raised? {
      return Failed(marked.error);
    }
    return Worked(job, marked.value);
  }

  /** A locked pass another consumer may run while this one waits or works: a reservation or a `mark_done`. */
  datatype OtherPass = OtherReserve(at: string) | OtherMarkDone(jobId: int, at: string)

  /** The queue file the pass `p` leaves on `file`. */
  function AfterOther(file: seq<Record>, p: OtherPass): seq<Record>
  {
    match p
    case OtherReserve(t) => ReservePass(file, t).file
    case OtherMarkDone(id, t) => MarkDonePass(file, id, t).file
  }

  /** The queue file the passes `others`, run in order, leave on `file`. */
  function AfterOthers(file: seq<Record>, others: seq<OtherPass>): seq<Record>
    decreases |others|
  {
    if others == [] then file
    else AfterOther(AfterOthers(file, others[..|others| - 1]), others[|others| - 1])
  }

  /** Some job has the id `id`, and no job with that id is `pending`. */
  ghost predicate ClaimedIn(jobs: seq<Job>, id: int)
  {
    && (exists k :: 0 <= k < |jobs| && jobs[k].id == id)
    && (forall k :: 0 <= k < |jobs| && jobs[k].id == id ==> jobs[k].status != StatusPending)
  }

  /**
   * Another consumer's pass on a readable file keeps the file readable, the
   * ids unique and a claimed id claimed; a reservation never hands that id out.
   */
  lemma OtherPassKeepsClaim(file: seq<Record>, p: OtherPass, id: int)
    requires ParseFile(file).Ok? && UniqueIds(ParseFile(file).value) && ClaimedIn(ParseFile(file).value, id)
    ensures ParseFile(AfterOther(file, p)).Ok?
    ensures UniqueIds(ParseFile(AfterOther(file, p)).value) && ClaimedIn(ParseFile(AfterOther(file, p)).value, id)
    ensures p.OtherReserve? ==>
      var q := ReservePass(file, p.at);
      q.outcome.Done? && (q.outcome.value.Some? ==> q.outcome.value.value.id != id)
  {
    match p
    case OtherReserve(t) => OtherReserveKeepsClaim(file, t, id);
    case OtherMarkDone(j, t) => OtherMarkDoneKeepsClaim(file, j, t, id);
  }

  /** The reservation case of `OtherPassKeepsClaim`. */
  lemma OtherReserveKeepsClaim(file: seq<Record>, t: string, id: int)
    requires ParseFile(file).Ok? && UniqueIds(ParseFile(file).value) && ClaimedIn(ParseFile(file).value, id)
    ensures var q := ReservePass(file, t);
      && q.outcome.Done? && (q.outcome.value.Some? ==> q.outcome.value.value.id != id)
      && ParseFile(q.file).Ok? && UniqueIds(ParseFile(q.file).value) && ClaimedIn(ParseFile(q.file).value, id)
  {
    ReservePassReadsBack(file, t);
    ClaimKeepsClaimed(ParseFile(file).value, t, id);
  }

  /** On the jobs: a reservation keeps the ids unique and a claimed id claimed, and does not pick that id. */
  lemma ClaimKeepsClaimed(jobs: seq<Job>, t: string, id: int)
    requires UniqueIds(jobs) && ClaimedIn(jobs, id)
    ensures UniqueIds(AfterReserve(jobs, t)) && ClaimedIn(AfterReserve(jobs, t), id)
    ensures FirstPending(jobs).Some? ==> jobs[FirstPending(jobs).value].id != id
  {
    var w :| 0 <= w < |jobs| && jobs[w].id == id;
    if FirstPending(jobs).Some? {
      var i := FirstPending(jobs).value;
      UpdateKeepsIdsUnique(jobs, i, Claim(jobs[i], t));
      assert AfterReserve(jobs, t)[w].id == id;
    }
  }

  /** The `mark_done` case of `OtherPassKeepsClaim`. */
  lemma OtherMarkDoneKeepsClaim(file: seq<Record>, j: int, t: string, id: int)
    requires ParseFile(file).Ok? && UniqueIds(ParseFile(file).value) && ClaimedIn(ParseFile(file).value, id)
    ensures var q := MarkDonePass(file, j, t);
      ParseFile(q.file).Ok? && UniqueIds(ParseFile(q.file).value) && ClaimedIn(ParseFile(q.file).value, id)
  {
    var jobs := ParseFile(file).value;
    var w :| 0 <= w < |jobs| && jobs[w].id == id;
    MarkDonePassReadsBack(file, j, t);
    if FirstWithId(jobs, j).Some? {
      var i := FirstWithId(jobs, j).value;
      var after := jobs[i := Complete(jobs[i], t)];
      UpdateKeepsIdsUnique(jobs, i, Complete(jobs[i], t));
      assert after[w].id == id;
    }
  }

  /** Any run of other consumers' passes keeps a readable file readable, the ids unique and a claimed id claimed. */
  lemma {:induction false} OthersKeepClaim(file: seq<Record>, others: seq<OtherPass>, id: int)
    requires ParseFile(file).Ok? && UniqueIds(ParseFile(file).value) && ClaimedIn(ParseFile(file).value, id)
    ensures ParseFile(AfterOthers(file, others)).Ok?
    ensures UniqueIds(ParseFile(AfterOthers(file, others)).value)
    ensures ClaimedIn(ParseFile(AfterOthers(file, others)).value, id)
    decreases |others|
  {
    if others != [] {
      var last := |others| - 1;
      OthersKeepClaim(file, others[..last], id);
      OtherPassKeepsClaim(AfterOthers(file, others[..last]), others[last], id);
    }
  }

  /** With unique ids, a reservation leaves a readable file with unique ids in which the id it handed out is claimed. */
  lemma ReservationClaims(file: seq<Record>, t: string)
    requires ParseFile(file).Ok? && UniqueIds(ParseFile(file).value)
    requires ReservePass(file, t).outcome.Done? && ReservePass(file, t).outcome.value.Some?
    ensures var p := ReservePass(file, t);
      && ParseFile(p.file).Ok? && UniqueIds(ParseFile(p.file).value)
      && ClaimedIn(ParseFile(p.file).value, p.outcome.value.value.id)
  {
    var jobs := ParseFile(file).value;
    var i := FirstPending(jobs).value;
    ReservePassReadsBack(file, t);
    var after := AfterReserve(jobs, t);
    var id := ReservePass(file, t).outcome.value.value.id;
    assert after[i].id == id && after[i].status == StatusInProgress;
    UpdateKeepsIdsUnique(jobs, i, after[i]);
  }

  /**
   * Once an id is claimed in a readable file with unique ids, no reservation
   * in any run of other consumers' passes hands it out, and `mark_done` of it
   * after the run answers true.
   */
  lemma OthersNeverHandOut(file: seq<Record>, others: seq<OtherPass>, id: int, t: string)
    requires ParseFile(file).Ok? && UniqueIds(ParseFile(file).value) && ClaimedIn(ParseFile(file).value, id)
    ensures forall k :: 0 <= k < |others| && others[k].OtherReserve? ==>
      var q := ReservePass(AfterOthers(file, others[..k]), others[k].at);
      q.outcome.Done? && (q.outcome.value.Some? ==> q.outcome.value.value.id != id)
    ensures MarkDonePass(AfterOthers(file, others), id, t).outcome == Done(true)
  {
    forall k | 0 <= k < |others| && others[k].OtherReserve?
      ensures var q := ReservePass(AfterOthers(file, others[..k]), others[k].at);
        q.outcome.Done? && (q.outcome.value.Some? ==> q.outcome.value.value.id != id)
    {
      OthersKeepClaim(file, others[..k], id);
      OtherPassKeepsClaim(AfterOthers(file, others[..k]), others[k], id);
    }
    OthersKeepClaim(file, others, id);
    MarkDonePassReadsBack(AfterOthers(file, others), id, t);
  }

  /**
   * With unique ids, whatever reservations and `mark_done` calls other
   * consumers run between this consumer's reservation and its `mark_done`,
   * none of them hands out the job it reserved, and its `mark_done` still
   * finds the job and answers true.
   */
  lemma ReservedJobSurvivesOthers(file: seq<Record>, t1: string, others: seq<OtherPass>, t2: string)
    requires ParseFile(file).Ok? && UniqueIds(ParseFile(file).value)
    requires ReservePass(file, t1).outcome.Done? && ReservePass(file, t1).outcome.value.Some?
    ensures var p1 := ReservePass(file, t1);
      var id := p1.outcome.value.value.id;
      && (forall k :: 0 <= k < |others| && others[k].OtherReserve? ==>
            var q := ReservePass(AfterOthers(p1.file, others[..k]), others[k].at);
            q.outcome.Done? && (q.outcome.value.Some? ==> q.outcome.value.value.id != id))
      && MarkDonePass(AfterOthers(p1.file, others), id, t2).outcome == Done(true)
  {
    ReservationClaims(file, t1);
    var p1 := ReservePass(file, t1);
    OthersNeverHandOut(p1.file, others, p1.outcome.value.value.id, t2);
  }

  /**
   * An iteration of a consumer among other consumers, started with the lock
   * free on a readable file with unique ids: when the lock is taken during
   * the work and released, the holder has left the file its passes `others`
   * made of the file the reservation wrote. Then the job it works is marked
   * done.
   */
  method ConsumeAmongOthers(store: QueueStore, round: Round, ghost others: seq<OtherPass>) returns (it: Iteration)
    requires !store.lockFile && !round.takenBeforeReserve
    requires ParseFile(Ensured(store.queueFile)).Ok? && UniqueIds(ParseFile(Ensured(store.queueFile)).value)
    requires round.takenDuringWork && FirstRelease(round.markEnv).Some? ==>
      var p1 := ReservePass(Ensured(store.queueFile), round.claimedAt);
      FileAfterWait(Some(p1.file), true, round.markEnv) == Some(AfterOthers(p1.file, others))
    modifies store
    ensures it.Idle? || it.Worked? || it.Blocked?
    ensures it.Worked? ==> it.markedDone
    ensures it.Blocked? ==> round.takenDuringWork && FirstRelease(round.markEnv).None?
  {
    ghost var file := Ensured(store.queueFile);
    ReservePassReadsBack(file, round.claimedAt);
    ghost var p1 := ReservePass(file, round.claimedAt);
    if p1.outcome.value.Some? {
      ReservedJobSurvivesOthers(file, round.claimedAt, others, round.doneAt);
      ReservedJobCompletes(file, round.claimedAt, round.doneAt);
    }
    it := ConsumeOnce(store, round);
  }

  /** How the consumer run ended: rejected arguments, or the log of the iterations run before it stopped. */
  datatype Run = Rejected(message: string) | Ran(log: seq<Iteration>)

  /** Some job of `jobs` with the id `id` is `done`. */
  ghost predicate DoneIn(jobs: seq<Job>, id: int)
  {
    exists k :: 0 <= k < |jobs| && jobs[k].id == id && jobs[k].status == StatusDone
  }

  /**
   * What a consumer running alone keeps true of the stored jobs and its log:
   * ids are unique, no iteration blocked or failed, every job it reserved was
   * found again by `mark_done` and is `done` in the store, and no job was
   * reserved twice.
   */
  ghost predicate Tracked(jobs: seq<Job>, log: seq<Iteration>)
  {
    && UniqueIds(jobs)
    && (forall k :: 0 <= k < |log| ==> log[k].Idle? || log[k].Worked?)
    && (forall k :: 0 <= k < |log| && log[k].Worked? ==> log[k].markedDone && DoneIn(jobs, log[k].job.id))
    && (forall a, b :: 0 <= a < b < |log| && log[a].Worked? && log[b].Worked? ==>
          log[a].job.id != log[b].job.id)
  }

  /** An idle iteration keeps the tracked facts. */
  lemma IdleStep(jobs: seq<Job>, log: seq<Iteration>)
    requires Tracked(jobs, log)
    ensures Tracked(jobs, log + [Idle])
  {
    var log' := log + [Idle];
    assert forall k :: 0 <= k < |log| ==> log'[k] == log[k];
  }

  /** An iteration that reserved and completed the first pending job keeps the tracked facts. */
  lemma WorkedStep(jobs: seq<Job>, log: seq<Iteration>, claimedAt: string, doneAt: string)
    requires Tracked(jobs, log)
    requires FirstPending(jobs).Some?
    ensures var i := FirstPending(jobs).value;
      Tracked(jobs[i := Complete(jobs[i], doneAt)], log + [Worked(Claim(jobs[i], claimedAt), true)])
  {
    var i := FirstPending(jobs).value;
    var it := Worked(Claim(jobs[i], claimedAt), true);
    var after := jobs[i := Complete(jobs[i], doneAt)];
    var log' := log + [it];
    UpdateKeepsIdsUnique(jobs, i, Complete(jobs[i], doneAt));
    forall k | 0 <= k < |log| && log[k].Worked?
      ensures log[k].job.id != it.job.id && DoneIn(after, log[k].job.id)
    {
      var w :| 0 <= w < |jobs| && jobs[w].id == log[k].job.id && jobs[w].status == StatusDone;
      assert w != i;
      assert after[w] == jobs[w];
    }
    assert after[i].id == it.job.id && after[i].status == StatusDone;
    assert forall k :: 0 <= k < |log| ==> log'[k] == log[k];
  }

  /**
   * The consumer's `main`: bad arguments stop it before the queue is
   * touched; otherwise it runs one iteration per round until the rounds end
   * (the interruption), an iteration blocks on the lock, or reading the file
   * raises. Run alone (no other process takes the lock) on a readable file
   * with unique ids and a free lock, every round completes, no job is handed out twice and every job it
   * reserved ends `done`.
   */
  method RunConsumer(store: QueueStore, pollInterval: real, workDuration: real, rounds: seq<Round>)
    returns (r: Run)
    modifies store
    ensures CheckConsumerArgs(pollInterval, workDuration).Some? ==>
      r == Rejected(CheckConsumerArgs(pollInterval, workDuration).value) && unchanged(store)
    ensures CheckConsumerArgs(pollInterval, workDuration).None? ==> r.Ran? && |r.log| <= |rounds|
    ensures r.Ran? && !old(store.lockFile) && (forall k :: 0 <= k < |rounds| ==> Uncontended(rounds[k]))
            && ParseFile(Ensured(old(store.queueFile))).Ok?
            && UniqueIds(ParseFile(Ensured(old(store.queueFile))).value) ==>
      && |r.log| == |rounds| && !store.lockFile
      && ParseFile(Ensured(store.queueFile)).Ok?
      && Tracked(ParseFile(Ensured(store.queueFile)).value, r.log)
  {
    var check := CheckConsumerArgs(pollInterval, workDuration);
    if check.Some? {
      return Rejected(check.value);
    }
    ghost var alone := !store.lockFile && (forall k :: 0 <= k < |rounds| ==> Uncontended(rounds[k]))
                       && ParseFile(Ensured(store.queueFile)).Ok?
                       && UniqueIds(ParseFile(Ensured(store.queueFile)).value);
    ghost var jobs: seq<Job> := if alone then ParseFile(Ensured(store.queueFile)).value else [];
    var log: seq<Iteration> := [];
    var n := 0;
    while n < |rounds|
      invariant n <= |rounds| && |log| == n
      invariant alone ==> !store.lockFile && ParseFile(Ensured(store.queueFile)) == Ok(jobs) && Tracked(jobs, log)
    {
      ghost var before := jobs;
      var it := ConsumeOnce(store, rounds[n]);
      if alone {
        if it.Idle? {
          IdleStep(before, log);
        } else {
          WorkedStep(before, log, rounds[n].claimedAt, rounds[n].doneAt);
          var i := FirstPending(before).value;
          jobs := before[i := Complete(before[i], rounds[n].doneAt)];
        }
      }
      log := log + [it];
      if it.Blocked? || it.Failed? {
        return Ran(log);
      }
      n := n + 1;
    }
    return Ran(log);
  }
}
