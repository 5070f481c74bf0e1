/** `SystemJobsRepository`: the scraper's lock, one document of the
    `system_jobs` collection that three operations update in place. Times
    are integers given by the caller (`datetime.now` is not modelled). */
module SystemJobs {
  import opened Wrappers

  datatype Status = Idle | Running

  /** The lock document: `status`, `last_run` and `locked_at`. */
  datatype LockDoc = LockDoc(status: Status, lastRun: Option<int>, lockedAt: Option<int>)

  /** The document every run leaves behind: idle exactly when nobody holds
      the lock time. */
  predicate Consistent(d: Option<LockDoc>) {
    d.Some? ==> (d.value.status == Idle <==> d.value.lockedAt.None?)
  }

  /** The document as `ensure_scraper_lock_document` creates it. */
  const FreshDoc: LockDoc := LockDoc(Idle, None, None)

  /** `ensure_scraper_lock_document`: an upsert that only sets fields on
      insert. */
  function EnsureDoc(d: Option<LockDoc>): (e: Option<LockDoc>)
    ensures e.Some?
    ensures d.Some? ==> e == d
  {
    if d.None? then Some(FreshDoc) else d
  }

  /** `acquire_scraper_lock`: a find-and-update that matches only an idle
      document; the result says whether it matched, and the new
      document. */
  function AcquireDoc(d: Option<LockDoc>, now: int): (r: (bool, Option<LockDoc>))
    ensures r.0 <==> d.Some? && d.value.status == Idle
    ensures r.0 ==> r.1 == Some(LockDoc(Running, d.value.lastRun, Some(now)))
    ensures !r.0 ==> r.1 == d
  {
    if d.Some? && d.value.status == Idle then
      (true, Some(d.value.(status := Running, lockedAt := Some(now))))
    else (false, d)
  }

  /** `release_scraper_lock`: sets the document idle whatever its status,
      and changes nothing when there is no document. */
  function ReleaseDoc(d: Option<LockDoc>, now: int): (e: Option<LockDoc>)
    ensures d.None? ==> e.None?
    ensures d.Some? ==> e == Some(LockDoc(Idle, Some(now), None))
  {
    match d
    case None => None
    case Some(doc) => Some(doc.(status := Idle, lastRun := Some(now), lockedAt := None))
  }

  /** The lock document of the collection. */
  class ScraperLock {
    var doc: Option<LockDoc>

    /** A repository on a collection holding `existing`: `None` when it has
        no lock document yet. */
    constructor(existing: Option<LockDoc>)
      ensures doc == existing
    {
      doc := existing;
    }

    method Ensure()
      modifies this
      ensures doc == EnsureDoc(old(doc))
    {
      if doc.None? {
        doc := Some(FreshDoc);
      }
    }

    method Acquire(now: int) returns (acquired: bool)
      modifies this
      ensures (acquired, doc) == AcquireDoc(old(doc), now)
    {
      if doc.Some? && doc.value.status == Idle {
        doc := Some(LockDoc(Running, doc.value.lastRun, Some(now)));
        return true;
      }
      return false;
    }

    method Release(now: int)
      modifies this
      ensures doc == ReleaseDoc(old(doc), now)
    {
      if doc.Some? {
        doc := Some(LockDoc(Idle, Some(now), None));
      }
    }
  }

  /** One call on the lock. */
  datatype Op = EnsureOp | AcquireOp(now: int) | ReleaseOp(now: int)

  /** The document after a call. */
  function Step(d: Option<LockDoc>, op: Op): Option<LockDoc> {
    match op
    case EnsureOp => EnsureDoc(d)
    case AcquireOp(now) => AcquireDoc(d, now).1
    case ReleaseOp(now) => ReleaseDoc(d, now)
  }

  /** The document after a sequence of calls. */
  function Replay(d: Option<LockDoc>, ops: seq<Op>): Option<LockDoc>
    decreases |ops|
  {
    if |ops| == 0 then d else Replay(Step(d, ops[0]), ops[1..])
  }

  /** What each acquire in a sequence of calls returns (false for the other
      calls). */
  function Acquired(d: Option<LockDoc>, ops: seq<Op>): (r: seq<bool>)
    ensures |r| == |ops|
    decreases |ops|
  {
    if |ops| == 0 then []
    else [ops[0].AcquireOp? && AcquireDoc(d, ops[0].now).0] + Acquired(Step(d, ops[0]), ops[1..])
  }

  /** Every call keeps the document consistent. */
  lemma StepKeepsConsistent(d: Option<LockDoc>, op: Op)
    requires Consistent(d)
    ensures Consistent(Step(d, op))
  {
  }

  /** From an empty collection, or from any consistent document, every
      sequence of calls leaves a consistent document: idle exactly when
      there is no lock time. */
  lemma {:induction false} ReplayKeepsConsistent(d: Option<LockDoc>, ops: seq<Op>)
    requires Consistent(d)
    ensures Consistent(Replay(d, ops))
    decreases |ops|
  {
    if |ops| > 0 {
      StepKeepsConsistent(d, ops[0]);
      ReplayKeepsConsistent(Step(d, ops[0]), ops[1..]);
    }
  }

  /** Mutual exclusion: while the lock is held, no call but a release
      frees it, and every acquire fails. */
  lemma {:induction false} HeldLockExcludes(d: Option<LockDoc>, ops: seq<Op>)
    requires d.Some? && d.value.status == Running
    requires forall i :: 0 <= i < |ops| ==> !ops[i].ReleaseOp?
    ensures Replay(d, ops) == d
    ensures forall i :: 0 <= i < |ops| ==> !Acquired(d, ops)[i]
    decreases |ops|
  {
    if |ops| > 0 {
      assert Step(d, ops[0]) == d;
      HeldLockExcludes(d, ops[1..]);
      assert forall i :: 1 <= i < |ops| ==> Acquired(d, ops)[i] == Acquired(d, ops[1..])[i - 1];
    }
  }

  /** `ensure` is idempotent. */
  lemma EnsureIdempotent(d: Option<LockDoc>)
    ensures EnsureDoc(EnsureDoc(d)) == EnsureDoc(d)
  {
  }

  /** After `ensure`, a release followed by an acquire always succeeds. */
  lemma ReleaseThenAcquire(d: Option<LockDoc>, t1: int, t2: int)
    ensures AcquireDoc(ReleaseDoc(EnsureDoc(d), t1), t2).0
  {
  }

  /** The sequence of the lock's own test: ensure, acquire, acquire again,
      release, acquire. The first acquire succeeds exactly when the
      collection has no lock document or an idle one (always, on the
      test's fresh collection); the second never does, and the one after
      the release always does. */
  method LockScenario(existing: Option<LockDoc>, t1: int, t2: int, t3: int, t4: int)
    returns (first: bool, second: bool, third: bool)
    ensures first == (existing.None? || existing.value.status == Idle)
    ensures !second && third
  {
    var lock := new ScraperLock(existing);
    lock.Ensure();
    first := lock.Acquire(t1);
    second := lock.Acquire(t2);
    lock.Release(t3);
    third := lock.Acquire(t4);
  }
}
