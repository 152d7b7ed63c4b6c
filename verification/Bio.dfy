/**
  Background jobs of one type (redis-stable/src/bio.c): the atomic steps of the threads that create jobs, of those that
  ask for the number of pending jobs, and of the one worker, in any interleaving.
 */
module Bio {
  import opened Bytes

  datatype Node<J> = Node(id: nat, job: J)

  /** Where a thread other than the worker is; upTo is the number of jobs submitted before a count was read. */
  datatype Pc<J> = Idle
                 | Created(job: J) | Locked(job: J) | Appended | Counted | Signalled
                 | Asked | Asking | Read(val: int, upTo: nat) | Answered(val: int, upTo: nat)

  datatype WorkerPc<J> = Start | Top | Waiting(signalled: bool)
                       | Took(ln: Node<J>) | Running(ln: Node<J>) | Ran(ln: Node<J>) | Relocked(ln: Node<J>)
                       | Deleted

  datatype Owner = Free | ByWorker | ByThread(t: nat)

  /** bio_mutex, bio_jobs and bio_pending of one type; submitted and finished record what happened. */
  datatype State<J> = State(owner: Owner, list: seq<Node<J>>, pending: int, nextId: nat, worker: WorkerPc<J>,
                            threads: map<nat, Pc<J>>, submitted: seq<J>, finished: seq<J>)

  datatype Step<J> = Create(t: nat, job: J)
                   | Lock(t: nat) | Append(t: nat) | Count(t: nat) | Signal(t: nat) | Unlock(t: nat)
                   | Ask(t: nat) | LockAsking(t: nat) | ReadCount(t: nat) | UnlockAsking(t: nat)
                   | WStart | WWait | WWake | WTake | WUnlock | WRun | WRelock | WDelete | WDecrement

  function PcOf<J>(s: State<J>, t: nat): Pc<J> {
    if t in s.threads then s.threads[t] else Idle
  }

  function At<J>(s: State<J>, t: nat, pc: Pc<J>): State<J> {
    s.(threads := s.threads[t := pc])
  }

  /** listDelNode: the node is removed wherever it is. */
  function RemoveNode<J>(l: seq<Node<J>>, id: nat): seq<Node<J>> {
    if l == [] then [] else if l[0].id == id then l[1..] else [l[0]] + RemoveNode(l[1..], id)
  }

  predicate Enabled<J>(s: State<J>, e: Step<J>) {
    match e
    case Create(t, _) => PcOf(s, t).Idle? || PcOf(s, t).Answered?
    case Lock(t) => PcOf(s, t).Created? && s.owner == Free
    case Append(t) => PcOf(s, t).Locked?
    case Count(t) => PcOf(s, t).Appended?
    case Signal(t) => PcOf(s, t).Counted?
    case Unlock(t) => PcOf(s, t).Signalled?
    case Ask(t) => PcOf(s, t).Idle? || PcOf(s, t).Answered?
    case LockAsking(t) => PcOf(s, t).Asked? && s.owner == Free
    case ReadCount(t) => PcOf(s, t).Asking?
    case UnlockAsking(t) => PcOf(s, t).Read?
    case WStart => s.worker.Start? && s.owner == Free
    case WWait => s.worker.Top? && s.list == []
    case WWake => s.worker.Waiting? && s.owner == Free
    case WTake => s.worker.Top? && s.list != []
    case WUnlock => s.worker.Took?
    case WRun => s.worker.Running?
    case WRelock => s.worker.Ran? && s.owner == Free
    case WDelete => s.worker.Relocked?
    case WDecrement => s.worker.Deleted?
  }

  /** The steps of bioCreateBackgroundJob and bioPendingJobsOfType. */
  function ThreadNext<J>(s: State<J>, e: Step<J>): State<J>
    requires Enabled(s, e)
  {
    match e
    case Create(t, job) => At(s, t, Created(job))
    case Lock(t) => At(s, t, Locked(PcOf(s, t).job)).(owner := ByThread(t))
    case Append(t) =>
      var job := PcOf(s, t).job;
      At(s, t, Appended).(list := s.list + [Node(s.nextId, job)], nextId := s.nextId + 1,
                          submitted := s.submitted + [job])
    case Count(t) => At(s, t, Counted).(pending := s.pending + 1)
    case Signal(t) => At(s, t, Signalled).(worker := if s.worker.Waiting? then Waiting(true) else s.worker)
    case Unlock(t) => At(s, t, Idle).(owner := Free)
    case Ask(t) => At(s, t, Asked)
    case LockAsking(t) => At(s, t, Asking).(owner := ByThread(t))
    case ReadCount(t) => At(s, t, Read(s.pending, |s.submitted|))
    case UnlockAsking(t) => At(s, t, Answered(PcOf(s, t).val, PcOf(s, t).upTo)).(owner := Free)
    case _ => s
  }

  /** The steps of bioProcessBackgroundJobs; waiting on the condition releases the lock, and may end spuriously. */
  function WorkerNext<J>(s: State<J>, e: Step<J>): State<J>
    requires Enabled(s, e)
  {
    match e
    case WStart => s.(worker := Top, owner := ByWorker)
    case WWait => s.(worker := Waiting(false), owner := Free)
    case WWake => s.(worker := Top, owner := ByWorker)
    case WTake => s.(worker := Took(s.list[0]))
    case WUnlock => s.(worker := Running(s.worker.ln), owner := Free)
    case WRun => s.(worker := Ran(s.worker.ln), finished := s.finished + [s.worker.ln.job])
    case WRelock => s.(worker := Relocked(s.worker.ln), owner := ByWorker)
    case WDelete => s.(worker := Deleted, list := RemoveNode(s.list, s.worker.ln.id))
    case WDecrement => s.(worker := Top, pending := s.pending - 1)
    case _ => s
  }

  predicate IsWorkerStep<J>(e: Step<J>) {
    e.WStart? || e.WWait? || e.WWake? || e.WTake? || e.WUnlock? || e.WRun? || e.WRelock? || e.WDelete? || e.WDecrement?
  }

  function Next<J>(s: State<J>, e: Step<J>): State<J>
    requires Enabled(s, e)
  {
    if IsWorkerStep(e) then WorkerNext(s, e) else ThreadNext(s, e)
  }

  // ---- The invariant ----

  /** The thread is between taking and releasing the lock. */
  predicate Holds<J>(pc: Pc<J>) {
    pc.Locked? || pc.Appended? || pc.Counted? || pc.Signalled? || pc.Asking? || pc.Read?
  }

  predicate WorkerHolds<J>(w: WorkerPc<J>) {
    w.Top? || w.Took? || w.Relocked? || w.Deleted?
  }

  /** Only one thread at a time is between taking and releasing the lock. */
  ghost predicate Exclusive<J>(s: State<J>) {
    && (WorkerHolds(s.worker) <==> s.owner == ByWorker)
    && (forall t :: Holds(PcOf(s, t)) <==> s.owner == ByThread(t))
  }

  /** How many nodes the counter is behind the list. */
  function Behind<J>(s: State<J>): int {
    (if s.owner.ByThread? && PcOf(s, s.owner.t).Appended? then 1 else 0) - (if s.worker.Deleted? then 1 else 0)
  }

  function Jobs<J>(l: seq<Node<J>>): (r: seq<J>)
    ensures |r| == |l|
  {
    seq(|l|, i requires 0 <= i < |l| => l[i].job)
  }

  ghost predicate UniqueIds<J>(s: State<J>) {
    && (forall i :: 0 <= i < |s.list| ==> s.list[i].id < s.nextId)
    && (forall i, j :: 0 <= i < j < |s.list| ==> s.list[i].id != s.list[j].id)
  }

  /** The node that the worker took is still the head of the list. */
  ghost predicate TookHead<J>(s: State<J>) {
    s.worker.Took? || s.worker.Running? || s.worker.Ran? || s.worker.Relocked? ==>
      s.list != [] && s.list[0] == s.worker.ln
  }

  /** Jobs that ran but whose node is still in the list. */
  function RanInList<J>(s: State<J>): nat {
    if s.worker.Ran? || s.worker.Relocked? then 1 else 0
  }

  /** Every submitted job has finished or is in the list, in the order of submission. */
  ghost predicate Fifo<J>(s: State<J>) {
    && RanInList(s) <= |s.list|
    && s.submitted == s.finished + Jobs(s.list[RanInList(s)..])
  }

  /** A worker that waits unsignalled has nothing to do, or will be signalled. */
  ghost predicate NoLostSignal<J>(s: State<J>) {
    s.worker == Waiting(false) ==>
      s.list == [] || (s.owner.ByThread? && (PcOf(s, s.owner.t).Appended? || PcOf(s, s.owner.t).Counted?))
  }

  /** A count of 0 means that every job submitted before it was read has finished. */
  ghost predicate ZeroMeansDone<J>(s: State<J>) {
    forall t :: PcOf(s, t).Read? || PcOf(s, t).Answered? ==>
      PcOf(s, t).upTo <= |s.submitted| && (PcOf(s, t).val == 0 ==> PcOf(s, t).upTo <= |s.finished|)
  }

  /** The counter agrees with the list but for a node that was just added or removed under the lock. */
  ghost predicate CounterOk<J>(s: State<J>) {
    && |s.list| == s.pending + Behind(s)
    && (s.owner.ByThread? && PcOf(s, s.owner.t).Appended? ==> s.list != [])
  }

  ghost predicate Inv<J>(s: State<J>) {
    && Exclusive(s)
    && CounterOk(s)
    && UniqueIds(s) && TookHead(s) && Fifo(s) && NoLostSignal(s) && ZeroMeansDone(s)
  }

  lemma RemoveHead<J>(l: seq<Node<J>>)
    requires l != []
    ensures RemoveNode(l, l[0].id) == l[1..]
  {
  }

  lemma JobsAppend<J>(l: seq<Node<J>>, n: Node<J>, k: nat)
    requires k <= |l|
    ensures Jobs((l + [n])[k..]) == Jobs(l[k..]) + [n.job]
  {
  }

  lemma JobsHead<J>(l: seq<Node<J>>)
    requires l != []
    ensures Jobs(l) == [l[0].job] + Jobs(l[1..]) && l[0..] == l && l[1..][0..] == l[1..]
  {
  }

  lemma ExclusiveKeeps<J>(s: State<J>, e: Step<J>)
    requires Exclusive(s) && Enabled(s, e)
    ensures Exclusive(Next(s, e))
  {
    hide RemoveNode;
  }

  lemma CountKeeps<J>(s: State<J>, e: Step<J>)
    requires Exclusive(s) && TookHead(s) && Enabled(s, e) && CounterOk(s)
    ensures CounterOk(Next(s, e))
  {
    if e.WDelete? { RemoveHead(s.list); }
    hide RemoveNode;
  }

  lemma IdsKeep<J>(s: State<J>, e: Step<J>)
    requires TookHead(s) && UniqueIds(s) && Enabled(s, e)
    ensures UniqueIds(Next(s, e))
  {
    if e.WDelete? { RemoveHead(s.list); }
    hide RemoveNode, TookHead;
  }

  lemma HeadKeeps<J>(s: State<J>, e: Step<J>)
    requires TookHead(s) && Enabled(s, e)
    ensures TookHead(Next(s, e))
  {
    hide RemoveNode;
  }

  lemma FifoKeeps<J>(s: State<J>, e: Step<J>)
    requires TookHead(s) && Fifo(s) && Enabled(s, e)
    ensures Fifo(Next(s, e))
  {
    hide Jobs;
    if e.Append? {
      JobsAppend(s.list, Node(s.nextId, PcOf(s, e.t).job), RanInList(s));
    } else if e.WRun? {
      JobsHead(s.list);
    } else if e.WDelete? {
      RemoveHead(s.list);
      JobsHead(s.list);
    }
    hide RemoveNode;
  }

  lemma SignalKeeps<J>(s: State<J>, e: Step<J>)
    requires Exclusive(s) && NoLostSignal(s) && Enabled(s, e)
    ensures NoLostSignal(Next(s, e))
  {
    hide RemoveNode;
  }

  /** When the count is read it is the number of jobs that have not finished, or one more for the job that just ran. */
  lemma CountCovers<J>(s: State<J>, t: nat)
    requires Inv(s) && PcOf(s, t).Asking?
    ensures s.pending == |s.list| && |s.submitted| - |s.finished| <= s.pending
  {
    hide Jobs, UniqueIds, TookHead, NoLostSignal, ZeroMeansDone;
    assert Holds(PcOf(s, t));
    assert s.owner == ByThread(t);
    assert Behind(s) == 0;
    assert s.pending == |s.list|;
    assert |s.submitted| == |s.finished| + |Jobs(s.list[RanInList(s)..])|;
  }

  /** What a thread knows about the past comes from the lock it gives back, or stays as it was. */
  lemma AnswersStay<J>(s: State<J>, e: Step<J>, t: nat)
    requires Enabled(s, e)
    requires PcOf(Next(s, e), t).Read? || PcOf(Next(s, e), t).Answered?
    ensures var (was, now) := (PcOf(s, t), PcOf(Next(s, e), t));
            if e == ReadCount(t) then was.Asking? && now == Read(s.pending, |s.submitted|)
            else (was.Read? || was.Answered?) && now.val == was.val && now.upTo == was.upTo
  {
    hide RemoveNode;
  }

  lemma CountsGrow<J>(s: State<J>, e: Step<J>)
    requires Enabled(s, e)
    ensures |Next(s, e).finished| >= |s.finished| && |Next(s, e).submitted| >= |s.submitted|
  {
    hide RemoveNode;
  }

  lemma ZeroKeeps<J>(s: State<J>, e: Step<J>)
    requires Inv(s) && Enabled(s, e)
    ensures ZeroMeansDone(Next(s, e))
  {
    if e.ReadCount? { CountCovers(s, e.t); }
    CountsGrow(s, e);
    hide Next, Enabled, Exclusive, UniqueIds, TookHead, Fifo, NoLostSignal, CounterOk;
    var n := Next(s, e);
    forall t | PcOf(n, t).Read? || PcOf(n, t).Answered?
      ensures PcOf(n, t).upTo <= |n.submitted| && (PcOf(n, t).val == 0 ==> PcOf(n, t).upTo <= |n.finished|)
    {
      AnswersStay(s, e, t);
    }
  }

  lemma StepKeeps<J>(s: State<J>, e: Step<J>)
    requires Inv(s) && Enabled(s, e)
    ensures Inv(Next(s, e))
  {
    ZeroKeeps(s, e);
    hide Exclusive, UniqueIds, TookHead, Fifo, NoLostSignal, ZeroMeansDone, CounterOk, Next, Enabled;
    ExclusiveKeeps(s, e);
    CountKeeps(s, e);
    IdsKeep(s, e);
    HeadKeeps(s, e);
    FifoKeeps(s, e);
    SignalKeeps(s, e);
  }

  // ---- Runs ----

  /** bioInit. */
  function Init<J>(): State<J> {
    State(Free, [], 0, 0, Start, map[], [], [])
  }

  ghost predicate AllEnabled<J>(s: State<J>, es: seq<Step<J>>)
    decreases |es|
  {
    es == [] || (Enabled(s, es[0]) && AllEnabled(Next(s, es[0]), es[1..]))
  }

  ghost function Run<J>(s: State<J>, es: seq<Step<J>>): State<J>
    requires AllEnabled(s, es)
    decreases |es|
  {
    if es == [] then s else Run(Next(s, es[0]), es[1..])
  }

  lemma {:induction false} RunKeeps<J>(s: State<J>, es: seq<Step<J>>)
    requires Inv(s) && AllEnabled(s, es)
    ensures Inv(Run(s, es))
    decreases |es|
  {
    hide Inv, Next, Enabled;
    if es != [] {
      StepKeeps(s, es[0]);
      RunKeeps(Next(s, es[0]), es[1..]);
    }
  }

  lemma NobodyStarted<J>(t: nat)
    ensures PcOf(Init<J>(), t) == Idle
  {
  }

  lemma NothingSubmitted<J>()
    ensures Fifo(Init<J>())
  {
    hide PcOf;
    assert Init<J>().list[0..] == [];
  }

  lemma NobodyInside<J>()
    ensures Exclusive(Init<J>()) && ZeroMeansDone(Init<J>())
  {
    hide PcOf;
    forall t: nat ensures PcOf(Init<J>(), t) == Idle {
      NobodyStarted<J>(t);
    }
  }

  lemma NothingCounted<J>()
    ensures CounterOk(Init<J>()) && NoLostSignal(Init<J>())
  {
  }

  lemma NothingListed<J>()
    ensures UniqueIds(Init<J>()) && TookHead(Init<J>())
  {
  }

  lemma InitOk<J>()
    ensures Inv(Init<J>())
  {
    hide Exclusive, UniqueIds, TookHead, Fifo, NoLostSignal, ZeroMeansDone, CounterOk, Init;
    NothingSubmitted<J>();
    NobodyInside<J>();
    NothingCounted<J>();
    NothingListed<J>();
  }

  /** The first n submitted jobs have finished. */
  predicate AllFinished<J(==)>(s: State<J>, n: nat) {
    n <= |s.submitted| && s.submitted[..n] <= s.finished
  }

  lemma Consequences<J>(s: State<J>)
    requires Inv(s)
    ensures s.finished <= s.submitted
    ensures s.owner == Free ==> s.pending == |s.list|
    ensures s.pending >= 0
    ensures s.worker.Relocked? ==> s.list != [] && s.list[0] == s.worker.ln
    ensures forall t :: PcOf(s, t).Answered? && PcOf(s, t).val == 0 ==> AllFinished(s, PcOf(s, t).upTo)
  {
    hide Jobs, UniqueIds, NoLostSignal;
    assert s.finished <= s.submitted;
    forall t | PcOf(s, t).Answered? && PcOf(s, t).val == 0
      ensures AllFinished(s, PcOf(s, t).upTo)
    {
      assert PcOf(s, t).upTo <= |s.finished|;
    }
  }

  /**
    In every interleaving: jobs finish at most once each and in the order in which they were submitted; the
    counter equals the length of the list whenever the lock is free, and never drops below zero; the node that the
    worker removes is still the head; and after an answer of 0 every job submitted before the count was read has
    finished.
   */
  lemma JobsFinishInOrder<J>(es: seq<Step<J>>)
    requires AllEnabled(Init<J>(), es)
    ensures var s := Run(Init<J>(), es);
            && s.finished <= s.submitted
            && (s.owner == Free ==> s.pending == |s.list|) && s.pending >= 0
            && (s.worker.Relocked? ==> s.list != [] && s.list[0] == s.worker.ln)
            && (forall t :: PcOf(s, t).Answered? && PcOf(s, t).val == 0 ==> AllFinished(s, PcOf(s, t).upTo))
  {
    hide *;
    InitOk<J>();
    RunKeeps(Init<J>(), es);
    Consequences(Run(Init<J>(), es));
  }

  // ---- Progress ----

  /** The step of the thread that holds the lock or, if none does, of the worker, unless it waits for a signal. */
  function Due<J>(s: State<J>): Option<Step<J>> {
    match s.owner
    case ByThread(t) =>
      (match PcOf(s, t)
       case Locked(_) => Some(Append(t))
       case Appended => Some(Count(t))
       case Counted => Some(Signal(t))
       case Signalled => Some(Unlock(t))
       case Asking => Some(ReadCount(t))
       case _ => Some(UnlockAsking(t)))
    case _ =>
      match s.worker
      case Start => Some(WStart)
      case Top => if s.list == [] then None else Some(WTake)
      case Waiting(signalled) => if signalled then Some(WWake) else None
      case Took(_) => Some(WUnlock)
      case Running(_) => Some(WRun)
      case Ran(_) => Some(WRelock)
      case Relocked(_) => Some(WDelete)
      case Deleted => Some(WDecrement)
  }

  /** The number of steps until nothing is due: six for each job, and what is left of the steps under way. */
  function Work<J>(s: State<J>): int {
    6 * |s.list|
    + (match s.worker
       case Start => 1
       case Top => 0
       case Waiting(signalled) => if signalled then 1 else 0
       case Took(_) => -1
       case Running(_) => -2
       case Ran(_) => -3
       case Relocked(_) => -4
       case Deleted => 1)
    + (if !s.owner.ByThread? then 0
       else
         match PcOf(s, s.owner.t)
         case Locked(_) => 11
         case Appended => 4
         case Counted => 3
         case Signalled => 1
         case Asking => 2
         case _ => 1)
  }

  ghost predicate BringsNearer<J>(s: State<J>, e: Step<J>) {
    Enabled(s, e) && (e.WWake? ==> s.worker == Waiting(true)) && 0 <= Work(Next(s, e)) < Work(s)
  }

  lemma HolderStep<J>(s: State<J>)
    requires Exclusive(s) && TookHead(s) && s.owner.ByThread?
    ensures Due(s).Some? && BringsNearer(s, Due(s).value)
  {
    hide RemoveNode;
    assert Holds(PcOf(s, s.owner.t));
  }

  lemma WorkerStep<J>(s: State<J>)
    requires Exclusive(s) && TookHead(s) && !s.owner.ByThread? && Due(s).Some?
    ensures BringsNearer(s, Due(s).value)
  {
    hide RemoveNode, PcOf;
    if s.worker.Relocked? {
      RemoveHead(s.list);
    }
  }

  /** What is due can be done, is no spurious wake-up, and brings the end nearer. */
  lemma DueStep<J>(s: State<J>)
    requires Inv(s) && Due(s).Some?
    ensures BringsNearer(s, Due(s).value)
  {
    hide Exclusive, UniqueIds, Fifo, NoLostSignal, ZeroMeansDone, CounterOk, TookHead, BringsNearer;
    if s.owner.ByThread? { HolderStep(s); } else { WorkerStep(s); }
  }

  /** No signal is lost: when nothing is due, no job is left. */
  lemma NothingDue<J>(s: State<J>)
    requires Inv(s) && Due(s).None?
    ensures s.list == [] && s.finished == s.submitted && s.pending == 0
  {
    hide UniqueIds, TookHead, ZeroMeansDone;
  }

  /** The first steps of what is due, as long as something is. */
  ghost predicate AllDue<J>(s: State<J>, es: seq<Step<J>>)
    requires AllEnabled(s, es)
    decreases |es|
  {
    es == [] || (Due(s) == Some(es[0]) && AllDue(Next(s, es[0]), es[1..]))
  }

  /**
    From every reachable state, whatever has happened and without relying on spurious wake-ups, letting the holder of
    the lock and then the worker go on finishes every job that was submitted.
   */
  lemma {:induction false} EverythingFinishes<J>(s: State<J>) returns (es: seq<Step<J>>)
    requires Inv(s)
    ensures AllEnabled(s, es) && AllDue(s, es) && (es != [] ==> |es| <= Work(s))
    ensures var s' := Run(s, es); Due(s').None? && s'.list == [] && s'.finished == s'.submitted && s'.pending == 0
    decreases Work(s)
  {
    hide Inv, Work, Due, Next, Enabled;
    es := [];
    if Due(s).None? {
      NothingDue(s);
    } else {
      var e := Due(s).value;
      DueStep(s);
      StepKeeps(s, e);
      var rest := EverythingFinishes(Next(s, e));
      es := [e] + rest;
      assert es[0] == e && es[1..] == rest;
    }
  }

  /** So no run leads to a deadlock or leaves a job behind for good. */
  lemma NeverStuck<J>(es: seq<Step<J>>) returns (more: seq<Step<J>>)
    requires AllEnabled(Init<J>(), es)
    ensures var s := Run(Init<J>(), es);
            && AllEnabled(s, more) && AllDue(s, more)
            && Run(s, more).finished == Run(s, more).submitted && Run(s, more).list == []
  {
    hide *;
    InitOk<J>();
    RunKeeps(Init<J>(), es);
    more := EverythingFinishes(Run(Init<J>(), es));
  }

  // ---- No job is lost or made up ----

  /** The threads that have created this job and not added it to the list yet. */
  ghost function Underway<J(!new)>(s: State<J>, job: J): set<nat> {
    set t | t in s.threads && Carries(s.threads[t], job)
  }

  function TimesCreated<J(==)>(es: seq<Step<J>>, job: J): nat {
    if es == [] then 0
    else (match es[0]
          case Create(_, x) => if x == job then 1 else 0
          case _ => 0) + TimesCreated(es[1..], job)
  }

  predicate Carries<J(==)>(pc: Pc<J>, job: J) {
    pc == Created(job) || pc == Locked(job)
  }

  lemma ThreadMoves<J(!new)>(s: State<J>, s': State<J>, t: nat, pc: Pc<J>, job: J)
    requires s'.threads == s.threads[t := pc]
    ensures |Underway(s', job)|
         == |Underway(s, job)| - (if Carries(PcOf(s, t), job) then 1 else 0) + if Carries(pc, job) then 1 else 0
  {
    assert !Carries(Idle, job);
    hide Carries;
    var a, b := Underway(s, job), Underway(s', job);
    assert t in a <==> Carries(PcOf(s, t), job);
    assert t in b <==> Carries(pc, job);
    assert forall u :: u != t ==> (u in b <==> u in a);
    hide *;
    SetMoves(a, b, t);
  }

  lemma SetMoves(a: set<nat>, b: set<nat>, t: nat)
    requires forall u :: u != t ==> (u in b <==> u in a)
    ensures |b| == |a| - (if t in a then 1 else 0) + if t in b then 1 else 0
  {
    assert b == if t in b then a + {t} else a - {t};
  }

  /** Only two steps matter: a job comes with its creation and is submitted when it is appended. */
  lemma StepMoves<J>(s: State<J>, e: Step<J>, job: J)
    requires Enabled(s, e)
    ensures IsWorkerStep(e) ==> Next(s, e).threads == s.threads && Next(s, e).submitted == s.submitted
    ensures !IsWorkerStep(e) ==>
              var pc := PcOf(Next(s, e), e.t);
              && Next(s, e).threads == s.threads[e.t := pc]
              && Next(s, e).submitted == s.submitted + (if e.Append? then [PcOf(s, e.t).job] else [])
              && (Carries(pc, job) <==> if e.Create? then e.job == job else Carries(PcOf(s, e.t), job) && !e.Append?)
              && (e.Create? ==> !Carries(PcOf(s, e.t), job))
              && (e.Append? ==> (Carries(PcOf(s, e.t), job) <==> PcOf(s, e.t).job == job))
  {
    hide RemoveNode;
  }

  lemma CreatedOnce<J>(e: Step<J>, job: J)
    ensures TimesCreated([e], job) == if e.Create? && e.job == job then 1 else 0
  {
    assert [e][1..] == [];
  }

  lemma StepConserves<J(!new)>(s: State<J>, e: Step<J>, job: J)
    requires Enabled(s, e)
    ensures var s' := Next(s, e);
            multiset(s'.submitted)[job] + |Underway(s', job)|
            == multiset(s.submitted)[job] + |Underway(s, job)| + TimesCreated([e], job)
  {
    var s' := Next(s, e);
    StepMoves(s, e, job);
    CreatedOnce(e, job);
    hide Next, Enabled, TimesCreated, Carries;
    if IsWorkerStep(e) {
      assert Underway(s', job) == Underway(s, job);
    } else {
      ThreadMoves(s, s', e.t, PcOf(s', e.t), job);
    }
    hide Underway, PcOf;
  }

  lemma OneMoreStep<J>(e: Step<J>, es: seq<Step<J>>, job: J)
    ensures TimesCreated([e] + es, job) == TimesCreated([e], job) + TimesCreated(es, job)
  {
    assert ([e] + es)[1..] == es && [e][1..] == [];
  }

  /** In every run, each job was created as often as it was submitted or is on its way. */
  lemma {:induction false} JobsConserved<J(!new)>(s: State<J>, es: seq<Step<J>>, job: J)
    requires AllEnabled(s, es)
    ensures var s' := Run(s, es);
            multiset(s'.submitted)[job] + |Underway(s', job)|
            == multiset(s.submitted)[job] + |Underway(s, job)| + TimesCreated(es, job)
    decreases |es|
  {
    if es != [] {
      StepConserves(s, es[0], job);
      OneMoreStep(es[0], es[1..], job);
      assert es == [es[0]] + es[1..];
      hide Next, Enabled, Underway, TimesCreated;
      JobsConserved(Next(s, es[0]), es[1..], job);
    }
  }

  /** What is answered is the number of nodes: the jobs that have not finished, or one more for a job that just ran. */
  lemma AnswerIsCount<J>(s: State<J>, t: nat)
    requires Inv(s) && Enabled(s, ReadCount(t))
    ensures var s1 := Next(s, ReadCount(t));
            && PcOf(s1, t) == Read(|s.list|, |s.submitted|)
            && 0 <= |s.list| - (|s.submitted| - |s.finished|) <= 1
            && Enabled(s1, UnlockAsking(t)) && PcOf(Next(s1, UnlockAsking(t)), t) == Answered(|s.list|, |s.submitted|)
  {
    CountCovers(s, t);
    hide Jobs, UniqueIds, TookHead, NoLostSignal, ZeroMeansDone, Exclusive, CounterOk;
    assert |s.submitted| == |s.finished| + |Jobs(s.list[RanInList(s)..])|;
  }
}
