/**
 * Following a file: every interleaving of the main thread's slots, the worker thread, the readers
 * and whoever writes the file.
 */
module FileFollowing {
  import opened Bytes
  import opened LineFeeds
  import opened LineIndex
  import opened Indexer
  import opened OperationQueue
  import opened FileHolder
  import opened LogDataSlots

  datatype Event = IndexingDone(successful: bool) | CheckDone(status: MonitoredFileStatus)

  /** `Finished`: the result is on its way to the main thread. */
  datatype Worker = Idle | Running(operation: Operation) | Finished(event: Event)

  /** What the worker's last run did; an extension is exact if the file still began with the indexed bytes. */
  datatype LastRun = NoRun | Indexed | Extended(exact: bool) | Cleared | Checked(status: MonitoredFileStatus)

  /**
   * The whole system. The last seven fields only record history: whether a file was attached, the
   * file was written after the last run read it, after the last notification, whether a
   * notification came after the last start, whether the file only grew since the last check,
   * whether the operation that this check asked for overtook one that was waiting, and what the
   * last run did.
   */
  datatype World = World(
    main: MainState, worker: Worker, interruptRequested: bool, feed: Feed, file: Option<seq<Byte>>,
    searches: nat, lineReads: nat,
    attached: bool, stale: bool, unnotified: bool, owed: bool, onlyGrew: bool, overtaken: bool, lastRun: LastRun)
  {
    function Content(): seq<Byte> {
      if file.Some? then file.value else []
    }

    function Readable(): bool {
      file.Some?
    }

    /** Nothing runs, nothing waits, no result is on its way. */
    predicate Quiescent() {
      attached && worker == Idle
    }
  }

  function Init(keepClosed: bool, file: Option<seq<Byte>>): World {
    World(MainState(QueueState(None, None, true, []), HolderState(keepClosed, 0, false, false), Unchanged),
          Idle, false, Nothing, file, 0, 0, false, false, false, false, false, false, NoRun)
  }

  datatype Step =
    | Write(content: Option<seq<Byte>>)
    | AttachFile
    | Reload
    | Notify(notification: Notification)
    | InterruptLoading
    | RunWorker(sizes: seq<nat>, interrupt: Interrupt)
    | Deliver
    | StartSearch | FinishSearch
    | StartLineRead | FinishLineRead

  /** A slot ran: an operation it started is handed to the idle worker, with the interrupt flag cleared. */
  function AfterSlot(w: World, main: MainState): (after: World)
    ensures after.overtaken == w.overtaken && after.main == main
  {
    if |main.queue.started| > |w.main.queue.started| then
      w.(main := main, worker := Running(main.queue.started[|main.queue.started| - 1]),
         interruptRequested := false, owed := false)
    else w.(main := main)
  }

  /** The first byte a run of this operation reads is behind this feed. */
  function StartFeed(w: World, operation: Operation): Feed {
    if operation.PartialReindexOperation? then w.feed else Nothing
  }

  ghost predicate Enabled(w: World, s: Step) {
    match s
    case Write(_) => true
    case AttachFile => !w.attached
    case Reload => w.attached
    case Notify(_) => w.attached
    case InterruptLoading => true
    case RunWorker(sizes, interrupt) =>
      && w.worker.Running?
      && (interrupt == Never <==> !w.interruptRequested)
      && (w.file.Some? && !w.worker.operation.CheckDataChangesOperation? ==>
            ReadSizes(|StartFeed(w, w.worker.operation).Bytes()|, w.file.value, sizes, interrupt))
    case Deliver => w.worker.Finished?
    case StartSearch => w.attached
    case FinishSearch => w.searches > 0
    case StartLineRead => w.attached
    case FinishLineRead => w.lineReads > 0
  }

  ghost function RunOutcome(w: World, interrupt: Interrupt): LastRun
    requires w.worker.Running?
  {
    if !Completes(interrupt) || w.file.None? then Cleared
    else if w.worker.operation.PartialReindexOperation? then Extended(w.feed.Bytes() <= w.file.value)
    else Indexed
  }

  ghost function Run(w: World, sizes: seq<nat>, interrupt: Interrupt): World
    requires Enabled(w, RunWorker(sizes, interrupt))
  {
    if w.worker.operation.CheckDataChangesOperation? then
      var status := CheckStatus(w.feed.Bytes(), w.file);
      w.(worker := Finished(CheckDone(status)), stale := false, onlyGrew := true, overtaken := false, lastRun := Checked(status))
    else
      w.(worker := Finished(IndexingDone(interrupt == Never)), stale := false,
         feed := AfterRun(StartFeed(w, w.worker.operation), w.file, sizes, interrupt),
         lastRun := RunOutcome(w, interrupt))
  }

  ghost function Apply(w: World, s: Step): World
    requires Enabled(w, s)
  {
    match s
    case Write(content) =>
      w.(file := content, stale := true, unnotified := true,
         onlyGrew := w.onlyGrew && w.file.Some? && content.Some? && w.file.value <= content.value)
    case AttachFile => AfterSlot(w.(attached := true), w.main.AttachFile(w.Readable()))
    case Reload => AfterSlot(w.(interruptRequested := true), w.main.Reload(w.Readable()))
    case Notify(n) =>
      if n.Ignored() then w
      else AfterSlot(w.(unnotified := false, owed := true), w.main.FileChanged(n, w.Readable()))
    case InterruptLoading => w.(interruptRequested := true)
    case RunWorker(sizes, interrupt) => Run(w, sizes, interrupt)
    case Deliver =>
      var idle := w.(worker := Idle);
      (match w.worker.event
       case IndexingDone(_) => AfterSlot(idle, w.main.IndexingFinished(w.Readable()))
       case CheckDone(status) =>
         AfterSlot(idle.(overtaken := w.main.queue.pending.Some? && w.main.FollowUp(status).Some?),
                   w.main.CheckFinished(status, w.Readable())))
    case StartSearch =>
      w.(searches := w.searches + 1, main := w.main.(holder := w.main.holder.AttachReader(w.Readable())))
    case FinishSearch =>
      w.(searches := w.searches - 1, main := w.main.(holder := w.main.holder.DetachReader()))
    case StartLineRead =>
      w.(lineReads := w.lineReads + 1, main := w.main.(holder := w.main.holder.AttachReader(w.Readable())))
    case FinishLineRead =>
      w.(lineReads := w.lineReads - 1, main := w.main.(holder := w.main.holder.DetachReader()))
  }

  // ---------- what every reachable state satisfies ----------

  ghost predicate WorkerMatchesQueue(w: World) {
    var q := w.main.queue;
    && q.hasWorker
    && (w.worker.Idle? <==> q.executing.None?)
    && (w.worker.Running? ==> q.executing == Some(w.worker.operation))
    && (w.worker.Finished? ==> (w.worker.event.CheckDone? <==> q.executing == Some(CheckDataChangesOperation)))
    && (q.executing.Some? ==> w.attached)
  }

  ghost predicate QueueInvariant(w: World) {
    var q := w.main.queue;
    && q.WellFormed()
    && q.pending != Some(PartialReindexOperation) && q.pending != Some(AttachOperation)
  }

  /** The flag is raised only while the operation that clears it is running. */
  ghost predicate FlagInvariant(w: World) {
    match w.main.fileChangedOnDisk
    case Truncated => w.main.queue.executing == Some(FullReindexOperation)
    case DataAdded => w.main.queue.executing == Some(PartialReindexOperation)
    case Unchanged => true
  }

  /** The open file itself, the executing operation, the searches and the line reads. */
  function Readers(w: World): nat {
    (if w.attached && !w.main.holder.keepClosed then 1 else 0) + (if w.main.queue.executing.Some? then 1 else 0)
    + w.searches + w.lineReads
  }

  ghost predicate ReaderInvariant(w: World) {
    w.main.holder.Counts(Readers(w)) && (w.searches + w.lineReads > 0 ==> w.attached)
  }

  /** No notification is forgotten: an operation that reads the file is running or will start after it. */
  ghost predicate NotificationInvariant(w: World) {
    && (w.owed ==> w.main.queue.pending.Some?)
    && (w.stale ==> w.unnotified || w.owed || w.worker.Running? || !w.attached)
  }

  /** A check found an extension, and the file only grew since: the indexed bytes are still its beginning. */
  ghost predicate PrefixInvariant(w: World) {
    w.onlyGrew
    && (w.worker == Finished(CheckDone(DataAdded)) || w.worker == Running(PartialReindexOperation))
    ==> w.feed.Bytes() <= w.Content()
  }

  /** What the last run tells about the indexed bytes as long as the file is not written again. */
  ghost predicate LastRunInvariant(w: World) {
    && (!w.stale && !w.worker.Running? && w.attached ==>
          match w.lastRun
          case NoRun => false
          case Indexed => w.feed.Bytes() == w.Content()
          case Extended(exact) => exact <==> w.feed.Bytes() == w.Content()
          case Cleared => w.feed.Bytes() == []
          case Checked(status) => status == CheckStatus(w.feed.Bytes(), w.file))
    && (w.worker == Idle && w.attached ==>
          !w.lastRun.NoRun? && (w.lastRun.Checked? ==> w.lastRun.status == Unchanged))
    && (w.worker.Finished? && w.worker.event.CheckDone? ==> w.lastRun == Checked(w.worker.event.status))
    && (w.worker.Finished? && w.worker.event.IndexingDone? ==> !w.lastRun.Checked? && !w.lastRun.NoRun?)
  }

  /** Some change is not notified yet, has an operation of its own waiting, or had one that was overtaken. */
  ghost predicate Accounted(w: World) {
    w.unnotified || w.owed || w.overtaken
  }

  /** A reindex on a file that did more than grow was not notified yet, or has overtaken a waiting operation. */
  ghost predicate OvertakenInvariant(w: World) {
    && (w.worker.Finished? && w.worker.event.CheckDone? ==> !w.overtaken)
    && ((w.worker == Finished(CheckDone(DataAdded)) || w.worker == Running(PartialReindexOperation)) && !w.onlyGrew
        ==> Accounted(w))
    && (!w.worker.Running? && w.attached && w.lastRun == Extended(false) ==> Accounted(w))
  }

  /** The queue, the flag and the counter are right. */
  ghost predicate Control(w: World) {
    WorkerMatchesQueue(w) && QueueInvariant(w) && FlagInvariant(w) && ReaderInvariant(w)
  }

  /** What was written, notified and read is accounted for. */
  ghost predicate History(w: World) {
    NotificationInvariant(w) && PrefixInvariant(w) && LastRunInvariant(w) && OvertakenInvariant(w)
  }

  ghost predicate Inv(w: World) {
    Control(w) && History(w)
  }

  lemma InitInv(keepClosed: bool, file: Option<seq<Byte>>)
    ensures Inv(Init(keepClosed, file))
  {
  }

  // ---------- every step keeps the invariant ----------

  /** The world after a slot that left `main` and started `op`, or nothing. */
  function Started(w: World, main: MainState, op: Option<Operation>): World {
    if op.Some? then w.(main := main, worker := Running(op.value), interruptRequested := false, owed := false)
    else w.(main := main)
  }

  lemma SlotStarts(w: World, main: MainState, op: Option<Operation>)
    requires main.queue.started == WithStarted(w.main.queue.started, op)
    ensures AfterSlot(w, main) == Started(w, main, op)
  {
  }

  /** Delivering the result of a run starts what waits. */
  lemma IndexingEffect(w: World)
    requires Enabled(w, Deliver) && w.worker.event.IndexingDone? && w.main.queue.hasWorker
    ensures var p := w.main.queue.pending;
            Apply(w, Deliver) == Started(w.(worker := Idle), Proceed(w.main, p, Unchanged, w.Readable()), p)
  {
    hide AfterSlot, Started, Proceed, WithStarted, MainState.IndexingFinished;
    IndexingFinishedStarts(w.main, w.Readable());
    SlotStarts(w.(worker := Idle), w.main.IndexingFinished(w.Readable()), w.main.queue.pending);
  }

  /** Delivering the result of a check starts what it asks for, or else what waits. */
  lemma CheckEffect(w: World)
    requires Enabled(w, Deliver) && w.worker.event.CheckDone? && w.main.queue.hasWorker && w.main.queue.executing.Some?
    ensures var q, status, followUp := w.main.queue, w.worker.event.status, w.main.FollowUp(w.worker.event.status);
            var op := if followUp.Some? then followUp else q.pending;
            var flag := if w.main.fileChangedOnDisk == Truncated then Truncated else status;
            Apply(w, Deliver)
            == Started(w.(worker := Idle, overtaken := q.pending.Some? && followUp.Some?),
                       Proceed(w.main, op, flag, w.Readable()), op)
  {
    DeliverCheckRuns(w);
    hide Apply, Enabled, AfterSlot, Started, Proceed, WithStarted, MainState.CheckFinished, MainState.FollowUp;
    var status, followUp := w.worker.event.status, w.main.FollowUp(w.worker.event.status);
    CheckFinishedStarts(w.main, status, w.Readable());
    SlotStarts(w.(worker := Idle, overtaken := w.main.queue.pending.Some? && followUp.Some?),
               w.main.CheckFinished(status, w.Readable()), if followUp.Some? then followUp else w.main.queue.pending);
  }

  lemma DeliverCheckRuns(w: World)
    requires Enabled(w, Deliver) && w.worker.event.CheckDone?
    ensures var status := w.worker.event.status;
            Apply(w, Deliver)
            == AfterSlot(w.(worker := Idle, overtaken := w.main.queue.pending.Some? && w.main.FollowUp(status).Some?),
                         w.main.CheckFinished(status, w.Readable()))
  {
    hide AfterSlot, MainState.CheckFinished, MainState.FollowUp;
  }

  lemma InvOf(w: World)
    requires Control(w) && History(w)
    ensures Inv(w)
  {
    hide Control, History;
  }

  lemma WriteInv(w: World, content: Option<seq<Byte>>)
    requires Inv(w)
    ensures Inv(Apply(w, Write(content)))
  {
  }

  lemma AttachInv(w: World)
    requires Inv(w) && Enabled(w, AttachFile)
    ensures Inv(Apply(w, AttachFile))
  {
  }

  lemma ReloadControl(w: World)
    requires Inv(w) && Enabled(w, Reload)
    ensures Control(Apply(w, Reload))
  {
    hide History, CheckStatus;
  }

  lemma ReloadHistory(w: World)
    requires Inv(w) && Enabled(w, Reload)
    ensures History(Apply(w, Reload))
  {
    hide FlagInvariant, ReaderInvariant, CheckStatus;
  }

  lemma ReloadInv(w: World)
    requires Inv(w) && Enabled(w, Reload)
    ensures Inv(Apply(w, Reload))
  {
    ReloadControl(w);
    ReloadHistory(w);
    hide *;
  }

  lemma NotifyControl(w: World, n: Notification)
    requires Inv(w) && Enabled(w, Notify(n))
    ensures Control(Apply(w, Notify(n)))
  {
    hide History, CheckStatus;
  }

  lemma NotifyHistory(w: World, n: Notification)
    requires Inv(w) && Enabled(w, Notify(n))
    ensures History(Apply(w, Notify(n)))
  {
    hide FlagInvariant, ReaderInvariant, CheckStatus;
  }

  lemma NotifyInv(w: World, n: Notification)
    requires Inv(w) && Enabled(w, Notify(n))
    ensures Inv(Apply(w, Notify(n)))
  {
    NotifyControl(w, n);
    NotifyHistory(w, n);
    hide *;
  }

  lemma ReaderStepControl(w: World, s: Step)
    requires Inv(w) && Enabled(w, s)
    requires s.StartSearch? || s.FinishSearch? || s.StartLineRead? || s.FinishLineRead? || s.InterruptLoading?
    ensures Control(Apply(w, s))
  {
    hide History;
  }

  lemma ReaderStepHistory(w: World, s: Step)
    requires Inv(w) && Enabled(w, s)
    requires s.StartSearch? || s.FinishSearch? || s.StartLineRead? || s.FinishLineRead? || s.InterruptLoading?
    ensures History(Apply(w, s))
  {
    hide Control, CheckStatus, HolderState.AttachReader, HolderState.DetachReader;
  }

  lemma DeliverIndexingInv(w: World)
    requires Inv(w) && Enabled(w, Deliver) && w.worker.event.IndexingDone?
    ensures Inv(Apply(w, Deliver))
  {
    DeliverIndexingControl(w);
    DeliverIndexingHistory(w);
    hide *;
    InvOf(Apply(w, Deliver));
  }

  lemma DeliverIndexingControl(w: World)
    requires Inv(w) && Enabled(w, Deliver) && w.worker.event.IndexingDone?
    ensures Control(Apply(w, Deliver))
  {
    DeliverIndexingQueue(w);
    DeliverIndexingReaders(w);
    hide Inv, Apply, WorkerMatchesQueue, QueueInvariant, FlagInvariant, ReaderInvariant;
  }

  lemma DeliverIndexingQueue(w: World)
    requires Inv(w) && Enabled(w, Deliver) && w.worker.event.IndexingDone?
    ensures var v := Apply(w, Deliver); WorkerMatchesQueue(v) && QueueInvariant(v) && FlagInvariant(v)
  {
    hide History, ReaderInvariant, Apply, WithStarted, Proceed;
    IndexingEffect(w);
  }

  lemma DeliverIndexingReaders(w: World)
    requires Inv(w) && Enabled(w, Deliver) && w.worker.event.IndexingDone?
    ensures ReaderInvariant(Apply(w, Deliver))
  {
    hide History, QueueInvariant, FlagInvariant, Apply, WithStarted, HolderState.Counts;
    hide HolderState.AttachReader, HolderState.DetachReader, MainState.FollowUp;
    IndexingEffect(w);
    var h, others := w.main.holder, Readers(w) - 1;
    DetachCounts(h, others);
    AttachCounts(h.DetachReader(), others, w.Readable());
  }

  lemma DeliverIndexingHistory(w: World)
    requires Inv(w) && Enabled(w, Deliver) && w.worker.event.IndexingDone?
    ensures History(Apply(w, Deliver))
  {
    hide FlagInvariant, ReaderInvariant, CheckStatus, Apply, Proceed, WithStarted;
    IndexingEffect(w);
  }

  lemma DeliverCheckInv(w: World)
    requires Inv(w) && Enabled(w, Deliver) && w.worker.event.CheckDone?
    ensures Inv(Apply(w, Deliver))
  {
    DeliverCheckControl(w);
    DeliverCheckHistory(w);
    hide *;
    InvOf(Apply(w, Deliver));
  }

  lemma DeliverCheckControl(w: World)
    requires Inv(w) && Enabled(w, Deliver) && w.worker.event.CheckDone?
    ensures Control(Apply(w, Deliver))
  {
    DeliverCheckQueue(w);
    DeliverCheckReaders(w);
    hide Inv, Apply, WorkerMatchesQueue, QueueInvariant, FlagInvariant, ReaderInvariant;
  }

  lemma DeliverCheckQueue(w: World)
    requires Inv(w) && Enabled(w, Deliver) && w.worker.event.CheckDone?
    ensures var v := Apply(w, Deliver); WorkerMatchesQueue(v) && QueueInvariant(v) && FlagInvariant(v)
  {
    hide History, ReaderInvariant, Apply, WithStarted, Proceed;
    CheckEffect(w);
  }

  lemma DeliverCheckReaders(w: World)
    requires Inv(w) && Enabled(w, Deliver) && w.worker.event.CheckDone?
    ensures ReaderInvariant(Apply(w, Deliver))
  {
    hide History, QueueInvariant, FlagInvariant, Apply, WithStarted, HolderState.Counts;
    hide HolderState.AttachReader, HolderState.DetachReader, MainState.FollowUp;
    CheckEffect(w);
    var h, others := w.main.holder, Readers(w) - 1;
    DetachCounts(h, others);
    AttachCounts(h.DetachReader(), others, w.Readable());
  }

  lemma DeliverCheckHistory(w: World)
    requires Inv(w) && Enabled(w, Deliver) && w.worker.event.CheckDone?
    ensures History(Apply(w, Deliver))
  {
    hide FlagInvariant, ReaderInvariant, CheckStatus, Apply, Proceed, WithStarted;
    CheckEffect(w);
  }

  lemma RunControl(w: World, sizes: seq<nat>, interrupt: Interrupt)
    requires Inv(w) && Enabled(w, RunWorker(sizes, interrupt))
    ensures Control(Apply(w, RunWorker(sizes, interrupt)))
  {
    hide History, CheckStatus, AfterRun, ReadSizes, RunOutcome, StartFeed;
  }

  lemma RunHistory(w: World, sizes: seq<nat>, interrupt: Interrupt)
    requires Inv(w) && Enabled(w, RunWorker(sizes, interrupt))
    ensures History(Apply(w, RunWorker(sizes, interrupt)))
  {
    hide FlagInvariant, ReaderInvariant, CheckStatus, AfterRun, ReadSizes;
    if w.worker.operation.CheckDataChangesOperation? {
      CheckRunHistory(w, sizes, interrupt);
    } else {
      RunReads(w, sizes, interrupt);
    }
  }

  lemma CheckRunHistory(w: World, sizes: seq<nat>, interrupt: Interrupt)
    requires Inv(w) && Enabled(w, RunWorker(sizes, interrupt)) && w.worker.operation.CheckDataChangesOperation?
    ensures History(Apply(w, RunWorker(sizes, interrupt)))
  {
    hide FlagInvariant, ReaderInvariant, CheckStatus, AfterRun, ReadSizes;
    CheckMeaning(w.feed.Bytes(), w.file);
  }

  lemma RunInv(w: World, sizes: seq<nat>, interrupt: Interrupt)
    requires Inv(w) && Enabled(w, RunWorker(sizes, interrupt))
    ensures Inv(Apply(w, RunWorker(sizes, interrupt)))
  {
    RunControl(w, sizes, interrupt);
    RunHistory(w, sizes, interrupt);
    hide *;
  }

  /** What an indexing run makes of the file it finds. */
  lemma RunReads(w: World, sizes: seq<nat>, interrupt: Interrupt)
    requires Enabled(w, RunWorker(sizes, interrupt)) && !w.worker.operation.CheckDataChangesOperation?
    ensures var bytes := Run(w, sizes, interrupt).feed.Bytes();
            match RunOutcome(w, interrupt)
            case Indexed => bytes == w.Content()
            case Extended(exact) => exact == (w.feed.Bytes() <= w.Content()) && (exact <==> bytes == w.Content())
            case Cleared => bytes == []
            case _ => false
  {
    hide AfterRun, ReadSizes;
    AfterRunBytes(StartFeed(w, w.worker.operation), w.file, sizes, interrupt);
  }

  lemma StepInv(w: World, s: Step)
    requires Inv(w) && Enabled(w, s)
    ensures Inv(Apply(w, s))
  {
    hide Inv, Apply;
    match s
    case Write(content) => WriteInv(w, content);
    case AttachFile => AttachInv(w);
    case Reload => ReloadInv(w);
    case Notify(n) => NotifyInv(w, n);
    case RunWorker(sizes, interrupt) => RunInv(w, sizes, interrupt);
    case Deliver =>
      if w.worker.event.IndexingDone? {
        DeliverIndexingInv(w);
      } else {
        DeliverCheckInv(w);
      }
    case _ =>
      ReaderStepControl(w, s);
      ReaderStepHistory(w, s);
      InvOf(Apply(w, s));
  }

  /** The state after a run of steps, if each of them is possible where it is taken. */
  ghost function Execute(w: World, run: seq<Step>): Option<World>
    decreases |run|
  {
    if run == [] then Some(w)
    else if Enabled(w, run[0]) then Execute(Apply(w, run[0]), run[1..])
    else None
  }

  /** Every state that a run reaches satisfies the invariant. */
  lemma {:induction false} RunKeepsInv(w: World, run: seq<Step>)
    requires Inv(w) && Execute(w, run).Some?
    ensures Inv(Execute(w, run).value)
    decreases |run|
  {
    hide Inv, Apply, Enabled;
    if run != [] {
      StepInv(w, run[0]);
      RunKeepsInv(Apply(w, run[0]), run[1..]);
    }
  }

  lemma ReachableInv(keepClosed: bool, file: Option<seq<Byte>>, run: seq<Step>)
    requires Execute(Init(keepClosed, file), run).Some?
    ensures Inv(Execute(Init(keepClosed, file), run).value)
  {
    InitInv(keepClosed, file);
    RunKeepsInv(Init(keepClosed, file), run);
  }

  // ---------- what the protocol guarantees ----------

  /**
   * After any run: nothing waits unless something executes, and the readers counted are the open
   * file itself, the executing operation, the searches and the line reads.
   */
  lemma QueueAndReadersInEveryState(keepClosed: bool, file: Option<seq<Byte>>, run: seq<Step>)
    requires Execute(Init(keepClosed, file), run).Some?
    ensures var w := Execute(Init(keepClosed, file), run).value;
            && (w.main.queue.executing.None? ==> w.main.queue.pending.None?)
            && w.main.holder.counter == (if w.attached && !w.main.holder.keepClosed then 1 else 0)
                                        + (if w.main.queue.executing.Some? then 1 else 0) + w.searches + w.lineReads
            && (w.main.holder.counter > 0 ==> w.main.holder.attached)
  {
    hide Apply, Enabled, Execute;
    ReachableInv(keepClosed, file, run);
  }

  /**
   * After any run: a notification that no operation has followed yet has one waiting, so at rest
   * every notification was followed by the start of an operation that reads the file; and a file
   * written since it was last read at rest is one whose change was not notified.
   */
  lemma NotificationsAreFollowed(keepClosed: bool, file: Option<seq<Byte>>, run: seq<Step>)
    requires Execute(Init(keepClosed, file), run).Some?
    ensures var w := Execute(Init(keepClosed, file), run).value;
            && (w.owed ==> w.main.queue.pending.Some?)
            && (w.Quiescent() ==> !w.owed && (w.stale ==> w.unnotified))
  {
    hide Apply, Enabled, Execute;
    ReachableInv(keepClosed, file, run);
  }

  /** The operation that a step hands to the worker, if any. */
  ghost function StartedBy(w: World, s: Step): Option<Operation>
    requires Enabled(w, s)
  {
    var before, after := w.main.queue.started, Apply(w, s).main.queue.started;
    if |after| > |before| then Some(after[|after| - 1]) else None
  }

  lemma CheckDeliveryStarts(w: World)
    requires Inv(w) && Enabled(w, Deliver) && w.worker.event.CheckDone?
    ensures w.main.fileChangedOnDisk != Truncated
    ensures var status, after := w.worker.event.status, Apply(w, Deliver);
            var next := if status == Truncated then Some(FullReindexOperation)
                        else if status == DataAdded then Some(PartialReindexOperation) else w.main.queue.pending;
            Starts(w, after, next)
  {
    CheckEffect(w);
    hide CheckStatus, Apply, History, HolderState.DetachReader, HolderState.AttachReader;
  }

  /** The step from `w` to `after` hands `next` to the worker, or nothing. */
  ghost predicate Starts(w: World, after: World, next: Option<Operation>) {
    && after.main.queue.started == w.main.queue.started + (if next.Some? then [next.value] else [])
    && (next.Some? ==> after.worker == Running(next.value) && !after.interruptRequested)
  }

  lemma OtherStepStarts(w: World, s: Step)
    requires Inv(w) && Enabled(w, s) && (s == Deliver ==> w.worker.event.IndexingDone?)
    ensures match s
            case Deliver => Starts(w, Apply(w, s), w.main.queue.pending)
            case AttachFile => Starts(w, Apply(w, s), if w.worker.Idle? then Some(AttachOperation) else None)
            case Reload => Starts(w, Apply(w, s), if w.worker.Idle? then Some(FullReindexOperation) else None)
            case Notify(n) =>
              Starts(w, Apply(w, s), if w.worker.Idle? && !n.Ignored() then Some(CheckDataChangesOperation) else None)
            case _ => Starts(w, Apply(w, s), None)
  {
    hide CheckStatus, AfterRun, RunOutcome;
  }

  /**
   * A partial reindex starts exactly when a check result "data added" is delivered; so it never
   * waits, and nothing else runs in between.
   */
  lemma PartialReindexAfterCheckOnly(w: World, s: Step)
    requires Inv(w) && Enabled(w, s)
    ensures StartedBy(w, s) == Some(PartialReindexOperation)
            <==> s == Deliver && w.worker == Finished(CheckDone(DataAdded))
  {
    if s == Deliver && w.worker.event.CheckDone? {
      CheckDeliveryStarts(w);
    } else {
      OtherStepStarts(w, s);
    }
    hide Apply, Enabled;
  }

  /** An operation starts only when the worker is free, or gets free in that very step. */
  lemma OneOperationAtATime(w: World, s: Step)
    requires Inv(w) && Enabled(w, s) && StartedBy(w, s).Some?
    ensures w.worker.Idle? || s == Deliver
    ensures Apply(w, s).worker == Running(StartedBy(w, s).value) && !Apply(w, s).interruptRequested
    ensures Apply(w, s).main.queue.started == w.main.queue.started + [StartedBy(w, s).value]
  {
    if s == Deliver && w.worker.event.CheckDone? {
      CheckDeliveryStarts(w);
    } else {
      OtherStepStarts(w, s);
    }
    hide Apply, Enabled, Inv;
  }

  /**
   * The operation that starts when another one finishes is the one enqueued last. The branch for
   * a file already known to be truncated is never taken.
   */
  lemma LatestWins(w: World)
    requires Inv(w) && Enabled(w, Deliver)
    ensures w.worker.event.CheckDone? ==> w.main.fileChangedOnDisk != Truncated
    ensures StartedBy(w, Deliver)
            == if w.worker.event.CheckDone? && w.worker.event.status == Truncated then Some(FullReindexOperation)
               else if w.worker.event.CheckDone? && w.worker.event.status == DataAdded then Some(PartialReindexOperation)
               else w.main.queue.pending
  {
    if w.worker.event.CheckDone? {
      CheckDeliveryStarts(w);
    } else {
      OtherStepStarts(w, Deliver);
    }
    hide Apply, Inv;
  }

  /**
   * What an indexing run leaves: nothing if the file cannot be opened or the interruption comes
   * before the index would be cleared; else the file, or for a partial reindex the indexed bytes
   * with what the file has behind them.
   */
  lemma RunLeaves(w: World, sizes: seq<nat>, interrupt: Interrupt)
    requires Enabled(w, RunWorker(sizes, interrupt)) && !w.worker.operation.CheckDataChangesOperation?
    ensures var bytes, indexed := Apply(w, RunWorker(sizes, interrupt)).feed.Bytes(), w.feed.Bytes();
            && (w.file.None? || interrupt == BeforeFinalLineFeed || interrupt == BeforeClearing ==> bytes == [])
            && (w.file.Some? && (interrupt == Never || interrupt == AfterClearing) ==>
                  bytes == if !w.worker.operation.PartialReindexOperation? then w.file.value
                           else indexed + if |indexed| <= |w.file.value| then w.file.value[|indexed|..] else [])
    ensures !w.interruptRequested ==> interrupt == Never
  {
    hide AfterRun, ReadSizes;
    AfterRunBytes(StartFeed(w, w.worker.operation), w.file, sizes, interrupt);
  }

  /** Reloading interrupts an operation that is running; the reload itself starts with the flag cleared. */
  lemma ReloadInterrupts(w: World)
    requires Inv(w) && Enabled(w, Reload)
    ensures w.worker.Running? ==>
              Apply(w, Reload).interruptRequested
              && forall sizes :: !Enabled(Apply(w, Reload), RunWorker(sizes, Never))
    ensures w.worker.Idle? ==>
              Apply(w, Reload).worker == Running(FullReindexOperation) && !Apply(w, Reload).interruptRequested
    ensures !w.worker.Idle? ==> Apply(w, Reload).main.queue.pending == Some(FullReindexOperation)
  {
    hide CheckStatus, History, ReaderInvariant, ReadSizes;
  }

  /**
   * The guard that decides whether a change can be missed. A check result that is delivered
   * overtakes what waits exactly if something waits and the check asks for an operation: that one
   * starts, and what waited never does.
   */
  lemma OvertakenExactly(w: World)
    requires Inv(w) && Enabled(w, Deliver) && w.worker.event.CheckDone?
    ensures Apply(w, Deliver).overtaken <==> w.main.queue.pending.Some? && w.worker.event.status != Unchanged
    ensures Apply(w, Deliver).overtaken ==>
              && Apply(w, Deliver).main.queue.pending.None?
              && Starts(w, Apply(w, Deliver), w.main.FollowUp(w.worker.event.status))
  {
    CheckEffect(w);
    hide History, ReaderInvariant, CheckStatus, Apply, HolderState.DetachReader, HolderState.AttachReader;
  }

  /** No other step changes this, except that the next check forgets it. */
  lemma OvertakenStays(w: World, s: Step)
    requires Enabled(w, s) && (s.Deliver? ==> w.worker.event.IndexingDone?)
    ensures Apply(w, s).overtaken
            <==> w.overtaken && !(s.RunWorker? && w.worker.operation.CheckDataChangesOperation?)
  {
    hide AfterSlot, CheckStatus, AfterRun, ReadSizes, RunOutcome, StartFeed;
    if s.RunWorker? {
      hide Apply;
      RunKeepsOvertaken(w, s.sizes, s.interrupt);
    } else {
      hide Run, MainState.IndexingFinished, MainState.AttachFile, MainState.Reload, MainState.FileChanged;
    }
  }

  lemma RunKeepsOvertaken(w: World, sizes: seq<nat>, interrupt: Interrupt)
    requires Enabled(w, RunWorker(sizes, interrupt))
    ensures Apply(w, RunWorker(sizes, interrupt)).overtaken
            <==> w.overtaken && !w.worker.operation.CheckDataChangesOperation?
  {
    hide AfterSlot, CheckStatus, AfterRun, ReadSizes, RunOutcome, StartFeed;
  }

  /**
   * A partial reindex makes the index that of the file if and only if the file still begins with
   * the indexed bytes; and it does unless a write has not been notified yet, a notified change has
   * a check of its own waiting, or the reindex overtook that check.
   */
  lemma ReindexIsRightUnlessOvertaken(w: World, sizes: seq<nat>, interrupt: Interrupt)
    requires Inv(w) && Enabled(w, RunWorker(sizes, interrupt)) && w.worker == Running(PartialReindexOperation)
    requires Completes(interrupt) && w.file.Some?
    ensures Apply(w, RunWorker(sizes, interrupt)).feed.Bytes() == w.Content() <==> w.feed.Bytes() <= w.Content()
    ensures !w.unnotified && !w.owed && !w.overtaken ==> w.feed.Bytes() <= w.Content()
  {
    RunReads(w, sizes, interrupt);
  }

  /**
   * The outcome of following a file, over every run from the start. At rest with every write
   * notified, the indexed bytes are the content of the file if and only if the last run was not
   * cut short on a file that is not empty, and did not overtake a waiting check on a file that no
   * longer began with the indexed bytes. If nothing was overtaken, they always are.
   */
  lemma FollowsFile(keepClosed: bool, file: Option<seq<Byte>>, run: seq<Step>)
    requires Execute(Init(keepClosed, file), run).Some?
    requires var w := Execute(Init(keepClosed, file), run).value; w.Quiescent() && !w.unnotified
    ensures var w := Execute(Init(keepClosed, file), run).value;
            && (w.feed.Bytes() == w.Content()
                <==> (w.lastRun == Cleared ==> w.Content() == []) && !(w.overtaken && w.lastRun == Extended(false)))
            && (w.lastRun == Extended(false) ==> w.overtaken)
            && (!w.overtaken && w.lastRun != Cleared ==> w.feed.Bytes() == w.Content())
  {
    hide Apply, Enabled, Execute;
    ReachableInv(keepClosed, file, run);
    var w := Execute(Init(keepClosed, file), run).value;
    CheckMeaning(w.feed.Bytes(), w.file);
  }

  /** If the file only grew since the check that asked for it, a partial reindex gives the index of the whole file. */
  lemma GrowthExtendsExactly(w: World, sizes: seq<nat>, interrupt: Interrupt)
    requires Inv(w) && Enabled(w, RunWorker(sizes, interrupt)) && w.worker == Running(PartialReindexOperation)
    requires w.onlyGrew && Completes(interrupt)
    ensures w.file.Some? ==> Apply(w, RunWorker(sizes, interrupt)).lastRun == Extended(true)
    ensures Apply(w, RunWorker(sizes, interrupt)).feed.Bytes() == w.Content()
  {
    RunReads(w, sizes, interrupt);
  }

  /** The index object of the system, in a state with one-byte line feeds. */
  ghost predicate Indexes(data: IndexingData, w: World)
    reads data, data.linePosition, data.linePosition.storage
  {
    data.Holds(w.feed, Positions(w.feed, SingleByte))
  }

  /** At all times the list of line ends is the reference list of the bytes last read, and the size is theirs. */
  lemma IndexIsReference(data: IndexingData, w: World)
    requires Indexes(data, w)
    ensures data.linePosition.View() == ReferenceIndex(w.feed.Bytes())
    ensures data.hashSize == |w.feed.Bytes()|
  {
    SingleByteIndex(w.feed);
    hide Recognised, ReferenceIndex;
  }

  /** At rest, notified, not cut short and not overtaken: the list of line ends is that of the file. */
  lemma IndexFollowsFile(keepClosed: bool, file: Option<seq<Byte>>, run: seq<Step>, data: IndexingData)
    requires Execute(Init(keepClosed, file), run).Some?
    requires Indexes(data, Execute(Init(keepClosed, file), run).value)
    ensures var w := Execute(Init(keepClosed, file), run).value;
            w.Quiescent() && !w.unnotified && (w.lastRun == Cleared ==> w.Content() == []) && !w.overtaken
            ==> data.linePosition.View() == ReferenceIndex(w.Content())
  {
    hide Apply, Enabled, Execute, Indexes, ReferenceIndex;
    var w := Execute(Init(keepClosed, file), run).value;
    if w.Quiescent() && !w.unnotified && (w.lastRun == Cleared ==> w.Content() == []) && !w.overtaken {
      FollowsFile(keepClosed, file, run);
      IndexIsReference(data, w);
    }
  }

  // ---------- the system comes to rest ----------

  function Cost(operation: Option<Operation>): nat {
    match operation
    case None => 0
    case Some(op) => if op.CheckDataChangesOperation? then 4 else 2
  }

  /** Bounds how many steps of the worker and of the result slots are still to come. */
  function Rank(w: World): nat {
    match w.worker
    case Idle => 0
    case Running(op) => Cost(Some(op)) + Cost(w.main.queue.pending)
    case Finished(e) => (if e.CheckDone? then 3 else 1) + Cost(w.main.queue.pending)
  }

  predicate Internal(s: Step) {
    s.RunWorker? || s.Deliver?
  }

  lemma InternalStepsDescend(w: World, s: Step)
    requires Inv(w) && Enabled(w, s) && Internal(s)
    ensures Rank(Apply(w, s)) < Rank(w) && Apply(w, s).attached == w.attached
  {
    hide History, FlagInvariant, ReaderInvariant, CheckStatus, AfterRun, RunOutcome, AfterSlot;
    hide HolderState.DetachReader, HolderState.AttachReader;
    if s == Deliver {
      hide Apply;
      DeliverDescends(w);
    }
  }

  lemma DeliverDescends(w: World)
    requires Inv(w) && Enabled(w, Deliver)
    ensures Rank(Apply(w, Deliver)) < Rank(w) && Apply(w, Deliver).attached == w.attached
  {
    assert w.main.queue.hasWorker && w.main.queue.executing.Some?;
    hide Inv, Apply, Proceed, WithStarted, Started, Rank, Cost;
    if w.worker.event.CheckDone? {
      CheckEffect(w);
      var followUp := w.main.FollowUp(w.worker.event.status);
      var op := if followUp.Some? then followUp else w.main.queue.pending;
      var flag := if w.main.fileChangedOnDisk == Truncated then Truncated else w.worker.event.status;
      RankOfStarted(w.(worker := Idle, overtaken := w.main.queue.pending.Some? && followUp.Some?),
                    Proceed(w.main, op, flag, w.Readable()), op);
    } else {
      IndexingEffect(w);
      RankOfStarted(w.(worker := Idle), Proceed(w.main, w.main.queue.pending, Unchanged, w.Readable()), w.main.queue.pending);
    }
    RankOfFinished(w);
  }

  lemma RankOfStarted(w: World, main: MainState, op: Option<Operation>)
    requires main.queue.pending.None? && w.worker.Idle?
    ensures Rank(Started(w, main, op)) == Cost(op) && Started(w, main, op).attached == w.attached
  {
  }

  lemma RankOfFinished(w: World)
    requires w.worker.Finished?
    ensures Rank(w) > Cost(w.main.queue.pending)
    ensures w.worker.event.CheckDone? ==>
              var followUp := w.main.FollowUp(w.worker.event.status); followUp.Some? ==> Cost(followUp) < Rank(w)
  {
  }

  lemma InternalStepPossible(w: World) returns (s: Step)
    requires Inv(w) && w.attached && !w.Quiescent()
    ensures Enabled(w, s) && Internal(s)
  {
    if w.worker.Finished? {
      s := Deliver;
    } else {
      var start := |StartFeed(w, w.worker.operation).Bytes()|;
      var sizes: seq<nat> := if w.file.Some? && start <= |w.file.value| then [|w.file.value| - start] else [];
      assert w.file.Some? && start <= |w.file.value| ==> Sum(sizes, 1) == Sum(sizes, 0) + sizes[0];
      s := RunWorker(sizes, if w.interruptRequested then AfterClearing else Never);
    }
  }

  /** Nothing blocks: left alone, worker and slots come to rest within eight steps. */
  lemma {:induction false} ComesToRest(w: World) returns (run: seq<Step>)
    requires Inv(w) && w.attached
    ensures |run| <= Rank(w) <= 8 && forall i :: 0 <= i < |run| ==> Internal(run[i])
    ensures Execute(w, run).Some? && Execute(w, run).value.Quiescent()
    decreases Rank(w)
  {
    hide Inv, Apply, Enabled, Internal;
    if w.Quiescent() {
      run := [];
    } else {
      var s := InternalStepPossible(w);
      StepInv(w, s);
      InternalStepsDescend(w, s);
      var rest := ComesToRest(Apply(w, s));
      run := [s] + rest;
      assert run[1..] == rest;
    }
  }

  // ---------- how a notification gets lost ----------

  lemma {:induction false} ExecuteAppend(w: World, a: seq<Step>, b: seq<Step>)
    requires Execute(w, a).Some?
    ensures Execute(w, a + b) == Execute(Execute(w, a).value, b)
    decreases |a|
  {
    hide Apply, Enabled;
    if a == [] {
      assert a + b == b;
    } else {
      assert (a + b)[1..] == a[1..] + b;
      ExecuteAppend(Apply(w, a[0]), a[1..], b);
    }
  }

  const OwnChange := Notification(true, false, true)

  /** The file is indexed and nothing is going on. */
  ghost predicate AtRest(w: World, bytes: seq<Byte>) {
    && w.attached && w.worker == Idle && w.main.queue.hasWorker && w.main.fileChangedOnDisk == Unchanged
    && w.main.queue.executing.None? && w.main.queue.pending.None?
    && w.feed.Bytes() == bytes && w.file == Some(bytes)
  }

  /** The file grew, and a check has just found that out. */
  lemma CheckFindsGrowth(w: World, bytes: seq<Byte>, more: seq<Byte>)
    requires AtRest(w, bytes) && bytes != [] && more != []
    ensures var steps := [Write(Some(bytes + more)), Notify(OwnChange), RunWorker([], Never)];
            && Execute(w, steps).Some?
            && var v := Execute(w, steps).value;
            && v.worker == Finished(CheckDone(DataAdded)) && v.attached && v.feed == w.feed
            && v.main.fileChangedOnDisk == Unchanged && v.main.queue.hasWorker
            && v.main.queue.executing == Some(CheckDataChangesOperation) && v.main.queue.pending.None?
  {
    hide CheckStatus;
    CheckMeaning(bytes, Some(bytes + more));
    var w1 := Apply(w, Write(Some(bytes + more)));
    var w2 := Apply(w1, Notify(OwnChange));
    assert w2.worker == Running(CheckDataChangesOperation) && !w2.interruptRequested;
    var w3 := Apply(w2, RunWorker([], Never));
    var r1, r2, r3 := [RunWorker([], Never)], [Notify(OwnChange), RunWorker([], Never)],
                      [Write(Some(bytes + more)), Notify(OwnChange), RunWorker([], Never)];
    assert r3[1..] == r2 && r2[1..] == r1 && r1[1..] == [];
    assert Execute(w3, []) == Some(w3) && Execute(w2, r1) == Some(w3) && Execute(w1, r2) == Some(w3);
  }

  /** The file is written again: the check that this asks for waits, and is replaced by the reindex. */
  lemma ReindexReplacesCheck(w: World, content: seq<Byte>)
    requires w.worker == Finished(CheckDone(DataAdded)) && w.attached
    requires w.main.fileChangedOnDisk == Unchanged && w.main.queue.hasWorker
    requires w.main.queue.executing == Some(CheckDataChangesOperation) && w.main.queue.pending.None?
    ensures var steps := [Write(Some(content)), Notify(OwnChange), Deliver];
            && Execute(w, steps).Some?
            && var v := Execute(w, steps).value;
            && v.worker == Running(PartialReindexOperation) && v.attached && v.feed == w.feed
            && v.file == Some(content) && !v.unnotified && !v.interruptRequested && v.main.queue.hasWorker && v.overtaken
            && v.main.queue.pending.None?
  {
    hide CheckStatus;
    var w1 := Apply(w, Write(Some(content)));
    var w2 := Apply(w1, Notify(OwnChange));
    assert w2.main.queue.pending == Some(CheckDataChangesOperation) && w2.worker == w.worker;
    CheckFinishedStarts(w2.main, DataAdded, w2.Readable());
    var w3 := Apply(w2, Deliver);
    var r1, r2, r3 := [Deliver], [Notify(OwnChange), Deliver], [Write(Some(content)), Notify(OwnChange), Deliver];
    assert r3[1..] == r2 && r2[1..] == r1 && r1[1..] == [];
    assert Execute(w3, []) == Some(w3) && Execute(w2, r1) == Some(w3) && Execute(w1, r2) == Some(w3);
  }

  /** The reindex reads on behind the indexed bytes, and the worker comes to rest. */
  lemma ReindexReadsOn(w: World, more: seq<Byte>)
    requires w.worker == Running(PartialReindexOperation) && w.attached && !w.unnotified && !w.interruptRequested
    requires w.main.queue.hasWorker && w.main.queue.pending.None?
    requires w.file.Some? && |w.file.value| == |w.feed.Bytes()| + |more| && w.file.value[|w.feed.Bytes()|..] == more
    ensures var steps := [RunWorker([|more|], Never), Deliver];
            && Execute(w, steps).Some?
            && var v := Execute(w, steps).value;
            && v.Quiescent() && !v.unnotified && v.overtaken == w.overtaken
            && v.feed.Bytes() == w.feed.Bytes() + more && v.file == w.file
            && v.lastRun == Extended(w.feed.Bytes() <= w.file.value)
  {
    hide AfterRun;
    assert Sum([|more|], 1) == |more|;
    AfterRunBytes(w.feed, w.file, [|more|], Never);
    var w1 := Apply(w, RunWorker([|more|], Never));
    var w2 := Apply(w1, Deliver);
    var r1, r2 := [Deliver], [RunWorker([|more|], Never), Deliver];
    assert r2[1..] == r1 && r1[1..] == [];
    assert Execute(w2, []) == Some(w2) && Execute(w1, r1) == Some(w2);
  }

  /**
   * A check finds new data; before its result is delivered the file is rewritten, and the check
   * that this asks for waits. The partial reindex takes its place: from then on everything is at
   * rest and notified, but the indexed bytes are those of a file that never existed.
   */
  lemma NotificationLost(w: World, bytes: seq<Byte>, more: seq<Byte>, rewritten: seq<Byte>) returns (run: seq<Step>)
    requires AtRest(w, bytes) && bytes != [] && more != []
    requires |rewritten| == |bytes| && rewritten != bytes
    ensures Execute(w, run).Some?
    ensures var v := Execute(w, run).value;
            && v.Quiescent() && !v.unnotified && v.overtaken && v.lastRun == Extended(false)
            && v.Content() == rewritten + more && v.feed.Bytes() == bytes + more != v.Content()
  {
    hide Apply, Enabled, Execute;
    var a := [Write(Some(bytes + more)), Notify(OwnChange), RunWorker([], Never)];
    var b := [Write(Some(rewritten + more)), Notify(OwnChange), Deliver];
    var c := [RunWorker([|more|], Never), Deliver];
    CheckFindsGrowth(w, bytes, more);
    var w1 := Execute(w, a).value;
    ReindexReplacesCheck(w1, rewritten + more);
    var w2 := Execute(w1, b).value;
    assert w2.feed.Bytes() == bytes;
    ReindexReadsOn(w2, more);
    ExecuteAppend(w, a, b + c);
    ExecuteAppend(w1, b, c);
    run := a + (b + c);
    assert (bytes + more)[..|bytes|] == bytes && (rewritten + more)[..|bytes|] == rewritten;
  }

  /** Attaching a file leads to such a state of rest. */
  lemma AttachingComesToRest(keepClosed: bool, bytes: seq<Byte>)
    ensures var steps := [AttachFile, RunWorker([|bytes|], Never), Deliver];
            && Execute(Init(keepClosed, Some(bytes)), steps).Some?
            && AtRest(Execute(Init(keepClosed, Some(bytes)), steps).value, bytes)
  {
    hide AfterRun;
    var w := Init(keepClosed, Some(bytes));
    var w1 := Apply(w, AttachFile);
    assert Sum([|bytes|], 1) == |bytes|;
    AfterRunBytes(Nothing, Some(bytes), [|bytes|], Never);
    var w2 := Apply(w1, RunWorker([|bytes|], Never));
    var w3 := Apply(w2, Deliver);
    var r1, r2, r3 := [Deliver], [RunWorker([|bytes|], Never), Deliver],
                      [AttachFile, RunWorker([|bytes|], Never), Deliver];
    assert r3[1..] == r2 && r2[1..] == r1 && r1[1..] == [];
    assert Execute(w3, []) == Some(w3) && Execute(w2, r1) == Some(w3) && Execute(w1, r2) == Some(w3);
  }

  /** The whole story from the start, for all contents: attach, append, rewrite at the wrong moment. */
  lemma NotificationLostFromStart(keepClosed: bool, bytes: seq<Byte>, more: seq<Byte>, rewritten: seq<Byte>)
    returns (run: seq<Step>)
    requires bytes != [] && more != [] && |rewritten| == |bytes| && rewritten != bytes
    ensures Execute(Init(keepClosed, Some(bytes)), run).Some?
    ensures var v := Execute(Init(keepClosed, Some(bytes)), run).value;
            && v.Quiescent() && !v.unnotified && v.overtaken
            && v.Content() == rewritten + more && v.feed.Bytes() == bytes + more != v.Content()
  {
    hide Apply, Enabled, Execute, AtRest;
    var attach := [AttachFile, RunWorker([|bytes|], Never), Deliver];
    AttachingComesToRest(keepClosed, bytes);
    var rest := NotificationLost(Execute(Init(keepClosed, Some(bytes)), attach).value, bytes, more, rewritten);
    ExecuteAppend(Init(keepClosed, Some(bytes)), attach, rest);
    run := attach + rest;
  }
}
