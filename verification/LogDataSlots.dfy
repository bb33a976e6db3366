/**
 * The main thread's reactions (`logdata.cpp`): attaching, reloading, change notifications and the
 * results of the worker. Each one is stated as a function of the state it finds.
 */
module LogDataSlots {
  import opened Bytes
  import opened LineIndex
  import opened OperationQueue
  import opened FileHolder

  /** What the slot sees when a watched file changes. */
  datatype Notification = Notification(sameName: bool, fileIdChanged: bool, sizeDiffers: bool)
  {
    /** A change of another file; ours was not replaced. */
    predicate Ignored() {
      !fileIdChanged && !sameName
    }
  }

  datatype MainState = MainState(queue: QueueState, holder: HolderState, fileChangedOnDisk: MonitoredFileStatus)
  {
    /** Nothing waits unless something executes, and what executes has a reader of its own. */
    predicate Valid() {
      && queue.hasWorker && queue.WellFormed() && holder.Consistent()
      && (queue.executing.Some? ==> holder.attached && holder.counter > 0)
    }

    /** The reader of an operation is attached when the operation starts. */
    function WithQueue(q: QueueState, readable: bool): MainState {
      this.(queue := q,
            holder := if |q.started| > |queue.started| then holder.AttachReader(readable) else holder)
    }

    function Enqueue(operation: Operation, readable: bool): MainState {
      WithQueue(queue.Enqueue(operation), readable)
    }

    function StartNext(readable: bool): MainState {
      WithQueue(queue.TryStartPending(), readable)
    }

    function AttachFile(readable: bool): MainState {
      this.(holder := holder.Open(readable)).Enqueue(AttachOperation, readable)
    }

    function Reload(readable: bool): MainState {
      this.(holder := holder.ReOpenFile(readable)).Enqueue(FullReindexOperation, readable)
    }

    function FileChanged(n: Notification, readable: bool): MainState {
      if n.Ignored() then this
      else
        var h := if n.fileIdChanged || n.sizeDiffers || !holder.isOpen then holder.ReOpenFile(readable) else holder;
        this.(holder := h).Enqueue(CheckDataChangesOperation, readable)
    }

    function IndexingFinished(readable: bool): MainState {
      this.(holder := holder.DetachReader(), fileChangedOnDisk := Unchanged).StartNext(readable)
    }

    /** What a check result asks for; nothing when the file is unchanged. */
    function FollowUp(status: MonitoredFileStatus): Option<Operation> {
      if fileChangedOnDisk == Truncated then Some(FullReindexOperation)
      else match status
        case Truncated => Some(FullReindexOperation)
        case DataAdded => Some(PartialReindexOperation)
        case Unchanged => None
    }

    function CheckFinished(status: MonitoredFileStatus, readable: bool): MainState {
      var m := this.(holder := holder.DetachReader(),
                     fileChangedOnDisk := if fileChangedOnDisk == Truncated then Truncated else status);
      var followUp := FollowUp(status);
      (if followUp.Some? then m.Enqueue(followUp.value, readable) else m).StartNext(readable)
    }
  }

  /** The end of an operation, after which `op` starts, or nothing. */
  function Proceed(m: MainState, op: Option<Operation>, flag: MonitoredFileStatus, readable: bool): (r: MainState)
    ensures r.queue == QueueState(op, None, true, WithStarted(m.queue.started, op))
    ensures r.fileChangedOnDisk == flag
  {
    var h := m.holder.DetachReader();
    MainState(QueueState(op, None, true, WithStarted(m.queue.started, op)),
              if op.Some? then h.AttachReader(readable) else h, flag)
  }

  /** The end of an indexing operation starts the one that waits. */
  lemma IndexingFinishedStarts(m: MainState, readable: bool)
    requires m.queue.hasWorker
    ensures m.IndexingFinished(readable) == Proceed(m, m.queue.pending, Unchanged, readable)
  {
    hide HolderState.DetachReader, HolderState.AttachReader;
  }

  /** A check result starts at once the operation that it asks for, whatever waits; or else what waits. */
  lemma CheckFinishedStarts(m: MainState, status: MonitoredFileStatus, readable: bool)
    requires m.queue.hasWorker && m.queue.executing.Some?
    ensures var op := if m.FollowUp(status).Some? then m.FollowUp(status) else m.queue.pending;
            var flag := if m.fileChangedOnDisk == Truncated then Truncated else status;
            m.CheckFinished(status, readable) == Proceed(m, op, flag, readable)
  {
    hide HolderState.DetachReader, HolderState.AttachReader;
  }

  /** Delivering a check result keeps the queue and the reader of the executing operation right. */
  lemma CheckFinishedKeepsValid(m: MainState, status: MonitoredFileStatus, readable: bool)
    requires m.Valid() && m.holder.attached
    ensures m.CheckFinished(status, readable).Valid()
  {
    var h := m.holder.DetachReader();
    assert h.attached && h.Consistent();
    assert h.AttachReader(readable).attached && h.AttachReader(readable).counter > 0 && h.AttachReader(readable).Consistent();
    hide HolderState.DetachReader, HolderState.AttachReader, HolderState.Consistent;
  }

  class LogData {
    const operationQueue: OperationQueue
    const attachedFile: FileHolder
    var fileChangedOnDisk: MonitoredFileStatus

    ghost function State(): MainState
      reads this, operationQueue, attachedFile
    {
      MainState(operationQueue.State(), attachedFile.State(), fileChangedOnDisk)
    }

    ghost predicate Valid()
      reads this, operationQueue, attachedFile
    {
      State().Valid()
    }

    constructor (keepFileClosed: bool)
      ensures Valid() && State() == MainState(QueueState(None, None, true, []), HolderState(keepFileClosed, 0, false, false), Unchanged)
      ensures fresh(operationQueue) && fresh(attachedFile)
    {
      var queue := new OperationQueue();
      queue.SetWorker();
      operationQueue := queue;
      attachedFile := new FileHolder(keepFileClosed);
      fileChangedOnDisk := Unchanged;
    }

    /** The file may have been opened anew just before. */
    method EnqueueOperation(operation: Operation, readable: bool)
      requires operationQueue.Valid() && operationQueue.hasWorker
      modifies operationQueue, attachedFile
      ensures operationQueue.Valid()
      ensures State() == old(State()).Enqueue(operation, readable)
    {
      var start := operationQueue.EnqueueOperation(operation);
      if start.Some? {
        attachedFile.AttachReader(readable);
      }
    }

    method FinishOperationAndStartNext(readable: bool)
      requires operationQueue.Valid()
      modifies operationQueue, attachedFile
      ensures operationQueue.Valid()
      ensures State() == old(State()).StartNext(readable)
    {
      var start := operationQueue.FinishOperationAndStartNext();
      if start.Some? {
        attachedFile.AttachReader(readable);
      }
    }

    method AttachFile(readable: bool)
      requires Valid()
      modifies operationQueue, attachedFile
      ensures Valid()
      ensures State() == old(State()).AttachFile(readable)
      ensures (if old(operationQueue.executingOperation).None? then operationQueue.executingOperation == Some(AttachOperation) && operationQueue.pendingOperation == None
               else operationQueue.executingOperation == old(operationQueue.executingOperation) && operationQueue.pendingOperation == Some(AttachOperation))
      ensures !attachedFile.keepClosed ==> attachedFile.isOpen == readable
    {
      attachedFile.Open(readable);
      EnqueueOperation(AttachOperation, readable);
    }

    method Reload(readable: bool)
      requires Valid()
      modifies operationQueue, attachedFile
      ensures Valid()
      ensures State() == old(State()).Reload(readable)
      ensures (if old(operationQueue.executingOperation).None? then operationQueue.executingOperation == Some(FullReindexOperation) && operationQueue.pendingOperation == None
               else operationQueue.executingOperation == old(operationQueue.executingOperation) && operationQueue.pendingOperation == Some(FullReindexOperation))
      ensures attachedFile.isOpen == readable
    {
      attachedFile.ReOpenFile(readable);
      EnqueueOperation(FullReindexOperation, readable);
    }

    method FileChangedOnDisk(n: Notification, readable: bool)
      requires Valid()
      modifies operationQueue, attachedFile
      ensures Valid()
      ensures State() == old(State()).FileChanged(n, readable)
      ensures n.fileIdChanged || n.sameName ==>
              (if old(operationQueue.executingOperation).None? then operationQueue.executingOperation == Some(CheckDataChangesOperation) && operationQueue.pendingOperation == None
               else operationQueue.executingOperation == old(operationQueue.executingOperation) && operationQueue.pendingOperation == Some(CheckDataChangesOperation))
      ensures n.fileIdChanged || (n.sameName && (n.sizeDiffers || !old(attachedFile.isOpen))) ==> attachedFile.isOpen == readable
      ensures !n.fileIdChanged && !n.sameName ==> State() == old(State())
    {
      if !n.fileIdChanged && !n.sameName {
        return;
      }
      if n.fileIdChanged || n.sizeDiffers || !attachedFile.isOpen {
        attachedFile.ReOpenFile(readable);
      }
      EnqueueOperation(CheckDataChangesOperation, readable);
    }

    method IndexingFinished(readable: bool)
      requires Valid() && attachedFile.attached
      modifies this, operationQueue, attachedFile
      ensures Valid()
      ensures State() == old(State()).IndexingFinished(readable)
      ensures fileChangedOnDisk == Unchanged && operationQueue.executingOperation == old(operationQueue.pendingOperation) && operationQueue.pendingOperation == None
    {
      attachedFile.DetachReader();
      fileChangedOnDisk := Unchanged;
      FinishOperationAndStartNext(readable);
    }

    method CheckFileChangesFinished(status: MonitoredFileStatus, readable: bool)
      requires Valid() && attachedFile.attached
      modifies this, operationQueue, attachedFile
      ensures Valid()
      ensures State() == old(State()).CheckFinished(status, readable)
      ensures old(operationQueue.executingOperation).Some? ==>
                && operationQueue.pendingOperation == None
                && operationQueue.executingOperation == (if old(fileChangedOnDisk) == Truncated || status == Truncated then Some(FullReindexOperation)
                           else if status == DataAdded then Some(PartialReindexOperation) else old(operationQueue.pendingOperation))
                && fileChangedOnDisk == (if old(fileChangedOnDisk) == Truncated then Truncated else status)
    {
      CheckFinishedKeepsValid(State(), status, readable);
      hide MainState.Valid, HolderState.DetachReader, HolderState.AttachReader;
      attachedFile.DetachReader();
      if fileChangedOnDisk != Truncated {
        match status {
          case Truncated =>
            fileChangedOnDisk := Truncated;
            EnqueueOperation(FullReindexOperation, readable);
          case DataAdded =>
            fileChangedOnDisk := DataAdded;
            EnqueueOperation(PartialReindexOperation, readable);
          case Unchanged =>
            fileChangedOnDisk := Unchanged;
        }
      } else {
        EnqueueOperation(FullReindexOperation, readable);
      }
      FinishOperationAndStartNext(readable);
    }
  }
}
