/** The queue of one executing and one pending operation (`logdataoperation.cpp`). */
module OperationQueue {
  import opened Bytes

  datatype Operation = AttachOperation | FullReindexOperation | PartialReindexOperation | CheckDataChangesOperation

  /** `started` lists the operations handed to the worker so far. */
  datatype QueueState = QueueState(executing: Option<Operation>, pending: Option<Operation>, hasWorker: bool,
                                   started: seq<Operation>)
  {
    function TryStartPending(): QueueState {
      if hasWorker && pending.Some? then QueueState(pending, None, hasWorker, started + [pending.value])
      else QueueState(None, None, hasWorker, started)
    }

    function Enqueue(operation: Operation): QueueState {
      var q := this.(pending := Some(operation));
      if executing.None? then q.TryStartPending() else q
    }

    /** One operation at most waits, and only behind a running one. */
    predicate WellFormed() {
      executing.None? ==> pending.None?
    }
  }

  /** The list of started operations after `op` was started, or nothing. */
  function WithStarted(started: seq<Operation>, op: Option<Operation>): seq<Operation> {
    if op.Some? then started + [op.value] else started
  }

  class OperationQueue {
    var executingOperation: Option<Operation>
    var pendingOperation: Option<Operation>
    var hasWorker: bool
    ghost var started: seq<Operation>

    ghost function State(): QueueState
      reads this
    {
      QueueState(executingOperation, pendingOperation, hasWorker, started)
    }

    /** Nothing waits unless something executes. */
    ghost predicate Valid()
      reads this
    {
      State().WellFormed()
    }

    constructor ()
      ensures Valid() && State() == QueueState(None, None, false, [])
    {
      executingOperation, pendingOperation, hasWorker, started := None, None, false, [];
    }

    method SetWorker()
      requires Valid()
      modifies this
      ensures Valid()
      ensures State() == old(State()).(hasWorker := true)
    {
      hasWorker := true;
    }

    method Shutdown()
      requires Valid()
      modifies this
      ensures Valid()
      ensures State() == old(State()).(hasWorker := false)
    {
      hasWorker := false;
    }

    /** `start` is the operation that the worker has to begin, after the reader was attached. */
    method TryStartPendingOperation() returns (start: Option<Operation>)
      modifies this
      ensures Valid()
      ensures State() == old(State()).TryStartPending()
      ensures start == (if hasWorker then old(pendingOperation) else None)
      ensures executingOperation == start && pendingOperation == None && hasWorker == old(hasWorker)
      ensures started == old(started) + if start.Some? then [start.value] else []
    {
      executingOperation, pendingOperation := pendingOperation, None;
      if !hasWorker {
        executingOperation := None;
      }
      start := executingOperation;
      if start.Some? {
        started := started + [start.value];
      }
    }

    method EnqueueOperation(operation: Operation) returns (start: Option<Operation>)
      requires Valid()
      modifies this
      ensures Valid()
      ensures State() == old(State()).Enqueue(operation)
      ensures hasWorker == old(hasWorker)
      ensures old(executingOperation).Some? ==>
                executingOperation == old(executingOperation) && pendingOperation == Some(operation) && start == None
      ensures old(executingOperation).None? ==>
                executingOperation == start == (if hasWorker then Some(operation) else None) && pendingOperation == None
      ensures started == old(started) + if start.Some? then [start.value] else []
    {
      pendingOperation := Some(operation);
      start := None;
      if executingOperation.None? {
        start := TryStartPendingOperation();
      }
    }

    method FinishOperationAndStartNext() returns (start: Option<Operation>)
      requires Valid()
      modifies this
      ensures Valid()
      ensures State() == old(State()).TryStartPending()
      ensures start == (if hasWorker then old(pendingOperation) else None)
      ensures executingOperation == start && pendingOperation == None && hasWorker == old(hasWorker)
      ensures started == old(started) + if start.Some? then [start.value] else []
    {
      start := TryStartPendingOperation();
    }
  }
}
