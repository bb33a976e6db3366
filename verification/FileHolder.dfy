/** The shared handle of the log file and its reader counter (`fileholder.cpp`). */
module FileHolder {
  datatype HolderState = HolderState(keepClosed: bool, counter: nat, attached: bool, isOpen: bool)
  {
    /** The counter is the number of readers, counted readers have a handle, and an unused file that is kept closed is closed. */
    predicate Counts(readers: nat) {
      counter == readers && (counter > 0 ==> attached) && (keepClosed && counter == 0 ==> !isOpen)
    }

    /** An open file has a handle; one that is kept closed has it while it is read, and is closed while it is not. */
    predicate Consistent() {
      (isOpen ==> attached) && (keepClosed ==> if counter > 0 then attached else !isOpen)
    }

    /** A new handle replaces the old one; it is open if the file could be read. */
    function ReOpenFile(readable: bool): HolderState {
      this.(attached := true, isOpen := readable)
    }

    function Open(readable: bool): HolderState {
      if keepClosed then this else this.(counter := 1).ReOpenFile(readable)
    }

    function AttachReader(readable: bool): HolderState {
      var h := if keepClosed && counter == 0 then ReOpenFile(readable) else this;
      h.(counter := counter + 1)
    }

    function DetachReader(): HolderState {
      var h := this.(counter := if counter > 0 then counter - 1 else 0);
      if keepClosed && h.counter == 0 then h.(isOpen := false) else h
    }
  }

  lemma AttachCounts(h: HolderState, readers: nat, readable: bool)
    requires h.Counts(readers) && (h.keepClosed || h.attached)
    ensures h.AttachReader(readable).Counts(readers + 1) && h.AttachReader(readable).keepClosed == h.keepClosed
  {
  }

  lemma DetachCounts(h: HolderState, readers: nat)
    requires h.Counts(readers + 1)
    ensures h.DetachReader().Counts(readers) && h.DetachReader().keepClosed == h.keepClosed
    ensures h.DetachReader().attached
  {
  }

  class FileHolder {
    const keepClosed: bool
    var counter: nat
    var attached: bool
    var isOpen: bool

    ghost function State(): HolderState
      reads this
    {
      HolderState(keepClosed, counter, attached, isOpen)
    }

    ghost predicate Valid()
      reads this
    {
      State().Consistent()
    }

    constructor (keepClosed: bool)
      ensures Valid() && State() == HolderState(keepClosed, 0, false, false)
    {
      this.keepClosed := keepClosed;
      counter, attached, isOpen := 0, false, false;
    }

    /** Without readers, a file that is kept closed stays open until the reader that follows has left. */
    method ReOpenFile(readable: bool)
      modifies this
      ensures keepClosed && counter == 0 && readable <==> !Valid()
      ensures State() == old(State()).ReOpenFile(readable)
      ensures attached && isOpen == readable && counter == old(counter)
    {
      attached, isOpen := true, readable;
    }

    method Open(readable: bool)
      requires Valid()
      modifies this
      ensures Valid()
      ensures State() == old(State()).Open(readable)
      ensures if keepClosed then State() == old(State()) else counter == 1 && attached && isOpen == readable
    {
      if !keepClosed {
        counter := 1;
        ReOpenFile(readable);
      }
    }

    method AttachReader(readable: bool)
      modifies this
      ensures old(Valid()) || (keepClosed && old(counter) == 0) ==> Valid()
      ensures State() == old(State()).AttachReader(readable)
      ensures counter == old(counter) + 1
      ensures if keepClosed && old(counter) == 0 then attached && isOpen == readable
              else attached == old(attached) && isOpen == old(isOpen)
    {
      if keepClosed && counter == 0 {
        ReOpenFile(readable);
      }
      counter := counter + 1;
    }

    /** Closing needs a handle: the last reader that leaves must have come before. */
    method DetachReader()
      requires Valid() && (keepClosed && counter <= 1 ==> attached)
      modifies this
      ensures Valid()
      ensures State() == old(State()).DetachReader()
      ensures counter == (if old(counter) > 0 then old(counter) - 1 else 0) && attached == old(attached)
      ensures isOpen == (old(isOpen) && !(keepClosed && counter == 0))
    {
      if counter > 0 {
        counter := counter - 1;
      }
      if keepClosed && counter == 0 {
        isOpen := false;
      }
    }
  }
}
