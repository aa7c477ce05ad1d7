/** The per-context inbox (molecule_runtime/runtime_inbox.py): the entry's fields, the
    operations that change them, and what each does to the entry as a value. */
module RuntimeInbox {
  import opened Wrappers

  /** A message queued for a context; `id` is its place in the order of arrival. */
  datatype Message = Message(id: nat, text: string, source: Option<string>)

  datatype Entry = Entry(
    pending: seq<Message>,
    interrupt: bool,
    inFlight: bool,
    inFlightSource: Option<string>,
    preempt: bool
  )

  const FRESH_ENTRY := Entry([], false, false, None, false)

  predicate HasRoom(e: Entry, maxsize: nat) {
    |e.pending| < maxsize
  }

  function InterruptRequested(e: Entry, maxsize: nat, m: Message): Entry {
    if HasRoom(e, maxsize) then e.(pending := e.pending + [m], preempt := true, interrupt := true) else e
  }

  function Deferred(e: Entry, maxsize: nat, m: Message): Entry {
    if HasRoom(e, maxsize) then e.(pending := e.pending + [m]) else e
  }

  function Consumed(e: Entry): Entry {
    e.(pending := [], interrupt := false)
  }

  class InboxEntry {
    const maxsize: nat
    var pending: seq<Message>
    var interruptEvent: bool
    var turnInFlight: bool
    var inFlightSourceType: Option<string>
    var preemptRequested: bool

    ghost function State(): Entry
      reads this
    {
      Entry(pending, interruptEvent, turnInFlight, inFlightSourceType, preemptRequested)
    }

    constructor (maxsize: nat)
      ensures State() == FRESH_ENTRY && this.maxsize == maxsize
    {
      this.maxsize := maxsize;
      pending, interruptEvent, turnInFlight := [], false, false;
      inFlightSourceType, preemptRequested := None, false;
    }

    /** The message goes in before the flags go up, so a woken turn always finds it. */
    method RequestInterrupt(m: Message) returns (accepted: bool)
      modifies this
      ensures accepted <==> HasRoom(old(State()), maxsize)
      ensures State() == InterruptRequested(old(State()), maxsize, m)
    {
      if |pending| >= maxsize {
        return false;
      }
      pending := pending + [m];
      preemptRequested := true;
      interruptEvent := true;
      accepted := true;
    }

    method DeferMessage(m: Message) returns (accepted: bool)
      modifies this
      ensures accepted <==> HasRoom(old(State()), maxsize)
      ensures State() == Deferred(old(State()), maxsize, m)
    {
      if |pending| >= maxsize {
        return false;
      }
      pending := pending + [m];
      accepted := true;
    }

    method ConsumePending() returns (out: seq<Message>)
      modifies this
      ensures out == old(pending)
      ensures State() == Consumed(old(State()))
    {
      out := [];
      while pending != []
        invariant out + pending == old(pending)
        invariant State() == old(State()).(pending := pending)
        decreases |pending|
      {
        out := out + [pending[0]];
        pending := pending[1..];
      }
      interruptEvent := false;
    }
  }
}
