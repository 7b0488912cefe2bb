/** FxPtr<T> (FxMemory.h): a move-only owner of a handle and of the callback
    that destroys it. Handles are natural numbers with 0 standing for `T{}`
    (VK_NULL_HANDLE); the callback is either empty or a `Deleter` identified
    by the state it captured. Every invocation of a callback is appended to
    the ghost log `destroyed`, so the contracts can say how often and on what
    the callback fires. */
module FxMemory {
  import opened Wrappers

  /** A non-empty std::function<void(T)>; `tag` identifies the callable and
      what it captured (for a surface deleter, the VkInstance handle). */
  datatype Deleter = Deleter(tag: nat)

  /** One call `destructor(handle)`. */
  datatype Destruction = Destruction(deleter: Deleter, handle: nat)

  /** The two fields of an FxPtr as a value. */
  datatype PtrState = PtrState(handle: nat, destructor: Option<Deleter>)

  /** A default-constructed FxPtr. */
  const Empty: PtrState := PtrState(0, None)

  /** What `Reset` invokes on the state it leaves: the callback on the handle
      when the handle is non-null and a callback is set, nothing otherwise. */
  function Fired(s: PtrState): seq<Destruction> {
    if s.handle != 0 && s.destructor.Some? then [Destruction(s.destructor.value, s.handle)] else []
  }

  /** Move assignment between two distinct owners, as values: the target
      first releases its own handle, then takes the source's handle and
      callback; the source keeps a null handle and, moved from, an empty
      callback. Returns the new target, the new source and what fired. */
  function MoveAssigned(target: PtrState, source: PtrState): (PtrState, PtrState, seq<Destruction>) {
    (source, Empty, Fired(target))
  }

  /** Reset fires at most once, exactly when the old handle is live and a
      callback is set; once reset to the defaults, a second reset (or the
      destructor) fires nothing, so a handle is never destroyed twice. */
  lemma ResetFiresOnce(s: PtrState)
    ensures |Fired(s)| <= 1
    ensures |Fired(s)| == 1 <==> s.handle != 0 && s.destructor.Some?
    ensures Fired(s) != [] ==> Fired(s)[0] == Destruction(s.destructor.value, s.handle)
    ensures Fired(Empty) == []
  {
  }

  /** Ownership moves without loss or duplication: destroying both owners
      after a move fires exactly what destroying both before it would have
      fired, and the moved-from owner fires nothing. */
  lemma MovePreservesDestructions(target: PtrState, source: PtrState)
    ensures var (t, s, fired) := MoveAssigned(target, source);
      && fired + Fired(t) + Fired(s) == Fired(target) + Fired(source)
      && Fired(s) == [] && s.handle == 0
  {
  }

  class FxPtr {
    var handle: nat
    var destructor: Option<Deleter>
    /** Every callback invocation this owner has made, in order. */
    ghost var destroyed: seq<Destruction>

    function State(): PtrState
      reads this
    {
      PtrState(handle, destructor)
    }

    /** FxPtr() = default. */
    constructor ()
      ensures State() == Empty && destroyed == []
    {
      handle := 0;
      destructor := None;
      destroyed := [];
    }

    /** FxPtr(handle, destructor). */
    constructor Adopt(h: nat, d: Option<Deleter>)
      ensures State() == PtrState(h, d) && destroyed == []
    {
      handle := h;
      destructor := d;
      destroyed := [];
    }

    /** Reset(newHandle = T{}, destructor = nullptr): destroy the current
      handle if it is live and destructible, then adopt the new pair. */
    method Reset(newHandle: nat, newDestructor: Option<Deleter>)
      modifies this
      ensures State() == PtrState(newHandle, newDestructor)
      ensures destroyed == old(destroyed) + Fired(old(State()))
    {
      if handle != 0 && destructor.Some? {
        destroyed := destroyed + [Destruction(destructor.value, handle)];
      }
      handle := newHandle;
      destructor := newDestructor;
    }

    /** ~FxPtr(): exactly Reset() with the defaults. */
    method Destroy()
      modifies this
      ensures State() == Empty && !IsValid()
      ensures destroyed == old(destroyed) + Fired(old(State()))
    {
      Reset(0, None);
    }

    /** Disarm: forget the handle and the callback without invoking it. */
    method Disarm()
      modifies this
      ensures State() == Empty
      ensures destroyed == old(destroyed)
    {
      handle := 0;
      destructor := None;
    }

    /** Put(destructor): destroy the current handle, install the new
      callback and leave a null handle slot for the API to fill. */
    method Put(newDestructor: Option<Deleter>)
      modifies this
      ensures State() == PtrState(0, newDestructor)
      ensures destroyed == old(destroyed) + Fired(old(State()))
    {
      Reset(0, None);
      destructor := newDestructor;
    }

    /** Get(): the held handle, T{} when empty. */
    function Get(): (h: nat)
      reads this
      ensures h == 0 <==> !IsValid()
    {
      handle
    }

    predicate IsValid()
      reads this
    {
      handle != 0
    }

    predicate IsDestructible()
      reads this
    {
      destructor.Some?
    }

    /** FxPtr(FxPtr&& other): take the pair and null the source. */
    constructor Moved(other: FxPtr)
      modifies other
      ensures State() == old(other.State()) && destroyed == []
      ensures other.State() == Empty
      ensures other.destroyed == old(other.destroyed)
    {
      handle := other.handle;
      destructor := other.destructor;
      destroyed := [];
      new;
      other.handle := 0;
      other.destructor := None;
    }

    /** operator=(FxPtr&& other): a no-op on self; otherwise release the
      current handle first, then take over the source's pair. */
    method MoveAssign(other: FxPtr)
      modifies this, other
      ensures other == this ==> State() == old(State()) && destroyed == old(destroyed)
      ensures other != this ==>
        var (t, s, fired) := MoveAssigned(old(State()), old(other.State()));
        && State() == t && other.State() == s
        && destroyed == old(destroyed) + fired
        && other.destroyed == old(other.destroyed)
    {
      if other != this {
        Reset(0, None);
        handle := other.handle;
        destructor := other.destructor;
        other.handle := 0;
        other.destructor := None;
      }
    }
  }
}
