/** A bounded channel whose sender never blocks: `try_send` on a full
    channel fails, and every caller in this program discards that failure
    (`.ok()`), so a message sent into a full channel is simply lost. */
module Channel {

  datatype Queue<T> = Queue(items: seq<T>, capacity: nat) {

    ghost predicate Valid() {
      |items| <= capacity
    }

    predicate IsFull() {
      |items| >= capacity
    }

    /** `try_send`: appends `x` when there is room, and reports whether it did.
        A full queue is left exactly as it was. */
    function TrySend(x: T): (r: (Queue<T>, bool))
      ensures r.1 <==> !IsFull()
      ensures r.0.capacity == capacity
      ensures r.1 ==> r.0.items == items + [x]
      ensures !r.1 ==> r.0 == this
      ensures Valid() ==> r.0.Valid()
    {
      if IsFull() then (this, false) else (Queue(items + [x], capacity), true)
    }
  }
}
