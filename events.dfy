/** Event.kt: a value wrapped so that it is delivered once, used for the
    pop-up notifications of the view models. */
module Events {
  import opened Wrappers

  class Event<T> {
    const content: T
    var hasBeenHandled: bool

    constructor(content: T)
      ensures this.content == content && !hasBeenHandled
    {
      this.content := content;
      hasBeenHandled := false;
    }

    /** `getContentOrNull`: the content the first time, null afterwards;
        the flag only ever goes from false to true. */
    method GetContentOrNull() returns (r: Option<T>)
      modifies this
      ensures hasBeenHandled
      ensures old(hasBeenHandled) ==> r == None
      ensures !old(hasBeenHandled) ==> r == Some(content)
    {
      if hasBeenHandled {
        r := None;
      } else {
        hasBeenHandled := true;
        r := Some(content);
      }
    }
  }

  /** At most one of any number of reads yields a value: over `n` calls on
      one event, the first call returns the content (if the event was not
      yet handled) and every other call returns null. */
  method ReadRepeatedly<T>(e: Event<T>, n: nat) returns (results: seq<Option<T>>)
    modifies e
    ensures |results| == n
    ensures n > 0 ==> e.hasBeenHandled
    ensures n > 0 ==> results[0] == if old(e.hasBeenHandled) then None else Some(e.content)
    ensures forall k | 1 <= k < n :: results[k] == None
  {
    results := [];
    for k := 0 to n
      invariant |results| == k
      invariant k == 0 ==> e.hasBeenHandled == old(e.hasBeenHandled)
      invariant k > 0 ==> e.hasBeenHandled
      invariant k > 0 ==> results[0] == if old(e.hasBeenHandled) then None else Some(e.content)
      invariant forall m | 1 <= m < k :: results[m] == None
    {
      var r := e.GetContentOrNull();
      results := results + [r];
    }
  }

  /** A new event read `n` times delivers its content exactly once, on the
      first read. */
  method DeliveredOnce<T>(content: T, n: nat) returns (results: seq<Option<T>>)
    ensures |results| == n
    ensures n > 0 ==> results[0] == Some(content)
    ensures forall k | 1 <= k < n :: results[k] == None
  {
    var e := new Event(content);
    results := ReadRepeatedly(e, n);
  }
}
