/**
 * The page around the search in src/components/CdpHomePage.js: the
 * leading-edge `debounce` wrapper and the click guard of the fetch button.
 * Timers have no clock here: a timer firing is an explicit event.
 */
module CdpHomePage {
  import opened Wrappers
  import CdpSearch

  // ---------------------------------------------------------------------------
  // debounce

  /**
   * The state of a debounce closure: the handle of its pending timer (None
   * while `timer` is unset or null) and how many timers it has set so far.
   */
  datatype TimerState = TimerState(timer: Option<nat>, issued: nat)

  /** A call of the debounced function, or the timer with a given handle firing. */
  datatype Event = Call | Expire(handle: nat)

  ghost predicate WellFormed(st: TimerState)
  {
    st.timer.Some? ==> st.timer.value < st.issued
  }

  /**
   * One event.  A call invokes `func` only when no timer is pending, and in
   * every case clears the pending timer and sets a fresh one.  A timer that
   * fires resets `timer` to null; a cleared timer never fires, so the expiry
   * of any handle but the pending one changes nothing.
   */
  function Step(st: TimerState, e: Event): (r: (TimerState, bool))
    ensures r.1 <==> e.Call? && st.timer.None?
    ensures e.Call? ==> r.0.timer == Some(st.issued) && r.0.issued == st.issued + 1
    ensures e.Expire? ==> r.0.issued == st.issued
    ensures e.Expire? ==> r.0.timer == (if st.timer == Some(e.handle) then None else st.timer)
    ensures WellFormed(st) ==> WellFormed(r.0)
  {
    match e
    case Call => (TimerState(Some(st.issued), st.issued + 1), st.timer.None?)
    case Expire(h) => (if st.timer == Some(h) then TimerState(None, st.issued) else st, false)
  }

  /** The state after a sequence of events. */
  function Final(st: TimerState, events: seq<Event>): TimerState
    decreases |events|
  {
    if events == [] then st else Final(Step(st, events[0]).0, events[1..])
  }

  /** How many of the events invoke `func`. */
  function Invocations(st: TimerState, events: seq<Event>): nat
    decreases |events|
  {
    if events == [] then 0
    else (if Step(st, events[0]).1 then 1 else 0) + Invocations(Step(st, events[0]).0, events[1..])
  }

  /**
   * Leading edge: a burst of calls with no timer firing in between invokes
   * `func` once if no timer was pending and never otherwise.
   */
  lemma {:induction false} BurstInvokesOnce(st: TimerState, events: seq<Event>)
    requires forall i :: 0 <= i < |events| ==> events[i].Call?
    ensures Invocations(st, events) == if st.timer.None? && events != [] then 1 else 0
    ensures events != [] ==> Final(st, events).timer.Some?
    decreases |events|
  {
    if events != [] {
      var next := Step(st, events[0]).0;
      BurstInvokesOnce(next, events[1..]);
    }
  }

  /**
   * Once a timer is pending, no call invokes `func` until that timer, or one
   * set after it, fires: the expiry of timers that were cleared earlier does
   * not re-arm the wrapper.
   */
  lemma {:induction false} OnlyExpiryReArms(st: TimerState, events: seq<Event>)
    requires WellFormed(st) && st.timer.Some?
    requires forall i :: 0 <= i < |events| && events[i].Expire? ==> events[i].handle < st.timer.value
    ensures Invocations(st, events) == 0
    ensures Final(st, events).timer.Some? && Final(st, events).timer.value >= st.timer.value
    decreases |events|
  {
    if events != [] {
      var next := Step(st, events[0]).0;
      assert next.timer.Some? && next.timer.value >= st.timer.value;
      OnlyExpiryReArms(next, events[1..]);
    }
  }

  /** After the pending timer fires, the next call invokes `func` again. */
  lemma ExpiryReArms(st: TimerState)
    requires st.timer.Some?
    ensures Step(Step(st, Expire(st.timer.value)).0, Call).1
  {
  }

  /** The closure returned by `debounce(func, delay)`. */
  class Debouncer {
    var timer: Option<nat>
    var issued: nat

    function State(): TimerState
      reads this
    {
      TimerState(timer, issued)
    }

    ghost predicate Valid()
      reads this
    {
      WellFormed(State())
    }

    constructor ()
      ensures Valid() && timer == None && issued == 0
    {
      timer, issued := None, 0;
    }

    /** The debounced function is called; `invoked` says whether `func` ran. */
    method Call() returns (invoked: bool)
      requires Valid()
      modifies this
      ensures Valid()
      ensures (State(), invoked) == Step(old(State()), Event.Call)
    {
      invoked := timer.None?;
      timer := Some(issued);
      issued := issued + 1;
    }

    /** The timer with handle `handle` would fire now; `fired` says whether it was still set. */
    method Expire(handle: nat) returns (fired: bool)
      requires Valid()
      modifies this
      ensures Valid()
      ensures fired <==> old(timer) == Some(handle)
      ensures State() == Step(old(State()), Event.Expire(handle)).0
    {
      fired := timer == Some(handle);
      if fired {
        timer := None;
      }
    }
  }

  // ---------------------------------------------------------------------------
  // handleFetchButtonClick

  class Page {
    var loading: bool
    var list: seq<CdpSearch.Position>
    /** debounce(fetchCdpList, 500) */
    const fetch: Debouncer

    ghost predicate Valid()
      reads this, fetch
    {
      fetch.Valid()
    }

    constructor ()
      ensures Valid() && !loading && list == [] && fresh(fetch) && fetch.State() == TimerState(None, 0)
    {
      loading, list := false, [];
      fetch := new Debouncer();
    }

    /**
     * A click on the fetch button: ignored while loading; otherwise the list
     * is cleared and the debounced fetchCdpList called, which sets loading
     * when it runs.  `started` says whether a search began.  The list is
     * cleared even when the debounce swallows the call.
     */
    method Click() returns (started: bool)
      requires Valid()
      modifies this, fetch
      ensures Valid()
      ensures old(loading) ==>
                !started && loading && list == old(list) && fetch.State() == old(fetch.State())
      ensures !old(loading) ==>
                && list == []
                && (fetch.State(), started) == Step(old(fetch.State()), Event.Call)
                && loading == started
    {
      if loading {
        return false;
      }
      list := [];
      started := fetch.Call();
      if started {
        loading := true;
      }
    }

    /** cdpFound resolved: fetchCdpList ends with setLoading(false). */
    method SearchFinished()
      requires Valid()
      modifies this
      ensures Valid() && !loading && list == old(list)
    {
      loading := false;
    }
  }
}
