/**
 * One CDP search session: fetchCdpList in src/components/CdpHomePage.js.
 *
 * Five self-refilling chains probe CDP ids around a start id S.  Three upward
 * chains share the distance counter `distanceUp` (S, S+1, S+2, ...), two
 * downward chains share `distanceDown` (S-1, S-2, ...).  A chain whose task
 * resolves enqueues the next id of its direction unless 20 matches have been
 * found; a task that throws, or a call that produces a non-positive id, ends
 * its chain.  The event loop is a sequence of atomic steps chosen by the
 * caller: Complete(chain, outcome) resolves the chain's task, Refill(chain)
 * runs the `.then` callback that refills it.
 */
module CdpSearch {
  import opened Wrappers

  const UpChains: nat := 3
  const DownChains: nat := 2
  const Chains: nat := UpChains + DownChains
  /** `new Pqueue({ concurrency: 5 })` */
  const Concurrency: nat := 5
  /** The stop rule `foundCdpCount >= 20`. */
  const Target: nat := 20

  // ---------------------------------------------------------------------------
  // The ids each direction enqueues

  /**
   * The ids the upward calls have enqueued once `distanceUp` has reached n:
   * S + d for every d < n with S + d > 0, in call order.
   */
  function UpIds(start: int, n: nat): (r: seq<int>)
    ensures |r| <= n
    ensures forall i :: 0 <= i < |r| ==> 0 < r[i] && start <= r[i] < start + n
  {
    if n == 0 then []
    else UpIds(start, n - 1) + (if start + (n - 1) > 0 then [start + (n - 1)] else [])
  }

  /**
   * The ids the downward calls have enqueued once `distanceDown` has reached
   * n (it starts at 1): S - d for every 1 <= d < n with S - d > 0.
   */
  function DownIds(start: int, n: nat): (r: seq<int>)
    ensures |r| <= n
    ensures forall i :: 0 <= i < |r| ==> 0 < r[i] && start - n < r[i] < start
  {
    if n <= 1 then []
    else DownIds(start, n - 1) + (if start - (n - 1) > 0 then [start - (n - 1)] else [])
  }

  /** Every id enqueued so far, both directions. */
  function Issued(start: int, up: nat, down: nat): seq<int>
  {
    UpIds(start, up) + DownIds(start, down)
  }

  lemma {:induction false} UpIdsMembership(start: int, n: nat, x: int)
    ensures x in UpIds(start, n) <==> 0 < x && start <= x < start + n
  {
    if n > 0 {
      UpIdsMembership(start, n - 1, x);
    }
  }

  lemma {:induction false} DownIdsMembership(start: int, n: nat, x: int)
    ensures x in DownIds(start, n) <==> 0 < x && start - n < x < start
  {
    if n > 1 {
      DownIdsMembership(start, n - 1, x);
    }
  }

  /**
   * Upward ids are consecutive from max(S, 1): S, S+1, S+2, ... for a positive
   * start, and the non-positive distances are skipped.
   */
  lemma {:induction false} UpIdsConsecutive(start: int, n: nat)
    ensures var first := if start > 0 then start else 1;
            && |UpIds(start, n)| == (if start + n > first then start + n - first else 0)
            && forall i :: 0 <= i < |UpIds(start, n)| ==> UpIds(start, n)[i] == first + i
  {
    if n > 0 {
      UpIdsConsecutive(start, n - 1);
    }
  }

  /** Downward ids are S-1, S-2, ... down to max(S - n + 1, 1). */
  lemma {:induction false} DownIdsConsecutive(start: int, n: nat)
    ensures var last := if start - n + 1 > 1 then start - n + 1 else 1;
            && |DownIds(start, n)| == (if start - 1 >= last then start - last else 0)
            && forall i :: 0 <= i < |DownIds(start, n)| ==> DownIds(start, n)[i] == start - 1 - i
  {
    if n > 1 {
      DownIdsConsecutive(start, n - 1);
    }
  }

  ghost predicate NoDuplicates(s: seq<int>)
  {
    forall i, j :: 0 <= i < j < |s| ==> s[i] != s[j]
  }

  /** No id is ever enqueued twice in a session, and every enqueued id is positive. */
  lemma NoIdTwice(start: int, up: nat, down: nat)
    ensures NoDuplicates(Issued(start, up, down))
    ensures forall x :: x in Issued(start, up, down) ==> x > 0
  {
    var u, d := UpIds(start, up), DownIds(start, down);
    UpIdsConsecutive(start, up);
    DownIdsConsecutive(start, down);
    forall i, j | 0 <= i < j < |u + d| ensures (u + d)[i] != (u + d)[j] {
      if j < |u| {
      } else if i >= |u| {
      } else {
        UpIdsMembership(start, up, u[i]);
        DownIdsMembership(start, down, d[j - |u|]);
      }
    }
    forall x | x in u + d ensures x > 0 {
      UpIdsMembership(start, up, x);
      DownIdsMembership(start, down, x);
    }
  }

  /**
   * The seeding loops (three upward calls, two downward calls) enqueue
   * nothing upward exactly when S <= -2, and nothing downward exactly when
   * S <= 1; so an id of -2 or less starts a search that probes nothing.
   */
  lemma SeedingEnqueuesNothing(start: int)
    ensures UpIds(start, UpChains) == [] <==> start <= -2
    ensures DownIds(start, DownChains + 1) == [] <==> start <= 1
  {
    UpIdsConsecutive(start, UpChains);
    DownIdsConsecutive(start, DownChains + 1);
  }

  // ---------------------------------------------------------------------------
  // processCdpData

  /** What getCdpInfo returns, with the ilk already decoded from bytes32. */
  datatype Record = Record(ilk: string, collateral: nat, debt: nat)

  /** The entry appended to the list: debt scaled by the rate. */
  datatype Position = Position(id: int, ilk: string, collateral: nat, debt: nat)

  /**
   * How the two remote lookups of one task turn out: fetchCdpData's record
   * (None for the null it returns on error) and the rate fetchIlkRate gives
   * if it is reached (None for its null).
   */
  datatype Outcome = Outcome(record: Option<Record>, rate: Option<nat>)

  /** The task throws (a TypeError), returns without effect, or appends one entry. */
  datatype Verdict = Throws | Skip | Append(position: Position)

  predicate IsEmptyPosition(r: Record)
  {
    r.debt == 0 && r.collateral == 0
  }

  /**
   * The decision of processCdpData for id `id` when `selected` is the chosen
   * collateral type.  A null record is dereferenced and throws; an empty
   * record or another collateral type is skipped; a matching record whose
   * rate is null throws on `BigInt * null`; otherwise one entry is appended.
   */
  function Process(selected: string, id: int, o: Outcome): (v: Verdict)
    ensures v.Throws? <==>
              o.record.None? || (!IsEmptyPosition(o.record.value) && o.record.value.ilk == selected && o.rate.None?)
    ensures v.Skip? <==>
              o.record.Some? && (IsEmptyPosition(o.record.value) || o.record.value.ilk != selected)
    ensures v.Append? ==>
              && o.record.Some? && o.rate.Some?
              && v.position == Position(id, selected, o.record.value.collateral, o.record.value.debt * o.rate.value)
  {
    match o.record
    case None => Throws
    case Some(r) =>
      if IsEmptyPosition(r) then Skip
      else if r.ilk != selected then Skip
      else
        match o.rate
        case None => Throws
        case Some(rate) => Append(Position(id, r.ilk, r.collateral, r.debt * rate))
  }

  // ---------------------------------------------------------------------------
  // Chains

  /**
   * A chain is not seeded yet, has a task outstanding on an id, has a task
   * that resolved and whose `.then` callback has not run yet, or has ended
   * (a non-positive id, a throw, or the stop rule).  Nothing leaves Ended.
   */
  datatype Slot = Unseeded | Pending(id: int) | Settled | Ended

  /** The states from which addTaskToQueueUp/Down is called: the seeding loops and `.then`. */
  predicate CanAdd(slot: Slot)
  {
    slot.Unseeded? || slot.Settled?
  }

  /** Number of outstanding tasks. */
  function Outstanding(slots: seq<Slot>): (n: nat)
    ensures n <= |slots|
  {
    if slots == [] then 0 else (if slots[0].Pending? then 1 else 0) + Outstanding(slots[1..])
  }

  lemma {:induction false} OutstandingUpdate(slots: seq<Slot>, c: nat, x: Slot)
    requires c < |slots|
    ensures Outstanding(slots[c := x]) + (if slots[c].Pending? then 1 else 0)
            == Outstanding(slots) + (if x.Pending? then 1 else 0)
  {
    if c > 0 {
      OutstandingUpdate(slots[1..], c - 1, x);
      assert slots[c := x][1..] == slots[1..][c - 1 := x];
    }
  }

  /** A chain that is not outstanding leaves room: at most |slots| - 1 others are. */
  lemma OutstandingWithFreeSlot(slots: seq<Slot>, c: nat)
    requires c < |slots| && !slots[c].Pending?
    ensures Outstanding(slots) < |slots|
  {
    OutstandingUpdate(slots, c, Pending(0));
  }

  // ---------------------------------------------------------------------------
  // Session invariants, on plain values

  /** The window of distances probed so far: S - distanceDown < id < S + distanceUp. */
  ghost predicate InWindow(start: int, up: nat, down: nat, id: int)
  {
    0 < id && start - down < id < start + up
  }

  /** The window is exactly the set of ids enqueued so far. */
  lemma WindowIsIssued(start: int, up: nat, down: nat, id: int)
    requires down >= 1
    ensures InWindow(start, up, down, id) <==> id in Issued(start, up, down)
  {
    UpIdsMembership(start, up, id);
    DownIdsMembership(start, down, id);
  }

  /** An outstanding id of chain c lies on its side of S, inside the window. */
  ghost predicate OnItsSide(start: int, up: nat, down: nat, c: nat, id: int)
  {
    InWindow(start, up, down, id) && (if c < UpChains then id >= start else id < start)
  }

  ghost predicate SlotsInv(start: int, up: nat, down: nat, slots: seq<Slot>)
  {
    && |slots| == Chains
    && down >= 1
    && (forall c :: 0 <= c < Chains && slots[c].Pending? ==> OnItsSide(start, up, down, c, slots[c].id))
    && (forall c, d :: 0 <= c < d < Chains && slots[c].Pending? && slots[d].Pending? ==> slots[c].id != slots[d].id)
  }

  ghost predicate AppendedInv(start: int, up: nat, down: nat, selected: string, appended: seq<Position>, slots: seq<Slot>)
  {
    && (forall k :: 0 <= k < |appended| ==> appended[k].ilk == selected && InWindow(start, up, down, appended[k].id))
    && (forall k, c :: 0 <= k < |appended| && 0 <= c < |slots| ==> slots[c] != Pending(appended[k].id))
    && (forall k, l :: 0 <= k < l < |appended| ==> appended[k].id != appended[l].id)
  }

  /** The number of ids in the window. */
  function WindowSize(start: int, up: nat, down: nat): nat
  {
    var lo := if start - down + 1 > 1 then start - down + 1 else 1;
    var hi := start + up - 1;
    if hi >= lo then hi - lo + 1 else 0
  }

  /**
   * The ids enqueued so far are distinct, lie in the window and are as many
   * as it holds: they fill the window exactly.
   */
  ghost predicate EnqueuedInv(start: int, up: nat, down: nat, enqueued: seq<int>)
  {
    && NoDuplicates(enqueued)
    && (forall i :: 0 <= i < |enqueued| ==> InWindow(start, up, down, enqueued[i]))
    && |enqueued| == WindowSize(start, up, down)
  }

  /** Enqueuing the next upward id keeps the ids distinct and filling the grown window. */
  lemma EnqueueUp(start: int, up: nat, down: nat, enqueued: seq<int>)
    requires down >= 1 && EnqueuedInv(start, up, down, enqueued)
    ensures var id := start + up;
            EnqueuedInv(start, up + 1, down, enqueued + (if id > 0 then [id] else []))
  {
    var id := start + up;
    var e := enqueued + (if id > 0 then [id] else []);
    forall i, j | 0 <= i < j < |e| ensures e[i] != e[j] {
      if j == |enqueued| {
        assert InWindow(start, up, down, e[i]);
      }
    }
  }

  /** The same for the next downward id. */
  lemma EnqueueDown(start: int, up: nat, down: nat, enqueued: seq<int>)
    requires down >= 1 && EnqueuedInv(start, up, down, enqueued)
    ensures var id := start - down;
            EnqueuedInv(start, up, down + 1, enqueued + (if id > 0 then [id] else []))
  {
    var id := start - down;
    var e := enqueued + (if id > 0 then [id] else []);
    forall i, j | 0 <= i < j < |e| ensures e[i] != e[j] {
      if j == |enqueued| {
        assert InWindow(start, up, down, e[i]);
      }
    }
  }

  ghost predicate CountInv(found: nat, appended: seq<Position>, slots: seq<Slot>, resolved: bool)
  {
    && found == |appended|
    && (resolved <==> found >= Target)
    && found + Outstanding(slots) < Target + Chains
  }

  /** What each chain holds after the seeding loops. */
  function SeedSlot(start: int, c: nat): (slot: Slot)
  {
    var id := if c < UpChains then start + c else start - 1 - (c - UpChains);
    if id > 0 then Pending(id) else Ended
  }

  // ---------------------------------------------------------------------------
  // The session

  class Session {
    /** S = Number(roughCdpId). */
    const start: int
    /** The collateral type selected when the search began. */
    const selected: string
    var distanceUp: nat
    var distanceDown: nat
    var found: nat
    /** The entries this session appended to the list, in completion order. */
    var appended: seq<Position>
    var slots: seq<Slot>
    /** Every id handed to the queue so far, in call order. */
    ghost var enqueued: seq<int>
    /** The promise cdpFound has been resolved. */
    var resolved: bool

    ghost predicate Valid()
      reads this
    {
      && SlotsInv(start, distanceUp, distanceDown, slots)
      && AppendedInv(start, distanceUp, distanceDown, selected, appended, slots)
      && CountInv(found, appended, slots, resolved)
      && EnqueuedInv(start, distanceUp, distanceDown, enqueued)
    }

    /**
     * fetchCdpList up to the seeding loops: the counters start at 0 and 1,
     * nothing is found, and no chain is seeded yet.
     */
    constructor (roughId: int, collateralType: string)
      ensures Valid()
      ensures start == roughId && selected == collateralType
      ensures distanceUp == 0 && distanceDown == 1
      ensures found == 0 && appended == [] && !resolved && enqueued == []
      ensures |slots| == Chains && forall c :: 0 <= c < Chains ==> slots[c] == Unseeded
    {
      start, selected := roughId, collateralType;
      distanceUp, distanceDown := 0, 1;
      found, appended, resolved := 0, [], false;
      enqueued := [];
      slots := seq(Chains, _ => Unseeded);
    }

    /**
     * The first seeding loop of fetchCdpList: three upward calls, so the
     * upward chains get S, S+1, S+2, each only if positive.
     */
    method SeedUp()
      requires Valid() && distanceUp == 0 && enqueued == [] && found < Target
      requires forall c :: 0 <= c < UpChains ==> slots[c] == Unseeded
      modifies this
      ensures Valid()
      ensures distanceUp == UpChains && distanceDown == old(distanceDown)
      ensures forall c :: 0 <= c < UpChains ==> slots[c] == SeedSlot(start, c)
      ensures forall c :: UpChains <= c < Chains ==> slots[c] == old(slots[c])
      ensures enqueued == UpIds(start, UpChains)
      ensures found == old(found) && appended == old(appended) && resolved == old(resolved)
    {
      for i := 0 to UpChains
        invariant Valid()
        invariant distanceUp == i && distanceDown == old(distanceDown)
        invariant found == old(found) && appended == old(appended) && resolved == old(resolved)
        invariant forall c :: 0 <= c < i ==> slots[c] == SeedSlot(start, c)
        invariant forall c :: i <= c < Chains ==> slots[c] == old(slots[c])
        invariant enqueued == UpIds(start, i)
      {
        AddUp(i);
      }
    }

    /**
     * The second seeding loop: two downward calls, so the downward chains
     * get S-1 and S-2, each only if positive.
     */
    method SeedDown()
      requires Valid() && distanceDown == 1 && found < Target
      requires forall c :: UpChains <= c < Chains ==> slots[c] == Unseeded
      modifies this
      ensures Valid()
      ensures distanceDown == DownChains + 1 && distanceUp == old(distanceUp)
      ensures forall c :: 0 <= c < UpChains ==> slots[c] == old(slots[c])
      ensures forall c :: UpChains <= c < Chains ==> slots[c] == SeedSlot(start, c)
      ensures enqueued == old(enqueued) + DownIds(start, DownChains + 1)
      ensures found == old(found) && appended == old(appended) && resolved == old(resolved)
    {
      for j := UpChains to Chains
        invariant Valid()
        invariant distanceUp == old(distanceUp) && distanceDown == j - UpChains + 1
        invariant found == old(found) && appended == old(appended) && resolved == old(resolved)
        invariant forall c :: 0 <= c < UpChains ==> slots[c] == old(slots[c])
        invariant forall c :: UpChains <= c < j ==> slots[c] == SeedSlot(start, c)
        invariant forall c :: j <= c < Chains ==> slots[c] == Unseeded
        invariant enqueued == old(enqueued) + DownIds(start, distanceDown)
      {
        AddDown(j);
      }
    }

    /**
     * addTaskToQueueUp on upward chain `chain`: the id S + distanceUp is
     * enqueued on the chain if positive (otherwise the chain ends), and the
     * counter advances by one either way.  Called only while fewer than 20
     * matches have been found (by the seeding loop and by Refill).
     */
    method AddUp(chain: nat)
      requires Valid() && chain < UpChains && CanAdd(slots[chain]) && found < Target
      modifies this
      ensures Valid()
      ensures var id := start + old(distanceUp);
              && distanceUp == old(distanceUp) + 1
              && slots == old(slots)[chain := if id > 0 then Pending(id) else Ended]
              && UpIds(start, distanceUp) == UpIds(start, old(distanceUp)) + (if id > 0 then [id] else [])
              && enqueued == old(enqueued) + (if id > 0 then [id] else [])
      ensures distanceDown == old(distanceDown) && found == old(found)
      ensures appended == old(appended) && resolved == old(resolved)
    {
      var id := start + distanceUp;
      var x := if id > 0 then Pending(id) else Ended;
      OutstandingWithFreeSlot(slots, chain);
      OutstandingUpdate(slots, chain, x);
      EnqueueUp(start, distanceUp, distanceDown, enqueued);
      slots := slots[chain := x];
      enqueued := enqueued + (if id > 0 then [id] else []);
      distanceUp := distanceUp + 1;
    }

    /**
     * addTaskToQueueDown on downward chain `chain`: the id S - distanceDown is
     * enqueued if positive (otherwise the chain ends), and the counter
     * advances by one either way.
     */
    method AddDown(chain: nat)
      requires Valid() && UpChains <= chain < Chains && CanAdd(slots[chain]) && found < Target
      modifies this
      ensures Valid()
      ensures var id := start - old(distanceDown);
              && distanceDown == old(distanceDown) + 1
              && slots == old(slots)[chain := if id > 0 then Pending(id) else Ended]
              && DownIds(start, distanceDown) == DownIds(start, old(distanceDown)) + (if id > 0 then [id] else [])
              && enqueued == old(enqueued) + (if id > 0 then [id] else [])
      ensures distanceUp == old(distanceUp) && found == old(found)
      ensures appended == old(appended) && resolved == old(resolved)
    {
      var id := start - distanceDown;
      var x := if id > 0 then Pending(id) else Ended;
      OutstandingWithFreeSlot(slots, chain);
      OutstandingUpdate(slots, chain, x);
      EnqueueDown(start, distanceUp, distanceDown, enqueued);
      slots := slots[chain := x];
      enqueued := enqueued + (if id > 0 then [id] else []);
      distanceDown := distanceDown + 1;
    }

    /**
     * The outstanding task of `chain` completes with `outcome`.  A task that
     * throws ends its chain, since the `.then` has no rejection handler;
     * otherwise the chain waits for its `.then`.  A match appends exactly one
     * entry and bumps the count, which resolves cdpFound at 20.
     */
    method Complete(chain: nat, outcome: Outcome) returns (verdict: Verdict)
      requires Valid() && chain < Chains && slots[chain].Pending?
      modifies this
      ensures Valid()
      ensures verdict == Process(selected, old(slots[chain].id), outcome)
      ensures slots == old(slots)[chain := if verdict.Throws? then Ended else Settled]
      ensures appended == old(appended) + (if verdict.Append? then [verdict.position] else [])
      ensures found == old(found) + (if verdict.Append? then 1 else 0)
      ensures distanceUp == old(distanceUp) && distanceDown == old(distanceDown)
      ensures enqueued == old(enqueued)
    {
      var id := slots[chain].id;
      verdict := Process(selected, id, outcome);
      var x := if verdict.Throws? then Ended else Settled;
      OutstandingUpdate(slots, chain, x);
      if verdict.Append? {
        assert OnItsSide(start, distanceUp, distanceDown, chain, id);
        forall k | 0 <= k < |appended| ensures appended[k].id != id {
          assert slots[chain] != Pending(appended[k].id);
        }
        appended := appended + [verdict.position];
        found := found + 1;
        if found >= Target {
          resolved := true;
        }
      }
      slots := slots[chain := x];
    }

    /**
     * The `.then` callback of a chain whose task resolved: refill the chain
     * in its direction while fewer than 20 matches are found, else end it.
     */
    method Refill(chain: nat)
      requires Valid() && chain < Chains && slots[chain] == Settled
      modifies this
      ensures Valid()
      ensures old(found) >= Target ==>
                && slots == old(slots)[chain := Ended]
                && distanceUp == old(distanceUp) && distanceDown == old(distanceDown)
      ensures old(found) < Target && chain < UpChains ==>
                && distanceUp == old(distanceUp) + 1 && distanceDown == old(distanceDown)
                && slots == old(slots)[chain := if start + old(distanceUp) > 0 then Pending(start + old(distanceUp)) else Ended]
                && enqueued == old(enqueued) + (if start + old(distanceUp) > 0 then [start + old(distanceUp)] else [])
      ensures old(found) < Target && UpChains <= chain ==>
                && distanceDown == old(distanceDown) + 1 && distanceUp == old(distanceUp)
                && slots == old(slots)[chain := if start - old(distanceDown) > 0 then Pending(start - old(distanceDown)) else Ended]
                && enqueued == old(enqueued) + (if start - old(distanceDown) > 0 then [start - old(distanceDown)] else [])
      ensures old(found) >= Target ==> enqueued == old(enqueued)
      ensures found == old(found) && appended == old(appended) && resolved == old(resolved)
    {
      if found < Target {
        if chain < UpChains {
          AddUp(chain);
        } else {
          AddDown(chain);
        }
      } else {
        OutstandingUpdate(slots, chain, Ended);
        slots := slots[chain := Ended];
      }
    }
  }

  /** All tasks fit in the queue's concurrency: none ever waits to start. */
  lemma OutstandingWithinConcurrency(s: Session)
    requires s.Valid()
    ensures Outstanding(s.slots) <= Concurrency
  {
  }

  /**
   * The count never passes 24: at 20 no chain is refilled, and at most the
   * other four outstanding tasks can still append.
   */
  lemma FoundBound(s: Session)
    requires s.Valid()
    ensures s.found <= Target + Chains - 1
    ensures s.found >= Target ==> s.found + Outstanding(s.slots) <= Target + Chains - 1
  {
  }

  /** The entries of one session have distinct, positive, enqueued ids and the selected type. */
  lemma AppendedDistinct(s: Session)
    requires s.Valid()
    ensures forall k :: 0 <= k < |s.appended| ==>
              s.appended[k].id > 0 && s.appended[k].ilk == s.selected
              && s.appended[k].id in Issued(s.start, s.distanceUp, s.distanceDown)
    ensures forall k, l :: 0 <= k < l < |s.appended| ==> s.appended[k].id != s.appended[l].id
  {
    forall k | 0 <= k < |s.appended| ensures s.appended[k].id in Issued(s.start, s.distanceUp, s.distanceDown) {
      WindowIsIssued(s.start, s.distanceUp, s.distanceDown, s.appended[k].id);
    }
  }

  /**
   * The queue never receives an id twice in a session: the ids handed to it
   * are distinct, positive, and exactly those of UpIds and DownIds.
   */
  lemma EnqueuedOnce(s: Session)
    requires s.Valid()
    ensures NoDuplicates(s.enqueued)
    ensures forall i :: 0 <= i < |s.enqueued| ==> s.enqueued[i] > 0
    ensures forall i :: 0 <= i < |s.enqueued| ==> s.enqueued[i] in Issued(s.start, s.distanceUp, s.distanceDown)
    ensures |s.enqueued| == |Issued(s.start, s.distanceUp, s.distanceDown)|
  {
    forall i | 0 <= i < |s.enqueued| ensures s.enqueued[i] in Issued(s.start, s.distanceUp, s.distanceDown) {
      WindowIsIssued(s.start, s.distanceUp, s.distanceDown, s.enqueued[i]);
    }
    UpIdsConsecutive(s.start, s.distanceUp);
    DownIdsConsecutive(s.start, s.distanceDown);
  }
}
