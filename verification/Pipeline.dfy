/** The preparation pipeline as interleaved steps of a dispatcher, workers and a coordinator over
    two bounded channels, a weighted budget and a dispatch window. */
module Pipeline {
  import opened Checked
  import opened FiniteSets
  import opened ResourceWeights

  // ---------- Configuration ----------

  /** What preparing one item yields when it is not cancelled. */
  datatype Outcome = Prepared(bytes: nat) | Failed

  /** One validated execution; items are their positions in ascending ordinal order. */
  datatype Config = Config(
    ordinals: seq<nat>,
    reserve: seq<Weights>,
    outcome: seq<Outcome>,
    sinkAccepts: seq<bool>,
    workers: nat,
    lookahead: nat,
    queueDepth: nat,
    limit: Weights)
  {
    function Items(): nat {
      |ordinals|
    }

    /** The number of worker threads, which is also the work-channel capacity. */
    function WorkerCount(): nat {
      var most := if workers < lookahead then workers else lookahead;
      if most < |ordinals| then most else |ordinals|
    }

    /** Sorted work that passed validation, under nonzero limits. */
    predicate Valid() {
      workers > 0 && lookahead > 0 && queueDepth > 0 && |ordinals| > 0
      && |reserve| == |outcome| == |sinkAccepts| == |ordinals|
      && (forall i, j :: 0 <= i < j < |ordinals| ==> ordinals[i] < ordinals[j])
      && forall i :: 0 <= i < |reserve| ==> Within(reserve[i], limit)
    }

    /** The item prepares within its reservation. */
    predicate Prepares(i: nat) {
      i < |outcome| && i < |reserve| && outcome[i].Prepared? && outcome[i].bytes <= reserve[i].prepared
    }

    /** The item is prepared and the sink accepts it. */
    predicate Succeeds(i: nat) {
      Prepares(i) && i < |sinkAccepts| && sinkAccepts[i]
    }
  }

  /** The check of the sorted work: unique ordinals, and every reservation within the limits. */
  method ValidateWork(ordinals: seq<nat>, reserve: seq<Weights>, limit: Weights) returns (r: Result<()>)
    requires |reserve| == |ordinals| && forall i, j :: 0 <= i < j < |ordinals| ==> ordinals[i] <= ordinals[j]
    ensures r.Ok? <==> (forall i, j :: 0 <= i < j < |ordinals| ==> ordinals[i] < ordinals[j])
                       && forall i :: 0 <= i < |reserve| ==> Within(reserve[i], limit)
    ensures r.Err? ==> r.error == Delivery || r.error == ResourceLimit
  {
    var seen: set<nat> := {};
    var k := 0;
    while k < |ordinals|
      invariant 0 <= k <= |ordinals|
      invariant forall x :: x in seen <==> exists i :: 0 <= i < k && ordinals[i] == x
      invariant forall i, j :: 0 <= i < j < k ==> ordinals[i] < ordinals[j]
      invariant forall i :: 0 <= i < k ==> Within(reserve[i], limit)
    {
      if ordinals[k] in seen {
        return Err(Delivery);
      }
      if !Within(reserve[k], limit) {
        return Err(ResourceLimit);
      }
      seen := seen + {ordinals[k]};
      k := k + 1;
    }
    return Ok(());
  }

  // ---------- State ----------

  /** Dispatcher positions: before the window permit, before the budget permit, before the
      send, and after the end of its loop. */
  datatype Dispatcher = AtWindow | AtBudget | AtSend | Ended

  datatype Worker = Idle | Preparing(item: nat) | Sending(item: nat) | Exited

  datatype Failure = ItemFailed(item: nat) | RunCancelled | DuplicateOrdinal

  datatype Coordinator = Receiving | Draining | Delivered | Broken(failure: Failure)

  datatype State = State(
    next: nat,
    dispatcher: Dispatcher,
    queue: seq<nat>,
    workers: seq<Worker>,
    results: seq<nat>,
    pending: set<nat>,
    delivered: seq<nat>,
    coordinator: Coordinator,
    cancelled: bool,
    interrupted: bool,
    good: set<nat>,
    permits: Ledger,
    used: Weights,
    windows: set<nat>,
    windowUsed: nat)
  {
    /** The next item the coordinator delivers. */
    function Position(): nat {
      |delivered|
    }

    predicate Finished() {
      coordinator.Delivered? || coordinator.Broken?
    }

    predicate AllExited() {
      forall w :: 0 <= w < |workers| ==> workers[w].Exited?
    }
  }

  function Start(c: Config): State {
    State(0, AtWindow, [], seq(c.WorkerCount(), _ => Idle), [], {}, [], Receiving, false, false, {}, map[],
          NO_WEIGHTS, {}, 0)
  }

  // ---------- Steps ----------

  datatype Action =
    | AcquireWindow | AcquireBudget | Send | StopDispatch
    | Receive(worker: nat) | Prepare(worker: nat) | Publish(worker: nat) | Exit(worker: nat)
    | Collect | Deliver | Drained | GiveUp
    | Cancel

  /** Returns what an item holds to the budget. */
  function ReleaseItem(s: State, i: nat): State {
    s.(used := Minus(s.used, Held(s.permits, i)), permits := s.permits - {i})
  }

  /** Drops an item with both of its permits. */
  function DropItem(s: State, i: nat): State {
    ReleaseItem(s, i).(windows := s.windows - {i}, windowUsed := if i in s.windows then SaturatingSub(s.windowUsed, 1) else s.windowUsed)
  }

  function DropItems(s: State, items: seq<nat>): State
    decreases |items|
  {
    if items == [] then s else DropItems(DropItem(s, items[0]), items[1..])
  }

  /** Leaving the dispatch loop drops the permits of the item in hand. */
  function EndDispatch(s: State): State {
    var t := if s.dispatcher.AtBudget? || s.dispatcher.AtSend? then DropItem(s, s.next) else s;
    t.(dispatcher := Ended)
  }

  function DispatchStep(c: Config, s: State, a: Action): Option<State> {
    match a
    case AcquireWindow =>
      if s.dispatcher.AtWindow? && s.next < c.Items() && !s.cancelled && s.windowUsed < c.lookahead
      then Some(s.(dispatcher := AtBudget, windows := s.windows + {s.next}, windowUsed := s.windowUsed + 1))
      else None
    case AcquireBudget =>
      if s.dispatcher.AtBudget? && s.next < |c.reserve| && !s.cancelled && Within(s.used, c.limit)
         && Fits(s.used, c.reserve[s.next], c.limit)
      then Some(s.(dispatcher := AtSend, used := Plus(s.used, c.reserve[s.next]), permits := s.permits[s.next := c.reserve[s.next]]))
      else None
    case Send =>
      if s.dispatcher.AtSend? && |s.queue| < c.WorkerCount() && !s.AllExited()
      then Some(s.(queue := s.queue + [s.next], next := s.next + 1,
                   dispatcher := if s.next + 1 < c.Items() then AtWindow else Ended))
      else None
    case StopDispatch =>
      if (s.cancelled && (s.dispatcher.AtWindow? || s.dispatcher.AtBudget?)) || (s.dispatcher.AtSend? && s.AllExited())
      then Some(EndDispatch(s))
      else None
    case _ => None
  }

  function WorkerStep(c: Config, s: State, a: Action, w: nat): Option<State>
    requires w < |s.workers|
  {
    match a
    case Receive(_) =>
      if s.workers[w].Idle? && s.queue != []
      then Some(s.(queue := s.queue[1..], workers := s.workers[w := Preparing(s.queue[0])]))
      else None
    case Prepare(_) =>
      if s.workers[w].Preparing? then
        var i := s.workers[w].item;
        var t := s.(workers := s.workers[w := Sending(i)]);
        if c.Prepares(i) && !s.cancelled then
          Some(t.(good := s.good + {i},
                  used := Minus(s.used, Minus(Held(s.permits, i), OnlyPrepared(c.outcome[i].bytes))),
                  permits := s.permits[i := OnlyPrepared(c.outcome[i].bytes)]))
        else Some(ReleaseItem(t, i))
      else None
    case Publish(_) =>
      if s.workers[w].Sending? && |s.results| < c.queueDepth && !s.Finished()
      then Some(s.(results := s.results + [s.workers[w].item], workers := s.workers[w := Idle]))
      else None
    case Exit(_) =>
      if s.workers[w].Idle? && s.queue == [] && s.dispatcher.Ended?
      then Some(s.(workers := s.workers[w := Exited]))
      else if s.workers[w].Sending? && s.Finished() then
        var t := DropItem(s, s.workers[w].item).(workers := s.workers[w := Exited]);
        // The last receiver takes the queued work with it.
        Some(if t.AllExited() then DropItems(t, t.queue).(queue := []) else t)
      else None
    case _ => None
  }

  /** The end of the coordinator: a terminal error cancels, and what was not delivered is dropped. */
  function Break(s: State, failure: Failure): State {
    DropItems(DropItems(s, SortedItems(s.pending, s.next)), s.results)
      .(coordinator := Broken(failure), cancelled := true, pending := {}, results := [])
  }

  /** The members of a set below `n`, in ascending order. */
  function SortedItems(items: set<nat>, n: nat): seq<nat> {
    if n == 0 then [] else SortedItems(items, n - 1) + if n - 1 in items then [n - 1] else []
  }

  function CoordinatorStep(c: Config, s: State, a: Action): Option<State> {
    match a
    case Collect =>
      if s.coordinator.Receiving? && s.results != [] then
        var t := s.(results := s.results[1..]);
        if s.results[0] in s.pending then Some(Break(t, DuplicateOrdinal))
        else Some(t.(pending := s.pending + {s.results[0]}, coordinator := Draining))
      else None
    case Deliver =>
      if s.coordinator.Draining? && s.Position() in s.pending then
        var i := s.Position();
        var t := s.(pending := s.pending - {i});
        if i in s.good && i < |c.sinkAccepts| && c.sinkAccepts[i] then
          var u := DropItem(t, i).(delivered := s.delivered + [i]);
          Some(if i + 1 == c.Items() then u.(coordinator := Delivered) else u)
        else Some(Break(DropItem(t, i), ItemFailed(i)))
      else None
    case Drained =>
      if s.coordinator.Draining? && s.Position() !in s.pending then Some(s.(coordinator := Receiving)) else None
    case GiveUp =>
      if s.coordinator.Receiving? && s.results == [] && s.AllExited() then Some(Break(s, RunCancelled)) else None
    case _ => None
  }

  /** One step of any thread, when it is enabled. */
  function Next(c: Config, s: State, a: Action): Option<State> {
    match a
    case AcquireWindow | AcquireBudget | Send | StopDispatch => DispatchStep(c, s, a)
    case Collect | Deliver | Drained | GiveUp => CoordinatorStep(c, s, a)
    case Cancel => if s.cancelled then None else Some(s.(cancelled := true, interrupted := true))
    case _ => if a.worker < |s.workers| then WorkerStep(c, s, a, a.worker) else None
  }

  /** The state after a list of steps, when every one of them is enabled. */
  function Run(c: Config, actions: seq<Action>): Option<State> {
    if actions == [] then Some(Start(c))
    else
      match Run(c, actions[..|actions| - 1])
      case None => None
      case Some(s) => Next(c, s, actions[|actions| - 1])
  }

  // ---------- Where the items are ----------

  function Count(items: seq<nat>, i: nat): nat {
    if items == [] then 0 else Count(items[1..], i) + if items[0] == i then 1 else 0
  }

  lemma {:induction false} CountAppend(items: seq<nat>, x: nat, i: nat)
    ensures Count(items + [x], i) == Count(items, i) + if x == i then 1 else 0
  {
    if items != [] {
      CountAppend(items[1..], x, i);
      assert (items + [x])[1..] == items[1..] + [x];
    } else {
      assert ([] + [x])[1..] == [] && Count([], i) == 0;
    }
  }

  lemma {:induction false} Counted(items: seq<nat>, i: nat)
    ensures i in items <==> Count(items, i) > 0
  {
    if items != [] {
      Counted(items[1..], i);
    }
  }

  predicate Prepares(w: Worker, i: nat) {
    w == Preparing(i)
  }

  predicate Sends(w: Worker, i: nat) {
    w == Sending(i)
  }

  function Preparers(workers: seq<Worker>, i: nat): nat {
    if workers == [] then 0 else Preparers(workers[1..], i) + if Prepares(workers[0], i) then 1 else 0
  }

  function Senders(workers: seq<Worker>, i: nat): nat {
    if workers == [] then 0 else Senders(workers[1..], i) + if Sends(workers[0], i) then 1 else 0
  }

  lemma {:induction false} WorkerChanges(workers: seq<Worker>, w: nat, x: Worker, i: nat)
    requires w < |workers|
    ensures Preparers(workers[w := x], i) + (if Prepares(workers[w], i) then 1 else 0)
            == Preparers(workers, i) + if Prepares(x, i) then 1 else 0
    ensures Senders(workers[w := x], i) + (if Sends(workers[w], i) then 1 else 0)
            == Senders(workers, i) + if Sends(x, i) then 1 else 0
  {
    if w == 0 {
      assert workers[w := x][1..] == workers[1..];
    } else {
      WorkerChanges(workers[1..], w - 1, x, i);
      assert workers[w := x][1..] == workers[1..][w - 1 := x];
    }
  }

  lemma {:induction false} IdleWorkersHoldNothing(workers: seq<Worker>, i: nat)
    requires forall w :: 0 <= w < |workers| ==> !workers[w].Preparing? && !workers[w].Sending?
    ensures Preparers(workers, i) == 0 && Senders(workers, i) == 0
  {
    if workers != [] {
      IdleWorkersHoldNothing(workers[1..], i);
    }
  }

  /** How often an item is queued or being prepared: it then holds its whole reservation. */
  function Fresh(s: State, i: nat): nat {
    Count(s.queue, i) + Preparers(s.workers, i)
  }

  /** How often an item's result is being sent, in the result channel, or pending. */
  function Done(s: State, i: nat): nat {
    Senders(s.workers, i) + Count(s.results, i) + if i in s.pending then 1 else 0
  }

  // ---------- The invariant ----------

  ghost predicate Shape(c: Config, s: State) {
    |s.workers| == c.WorkerCount() > 0 && |s.queue| <= c.WorkerCount() && |s.results| <= c.queueDepth
    && s.next <= c.Items() && (s.next == c.Items() ==> s.dispatcher.Ended?)
    && |s.delivered| <= s.next && forall i :: 0 <= i < |s.delivered| ==> s.delivered[i] == i
  }

  /** Every dispatched and undelivered item is in exactly one place, until the run breaks. */
  ghost predicate Flow(s: State) {
    (forall i: nat :: Fresh(s, i) + Done(s, i) <= 1)
    && (forall i: nat :: Fresh(s, i) + Done(s, i) > 0 ==> s.Position() <= i < s.next)
    && (!s.Finished() ==> forall i: nat :: s.Position() <= i < s.next ==> Fresh(s, i) + Done(s, i) == 1)
  }

  /** The item in the dispatcher's hand. */
  predicate InHand(s: State, i: nat) {
    s.dispatcher.AtSend? && i == s.next
  }

  /** An item that still holds its whole reservation. */
  predicate Whole(s: State, i: nat) {
    Fresh(s, i) > 0 || InHand(s, i)
  }

  /** An item whose prepared bytes wait for delivery. */
  predicate Kept(s: State, i: nat) {
    Done(s, i) > 0 && i in s.good
  }

  /** What an item holds of the budget: its reservation until it is prepared, then exactly its
      actual prepared bytes until it is delivered, and otherwise nothing. */
  ghost predicate Holding(c: Config, s: State) {
    (forall i: nat :: Whole(s, i) ==> i < |c.reserve| && i in s.permits && s.permits[i] == c.reserve[i] && i !in s.good)
    && (forall i: nat :: Kept(s, i) ==>
          c.Prepares(i) && i in s.permits && s.permits[i] == OnlyPrepared(c.outcome[i].bytes))
    && (forall i: nat :: i in s.permits ==> Whole(s, i) || Kept(s, i))
    && (forall i: nat :: i in s.good ==> i < s.next)
  }

  /** The used weights are the sum of the live permits, and the window count is theirs. */
  ghost predicate Balanced(s: State, n: nat) {
    s.used == Total(s.permits, n) && s.windowUsed == |s.windows| && forall i: nat :: i in s.permits ==> i < n
  }

  ghost predicate Bounded(c: Config, s: State) {
    Within(s.used, c.limit) && |s.windows| <= c.lookahead
  }

  /** An item holds a window from its dispatch to its delivery. */
  ghost predicate Windows(s: State) {
    forall i: nat :: i in s.windows <==>
      Fresh(s, i) + Done(s, i) > 0 || ((s.dispatcher.AtBudget? || s.dispatcher.AtSend?) && i == s.next)
  }

  /** How far the run is decided. */
  ghost predicate Verdicts(c: Config, s: State) {
    (forall i: nat :: i < s.Position() ==> c.Succeeds(i))
    && (s.coordinator.Delivered? ==> s.Position() == c.Items())
    && (!s.Finished() ==> s.Position() < c.Items())
    && (s.coordinator.Broken? ==> s.cancelled && Explained(c, s, s.coordinator.failure))
    && (s.cancelled ==> s.interrupted || s.coordinator.Broken?)
    && (!s.cancelled ==> forall i: nat :: Done(s, i) > 0 ==> (i in s.good <==> c.Prepares(i)))
  }

  /** Without an outside cancellation the failure is that of the first item that fails. */
  ghost predicate Explained(c: Config, s: State, failure: Failure) {
    match failure
    case ItemFailed(i) => i == s.Position() < c.Items() && (s.interrupted || !c.Succeeds(i))
    case RunCancelled => s.interrupted
    case DuplicateOrdinal => false
  }

  /** Threads end only when their source of work is closed. */
  ghost predicate Endings(c: Config, s: State) {
    (!s.Finished() ==> forall w :: 0 <= w < |s.workers| && s.workers[w].Exited? ==> s.dispatcher.Ended? && s.queue == [])
    && (!s.cancelled && s.dispatcher.Ended? ==> s.next == c.Items())
    && (s.coordinator.Receiving? ==> s.Position() !in s.pending)
  }

  ghost predicate Inv(c: Config, s: State) {
    Shape(c, s) && Flow(s) && Holding(c, s) && Balanced(s, c.Items()) && Bounded(c, s) && Windows(s) && Verdicts(c, s)
    && Endings(c, s)
  }

  lemma StartsValid(c: Config)
    requires c.Valid()
    ensures Inv(c, Start(c))
  {
    var s := Start(c);
    forall i: nat ensures Fresh(s, i) == 0 && Done(s, i) == 0 {
      IdleWorkersHoldNothing(s.workers, i);
    }
    hide Fresh, Done, Total;
    TotalOfNone(s.permits, c.Items());
    assert Flow(s) && Windows(s) && Holding(c, s);
    hide Flow, Windows, Holding;
  }

  // ---------- Dropped items ----------

  ghost function ItemSet(items: seq<nat>): set<nat> {
    set i | i in items
  }

  lemma ReleaseBalances(s: State, i: nat, n: nat)
    requires Balanced(s, n)
    ensures Balanced(ReleaseItem(s, i), n) && Within(ReleaseItem(s, i).used, s.used)
  {
    if i in s.permits {
      TotalChange(s.permits, s.permits - {i}, i, n);
      EntryBelowTotal(s.permits, i, n);
    } else {
      assert s.permits - {i} == s.permits;
    }
  }

  lemma DropBalances(s: State, i: nat, n: nat)
    requires Balanced(s, n)
    ensures Balanced(DropItem(s, i), n) && Within(DropItem(s, i).used, s.used)
  {
    ReleaseBalances(s, i, n);
    if i !in s.windows {
      assert s.windows - {i} == s.windows;
    }
  }

  /** The effect of dropping a set of items. */
  ghost predicate Dropped(s: State, t: State, gone: set<nat>, n: nat) {
    Balanced(t, n) && Within(t.used, s.used) && t.permits == s.permits - gone && t.windows == s.windows - gone
    && t == s.(used := t.used, permits := t.permits, windows := t.windows, windowUsed := t.windowUsed)
  }

  lemma DroppedNothing(s: State, n: nat)
    requires Balanced(s, n)
    ensures Dropped(s, s, {}, n)
  {
    assert s.permits - {} == s.permits && s.windows - {} == s.windows;
  }

  lemma DroppedMore(s: State, t: State, u: State, first: set<nat>, second: set<nat>, n: nat)
    requires Dropped(s, t, first, n) && Dropped(t, u, second, n)
    ensures Dropped(s, u, first + second, n)
  {
    hide Balanced;
    assert (s.permits - first) - second == s.permits - (first + second);
    assert (s.windows - first) - second == s.windows - (first + second);
  }

  /** Dropping a list of items removes exactly their permits and windows. */
  lemma {:induction false} DropsBalance(s: State, items: seq<nat>, n: nat)
    requires Balanced(s, n)
    ensures Dropped(s, DropItems(s, items), ItemSet(items), n)
    decreases |items|
  {
    hide DropItem, Total, Dropped;
    if items == [] {
      assert ItemSet(items) == {};
      DroppedNothing(s, n);
    } else {
      DropDrops(s, items[0], n);
      DroppedBalance(s, DropItem(s, items[0]), {items[0]}, n);
      DropsBalance(DropItem(s, items[0]), items[1..], n);
      DroppedMore(s, DropItem(s, items[0]), DropItems(s, items), {items[0]}, ItemSet(items[1..]), n);
      assert {items[0]} + ItemSet(items[1..]) == ItemSet(items);
    }
  }

  lemma DropDrops(s: State, i: nat, n: nat)
    requires Balanced(s, n)
    ensures Dropped(s, DropItem(s, i), {i}, n)
  {
    DropBalances(s, i, n);
    DropItemSets(s, i);
  }

  lemma DroppedBalance(s: State, t: State, gone: set<nat>, n: nat)
    requires Dropped(s, t, gone, n)
    ensures Balanced(t, n)
  {
  }

  lemma DropItemSets(s: State, i: nat)
    ensures var t := DropItem(s, i);
            t.permits == s.permits - {i} && t.windows == s.windows - {i}
            && t == s.(used := t.used, permits := t.permits, windows := t.windows, windowUsed := t.windowUsed)
  {
  }

  lemma {:induction false} SortedItemsAre(items: set<nat>, n: nat)
    ensures ItemSet(SortedItems(items, n)) == set i | i in items && i < n
  {
    if n > 0 {
      SortedItemsAre(items, n - 1);
      var head := SortedItems(items, n - 1);
      if n - 1 in items {
        assert ItemSet(head + [n - 1]) == ItemSet(head) + {n - 1};
      } else {
        assert head + [] == head;
      }
    }
  }

  // ---------- Steps that only move items ----------

  /** Same places, same permits. */
  ghost predicate Moved(s: State, t: State) {
    t.next == s.next && t.delivered == s.delivered && t.dispatcher == s.dispatcher && t.good == s.good
    && t.permits == s.permits && t.used == s.used && t.windows == s.windows && t.windowUsed == s.windowUsed
    && (s.Finished() ==> t.Finished())
    && forall i: nat :: Fresh(t, i) == Fresh(s, i) && Done(t, i) == Done(s, i)
  }

  lemma MovedKeeps(c: Config, s: State, t: State)
    requires Moved(s, t) && Flow(s) && Holding(c, s) && Balanced(s, c.Items()) && Bounded(c, s) && Windows(s)
    ensures Flow(t) && Holding(c, t) && Balanced(t, c.Items()) && Bounded(c, t) && Windows(t)
  {
    hide Fresh, Done;
    assert Flow(t) by {
      hide Holding, Balanced, Bounded, Windows;
      assert forall i: nat :: Fresh(s, i) + Done(s, i) == Fresh(t, i) + Done(t, i);
    }
    assert Holding(c, t) by {
      hide Flow, Balanced, Bounded, Windows;
      assert forall i: nat :: (Whole(t, i) <==> Whole(s, i)) && (Kept(t, i) <==> Kept(s, i));
      hide Whole, Kept;
    }
    hide Flow, Holding;
  }

  lemma ReceiveStep(c: Config, s: State, w: nat)
    requires c.Valid() && Inv(c, s) && w < |s.workers| && WorkerStep(c, s, Receive(w), w).Some?
    ensures Inv(c, WorkerStep(c, s, Receive(w), w).value)
  {
    var t := WorkerStep(c, s, Receive(w), w).value;
    assert Moved(s, t) by {
      forall i: nat ensures Fresh(t, i) == Fresh(s, i) && Done(t, i) == Done(s, i) {
        WorkerChanges(s.workers, w, Preparing(s.queue[0]), i);
      }
      hide Fresh, Done;
    }
    MovedKeeps(c, s, t);
    hide Fresh, Done, Flow, Holding, Balanced, Bounded, Windows;
  }

  lemma PublishStep(c: Config, s: State, w: nat)
    requires c.Valid() && Inv(c, s) && w < |s.workers| && WorkerStep(c, s, Publish(w), w).Some?
    ensures Inv(c, WorkerStep(c, s, Publish(w), w).value)
  {
    var t := WorkerStep(c, s, Publish(w), w).value;
    assert Moved(s, t) by {
      forall i: nat ensures Fresh(t, i) == Fresh(s, i) && Done(t, i) == Done(s, i) {
        WorkerChanges(s.workers, w, Idle, i);
        CountAppend(s.results, s.workers[w].item, i);
      }
      hide Fresh, Done;
    }
    MovedKeeps(c, s, t);
    hide Fresh, Done, Flow, Holding, Balanced, Bounded, Windows;
  }

  lemma IdleExitStep(c: Config, s: State, w: nat)
    requires c.Valid() && Inv(c, s) && w < |s.workers| && s.workers[w].Idle? && WorkerStep(c, s, Exit(w), w).Some?
    ensures Inv(c, WorkerStep(c, s, Exit(w), w).value)
  {
    var t := WorkerStep(c, s, Exit(w), w).value;
    assert Moved(s, t) by {
      forall i: nat ensures Fresh(t, i) == Fresh(s, i) && Done(t, i) == Done(s, i) {
        WorkerChanges(s.workers, w, Exited, i);
      }
      hide Fresh, Done;
    }
    MovedKeeps(c, s, t);
    hide Fresh, Done, Flow, Holding, Balanced, Bounded, Windows;
  }

  /** A received result is never a duplicate. */
  lemma NoDuplicate(s: State)
    requires Flow(s) && s.results != []
    ensures s.results[0] !in s.pending
  {
    var i := s.results[0];
    assert Fresh(s, i) + Done(s, i) <= 1;
  }

  lemma CollectStep(c: Config, s: State)
    requires c.Valid() && Inv(c, s) && CoordinatorStep(c, s, Collect).Some?
    ensures Inv(c, CoordinatorStep(c, s, Collect).value)
  {
    NoDuplicate(s);
    var t := CoordinatorStep(c, s, Collect).value;
    assert Moved(s, t) by {
      assert forall i: nat :: Fresh(t, i) == Fresh(s, i) && Done(t, i) == Done(s, i);
      hide Fresh, Done;
    }
    MovedKeeps(c, s, t);
    hide Fresh, Done, Flow, Holding, Balanced, Bounded, Windows;
  }

  lemma DrainedStep(c: Config, s: State)
    requires c.Valid() && Inv(c, s) && CoordinatorStep(c, s, Drained).Some?
    ensures Inv(c, CoordinatorStep(c, s, Drained).value)
  {
    var t := CoordinatorStep(c, s, Drained).value;
    assert Moved(s, t);
    MovedKeeps(c, s, t);
    hide Fresh, Done, Flow, Holding, Balanced, Bounded, Windows;
  }

  lemma CancelStep(c: Config, s: State)
    requires c.Valid() && Inv(c, s) && !s.cancelled
    ensures Inv(c, s.(cancelled := true, interrupted := true))
  {
    var t := s.(cancelled := true, interrupted := true);
    assert Moved(s, t);
    MovedKeeps(c, s, t);
    hide Fresh, Done, Flow, Holding, Balanced, Bounded, Windows;
  }

  // ---------- Steps of the dispatcher ----------

  ghost predicate SamePlaces(s: State, t: State) {
    forall i: nat :: Fresh(t, i) == Fresh(s, i) && Done(t, i) == Done(s, i)
  }

  lemma SameContainers(s: State, t: State)
    requires t.queue == s.queue && t.workers == s.workers && t.results == s.results && t.pending == s.pending
    ensures SamePlaces(s, t)
  {
  }

  /** The parts of the invariant about places and permits. */
  ghost predicate Placed(c: Config, s: State) {
    Flow(s) && Holding(c, s) && Windows(s)
  }

  lemma WindowPlaces(c: Config, s: State, t: State)
    requires Shape(c, s) && Placed(c, s) && DispatchStep(c, s, AcquireWindow) == Some(t)
    ensures Placed(c, t) && s.next !in s.windows
  {
    hide Fresh, Done;
    SameContainers(s, t);
    assert Fresh(s, s.next) + Done(s, s.next) == 0;
    assert Flow(t);
    assert Windows(t);
    assert forall i: nat :: (Whole(t, i) <==> Whole(s, i)) && (Kept(t, i) <==> Kept(s, i));
    assert Holding(c, t);
  }

  lemma WindowStep(c: Config, s: State)
    requires c.Valid() && Inv(c, s) && DispatchStep(c, s, AcquireWindow).Some?
    ensures Inv(c, DispatchStep(c, s, AcquireWindow).value)
  {
    hide Fresh, Done, Flow, Holding, Windows;
    var t := DispatchStep(c, s, AcquireWindow).value;
    SameContainers(s, t);
    WindowPlaces(c, s, t);
  }

  lemma BudgetPlaces(c: Config, s: State, t: State)
    requires c.Valid() && Shape(c, s) && Placed(c, s) && DispatchStep(c, s, AcquireBudget) == Some(t)
    ensures Placed(c, t) && s.next !in s.permits
  {
    hide Fresh, Done;
    SameContainers(s, t);
    assert !Whole(s, s.next) && !Kept(s, s.next);
  }

  lemma BudgetStep(c: Config, s: State)
    requires c.Valid() && Inv(c, s) && DispatchStep(c, s, AcquireBudget).Some?
    ensures Inv(c, DispatchStep(c, s, AcquireBudget).value)
  {
    hide Fresh, Done, Flow, Holding, Windows;
    var t := DispatchStep(c, s, AcquireBudget).value;
    SameContainers(s, t);
    BudgetPlaces(c, s, t);
    TotalChange(s.permits, t.permits, s.next, c.Items());
  }

  lemma SentPlaces(s: State, t: State)
    requires t.queue == s.queue + [s.next] && t.workers == s.workers && t.results == s.results && t.pending == s.pending
    ensures forall i: nat :: Fresh(t, i) == Fresh(s, i) + (if i == s.next then 1 else 0) && Done(t, i) == Done(s, i)
  {
    forall i: nat
      ensures Fresh(t, i) == Fresh(s, i) + (if i == s.next then 1 else 0) && Done(t, i) == Done(s, i)
    {
      CountAppend(s.queue, s.next, i);
    }
  }

  lemma SendPlaces(c: Config, s: State, t: State)
    requires c.Valid() && Shape(c, s) && Placed(c, s) && DispatchStep(c, s, Send) == Some(t)
    ensures Placed(c, t)
  {
    SentPlaces(s, t);
    hide Fresh, Done;
    assert Fresh(s, s.next) + Done(s, s.next) == 0;
    assert InHand(s, s.next);
    assert Flow(t) && Windows(t) by {
      hide Holding;
    }
    assert Holding(c, t) by {
      hide Windows;
    }
  }

  lemma SendStep(c: Config, s: State)
    requires c.Valid() && Inv(c, s) && DispatchStep(c, s, Send).Some?
    ensures Inv(c, DispatchStep(c, s, Send).value)
  {
    var t := DispatchStep(c, s, Send).value;
    SendPlaces(c, s, t);
    SentPlaces(s, t);
    hide Fresh, Done, Flow, Holding, Windows;
  }

  lemma StopPlaces(c: Config, s: State, t: State)
    requires c.Valid() && Shape(c, s) && Placed(c, s) && DispatchStep(c, s, StopDispatch) == Some(t)
    ensures Placed(c, t)
  {
    hide Fresh, Done, DropItem;
    DropItemSets(s, s.next);
    SameContainers(s, t);
    assert Fresh(s, s.next) + Done(s, s.next) == 0;
    assert Flow(t) && Windows(t) by {
      hide Holding;
    }
    assert Holding(c, t) by {
      hide Windows;
      assert !Kept(s, s.next);
      assert forall i: nat :: Kept(t, i) <==> Kept(s, i);
      assert forall i: nat :: Whole(t, i) <==> Whole(s, i) && i != s.next;
    }
  }

  lemma StopBalances(c: Config, s: State, n: nat)
    requires Balanced(s, n) && DispatchStep(c, s, StopDispatch).Some?
    ensures var t := DispatchStep(c, s, StopDispatch).value;
            Balanced(t, n) && Within(t.used, s.used) && |t.windows| <= |s.windows|
  {
    hide DropItem, Total;
    DropItemSets(s, s.next);
    DropBalances(s, s.next, n);
    SubsetSize(s.windows - {s.next}, s.windows);
  }

  lemma StopStep(c: Config, s: State)
    requires c.Valid() && Inv(c, s) && DispatchStep(c, s, StopDispatch).Some?
    ensures Inv(c, DispatchStep(c, s, StopDispatch).value)
  {
    hide Fresh, Done, DropItem, Flow, Holding, Windows, Balanced;
    DropItemSets(s, s.next);
    var t := DispatchStep(c, s, StopDispatch).value;
    SameContainers(s, t);
    StopPlaces(c, s, t);
    StopBalances(c, s, c.Items());
    StopIsAllowed(c, s);
  }

  /** Without a cancellation the dispatcher only stops at the end of the work. */
  lemma StopIsAllowed(c: Config, s: State)
    requires c.Valid() && Inv(c, s) && DispatchStep(c, s, StopDispatch).Some?
    ensures s.cancelled || s.Finished()
  {
    hide Flow, Holding, Windows, Balanced, Bounded, Verdicts;
    if !s.cancelled {
      assert s.workers[0].Exited?;
    }
  }

  // ---------- A worker finishes an item ----------

  ghost predicate ItemPrepared(s: State, t: State, x: nat) {
    forall i: nat ::
      Fresh(t, i) + (if i == x then 1 else 0) == Fresh(s, i) && Done(t, i) == Done(s, i) + if i == x then 1 else 0
  }

  lemma PreparedCounts(s: State, t: State, w: nat)
    requires w < |s.workers| && s.workers[w].Preparing? && t.workers == s.workers[w := Sending(s.workers[w].item)]
    requires t.queue == s.queue && t.results == s.results && t.pending == s.pending
    ensures ItemPrepared(s, t, s.workers[w].item)
  {
    var x := s.workers[w].item;
    forall i: nat
      ensures Fresh(t, i) + (if i == x then 1 else 0) == Fresh(s, i) && Done(t, i) == Done(s, i) + if i == x then 1 else 0
    {
      WorkerChanges(s.workers, w, Sending(x), i);
    }
  }

  lemma PreparePlaces(c: Config, s: State, t: State, x: nat)
    requires Placed(c, s) && ItemPrepared(s, t, x) && x in s.permits
    requires t.next == s.next && t.delivered == s.delivered && t.coordinator == s.coordinator
    requires t.dispatcher == s.dispatcher && t.windows == s.windows
    requires (t.good == s.good && t.permits == s.permits - {x})
             || (c.Prepares(x) && t.good == s.good + {x} && t.permits == s.permits[x := OnlyPrepared(c.outcome[x].bytes)])
    ensures Placed(c, t)
  {
    hide Fresh, Done;
    assert Fresh(s, x) == 1 && Done(s, x) == 0 && x < s.next;
    assert Flow(t) && Windows(t) by {
      hide Holding;
      assert forall i: nat :: Fresh(s, i) + Done(s, i) == Fresh(t, i) + Done(t, i);
    }
    assert Holding(c, t) by {
      hide Windows;
      assert forall i: nat :: Whole(t, i) <==> Whole(s, i) && i != x;
      assert Whole(s, x);
      assert forall i: nat :: i != x ==> (Kept(t, i) <==> Kept(s, i));
      hide Flow;
    }
  }

  lemma PrepareStep(c: Config, s: State, w: nat)
    requires c.Valid() && Inv(c, s) && w < |s.workers| && WorkerStep(c, s, Prepare(w), w).Some?
    ensures Inv(c, WorkerStep(c, s, Prepare(w), w).value)
  {
    hide Fresh, Done, Flow, Holding, Windows, Total;
    var t := WorkerStep(c, s, Prepare(w), w).value;
    var x := s.workers[w].item;
    PreparedCounts(s, t, w);
    PreparedHolds(c, s, t, x);
    PreparePlaces(c, s, t, x);
    PreparedBalance(c, s, t, x);
    PreparedVerdict(c, s, t, x);
  }

  /** A preparation gives back everything but the bytes it actually prepared. */
  lemma PreparedBalance(c: Config, s: State, t: State, x: nat)
    requires Balanced(s, c.Items()) && x in s.permits && x < |c.reserve| && s.permits[x] == c.reserve[x]
    requires t.windows == s.windows && t.windowUsed == s.windowUsed
    requires if c.Prepares(x) && !s.cancelled then
               t.permits == s.permits[x := OnlyPrepared(c.outcome[x].bytes)]
               && t.used == Minus(s.used, Minus(Held(s.permits, x), OnlyPrepared(c.outcome[x].bytes)))
             else t.permits == ReleaseItem(s, x).permits && t.used == ReleaseItem(s, x).used
    ensures Balanced(t, c.Items()) && Within(t.used, s.used)
  {
    hide Total;
    if c.Prepares(x) && !s.cancelled {
      TotalChange(s.permits, t.permits, x, c.Items());
      EntryBelowTotal(s.permits, x, c.Items());
    } else {
      ReleaseBalances(s, x, c.Items());
    }
  }

  lemma PreparedHolds(c: Config, s: State, t: State, x: nat)
    requires Placed(c, s) && ItemPrepared(s, t, x)
    ensures x in s.permits && x < |c.reserve| && s.permits[x] == c.reserve[x] && x !in s.good
  {
    hide Fresh, Done, Windows;
    assert Fresh(s, x) > 0;
    assert Whole(s, x);
  }

  lemma PreparedVerdict(c: Config, s: State, t: State, x: nat)
    requires Verdicts(c, s) && ItemPrepared(s, t, x) && x !in s.good
    requires t.delivered == s.delivered && t.coordinator == s.coordinator && t.cancelled == s.cancelled
    requires t.interrupted == s.interrupted && t.good == s.good + if c.Prepares(x) && !s.cancelled then {x} else {}
    ensures Verdicts(c, t)
  {
    hide Fresh, Done;
    assert t.Finished() <==> s.Finished();
    if !s.cancelled {
      forall i: nat | Done(t, i) > 0 ensures i in t.good <==> c.Prepares(i) {
        assert i == x || Done(s, i) > 0;
      }
    }
  }

  // ---------- Items leave ----------

  /** A set of items disappears from every place, with its permits and windows. */
  ghost predicate Left(s: State, t: State, gone: set<nat>) {
    t.next == s.next && t.good == s.good && t.permits == s.permits - gone && t.windows == s.windows - gone
    && t.dispatcher == s.dispatcher
    && forall i: nat :: if i in gone then Fresh(t, i) == 0 && Done(t, i) == 0
                        else Fresh(t, i) == Fresh(s, i) && Done(t, i) == Done(s, i)
  }

  lemma LeftPlaces(c: Config, s: State, t: State, gone: set<nat>)
    requires Placed(c, s) && Left(s, t, gone) && s.next !in gone
    requires t.delivered == s.delivered && t.Finished()
    ensures Placed(c, t)
  {
    hide Fresh, Done;
    assert Flow(t) && Windows(t) by {
      hide Holding;
    }
    assert Holding(c, t) by {
      hide Windows, Flow;
      assert forall i: nat :: Whole(t, i) <==> Whole(s, i) && i !in gone;
      assert forall i: nat :: Kept(t, i) <==> Kept(s, i) && i !in gone;
      hide Whole, Kept;
    }
  }

  /** A worker whose result nobody receives leaves. */
  lemma LeaveStep(c: Config, s: State, w: nat)
    requires c.Valid() && Inv(c, s) && w < |s.workers| && s.workers[w].Sending? && s.Finished()
    ensures Inv(c, DropItem(s, s.workers[w].item).(workers := s.workers[w := Exited]))
  {
    hide Fresh, Done, Flow, Holding, Windows, Total;
    var x := s.workers[w].item;
    var t := DropItem(s, x).(workers := s.workers[w := Exited]);
    DropBalances(s, x, c.Items());
    DropItemSets(s, x);
    LeaveCounts(s, t, w);
    LeftPlaces(c, s, t, {x});
    LeftVerdicts(c, s, t, {x});
    LeftWindows(s, t, {x});
  }

  lemma LeaveCounts(s: State, t: State, w: nat)
    requires Flow(s) && w < |s.workers| && s.workers[w].Sending? && t.workers == s.workers[w := Exited]
    requires t.queue == s.queue && t.results == s.results && t.pending == s.pending
    ensures var x := s.workers[w].item;
            x != s.next && forall i: nat :: if i == x then Fresh(t, i) == 0 && Done(t, i) == 0
                                            else Fresh(t, i) == Fresh(s, i) && Done(t, i) == Done(s, i)
  {
    var x := s.workers[w].item;
    forall i: nat
      ensures if i == x then Fresh(t, i) == 0 && Done(t, i) == 0 else Fresh(t, i) == Fresh(s, i) && Done(t, i) == Done(s, i)
    {
      WorkerChanges(s.workers, w, Exited, i);
      assert Fresh(s, i) + Done(s, i) <= 1;
    }
    WorkerChanges(s.workers, w, Exited, x);
    assert Fresh(s, x) + Done(s, x) > 0;
  }

  lemma LeftVerdicts(c: Config, s: State, t: State, gone: set<nat>)
    requires Verdicts(c, s) && Left(s, t, gone) && t.delivered == s.delivered && t.coordinator == s.coordinator
    requires t.cancelled == s.cancelled && t.interrupted == s.interrupted
    ensures Verdicts(c, t)
  {
    hide Fresh, Done;
    assert t.Finished() <==> s.Finished();
    forall i: nat | Done(t, i) > 0 ensures Done(s, i) > 0 {
    }
  }

  lemma LeftWindows(s: State, t: State, gone: set<nat>)
    requires Left(s, t, gone)
    ensures |t.windows| <= |s.windows|
  {
    SubsetSize(t.windows, s.windows);
  }

  /** With the last receiver the queued work is dropped. */
  lemma QueueDropped(c: Config, s: State)
    requires c.Valid() && Inv(c, s) && s.Finished()
    ensures Inv(c, DropItems(s, s.queue).(queue := []))
  {
    hide Fresh, Done, Flow, Holding, Windows, Total, DropItems;
    var t := DropItems(s, s.queue).(queue := []);
    DropsBalance(s, s.queue, c.Items());
    QueueCounts(s, t);
    LeftPlaces(c, s, t, ItemSet(s.queue));
    LeftVerdicts(c, s, t, ItemSet(s.queue));
    LeftWindows(s, t, ItemSet(s.queue));
  }

  lemma QueueCounts(s: State, t: State)
    requires Flow(s) && t.queue == [] && t.workers == s.workers && t.results == s.results && t.pending == s.pending
    ensures s.next !in ItemSet(s.queue)
    ensures forall i: nat :: if i in ItemSet(s.queue) then Fresh(t, i) == 0 && Done(t, i) == 0
                             else Fresh(t, i) == Fresh(s, i) && Done(t, i) == Done(s, i)
  {
    forall i: nat
      ensures if i in ItemSet(s.queue) then Fresh(t, i) == 0 && Done(t, i) == 0
              else Fresh(t, i) == Fresh(s, i) && Done(t, i) == Done(s, i)
    {
      Counted(s.queue, i);
      assert Fresh(s, i) + Done(s, i) <= 1;
    }
    Counted(s.queue, s.next);
    assert Fresh(s, s.next) + Done(s, s.next) == 0;
  }

  lemma ExitStep(c: Config, s: State, w: nat)
    requires c.Valid() && Inv(c, s) && w < |s.workers| && WorkerStep(c, s, Exit(w), w).Some?
    ensures Inv(c, WorkerStep(c, s, Exit(w), w).value)
  {
    hide Inv, DropItem, DropItems;
    if s.workers[w].Idle? {
      IdleExitStep(c, s, w);
    } else {
      LeaveStep(c, s, w);
      var t := DropItem(s, s.workers[w].item).(workers := s.workers[w := Exited]);
      DropItemSets(s, s.workers[w].item);
      if t.AllExited() {
        QueueDropped(c, t);
      }
    }
  }

  // ---------- The coordinator ends ----------

  /** What the coordinator holds and drops when the run breaks. */
  ghost function Undelivered(s: State): set<nat> {
    s.pending + ItemSet(s.results)
  }

  lemma BreakCounts(s: State, t: State)
    requires (forall i: nat :: Fresh(s, i) + Done(s, i) <= 1) && (forall i: nat :: Fresh(s, i) + Done(s, i) > 0 ==> i < s.next)
    requires t.queue == s.queue && t.workers == s.workers && t.results == [] && t.pending == {}
    ensures s.next !in Undelivered(s) && forall i :: i in s.pending ==> i < s.next
    ensures forall i: nat :: if i in Undelivered(s) then Fresh(t, i) == 0 && Done(t, i) == 0
                             else Fresh(t, i) == Fresh(s, i) && Done(t, i) == Done(s, i)
  {
    forall i: nat
      ensures if i in Undelivered(s) then Fresh(t, i) == 0 && Done(t, i) == 0
              else Fresh(t, i) == Fresh(s, i) && Done(t, i) == Done(s, i)
      ensures i in Undelivered(s) ==> i < s.next
    {
      Counted(s.results, i);
      assert Fresh(s, i) + Done(s, i) <= 1;
    }
  }

  lemma BreakEffect(s: State, failure: Failure, n: nat)
    requires Balanced(s, n) && forall i :: i in s.pending ==> i < s.next
    ensures var t := Break(s, failure);
            Balanced(t, n) && Within(t.used, s.used) && t.permits == s.permits - Undelivered(s)
            && t.windows == s.windows - Undelivered(s)
            && t == s.(used := t.used, permits := t.permits, windows := t.windows, windowUsed := t.windowUsed,
                       coordinator := Broken(failure), cancelled := true, pending := {}, results := [])
  {
    hide Total, DropItems;
    var first := SortedItems(s.pending, s.next);
    SortedItemsAre(s.pending, s.next);
    assert ItemSet(first) == s.pending;
    DropsBalance(s, first, n);
    var mid := DropItems(s, first);
    DropsBalance(mid, s.results, n);
    DroppedMore(s, mid, DropItems(mid, s.results), s.pending, ItemSet(s.results), n);
  }

  /** Breaking keeps every account: what the coordinator held is dropped. */
  lemma BreakStep(c: Config, s: State, failure: Failure)
    requires c.Valid() && Shape(c, s) && Placed(c, s) && Balanced(s, c.Items()) && Bounded(c, s)
    requires (forall i: nat :: i < s.Position() ==> c.Succeeds(i)) && Explained(c, s, failure) && s.Position() < c.Items()
    ensures Inv(c, Break(s, failure))
  {
    hide Fresh, Done, Holding, Windows, Total, Break;
    var t := Break(s, failure);
    assert forall i: nat :: i in s.pending ==> i < s.next by {
      BreakCounts(s, s.(results := [], pending := {}));
    }
    BreakEffect(s, failure, c.Items());
    BreakCounts(s, t);
    LeftPlaces(c, s, t, Undelivered(s));
    LeftWindows(s, t, Undelivered(s));
  }

  /** When every worker left and nothing is received, the run was interrupted. */
  lemma GiveUpStep(c: Config, s: State)
    requires c.Valid() && Inv(c, s) && CoordinatorStep(c, s, GiveUp).Some?
    ensures Inv(c, CoordinatorStep(c, s, GiveUp).value)
  {
    hide Holding, Windows, Total, Break;
    assert s.workers[0].Exited?;
    if !s.interrupted {
      var i := s.Position();
      assert Fresh(s, i) + Done(s, i) == 1;
      IdleWorkersHoldNothing(s.workers, i);
      assert false;
    }
    BreakStep(c, s, RunCancelled);
  }

  /** The delivered item leaves the coordinator. */
  lemma DeliverCounts(s: State, t: State)
    requires Flow(s) && s.Position() in s.pending
    requires t.queue == s.queue && t.workers == s.workers && t.results == s.results && t.pending == s.pending - {s.Position()}
    ensures Done(s, s.Position()) > 0 && s.Position() < s.next
    ensures forall i: nat :: if i == s.Position() then Fresh(t, i) == 0 && Done(t, i) == 0
                             else Fresh(t, i) == Fresh(s, i) && Done(t, i) == Done(s, i)
  {
    var x := s.Position();
    forall i: nat
      ensures if i == x then Fresh(t, i) == 0 && Done(t, i) == 0 else Fresh(t, i) == Fresh(s, i) && Done(t, i) == Done(s, i)
    {
      assert Fresh(s, i) + Done(s, i) <= 1;
    }
    assert Fresh(s, x) + Done(s, x) > 0;
  }

  lemma DeliverPlaces(c: Config, s: State, t: State)
    requires Placed(c, s) && Left(s, t, {s.Position()}) && s.Position() < s.next
    requires t.delivered == s.delivered + [s.Position()] && (s.Finished() ==> t.Finished())
    ensures Placed(c, t)
  {
    hide Fresh, Done;
    var x := s.Position();
    assert Flow(t) && Windows(t) by {
      hide Holding;
      assert Fresh(t, x) + Done(t, x) == 0;
    }
    assert Holding(c, t) by {
      hide Windows, Flow;
      assert forall i: nat :: Whole(t, i) <==> Whole(s, i) && i != x;
      assert forall i: nat :: Kept(t, i) <==> Kept(s, i) && i != x;
      hide Whole, Kept;
    }
  }

  lemma DeliverGood(c: Config, s: State)
    requires c.Valid() && Inv(c, s) && s.coordinator.Draining? && s.Position() in s.pending
    requires s.Position() in s.good && c.sinkAccepts[s.Position()]
    ensures Inv(c, CoordinatorStep(c, s, Deliver).value)
  {
    hide Fresh, Done, Holding, Windows, Total, DropItem, Flow;
    var x := s.Position();
    var without := s.(pending := s.pending - {x});
    DropItemSets(without, x);
    DropBalances(without, x, c.Items());
    var t := CoordinatorStep(c, s, Deliver).value;
    DeliverCounts(s, t);
    DeliverPlaces(c, s, t);
    LeftWindows(s, t, {x});
    assert c.Prepares(x) by {
      KeptPrepares(c, s, x);
    }
    DeliveredVerdicts(c, s, t);
  }

  lemma KeptPrepares(c: Config, s: State, x: nat)
    requires Holding(c, s) && Done(s, x) > 0 && x in s.good
    ensures c.Prepares(x)
  {
    hide Fresh, Done;
    assert Kept(s, x);
  }

  lemma DeliveredVerdicts(c: Config, s: State, t: State)
    requires Verdicts(c, s) && Left(s, t, {s.Position()}) && t.delivered == s.delivered + [s.Position()]
    requires s.coordinator.Draining? && c.Succeeds(s.Position()) && s.Position() < c.Items()
    requires t.coordinator == if s.Position() + 1 == c.Items() then Delivered else Draining
    requires t.cancelled == s.cancelled && t.interrupted == s.interrupted
    ensures Verdicts(c, t)
  {
    hide Fresh, Done;
    forall i: nat | Done(t, i) > 0 ensures Done(s, i) > 0 {
    }
  }

  /** A failed or refused item: its permits go, and the run breaks on it. */
  lemma DeliverBad(c: Config, s: State)
    requires c.Valid() && Inv(c, s) && s.coordinator.Draining? && s.Position() in s.pending
    requires !(s.Position() in s.good && c.sinkAccepts[s.Position()])
    ensures Inv(c, Break(DropItem(s.(pending := s.pending - {s.Position()}), s.Position()), ItemFailed(s.Position())))
  {
    hide Fresh, Done, Holding, Windows, Total, DropItem, Flow, Break;
    var x := s.Position();
    var without := s.(pending := s.pending - {x});
    DropItemSets(without, x);
    DropBalances(without, x, c.Items());
    var t := DropItem(without, x);
    DeliverCounts(s, t);
    // The broken run no longer looks for the item at its position.
    var done := t.(coordinator := Broken(ItemFailed(x)));
    SameContainers(t, done);
    PendingBelow(s);
    LeftPlaces(c, s, done, {x});
    LeftWindows(s, done, {x});
    assert Break(t, ItemFailed(x)) == Break(done, ItemFailed(x)) by {
      BreakIgnoresCoordinator(t, done, ItemFailed(x), c.Items());
    }
    BreakStep(c, done, ItemFailed(x));
  }

  lemma PendingBelow(s: State)
    requires Flow(s)
    ensures forall i :: i in s.pending ==> i < s.next
  {
    forall i | i in s.pending ensures i < s.next {
      assert Fresh(s, i) + Done(s, i) > 0;
    }
  }

  lemma BreakIgnoresCoordinator(s: State, t: State, failure: Failure, n: nat)
    requires t == s.(coordinator := t.coordinator) && Balanced(s, n) && forall i :: i in s.pending ==> i < s.next
    ensures Break(s, failure) == Break(t, failure)
  {
    hide Total, Break;
    BreakEffect(s, failure, n);
    BreakEffect(t, failure, n);
  }

  lemma DeliverStep(c: Config, s: State)
    requires c.Valid() && Inv(c, s) && CoordinatorStep(c, s, Deliver).Some?
    ensures Inv(c, CoordinatorStep(c, s, Deliver).value)
  {
    hide Flow, Holding, Balanced, Bounded, Windows, Break, DropItem;
    if s.Position() in s.good && c.sinkAccepts[s.Position()] {
      DeliverGood(c, s);
    } else {
      DeliverBad(c, s);
    }
  }

  // ---------- All steps ----------

  /** Every step of every thread keeps the invariant. */
  lemma StepKeeps(c: Config, s: State, a: Action)
    requires c.Valid() && Inv(c, s) && Next(c, s, a).Some?
    ensures Inv(c, Next(c, s, a).value)
  {
    hide Inv, DispatchStep, WorkerStep, CoordinatorStep;
    match a
    case AcquireWindow => WindowStep(c, s);
    case AcquireBudget => BudgetStep(c, s);
    case Send => SendStep(c, s);
    case StopDispatch => StopStep(c, s);
    case Receive(w) => ReceiveStep(c, s, w);
    case Prepare(w) => PrepareStep(c, s, w);
    case Publish(w) => PublishStep(c, s, w);
    case Exit(w) => ExitStep(c, s, w);
    case Collect => CollectStep(c, s);
    case Deliver => DeliverStep(c, s);
    case Drained => DrainedStep(c, s);
    case GiveUp => GiveUpStep(c, s);
    case Cancel => CancelStep(c, s);
  }

  /** The invariant holds in every reachable state. */
  lemma {:induction false} ReachableKeeps(c: Config, actions: seq<Action>)
    requires c.Valid() && Run(c, actions).Some?
    ensures Inv(c, Run(c, actions).value)
  {
    hide Inv, Next;
    if actions == [] {
      StartsValid(c);
    } else {
      ReachableKeeps(c, actions[..|actions| - 1]);
      StepKeeps(c, Run(c, actions[..|actions| - 1]).value, actions[|actions| - 1]);
    }
  }

  // ---------- What the sink sees ----------

  /** The least item that fails, or the number of items when none does. */
  function FirstFailing(c: Config, from: nat): (k: nat)
    requires from <= c.Items()
    ensures from <= k <= c.Items()
    decreases c.Items() - from
  {
    if from < c.Items() && c.Succeeds(from) then FirstFailing(c, from + 1) else from
  }

  lemma {:induction false} FirstFailingIs(c: Config, from: nat, k: nat)
    requires from <= k <= c.Items() && (forall i: nat :: from <= i < k ==> c.Succeeds(i)) && (k < c.Items() ==> !c.Succeeds(k))
    ensures FirstFailing(c, from) == k
    decreases k - from
  {
    if from < k {
      FirstFailingIs(c, from + 1, k);
    }
  }

  /** In every interleaving the sink receives strictly ascending ordinals, each once: a prefix
      of the sorted work, of items that succeed. */
  lemma DeliveredPrefix(c: Config, actions: seq<Action>)
    requires c.Valid() && Run(c, actions).Some?
    ensures var s := Run(c, actions).value;
            |s.delivered| <= c.Items()
            && (forall k :: 0 <= k < |s.delivered| ==> s.delivered[k] == k && c.Succeeds(k) && Deliverable(c, k))
            && (forall j, k :: 0 <= j < k < |s.delivered| ==>
                  c.ordinals[s.delivered[j]] < c.ordinals[s.delivered[k]])
            && s.coordinator != Broken(DuplicateOrdinal)
  {
    hide Run, Flow, Holding, Balanced, Bounded, Windows, Endings;
    ReachableKeeps(c, actions);
  }

  /** Without an outside cancellation a finished run delivered exactly the items below the least
      failing one, and ends with that item's error, or with success when there is none. */
  lemma UninterruptedOutcome(c: Config, actions: seq<Action>)
    requires c.Valid() && Run(c, actions).Some?
    ensures var s := Run(c, actions).value;
            s.Finished() && !s.interrupted ==>
              var first := FirstFailing(c, 0);
              |s.delivered| == first
              && s.coordinator == if first == c.Items() then Delivered else Broken(ItemFailed(first))
  {
    hide Run, Flow, Holding, Balanced, Bounded, Windows, Endings;
    ReachableKeeps(c, actions);
    var s := Run(c, actions).value;
    if s.Finished() && !s.interrupted {
      FirstFailingIs(c, 0, s.Position());
    }
  }

  /** The preparation succeeds with bytes that fit the reservation, and the sink accepts. */
  predicate Deliverable(c: Config, i: nat)
    requires c.Valid() && i < |c.ordinals|
  {
    c.outcome[i].Prepared? && c.outcome[i].bytes <= c.reserve[i].prepared && c.sinkAccepts[i]
  }

  /** The same outcome from the configuration alone.  Without an outside cancellation an item is
      delivered exactly when it and every earlier one are prepared within their reservations and
      accepted by the sink; otherwise the run fails on the least item whose preparation failed,
      whose bytes exceed its reservation, or which the sink refused. */
  lemma OutcomeFromConfiguration(c: Config, actions: seq<Action>)
    requires c.Valid() && Run(c, actions).Some?
    ensures var s := Run(c, actions).value;
            s.Finished() && !s.interrupted ==>
              && (forall i: nat :: i < |c.ordinals| ==>
                    (i in s.delivered <==> forall j: nat :: j <= i ==> Deliverable(c, j)))
              && (s.coordinator.Delivered? <==> forall j: nat :: j < |c.ordinals| ==> Deliverable(c, j))
              && (s.coordinator.Broken? ==>
                    && s.coordinator.failure.ItemFailed? && s.coordinator.failure.item < |c.ordinals|
                    && !Deliverable(c, s.coordinator.failure.item)
                    && forall j: nat :: j < s.coordinator.failure.item ==> Deliverable(c, j))
  {
    hide Run;
    UninterruptedOutcome(c, actions);
    DeliveredPrefix(c, actions);
    var s := Run(c, actions).value;
    if s.Finished() && !s.interrupted {
      var first := FirstFailing(c, 0);
      FirstFailingFails(c, 0);
      forall j: nat | j < |c.ordinals| ensures Deliverable(c, j) <==> c.Succeeds(j) {
      }
      forall i: nat | i < |c.ordinals|
        ensures i in s.delivered <==> i < first
      {
        if i < first {
          assert s.delivered[i] == i;
        }
      }
      assert first < |c.ordinals| ==> !Deliverable(c, first);
    }
  }

  lemma {:induction false} FirstFailingFails(c: Config, from: nat)
    requires from <= c.Items()
    ensures var k := FirstFailing(c, from);
            (k < c.Items() ==> !c.Succeeds(k)) && forall i: nat :: from <= i < k ==> c.Succeeds(i)
    decreases c.Items() - from
  {
    if from < c.Items() && c.Succeeds(from) {
      FirstFailingFails(c, from + 1);
    }
  }

  // ---------- Bounds ----------

  /** The coordinator's buffer stays below the lookahead: the missing next item holds a window. */
  lemma PendingIsBounded(c: Config, actions: seq<Action>)
    requires c.Valid() && Run(c, actions).Some? && Run(c, actions).value.coordinator.Receiving?
    ensures |Run(c, actions).value.pending| <= c.lookahead - 1
  {
    hide Run, Holding, Balanced, Verdicts;
    ReachableKeeps(c, actions);
    var s := Run(c, actions).value;
    if s.pending != {} {
      var i :| i in s.pending;
      assert Fresh(s, i) + Done(s, i) > 0;
      var x := s.Position();
      assert Fresh(s, x) + Done(s, x) == 1;
      forall j | j in s.pending + {x} ensures j in s.windows {
        assert Fresh(s, j) + Done(s, j) > 0;
      }
      SubsetSize(s.pending + {x}, s.windows);
    }
  }

  /** Concurrency and buffering stay within the configuration: as many workers as the least of the
      worker limit, the lookahead and the number of items, no more queued items than workers, and
      no more unread results and undelivered items than configured. */
  lemma ConcurrencyIsBounded(c: Config, actions: seq<Action>)
    requires c.Valid() && Run(c, actions).Some?
    ensures var s := Run(c, actions).value;
            && 0 < |s.workers| <= c.workers && |s.workers| <= c.lookahead && |s.workers| <= |c.ordinals|
            && (|s.workers| == c.workers || |s.workers| == c.lookahead || |s.workers| == |c.ordinals|)
            && |s.queue| <= |s.workers| && |s.results| <= c.queueDepth && |s.windows| == s.windowUsed <= c.lookahead
  {
    hide Run, Flow, Holding, Windows, Verdicts, Endings;
    ReachableKeeps(c, actions);
  }

  /** Budget conservation: the used weights are the sum of the live permits and within the limit,
      and every in-flight item holds its reservation, or exactly its prepared bytes. */
  lemma BudgetIsConserved(c: Config, actions: seq<Action>)
    requires c.Valid() && Run(c, actions).Some?
    ensures var s := Run(c, actions).value;
            s.used == Total(s.permits, c.Items()) && Within(s.used, c.limit) && Holding(c, s)
  {
    hide Run, Flow, Holding, Windows, Verdicts, Endings;
    ReachableKeeps(c, actions);
  }

  /** What a permit can hold: the item's whole reservation, or exactly the bytes it prepared within
      that reservation and nothing else. */
  lemma PermitsFromConfiguration(c: Config, actions: seq<Action>, i: nat)
    requires c.Valid() && Run(c, actions).Some? && i in Run(c, actions).value.permits
    ensures i < |c.ordinals|
    ensures var held := Run(c, actions).value.permits[i];
            held == c.reserve[i]
            || (c.outcome[i].Prepared? && c.outcome[i].bytes <= c.reserve[i].prepared
                && held.source == 0 && held.scratch == 0 && held.prepared == c.outcome[i].bytes)
  {
    hide Run, Flow, Windows, Verdicts, Endings;
    ReachableKeeps(c, actions);
  }

  // ---------- The end of a run ----------

  /** Queues without a reader are empty. */
  predicate Closed(s: State) {
    (s.AllExited() ==> s.queue == []) && (s.coordinator.Broken? ==> s.results == [] && s.pending == {})
  }

  lemma BreakClosed(s: State, failure: Failure)
    requires s.AllExited() ==> s.queue == []
    ensures Closed(Break(s, failure))
  {
    DropKeepsQueues(s, SortedItems(s.pending, s.next));
    DropKeepsQueues(DropItems(s, SortedItems(s.pending, s.next)), s.results);
    hide DropItems;
  }

  lemma {:induction false} DropKeepsQueues(s: State, items: seq<nat>)
    ensures var t := DropItems(s, items);
            t.queue == s.queue && t.workers == s.workers && t.coordinator == s.coordinator && t.results == s.results
            && t.pending == s.pending
    decreases |items|
  {
    if items != [] {
      DropKeepsQueues(DropItem(s, items[0]), items[1..]);
    }
  }

  lemma StepCloses(c: Config, s: State, a: Action)
    requires Closed(s) && Next(c, s, a).Some?
    ensures Closed(Next(c, s, a).value)
  {
    hide DropItems, Break;
    match a
    case Deliver =>
      var i := s.Position();
      BreakClosed(DropItem(s.(pending := s.pending - {i}), i), ItemFailed(i));
    case Collect => BreakClosed(s.(results := s.results[1..]), DuplicateOrdinal);
    case GiveUp => BreakClosed(s, RunCancelled);
    case Exit(w) =>
      if s.workers[w].Sending? {
        var t := DropItem(s, s.workers[w].item).(workers := s.workers[w := Exited]);
        DropKeepsQueues(t, t.queue);
      }
    case Receive(w) => assert !s.workers[w := Preparing(s.queue[0])][w].Exited?;
    case Prepare(w) => assert !s.workers[w := Sending(s.workers[w].item)][w].Exited?;
    case Publish(w) => assert !s.workers[w := Idle][w].Exited?;
    case _ =>
  }

  lemma {:induction false} ReachableCloses(c: Config, actions: seq<Action>)
    requires Run(c, actions).Some? && c.WorkerCount() > 0
    ensures Closed(Run(c, actions).value)
  {
    hide Next, Closed;
    if actions == [] {
      assert Closed(Start(c)) by {
        StartCloses(c);
      }
    } else {
      ReachableCloses(c, actions[..|actions| - 1]);
      StepCloses(c, Run(c, actions[..|actions| - 1]).value, actions[|actions| - 1]);
    }
  }

  lemma StartCloses(c: Config)
    ensures Closed(Start(c))
  {
  }

  /** Every thread ended. */
  predicate Terminal(s: State) {
    s.Finished() && s.AllExited() && s.dispatcher.Ended?
  }

  /** When the pipeline returns nothing is reserved any more. */
  lemma NothingRemains(c: Config, actions: seq<Action>)
    requires c.Valid() && Run(c, actions).Some? && Terminal(Run(c, actions).value)
    ensures var s := Run(c, actions).value;
            s.used == NO_WEIGHTS && s.permits == map[] && s.windows == {} && s.windowUsed == 0
  {
    hide Run, Verdicts, Total;
    ReachableKeeps(c, actions);
    ReachableCloses(c, actions);
    var s := Run(c, actions).value;
    forall i: nat ensures Fresh(s, i) == 0 && Done(s, i) == 0 {
      IdleWorkersHoldNothing(s.workers, i);
      if s.coordinator.Delivered? {
        DeliveredIsEmpty(c, s, i);
      }
    }
    hide Fresh, Done;
    assert s.windows == {};
    assert s.permits == map[];
    TotalOfNone(s.permits, c.Items());
  }

  lemma DeliveredIsEmpty(c: Config, s: State, i: nat)
    requires Inv(c, s) && s.coordinator.Delivered?
    ensures Fresh(s, i) == 0 && Done(s, i) == 0
  {
    hide Fresh, Done, Holding, Balanced, Windows, Endings;
    assert Fresh(s, i) + Done(s, i) == 0;
  }

  // ---------- Deadlock freedom ----------

  lemma AllIdleOrExited(workers: seq<Worker>) returns (w: nat)
    requires !(forall k :: 0 <= k < |workers| ==> workers[k].Exited?)
    ensures w < |workers| && !workers[w].Exited?
  {
    w :| w < |workers| && !workers[w].Exited?;
  }

  /** With every worker idle and nothing received, the dispatcher owns the whole budget. */
  lemma DispatcherIsFree(c: Config, s: State)
    requires c.Valid() && Inv(c, s) && s.coordinator.Receiving? && s.results == [] && s.queue == []
    requires forall w :: 0 <= w < |s.workers| ==> s.workers[w].Idle? || s.workers[w].Exited?
    ensures s.next == s.Position()
    ensures s.dispatcher.AtWindow? ==> s.windows == {}
    ensures s.dispatcher.AtBudget? ==> s.used == NO_WEIGHTS
  {
    hide Bounded, Verdicts;
    assert s.next > s.Position() ==> Fresh(s, s.Position()) + Done(s, s.Position()) == 1;
    forall i: nat ensures Fresh(s, i) == 0 && (Done(s, i) > 0 ==> i in s.pending) {
      IdleWorkersHoldNothing(s.workers, i);
    }
    hide Fresh, Done;
    assert forall i: nat :: Fresh(s, i) + Done(s, i) == 0;
    assert s.dispatcher.AtWindow? ==> s.windows == {};
    if s.dispatcher.AtBudget? {
      assert forall i: nat :: i !in s.permits;
      TotalOfNone(s.permits, c.Items());
    }
  }

  /** A thread that can take a step. */
  lemma SomeStep(c: Config, s: State) returns (a: Action)
    requires c.Valid() && Inv(c, s) && Closed(s) && !Terminal(s)
    ensures a != Cancel && Next(c, s, a).Some?
  {
    hide Flow, Holding, Balanced, Windows, Fresh, Done, DropItem, DropItems, Break;
    if s.coordinator.Draining? {
      a := if s.Position() in s.pending then Deliver else Drained;
    } else if s.coordinator.Receiving? && s.results != [] {
      a := Collect;
    } else if w :| 0 <= w < |s.workers| && s.workers[w].Sending? {
      a := if s.Finished() then Exit(w) else Publish(w);
    } else if w :| 0 <= w < |s.workers| && s.workers[w].Preparing? {
      a := Prepare(w);
    } else if s.AllExited() {
      if s.dispatcher.Ended? {
        a := GiveUp;
      } else {
        StopWhenAllExited(c, s);
        a := StopDispatch;
      }
    } else {
      var w := AllIdleOrExited(s.workers);
      assert s.workers[w].Idle?;
      if s.queue != [] {
        a := Receive(w);
      } else if s.dispatcher.Ended? {
        a := Exit(w);
      } else {
        a := DispatcherStep(c, s);
      }
    }
  }

  lemma StopWhenAllExited(c: Config, s: State)
    requires c.Valid() && Inv(c, s) && s.AllExited() && !s.dispatcher.Ended?
    ensures s.cancelled
  {
    hide Flow, Holding, Balanced, Windows, Fresh, Done;
    assert s.workers[0].Exited?;
  }

  /** The dispatcher can move when every worker waits for it. */
  lemma DispatcherStep(c: Config, s: State) returns (a: Action)
    requires c.Valid() && Inv(c, s) && !s.AllExited() && s.queue == [] && !s.dispatcher.Ended?
    requires s.Finished() || (s.coordinator.Receiving? && s.results == [])
    requires forall w :: 0 <= w < |s.workers| ==> s.workers[w].Idle? || s.workers[w].Exited?
    ensures a != Cancel && Next(c, s, a).Some?
  {
    hide Flow, Holding, Windows, Fresh, Done, DropItem, Total;
    if s.dispatcher.AtSend? {
      a := Send;
    } else if s.cancelled {
      a := StopDispatch;
    } else {
      DispatcherIsFree(c, s);
      a := if s.dispatcher.AtWindow? then AcquireWindow else AcquireBudget;
    }
  }

  /** Deadlock freedom: in every reachable state in which some thread has not ended, a thread
      other than the outside world can take a step. */
  lemma DeadlockFree(c: Config, actions: seq<Action>) returns (a: Action)
    requires c.Valid() && Run(c, actions).Some? && !Terminal(Run(c, actions).value)
    ensures a != Cancel && Run(c, actions + [a]).Some?
  {
    hide Inv, Closed, Next, Terminal;
    ReachableKeeps(c, actions);
    ReachableCloses(c, actions);
    a := SomeStep(c, Run(c, actions).value);
    assert (actions + [a])[..|actions|] == actions;
  }

  // ---------- Every run ends ----------

  function WorkerWeight(w: Worker): nat {
    match w
    case Exited => 0
    case Idle => 1
    case Sending(_) => 4
    case Preparing(_) => 5
  }

  function WorkersWeight(workers: seq<Worker>): nat {
    if workers == [] then 0 else WorkersWeight(workers[1..]) + WorkerWeight(workers[0])
  }

  lemma {:induction false} WorkersWeightChanges(workers: seq<Worker>, w: nat, x: Worker)
    requires w < |workers|
    ensures WorkersWeight(workers[w := x]) + WorkerWeight(workers[w]) == WorkersWeight(workers) + WorkerWeight(x)
  {
    if w == 0 {
      assert workers[w := x][1..] == workers[1..];
    } else {
      WorkersWeightChanges(workers[1..], w - 1, x);
      assert workers[w := x][1..] == workers[1..][w - 1 := x];
    }
  }

  function DispatcherWeight(c: Config, next: nat, dispatcher: Dispatcher): nat {
    var items := if next < c.Items() then c.Items() - next else 0;
    match dispatcher
    case AtWindow => 8 * items + 3
    case AtBudget => 8 * items + 2
    case AtSend => 8 * items + 1
    case Ended => 0
  }

  function CoordinatorWeight(c: Config, position: nat, coordinator: Coordinator): nat {
    if coordinator.Delivered? || coordinator.Broken? then 0
    else 1 + (if position < c.Items() then c.Items() - position else 0) + if coordinator.Draining? then 1 else 0
  }

  /** The work that is left. */
  function Remaining(c: Config, s: State): nat {
    DispatcherWeight(c, s.next, s.dispatcher) + 5 * |s.queue| + WorkersWeight(s.workers) + 2 * |s.results|
    + CoordinatorWeight(c, s.Position(), s.coordinator)
    + if s.cancelled then 0 else 1
  }

  /** Every step lessens what is left. */
  lemma StepDecreases(c: Config, s: State, a: Action)
    requires c.Valid() && Inv(c, s) && Next(c, s, a).Some?
    ensures Remaining(c, Next(c, s, a).value) < Remaining(c, s)
  {
    hide Flow, Holding, Balanced, Bounded, Windows, Endings, DispatchStep, WorkerStep, CoordinatorStep, Fresh, Done;
    match a
    case AcquireWindow | AcquireBudget | Send | StopDispatch => DispatchDecreases(c, s, a);
    case Collect | Drained | GiveUp => CoordinatorDecreases(c, s, a);
    case Deliver => DeliverDecreases(c, s);
    case Cancel =>
    case _ => WorkerDecreases(c, s, a, a.worker);
  }

  lemma DispatchDecreases(c: Config, s: State, a: Action)
    requires Shape(c, s) && DispatchStep(c, s, a).Some?
    ensures Remaining(c, DispatchStep(c, s, a).value) < Remaining(c, s)
  {
    hide WorkersWeight;
  }

  lemma CoordinatorDecreases(c: Config, s: State, a: Action)
    requires !a.Deliver? && CoordinatorStep(c, s, a).Some?
    ensures Remaining(c, CoordinatorStep(c, s, a).value) < Remaining(c, s)
  {
    hide WorkersWeight, Break;
    if s.results != [] {
      BreakKeepsRest(s.(results := s.results[1..]), DuplicateOrdinal);
    }
    BreakKeepsRest(s, RunCancelled);
  }

  lemma WorkerDecreases(c: Config, s: State, a: Action, w: nat)
    requires w < |s.workers| && WorkerStep(c, s, a, w).Some?
    ensures Remaining(c, WorkerStep(c, s, a, w).value) < Remaining(c, s)
  {
    hide DropItem, DropItems, WorkersWeight, DispatcherWeight, CoordinatorWeight;
    match a
    case Receive(_) => WorkersWeightChanges(s.workers, w, Preparing(s.queue[0]));
    case Prepare(_) => WorkersWeightChanges(s.workers, w, Sending(s.workers[w].item));
    case Publish(_) => WorkersWeightChanges(s.workers, w, Idle);
    case Exit(_) => ExitDecreases(c, s, a, w);
  }

  lemma ExitDecreases(c: Config, s: State, a: Action, w: nat)
    requires a.Exit? && w < |s.workers| && WorkerStep(c, s, a, w).Some?
    ensures Remaining(c, WorkerStep(c, s, a, w).value) < Remaining(c, s)
  {
    hide DropItem, DropItems, WorkersWeight, DispatcherWeight, CoordinatorWeight;
    WorkersWeightChanges(s.workers, w, Exited);
    if s.workers[w].Sending? {
      DropItemSets(s, s.workers[w].item);
      var t := DropItem(s, s.workers[w].item).(workers := s.workers[w := Exited]);
      DropKeepsRest(t, t.queue);
    }
  }

  lemma DeliverDecreases(c: Config, s: State)
    requires Shape(c, s) && Verdicts(c, s) && CoordinatorStep(c, s, Deliver).Some?
    ensures Remaining(c, CoordinatorStep(c, s, Deliver).value) < Remaining(c, s)
  {
    hide DropItems, WorkersWeight, DispatcherWeight, Fresh, Done;
    var i := s.Position();
    BreakKeepsRest(DropItem(s.(pending := s.pending - {i}), i), ItemFailed(i));
    hide Break;
  }

  lemma {:induction false} DropKeepsRest(s: State, items: seq<nat>)
    ensures var t := DropItems(s, items);
            t == s.(used := t.used, permits := t.permits, windows := t.windows, windowUsed := t.windowUsed)
    decreases |items|
  {
    if items != [] {
      DropKeepsRest(DropItem(s, items[0]), items[1..]);
    }
  }

  lemma BreakKeepsRest(s: State, failure: Failure)
    ensures var t := Break(s, failure);
            t.next == s.next && t.dispatcher == s.dispatcher && t.queue == s.queue && t.workers == s.workers
            && t.results == [] && t.cancelled && t.delivered == s.delivered && t.coordinator == Broken(failure)
  {
    DropKeepsRest(s, SortedItems(s.pending, s.next));
    DropKeepsRest(DropItems(s, SortedItems(s.pending, s.next)), s.results);
    hide DropItems;
  }

  /** Every run is finite: it has no more steps than the work at its start. */
  lemma {:induction false} RunsEnd(c: Config, actions: seq<Action>)
    requires c.Valid() && Run(c, actions).Some?
    ensures |actions| + Remaining(c, Run(c, actions).value) <= Remaining(c, Start(c))
  {
    hide Inv, Next, Remaining;
    if actions != [] {
      var before := actions[..|actions| - 1];
      RunsEnd(c, before);
      ReachableKeeps(c, before);
      StepDecreases(c, Run(c, before).value, actions[|actions| - 1]);
    }
  }
}
