// Context items, their lifecycle and memory layers, and the operations that change one item.
// Times are parameters; the metadata of an item beyond its layer is not kept.
module ContextLifecycle {
  import opened Common

  // Unknown is a lifecycle text outside the table.
  datatype State = CREATED | ACTIVE | COMPRESSED | STALE | INVALIDATED | ARCHIVED | Unknown(name: string)

  datatype Layer = N0 | N1 | N2 | N3 | ARCHIVE

  datatype Event =
    | Transitioned(from: State, to: State, at: int)
    | Moved(promoted: bool, fromLayer: Layer, toLayer: Layer, change: Option<(State, State)>, at: int)

  datatype Item = Item(
    id: Id, layer: Layer, importance: Option<real>, timestamp: int, lifecycle: State, history: seq<Event>, updatedAt: int)

  datatype Error = UnknownState | IllegalTransition | WrongDirection | NotWorking

  predicate CanTransition(from: State, to: State) {
    match from
    case CREATED => to.ACTIVE? || to.STALE? || to.INVALIDATED? || to.ARCHIVED?
    case ACTIVE => to.COMPRESSED? || to.STALE? || to.INVALIDATED? || to.ARCHIVED?
    case COMPRESSED => to.ACTIVE? || to.STALE? || to.INVALIDATED? || to.ARCHIVED?
    case STALE => to.ACTIVE? || to.INVALIDATED? || to.ARCHIVED? || to.COMPRESSED?
    case _ => false
  }

  function Transition(item: Item, next: State, now: int): Result<Item, Error> {
    if next.Unknown? || item.lifecycle.Unknown? then Err(UnknownState)
    else if !CanTransition(item.lifecycle, next) then Err(IllegalTransition)
    else Ok(item.(lifecycle := next, history := item.history + [Transitioned(item.lifecycle, next, now)], updatedAt := now))
  }

  const HOUR := 60 * 60 * 1000

  // How old an item of each state may get; None for no limit.
  function Threshold(s: State): Option<int> {
    match s
    case CREATED => Some(HOUR)
    case ACTIVE => Some(24 * HOUR)
    case COMPRESSED => Some(7 * 24 * HOUR)
    case _ => None
  }

  predicate Overdue(item: Item, now: int) {
    Threshold(item.lifecycle).Some? && now - item.timestamp > Threshold(item.lifecycle).value
  }

  function StalenessCheck(item: Item, now: int): State {
    if Overdue(item, now) then STALE else item.lifecycle
  }

  function Priority(layer: Layer): nat {
    match layer case N0 => 0 case N1 => 1 case N2 => 2 case N3 => 3 case ARCHIVE => 4
  }

  function PromoteItem(item: Item, target: Layer, now: int): Result<Item, Error> {
    if target.ARCHIVE? then Err(NotWorking)
    else if Priority(target) >= Priority(item.layer) then Err(WrongDirection)
    else
      var lifecycle := if item.lifecycle.COMPRESSED? then ACTIVE else item.lifecycle;
      var change := if item.lifecycle.COMPRESSED? then Some((item.lifecycle, lifecycle)) else None;
      Ok(item.(layer := target, lifecycle := lifecycle, updatedAt := now,
               history := item.history + [Moved(true, item.layer, target, change, now)]))
  }

  function DemoteItem(item: Item, target: Layer, now: int): Result<Item, Error> {
    if Priority(target) <= Priority(item.layer) then Err(WrongDirection)
    else
      var compress := target.ARCHIVE? && CanTransition(item.lifecycle, COMPRESSED);
      var lifecycle := if compress then COMPRESSED else item.lifecycle;
      var change := if compress then Some((item.lifecycle, lifecycle)) else None;
      Ok(item.(layer := target, lifecycle := lifecycle, updatedAt := now,
               history := item.history + [Moved(false, item.layer, target, change, now)]))
  }

  // ---- histories ----

  // The lifecycle steps a history records, layer moves that keep the lifecycle left out.
  function Steps(history: seq<Event>): seq<(State, State)> {
    if history == [] then []
    else
      var last := history[|history| - 1];
      Steps(history[..|history| - 1]) +
      match last
      case Transitioned(from, to, _) => [(from, to)]
      case Moved(_, _, _, Some(step), _) => [step]
      case Moved(_, _, _, None, _) => []
  }

  // A path in the transition table that ends at the given state.
  ghost predicate PathTo(steps: seq<(State, State)>, end: State) {
    && (forall i :: 0 <= i < |steps| ==> CanTransition(steps[i].0, steps[i].1))
    && (forall i :: 0 < i < |steps| ==> steps[i - 1].1 == steps[i].0)
    && (steps != [] ==> steps[|steps| - 1].1 == end)
  }

  ghost predicate Consistent(item: Item) {
    PathTo(Steps(item.history), item.lifecycle)
  }

  lemma StepsAppend(history: seq<Event>, e: Event)
    ensures Steps(history + [e]) == Steps(history) +
      match e
      case Transitioned(from, to, _) => [(from, to)]
      case Moved(_, _, _, Some(step), _) => [step]
      case Moved(_, _, _, None, _) => []
  {
  }

  // What every single operation does to the lifecycle: one step of the table, or none.
  ghost predicate OneStep(before: Item, after: Item) {
    && after.id == before.id && after.importance == before.importance && after.timestamp == before.timestamp
    && (after.lifecycle == before.lifecycle || CanTransition(before.lifecycle, after.lifecycle))
    && (Consistent(before) ==> Consistent(after))
  }

  lemma TransitionSteps(item: Item, next: State, now: int)
    requires Transition(item, next, now).Ok?
    ensures OneStep(item, Transition(item, next, now).value)
  {
  }

  lemma MoveSteps(item: Item, target: Layer, now: int)
    ensures PromoteItem(item, target, now).Ok? ==> OneStep(item, PromoteItem(item, target, now).value)
    ensures DemoteItem(item, target, now).Ok? ==> OneStep(item, DemoteItem(item, target, now).value)
  {
  }

  // Sweeping never needs a step the table lacks.
  lemma OverdueCanGoStale(item: Item, now: int)
    requires Overdue(item, now)
    ensures Transition(item, STALE, now).Ok? && !item.lifecycle.STALE?
  {
  }

  // ---- the table and the operations, spelled out ----

  predicate Live(s: State) {
    s == CREATED || s == ACTIVE || s == COMPRESSED || s == STALE
  }

  // A live item can always be invalidated or archived, can go stale or active unless it is already, and can be
  // compressed exactly when it is active or stale. Nothing leaves any other state.
  lemma TableMeans(from: State, to: State)
    ensures CanTransition(from, to) <==>
      Live(from) && (
        || to == INVALIDATED || to == ARCHIVED
        || (to == STALE && from != STALE)
        || (to == ACTIVE && from != ACTIVE)
        || (to == COMPRESSED && (from == ACTIVE || from == STALE)))
  {
  }

  // A transition changes the lifecycle, the time and the end of the history, or nothing.
  lemma TransitionMeans(item: Item, next: State, now: int)
    ensures var r := Transition(item, next, now);
      && (r.Ok? <==> CanTransition(item.lifecycle, next))
      && (r == Err(UnknownState) <==> next.Unknown? || item.lifecycle.Unknown?)
      && (r.Ok? ==>
            && r.value.lifecycle == next && r.value.updatedAt == now && r.value.layer == item.layer
            && r.value.id == item.id && r.value.importance == item.importance && r.value.timestamp == item.timestamp
            && r.value.history == item.history + [Transitioned(item.lifecycle, next, now)])
  {
    TableMeans(item.lifecycle, next);
  }

  // An item is overdue after an hour as created, a day as active and a week as compressed, in milliseconds.
  lemma OverdueMeans(item: Item, now: int)
    ensures Overdue(item, now) <==>
      || (item.lifecycle == CREATED && now - item.timestamp > 3_600_000)
      || (item.lifecycle == ACTIVE && now - item.timestamp > 86_400_000)
      || (item.lifecycle == COMPRESSED && now - item.timestamp > 604_800_000)
  {
  }

  // The layers from the nearest to the furthest.
  predicate Nearer(a: Layer, b: Layer) {
    match a
    case N0 => b != N0
    case N1 => b == N2 || b == N3 || b == ARCHIVE
    case N2 => b == N3 || b == ARCHIVE
    case N3 => b == ARCHIVE
    case ARCHIVE => false
  }

  // Promotion moves an item to a nearer working layer and reactivates it if it was compressed.
  lemma PromoteMeans(item: Item, target: Layer, now: int)
    ensures var r := PromoteItem(item, target, now);
      && (r.Ok? <==> target != ARCHIVE && Nearer(target, item.layer))
      && (r == Err(NotWorking) <==> target == ARCHIVE)
      && (r.Ok? ==>
            && r.value.layer == target && r.value.updatedAt == now
            && r.value.lifecycle == (if item.lifecycle == COMPRESSED then ACTIVE else item.lifecycle)
            && |r.value.history| == |item.history| + 1 && r.value.history[..|item.history|] == item.history
            && var e := r.value.history[|item.history|];
               e.Moved? && e.promoted && e.fromLayer == item.layer && e.toLayer == target && e.at == now)
  {
  }

  // Demotion moves it further away, and compresses it on the way to the archive if it is active or stale.
  lemma DemoteMeans(item: Item, target: Layer, now: int)
    ensures var r := DemoteItem(item, target, now);
      && (r.Ok? <==> Nearer(item.layer, target))
      && (r.Ok? ==>
            && r.value.layer == target && r.value.updatedAt == now
            && r.value.lifecycle ==
                 (if target == ARCHIVE && (item.lifecycle == ACTIVE || item.lifecycle == STALE) then COMPRESSED
                  else item.lifecycle)
            && |r.value.history| == |item.history| + 1 && r.value.history[..|item.history|] == item.history
            && var e := r.value.history[|item.history|];
               e.Moved? && !e.promoted && e.fromLayer == item.layer && e.toLayer == target && e.at == now)
  {
    TableMeans(item.lifecycle, COMPRESSED);
  }
}
