/** The unsaved-draft guard over browser session history (section 7.4 of the HTML
    Living Standard). Entries are stamped with a position; a traversal that would
    lose a draft is undone after it has happened, and offered again.

    `Step` is the protocol as a function on states; `Guard` below runs the same
    handlers in place. */
module NavigationGuard {
  import opened Texts
  import opened RouteState

  /** A session history entry; the stamp is `history.state.draftPosition`. */
  datatype Entry = Entry(url: Url, stamp: Option<int>)

  /** What `leave` can be asked to run: navigate, traverse, or something that
      leaves history alone, such as closing a dialog. */
  datatype Action = Assign(url: Url) | Go(delta: int) | Local

  /** What the browser still owes the page: nothing, a traversal it was asked
      for, or a `hashchange` event for one that has happened. */
  datatype Flight = Idle | Traversing(delta: int) | Changed(oldUrl: Url, newUrl: Url)

  datatype State = State(
    entries: seq<Entry>, index: nat, flight: Flight,                     // the browser
    position: int, restoring: Option<int>,                               // the guard's closure
    dirty: set<string>, hasDraft: bool, pending: Option<Action>,         // the registry and dialog
    shown: Url)                                                          // what the application draws
  {
    predicate InRange(i: int) { 0 <= i < |entries| }

    function Current(): Url
      requires InRange(index)
    {
      entries[index].url
    }
  }

  datatype Event =
    | Register(id: string, isDirty: bool)   // a form's dirty flag changed
    | Expire                                // the session ended
    | Follow(url: Url)                      // a plain click on a fragment link
    | Visit(url: Url)                       // an address was typed, or assigned by script
    | SetHash(url: Url)                     // `location.hash` was set by script
    | Traverse(delta: int)                  // Back or Forward, any distance
    | Leave(action: Action)                 // a screen asks to leave
    | Confirm                               // "Discard changes"
    | Cancel                                // "Keep editing"
    | ReplaceSaved(url: Url)                // a creation adopts its server id
    | Arrive                                // the browser completes a traversal
    | Deliver                               // the browser delivers a hashchange

  /** The link that moves the focus and navigates nowhere. */
  const SKIP_LINK := "#content"

  // ----- the browser -----

  /** A fragment navigation drops the forward entries and adds an unstamped one. One to
      the same URL replaces the entry instead, without its stamp, and fires no event. */
  function Push(s: State, url: Url): State
    requires s.InRange(s.index)
  {
    if url == s.Current() then Unstamped(s)
    else s.(entries := s.entries[..s.index + 1] + [Entry(url, None)], index := s.index + 1,
       flight := Changed(s.Current(), url))
  }

  /** Setting the fragment that is already there does nothing at all. */
  function Hashed(s: State, url: Url): State
    requires s.InRange(s.index)
  {
    if url == s.Current() then s else Push(s, url)
  }

  function Unstamped(s: State): State
    requires s.InRange(s.index)
  {
    s.(entries := s.entries[s.index := s.entries[s.index].(stamp := None)])
  }

  /** A traversal out of range does nothing; one between equal URLs fires no event. */
  function ArriveAt(s: State, delta: int): State
    requires s.InRange(s.index)
  {
    var target := s.index + delta;
    if !s.InRange(target) then s.(flight := Idle)
    else if s.entries[target].url == s.Current() then s.(index := target, flight := Idle)
    else s.(index := target, flight := Changed(s.Current(), s.entries[target].url))
  }

  // ----- the guard -----

  function Perform(s: State, action: Action): State
    requires s.InRange(s.index)
  {
    match action
    case Assign(url) => Push(s, url)
    case Go(delta) => s.(flight := Traversing(delta))
    case Local => s
  }

  function LeaveWith(s: State, action: Action): State
    requires s.InRange(s.index)
  {
    if s.dirty == {} then Perform(s, action) else s.(pending := Some(action))
  }

  function Stamped(s: State, stamp: int): State
    requires s.InRange(s.index)
  {
    s.(entries := s.entries[s.index := s.entries[s.index].(stamp := Some(stamp))])
  }

  function HashChange(s: State, oldUrl: Url, newUrl: Url): State
    requires s.InRange(s.index)
  {
    var s0 := s.(flight := Idle);
    if oldUrl == newUrl then s0.(shown := s0.Current())
    else match s0.restoring
      case Some(delta) => LeaveWith(s0.(restoring := None), Go(delta))
      case None =>
        var stamp := s0.entries[s0.index].stamp;
        var target := if stamp.Some? then stamp.value else s0.position + 1;
        var s1 := Stamped(s0, target);
        if s1.dirty == {} || SameEditor(oldUrl, newUrl) then s1.(position := target, shown := s1.Current())
        else
          var delta := target - s1.position;
          if delta == 0 then s1
          else s1.(restoring := Some(delta), flight := Traversing(-delta))
  }

  function ClickOn(s: State, url: Url): State
    requires s.InRange(s.index)
  {
    if url.hash == SKIP_LINK then s
    else if s.dirty == {} || url == s.Current() || SameEditor(s.Current(), url) then Push(s, url)
    else LeaveWith(s, Assign(url))
  }

  function SetDirty(s: State, dirty: set<string>): State {
    s.(dirty := dirty, hasDraft := dirty != {})
  }

  /** The first mount: the current entry is stamped, with 0 when it had no stamp. */
  function Mount(entries: seq<Entry>, index: nat): State
    requires index < |entries|
  {
    var stamp := entries[index].stamp;
    var position := if stamp.Some? then stamp.value else 0;
    Stamped(State(entries, index, Idle, position, None, {}, false, None, entries[index].url), position)
  }

  /** The premises: one traversal in flight at a time, and traversals change the URL. */
  predicate Enabled(s: State, e: Event)
    requires s.InRange(s.index)
  {
    match e
    case Register(_, _) | Expire => true
    case Follow(_) | Visit(_) | SetHash(_) => s.flight.Idle?
    case Traverse(delta) => s.flight.Idle? && CanGo(s, delta) && s.InRange(s.index + delta)
    case Leave(action) => s.flight.Idle? && !action.Go? && CanPerform(s, action)
    case Confirm => s.flight.Idle? && s.pending.Some? && CanPerform(s, s.pending.value)
    case Cancel => s.pending.Some?
    case ReplaceSaved(_) => s.flight.Idle?
    case Arrive => s.flight.Traversing?
    case Deliver => s.flight.Changed?
  }

  predicate CanGo(s: State, delta: int)
    requires s.InRange(s.index)
  {
    delta != 0 && (s.InRange(s.index + delta) ==> s.entries[s.index + delta].url != s.Current())
  }

  predicate CanPerform(s: State, action: Action)
    requires s.InRange(s.index)
  {
    action.Go? ==> CanGo(s, action.delta)
  }

  function Step(s: State, e: Event): State
    requires s.InRange(s.index) && Enabled(s, e)
  {
    match e
    case Register(id, isDirty) => SetDirty(s, if isDirty then s.dirty + {id} else s.dirty - {id})
    case Expire => SetDirty(s, {}).(pending := None)
    case Follow(url) => ClickOn(s, url)
    case Visit(url) => Push(s, url)
    case SetHash(url) => Hashed(s, url)
    case Traverse(delta) => s.(flight := Traversing(delta))
    case Leave(action) => LeaveWith(s, action)
    case Confirm => Perform(SetDirty(s, {}).(pending := None), s.pending.value)
    case Cancel => s.(pending := None)
    case ReplaceSaved(url) =>
      s.(entries := s.entries[s.index := s.entries[s.index].(url := url)], shown := url)
    case Arrive => ArriveAt(s, s.flight.delta)
    case Deliver => HashChange(s, s.flight.oldUrl, s.flight.newUrl)
  }

  // ----- what every step keeps -----

  predicate InLine(stamp: Option<int>, expected: int) { stamp.None? || stamp.value == expected }

  /** Stamps that are there run consecutively from `base`, and the guard's position
      names the entry the application shows: the current one when nothing is in
      flight, the one to go back to while a refused traversal is being undone. */
  ghost predicate Inv(s: State, base: int) {
    && s.InRange(s.index)
    && s.hasDraft == (s.dirty != {})
    && (forall i :: s.InRange(i) ==> InLine(s.entries[i].stamp, base + i))
    && s.InRange(s.position - base)
    && s.shown == s.entries[s.position - base].url
    && (s.pending.Some? && s.pending.value.Go? ==> s.pending.value.delta != 0)
    && InFlight(s, base)
  }

  ghost predicate InFlight(s: State, base: int)
    requires s.InRange(s.index) && s.InRange(s.position - base)
  {
    var here := s.position == base + s.index;
    match s.flight
    case Idle => here && s.restoring.None?
    case Traversing(delta) =>
      && CanGo(s, delta)
      && (match s.restoring
          case None => here
          case Some(offer) =>
            && delta == -offer && s.position == base + s.index + delta && s.entries[s.index].stamp.Some?)
    case Changed(oldUrl, newUrl) =>
      && newUrl == s.Current() && oldUrl != newUrl
      && (match s.restoring
          case None => !here && oldUrl == s.shown
          case Some(offer) =>
            && here && CanGo(s, offer) && s.InRange(s.index + offer) && s.entries[s.index + offer].stamp.Some?)
  }

  /** An arrival whose number the guard can tell: the entry has its stamp, or it is
      the one after the position, which is what a missing stamp is taken for. */
  predicate Found(s: State, base: int, e: Event)
    requires s.InRange(s.index)
  {
    e.Deliver? && s.restoring.None? && s.entries[s.index].stamp.None? ==> s.position + 1 == base + s.index
  }

  /** Every entry is stamped, but for a pushed one whose event is on its way. */
  ghost predicate Full(s: State, base: int)
    requires s.InRange(s.index)
  {
    && (forall i :: s.InRange(i) && i != s.index ==> s.entries[i].stamp.Some?)
    && (s.entries[s.index].stamp.Some? || (s.flight.Changed? && s.restoring.None? && s.position + 1 == base + s.index))
  }

  /** The premise on history at mount: the stamps that are there are in line, and
      counting starts at the current entry if it has none. */
  lemma MountEstablishes(entries: seq<Entry>, index: nat, base: int)
    requires index < |entries| && forall i :: 0 <= i < |entries| ==> InLine(entries[i].stamp, base + i)
    requires entries[index].stamp.None? ==> base + index == 0
    ensures Inv(Mount(entries, index), base)
    ensures (forall i :: 0 <= i < |entries| && i != index ==> entries[i].stamp.Some?) ==> Full(Mount(entries, index), base)
  {
  }

  lemma PushKeeps(s: State, base: int, url: Url)
    requires Inv(s, base) && s.flight.Idle?
    ensures Inv(Push(s, url), base)
  {
  }

  lemma PerformKeeps(s: State, base: int, action: Action)
    requires Inv(s, base) && s.flight.Idle? && CanPerform(s, action)
    ensures Inv(Perform(s, action), base)
  {
    if action.Assign? { PushKeeps(s, base, action.url); }
  }

  /** The way out, which a history too short cuts off. */
  lemma OutwardKeeps(s: State, base: int)
    requires Inv(s, base) && s.flight.Traversing? && s.restoring.None?
    ensures Inv(ArriveAt(s, s.flight.delta), base)
  {
  }

  /** The way back from a refusal. */
  lemma ReturnKeeps(s: State, base: int)
    requires Inv(s, base) && s.flight.Traversing? && s.restoring.Some?
    ensures Inv(ArriveAt(s, s.flight.delta), base)
  {
  }

  lemma ArriveKeeps(s: State, base: int)
    requires Inv(s, base) && s.flight.Traversing?
    ensures Inv(ArriveAt(s, s.flight.delta), base)
  {
    hide Inv;
    if s.restoring.None? { OutwardKeeps(s, base); } else { ReturnKeeps(s, base); }
  }

  /** The arrival back at the entry a refused traversal left. */
  lemma OfferKeeps(s: State, base: int)
    requires Inv(s, base) && s.flight.Changed? && s.restoring.Some?
    ensures Inv(LeaveWith(s.(flight := Idle, restoring := None), Go(s.restoring.value)), base)
  {
  }

  /** An arrival that is let through. */
  lemma AcceptKeeps(s: State, base: int)
    requires Inv(s, base) && s.flight.Changed? && s.restoring.None?
    ensures Inv(Stamped(s, base + s.index).(flight := Idle, position := base + s.index, shown := s.Current()), base)
  {
  }

  /** An arrival that is refused, and its undoing begun. */
  lemma RefuseKeeps(s: State, base: int, delta: int)
    requires Inv(s, base) && s.flight.Changed? && s.restoring.None? && delta == base + s.index - s.position
    ensures Inv(Stamped(s, base + s.index).(restoring := Some(delta), flight := Traversing(-delta)), base)
  {
  }

  /** Exactly when a delivered event keeps the numbering: when the arrival was found. */
  lemma DeliverKeepsIff(s: State, base: int)
    requires Inv(s, base) && s.flight.Changed?
    ensures Inv(HashChange(s, s.flight.oldUrl, s.flight.newUrl), base) <==> Found(s, base, Deliver)
  {
    hide SameEditor;
    hide InFlight;
    if s.restoring.Some? {
      OfferKeeps(s, base);
      InFlightUrls(s, base);
    } else if Found(s, base, Deliver) {
      DeliverKeeps(s, base);
    } else {
      InFlightUrls(s, base);
      var t := HashChange(s, s.flight.oldUrl, s.flight.newUrl);
      assert t.entries[s.index].stamp == Some(s.position + 1);
    }
  }

  lemma InFlightUrls(s: State, base: int)
    requires Inv(s, base) && s.flight.Changed?
    ensures s.flight.oldUrl != s.flight.newUrl
  {
  }

  lemma DeliverKeeps(s: State, base: int)
    requires Inv(s, base) && s.flight.Changed? && Found(s, base, Deliver)
    ensures Inv(HashChange(s, s.flight.oldUrl, s.flight.newUrl), base)
  {
    hide SameEditor;
    if s.restoring.Some? {
      OfferKeeps(s, base);
    } else {
      AcceptKeeps(s, base);
      RefuseKeeps(s, base, base + s.index - s.position);
    }
  }

  lemma LeaveKeeps(s: State, base: int, action: Action)
    requires Inv(s, base) && s.flight.Idle? && CanPerform(s, action)
    ensures Inv(LeaveWith(s, action), base)
  {
    PerformKeeps(s, base, action);
  }

  lemma ClickKeeps(s: State, base: int, url: Url)
    requires Inv(s, base) && s.flight.Idle?
    ensures Inv(ClickOn(s, url), base)
  {
    PushKeeps(s, base, url);
    LeaveKeeps(s, base, Assign(url));
  }

  lemma ReplaceKeeps(s: State, base: int, url: Url)
    requires Inv(s, base) && s.flight.Idle?
    ensures Inv(Step(s, ReplaceSaved(url)), base)
  {
  }

  lemma RegistryKeeps(s: State, base: int, dirty: set<string>)
    requires Inv(s, base)
    ensures Inv(SetDirty(s, dirty), base)
    ensures Inv(SetDirty(s, dirty).(pending := None), base)
  {
  }

  /** The protocol invariant, over every step but the delivery of an arrival that was
      not found. */
  lemma StepKeeps(s: State, base: int, e: Event)
    requires Inv(s, base) && Enabled(s, e) && Found(s, base, e)
    ensures Inv(Step(s, e), base)
  {
    hide SameEditor;
    hide HashChange;
    hide ArriveAt;
    hide ClickOn;
    match e {
      case Register(id, isDirty) => RegistryKeeps(s, base, Step(s, e).dirty);
      case Expire => RegistryKeeps(s, base, {});
      case Follow(url) => ClickKeeps(s, base, url);
      case Visit(url) => PushKeeps(s, base, url);
      case SetHash(url) => PushKeeps(s, base, url);
      case Traverse(_) =>
      case Leave(action) => LeaveKeeps(s, base, action);
      case Confirm =>
        RegistryKeeps(s, base, {});
        PerformKeeps(SetDirty(s, {}).(pending := None), base, s.pending.value);
      case Cancel => RegistryKeeps(s, base, s.dirty);
      case ReplaceSaved(url) => ReplaceKeeps(s, base, url);
      case Arrive => ArriveKeeps(s, base);
      case Deliver => DeliverKeeps(s, base);
    }
  }

  // ----- whole runs -----

  ghost predicate ValidRun(s: State, events: seq<Event>)
    decreases |events|
  {
    events != [] ==> s.InRange(s.index) && Enabled(s, events[0]) && ValidRun(Step(s, events[0]), events[1..])
  }

  ghost function Run(s: State, events: seq<Event>): State
    requires ValidRun(s, events)
    decreases |events|
  {
    if events == [] then s else Run(Step(s, events[0]), events[1..])
  }

  /** Every arrival of a run is found. */
  ghost predicate AllFound(s: State, base: int, events: seq<Event>)
    requires ValidRun(s, events)
    decreases |events|
  {
    events != [] ==> Found(s, base, events[0]) && AllFound(Step(s, events[0]), base, events[1..])
  }

  /** Along every such run: the stamps that are there are consecutive, and at rest the
      position is the current entry's number and the application shows that entry. */
  lemma {:induction false} RunKeeps(s: State, base: int, events: seq<Event>)
    requires Inv(s, base) && ValidRun(s, events) && AllFound(s, base, events)
    ensures Inv(Run(s, events), base)
    ensures var t := Run(s, events);
            t.flight.Idle? ==>
              && (forall i :: t.InRange(i) ==> InLine(t.entries[i].stamp, base + i))
              && t.position == base + t.index && t.shown == t.Current()
    decreases |events|
  {
    hide Step;
    hide Enabled;
    hide Found;
    if events != [] {
      StepKeeps(s, base, events[0]);
      RunKeeps(Step(s, events[0]), base, events[1..]);
    }
  }

  /** A step that navigates to the URL already there. */
  predicate Renews(s: State, e: Event)
    requires s.InRange(s.index)
  {
    match e
    case Follow(url) => url == s.Current()
    case Visit(url) => url == s.Current()
    case Leave(action) => action == Assign(s.Current())
    case Confirm => s.pending == Some(Assign(s.Current()))
    case _ => false
  }

  lemma StepFull(s: State, base: int, e: Event)
    requires Inv(s, base) && Full(s, base) && Enabled(s, e) && !Renews(s, e)
    ensures Found(s, base, e)
    ensures Step(s, e).InRange(Step(s, e).index) && Full(Step(s, e), base)
  {
    hide SameEditor;
    hide HashChange;
    match e {
      case Deliver => DeliverFull(s, base);
      case Arrive => ArriveFull(s, base);
      case _ =>
    }
  }

  lemma ArriveFull(s: State, base: int)
    requires Inv(s, base) && Full(s, base) && s.flight.Traversing?
    ensures var t := ArriveAt(s, s.flight.delta); t.InRange(t.index) && Full(t, base)
  {
  }

  lemma DeliverFull(s: State, base: int)
    requires Inv(s, base) && Full(s, base) && s.flight.Changed?
    ensures var t := HashChange(s, s.flight.oldUrl, s.flight.newUrl); t.InRange(t.index) && Full(t, base)
  {
    hide SameEditor;
  }

  ghost predicate NoneRenews(s: State, events: seq<Event>)
    requires ValidRun(s, events)
    decreases |events|
  {
    events != [] ==> !Renews(s, events[0]) && NoneRenews(Step(s, events[0]), events[1..])
  }

  /** Without navigations to the URL already there no stamp is ever missing, so every
      arrival is found, whatever else happens. */
  lemma {:induction false} FullRun(s: State, base: int, events: seq<Event>)
    requires Inv(s, base) && Full(s, base) && ValidRun(s, events) && NoneRenews(s, events)
    ensures AllFound(s, base, events)
    ensures Inv(Run(s, events), base) && Full(Run(s, events), base)
    ensures var t := Run(s, events);
            t.flight.Idle? ==>
              && (forall i :: t.InRange(i) ==> t.entries[i].stamp == Some(base + i))
              && Some(t.position) == t.entries[t.index].stamp && t.shown == t.Current()
    decreases |events|
  {
    if events != [] {
      hide Step;
      hide Enabled;
      hide Found;
      hide Renews;
      StepFull(s, base, events[0]);
      StepKeeps(s, base, events[0]);
      FullRun(Step(s, events[0]), base, events[1..]);
    }
  }

  /** While a draft is held, one step moves the screen only within its editor,
      unless a finished creation adopts its own address. */
  lemma StepStays(s: State, base: int, e: Event)
    requires Inv(s, base) && Enabled(s, e) && s.dirty != {} && !e.ReplaceSaved?
    ensures Step(s, e).shown == s.shown || SameEditor(s.shown, Step(s, e).shown)
  {
  }

  /** The events that can take a draft out of the registry. */
  predicate Discards(e: Event, id: string) {
    e.Confirm? || e.Expire? || e == Register(id, false)
  }

  lemma StepHolds(s: State, e: Event, id: string)
    requires s.InRange(s.index) && Enabled(s, e) && id in s.dirty && !Discards(e, id)
    ensures id in Step(s, e).dirty
  {
    hide SameEditor;
  }

  /** No run loses a draft behind the user's back: as long as the draft is not
      saved, discarded or expired, the screen stays in the editor it started in,
      whatever is clicked, typed, traversed or delivered in between. */
  lemma {:induction false} DraftIsKept(s: State, base: int, events: seq<Event>, id: string)
    requires Inv(s, base) && ValidRun(s, events) && AllFound(s, base, events) && id in s.dirty
    requires forall k :: 0 <= k < |events| ==> !Discards(events[k], id) && !events[k].ReplaceSaved?
    ensures id in Run(s, events).dirty
    ensures Run(s, events).shown == s.shown || SameEditor(s.shown, Run(s, events).shown)
    decreases |events|
  {
    hide Step;
    hide SameEditor;
    hide Inv;
    hide Enabled;
    hide Found;
    if events != [] {
      var e, t := events[0], Step(s, events[0]);
      StepKeeps(s, base, e);
      StepStays(s, base, e);
      assert !Discards(e, id);
      StepHolds(s, e, id);
      DraftIsKept(t, base, events[1..], id);
      SameEditorChains(s.shown, t.shown, Run(s, events).shown);
    }
  }

  // ----- refusals: undone, then offered -----

  /** A navigation to refuse: from entry `i` of `after`, where the application
      is, by `delta` to an entry of another editor. */
  ghost predicate Refusable(s: State, base: int, after: seq<Entry>, delta: int) {
    var i, j := s.index, s.index + delta;
    && 0 <= i < |after| && 0 <= j < |after| && i != j
    && after[j].stamp == Some(base + j)
    && s.position == base + i && s.shown == after[i].url
    && after[i].url != after[j].url && !SameEditor(after[i].url, after[j].url)
  }

  /** The entries before and after the target has its stamp. */
  ghost predicate Pending(after: seq<Entry>, j: int, delta: int, entries: seq<Entry>)
    requires 0 <= j < |after|
  {
    entries == after || (delta == 1 && entries == after[j := after[j].(stamp := None)])
  }

  /** The stages of a refusal that started in `s`: on the way out, noticed, on the
      way back, swallowed, and finally at rest with the offer made. */
  ghost predicate Undoing(s: State, after: seq<Entry>, delta: int, t: State) {
    var i, j := s.index, s.index + delta;
    && 0 <= i < |after| && 0 <= j < |after|
    && t.position == s.position && t.shown == s.shown
    && match t.flight
       case Traversing(d) =>
         if t.restoring.None? then d == delta && t.index == i && Pending(after, j, delta, t.entries)
         else t.restoring == Some(delta) && d == -delta && t.index == j && t.entries == after
       case Changed(oldUrl, newUrl) =>
         if t.restoring.None? then
           && t.index == j && oldUrl == after[i].url && newUrl == after[j].url
           && Pending(after, j, delta, t.entries)
         else
           && t.restoring == Some(delta) && t.entries == after
           && t.index == i && oldUrl == after[j].url && newUrl == after[i].url
       case Idle =>
         t.entries == after && t.index == i && t.restoring.None? && t.pending == Some(Go(delta))
  }

  lemma UndoingStep(s: State, base: int, after: seq<Entry>, delta: int, t: State, e: Event)
    requires Refusable(s, base, after, delta) && Undoing(s, after, delta, t)
    requires !t.flight.Idle? && t.dirty != {}
    requires t.InRange(t.index) && Enabled(t, e)
    requires !e.Confirm? && !e.Expire?
    ensures Undoing(s, after, delta, Step(t, e))
  {
    hide SameEditor;
    if e.Deliver? && t.restoring.None? {
      var j := s.index + delta;
      var stamp := t.entries[j].stamp;
      var target := if stamp.Some? then stamp.value else t.position + 1;
      assert target == base + j;
      assert Stamped(t.(flight := Idle), target).entries == after;
    }
  }

  /** A run that is not at rest before its last event. */
  ghost predicate Unsettled(s: State, events: seq<Event>)
    requires ValidRun(s, events)
    decreases |events|
  {
    events != [] ==> !s.flight.Idle? && Unsettled(Step(s, events[0]), events[1..])
  }

  lemma {:induction false} UndoingRun(s: State, base: int, after: seq<Entry>, delta: int,
                                      t: State, events: seq<Event>, id: string)
    requires Refusable(s, base, after, delta) && Undoing(s, after, delta, t)
    requires ValidRun(t, events) && Unsettled(t, events) && id in t.dirty
    requires forall k :: 0 <= k < |events| ==> !Discards(events[k], id)
    ensures Undoing(s, after, delta, Run(t, events)) && id in Run(t, events).dirty
    decreases |events|
  {
    if events != [] {
      assert !Discards(events[0], id);
      UndoingStep(s, base, after, delta, t, events[0]);
      UndoingRun(s, base, after, delta, Step(t, events[0]), events[1..], id);
    }
  }

  lemma Rested(s: State, after: seq<Entry>, delta: int, t: State)
    requires Undoing(s, after, delta, t) && s.flight.Idle? && s.restoring.None?
    ensures t.shown == s.shown && t.position == s.position
    ensures t.flight.Idle? ==>
              t == s.(entries := after, dirty := t.dirty, hasDraft := t.hasDraft, pending := Some(Go(delta)))
  {
  }

  /** The guard can tell the number of the entry a traversal leads to. */
  predicate Findable(s: State, delta: int)
    requires s.InRange(s.index + delta)
  {
    s.entries[s.index + delta].stamp.Some? || delta == 1
  }

  /** The entries once one of them has its stamp, which it mostly had before. */
  ghost function Numbered(s: State, base: int, j: int): seq<Entry>
    requires s.InRange(j)
  {
    s.entries[j := s.entries[j].(stamp := Some(base + j))]
  }

  lemma NumberedAlready(s: State, base: int, j: int)
    requires Inv(s, base) && s.InRange(j) && s.entries[j].stamp.Some?
    ensures Numbered(s, base, j) == s.entries
  {
  }

  lemma RefusableTraversal(s: State, base: int, delta: int)
    requires Inv(s, base) && Enabled(s, Traverse(delta)) && Findable(s, delta)
    requires !SameEditor(s.Current(), s.entries[s.index + delta].url)
    ensures Refusable(s, base, Numbered(s, base, s.index + delta), delta)
    ensures Undoing(s, Numbered(s, base, s.index + delta), delta, Step(s, Traverse(delta)))
  {
    hide SameEditor;
    var j := s.index + delta;
    var after := Numbered(s, base, j);
    if s.entries[j].stamp.Some? {
      NumberedAlready(s, base, j);
    } else {
      assert after[j].(stamp := None) == s.entries[j];
      assert after[j := after[j].(stamp := None)] == s.entries;
    }
  }

  /** A refused Back or Forward of any distance, however dirty flags change and the
      dialog is closed meanwhile: when the browser is at rest again the entries,
      the index, the position and the screen are as before, but for a stamp the
      target may have been missing, and the traversal is on offer. Both of its
      events were swallowed. */
  lemma RefusedTraversal(s: State, base: int, delta: int, events: seq<Event>, id: string)
    requires Inv(s, base) && Enabled(s, Traverse(delta)) && Findable(s, delta) && id in s.dirty
    requires !SameEditor(s.Current(), s.entries[s.index + delta].url)
    requires var t := Step(s, Traverse(delta)); ValidRun(t, events) && Unsettled(t, events)
    requires forall k :: 0 <= k < |events| ==> !Discards(events[k], id)
    ensures var t := Run(Step(s, Traverse(delta)), events);
            && t.shown == s.shown && t.position == s.position
            && (t.flight.Idle? ==>
                  t == s.(entries := Numbered(s, base, s.index + delta), dirty := t.dirty, hasDraft := t.hasDraft,
                          pending := Some(Go(delta))))
    ensures s.entries[s.index + delta].stamp.Some? ==> Numbered(s, base, s.index + delta) == s.entries
  {
    hide SameEditor;
    hide Refusable;
    hide Undoing;
    hide Run;
    hide ValidRun;
    hide Unsettled;
    var after := Numbered(s, base, s.index + delta);
    RefusableTraversal(s, base, delta);
    UndoingRun(s, base, after, delta, Step(s, Traverse(delta)), events, id);
    Rested(s, after, delta, Run(Step(s, Traverse(delta)), events));
    if s.entries[s.index + delta].stamp.Some? { NumberedAlready(s, base, s.index + delta); }
  }

  /** The entries once the pushed one is stamped. */
  ghost function PushedTo(s: State, base: int, url: Url): seq<Entry>
    requires s.InRange(s.index)
  {
    s.entries[..s.index + 1] + [Entry(url, Some(base + s.index + 1))]
  }

  lemma RefusablePush(s: State, base: int, url: Url)
    requires Inv(s, base) && Enabled(s, Visit(url)) && url != s.Current() && !SameEditor(s.Current(), url)
    ensures Refusable(s, base, PushedTo(s, base, url), 1)
    ensures Undoing(s, PushedTo(s, base, url), 1, Push(s, url))
  {
    hide SameEditor;
    var after := PushedTo(s, base, url);
    assert Push(s, url).entries == after[s.index + 1 := Entry(url, None)];
  }

  /** A refused push ends the same way, with the refused entry, now stamped, as
      the one Forward destination. */
  lemma RefusedPush(s: State, base: int, url: Url, events: seq<Event>, id: string)
    requires Inv(s, base) && Enabled(s, Visit(url)) && id in s.dirty
    requires url != s.Current() && !SameEditor(s.Current(), url)
    requires var t := Step(s, Visit(url)); ValidRun(t, events) && Unsettled(t, events)
    requires forall k :: 0 <= k < |events| ==> !Discards(events[k], id)
    ensures Step(s, SetHash(url)) == Step(s, Visit(url))
    ensures var t := Run(Step(s, Visit(url)), events);
            && t.shown == s.shown && t.position == s.position
            && (t.flight.Idle? ==>
                  t == s.(entries := s.entries[..s.index + 1] + [Entry(url, Some(s.position + 1))],
                          dirty := t.dirty, hasDraft := t.hasDraft, pending := Some(Go(1))))
  {
    hide SameEditor;
    hide Refusable;
    hide Undoing;
    hide Run;
    hide ValidRun;
    hide Unsettled;
    RefusablePush(s, base, url);
    UndoingRun(s, base, PushedTo(s, base, url), 1, Push(s, url), events, id);
    Rested(s, PushedTo(s, base, url), 1, Run(Push(s, url), events));
  }

  /** The refusal does come to rest: four browser events after the traversal. */
  lemma RefusalSettles(s: State, base: int, delta: int)
    requires Inv(s, base) && Enabled(s, Traverse(delta)) && Findable(s, delta) && s.dirty != {}
    requires !SameEditor(s.Current(), s.entries[s.index + delta].url)
    ensures var t1 := Step(s, Traverse(delta));
            Enabled(t1, Arrive) &&
            var t2 := Step(t1, Arrive);
            t2.InRange(t2.index) && Enabled(t2, Deliver) &&
            Settles(Step(t2, Deliver), s.(entries := Numbered(s, base, s.index + delta), pending := Some(Go(delta))))
  {
    hide SameEditor;
    var after := Numbered(s, base, s.index + delta);
    RefusableTraversal(s, base, delta);
    var t1 := Step(s, Traverse(delta));
    UndoingStep(s, base, after, delta, t1, Arrive);
    RefusedSettles(s, base, after, delta, Step(t1, Arrive));
  }

  /** And a refused push: three. */
  lemma PushSettles(s: State, base: int, url: Url)
    requires Inv(s, base) && Enabled(s, Visit(url)) && s.dirty != {}
    requires url != s.Current() && !SameEditor(s.Current(), url)
    ensures var t := Step(s, Visit(url));
            t.InRange(t.index) && Enabled(t, Deliver) &&
            Settles(Step(t, Deliver),
                    s.(entries := s.entries[..s.index + 1] + [Entry(url, Some(s.position + 1))], pending := Some(Go(1))))
  {
    hide SameEditor;
    RefusablePush(s, base, url);
    RefusedSettles(s, base, PushedTo(s, base, url), 1, Push(s, url));
  }

  /** On the way back: two browser events from rest in `end`. */
  ghost predicate Settles(t: State, end: State) {
    && t.InRange(t.index) && Enabled(t, Arrive)
    && var t' := Step(t, Arrive);
       t'.InRange(t'.index) && Enabled(t', Deliver) && Step(t', Deliver) == end
  }

  lemma RefusedSettles(s: State, base: int, after: seq<Entry>, delta: int, t: State)
    requires Refusable(s, base, after, delta) && Undoing(s, after, delta, t) && s.flight.Idle? && s.restoring.None?
    requires t.flight.Changed? && t.restoring.None? && s.dirty != {}
    requires t == s.(entries := t.entries, index := t.index, flight := t.flight)
    requires t.InRange(t.index)
    ensures Settles(Step(t, Deliver), s.(entries := after, pending := Some(Go(delta))))
  {
    hide SameEditor;
    UndoingStep(s, base, after, delta, t, Deliver);
    var t3 := Step(t, Deliver);
    UndoingStep(s, base, after, delta, t3, Arrive);
    var t4 := Step(t3, Arrive);
    UndoingStep(s, base, after, delta, t4, Deliver);
  }

  /** After the offer, "Keep editing" changes nothing but the dialog, and "Discard"
      lands on exactly the entry first asked for, shown, with no draft left. */
  lemma OfferAnswered(s: State, base: int, delta: int)
    requires Inv(s, base) && s.flight.Idle? && s.pending == Some(Go(delta))
    requires CanGo(s, delta) && s.InRange(s.index + delta) && Findable(s, delta)
    ensures Step(s, Cancel) == s.(pending := None)
    ensures var t1 := Step(s, Confirm);
            Enabled(t1, Arrive) &&
            var t2 := Step(t1, Arrive);
            t2.InRange(t2.index) && Enabled(t2, Deliver) &&
            Step(t2, Deliver) ==
              s.(entries := Numbered(s, base, s.index + delta), index := s.index + delta,
                 position := s.position + delta, shown := s.entries[s.index + delta].url,
                 dirty := {}, hasDraft := false, pending := None)
  {
    hide SameEditor;
  }

  /** The draft vanishes (saved, or the session ended) while the refused traversal
      is on its way back: there is nothing left to protect, and the traversal is
      replayed at once without a dialog. */
  lemma OfferOvertaken(s: State, base: int)
    requires Inv(s, base) && s.flight.Changed? && s.restoring.Some? && s.dirty == {}
    ensures Step(s, Deliver) == s.(restoring := None, flight := Traversing(s.restoring.value))
    ensures var t := Step(Step(s, Deliver), Arrive);
            t.flight.Changed? && t.InRange(t.index) &&
            Step(t, Deliver).flight.Idle? && Step(t, Deliver).index == s.index + s.restoring.value &&
            Step(t, Deliver).shown == s.entries[s.index + s.restoring.value].url
  {
  }

  /** A click on a link out of the editor touches nothing but the dialog. "Discard"
      then follows the link: the forward entries go, the new one is shown, stamped
      next in line, and no draft is left. */
  lemma ClickAnswered(s: State, base: int, url: Url)
    requires Inv(s, base) && Enabled(s, Follow(url)) && s.dirty != {}
    requires url != s.Current() && url.hash != SKIP_LINK && !SameEditor(s.Current(), url)
    ensures var asked := Step(s, Follow(url));
            && asked == s.(pending := Some(Assign(url)))
            && Step(asked, Cancel) == s.(pending := None)
            && Enabled(asked, Confirm)
            && var t := Step(asked, Confirm);
               && t.InRange(t.index) && Enabled(t, Deliver)
               && Step(t, Deliver) ==
                    s.(entries := s.entries[..s.index + 1] + [Entry(url, Some(s.position + 1))],
                       index := s.index + 1, position := s.position + 1, shown := url,
                       dirty := {}, hasDraft := false, pending := None)
  {
    hide SameEditor;
    var t := Step(Step(s, Follow(url)), Confirm);
    var after := s.entries[..s.index + 1] + [Entry(url, Some(s.position + 1))];
    assert t.entries[t.index := t.entries[t.index].(stamp := Some(s.position + 1))] == after;
  }

  /** Once the session has expired there is no draft and no dialog, and a traversal
      goes through: two browser events later its target is shown. */
  lemma ExpiredPasses(s: State, base: int, delta: int)
    requires Inv(s, base) && s.flight.Idle? && Enabled(Step(s, Expire), Traverse(delta)) && Findable(s, delta)
    ensures var t := Step(s, Expire);
            && t == s.(dirty := {}, hasDraft := false, pending := None)
            && var t1 := Step(t, Traverse(delta));
               && Enabled(t1, Arrive)
               && var t2 := Step(t1, Arrive);
                  && t2.InRange(t2.index) && Enabled(t2, Deliver)
                  && Step(t2, Deliver) == t.(entries := Numbered(s, base, s.index + delta),
                                             index := s.index + delta, position := s.position + delta,
                                             shown := s.entries[s.index + delta].url)
  {
    hide SameEditor;
  }

  // ----- what passes -----

  /** A traversal in one editor, or with no draft, goes through whatever else is held:
      two browser events later its target is shown, and the registry and the dialog
      are as they were. */
  lemma TraversalPasses(s: State, base: int, delta: int)
    requires Inv(s, base) && Enabled(s, Traverse(delta)) && Findable(s, delta)
    requires s.dirty == {} || SameEditor(s.Current(), s.entries[s.index + delta].url)
    ensures var t1 := Step(s, Traverse(delta));
            Enabled(t1, Arrive) &&
            var t2 := Step(t1, Arrive);
            t2.InRange(t2.index) && Enabled(t2, Deliver) &&
            Step(t2, Deliver) ==
              s.(entries := Numbered(s, base, s.index + delta), index := s.index + delta,
                 position := s.position + delta, shown := s.entries[s.index + delta].url)
  {
    hide SameEditor;
  }

  /** And so does a push, by an address, a link or the script. */
  lemma PushPasses(s: State, base: int, url: Url)
    requires Inv(s, base) && s.flight.Idle? && url != s.Current()
    requires s.dirty == {} || SameEditor(s.Current(), url)
    ensures var t := Step(s, Visit(url));
            && (url.hash != SKIP_LINK ==> Step(s, Follow(url)) == t) && Step(s, SetHash(url)) == t
            && t.InRange(t.index) && Enabled(t, Deliver)
            && Step(t, Deliver) ==
                 s.(entries := s.entries[..s.index + 1] + [Entry(url, Some(s.position + 1))],
                    index := s.index + 1, position := s.position + 1, shown := url)
  {
    hide SameEditor;
    var t := Push(s, url);
    assert t.entries[t.index := t.entries[t.index].(stamp := Some(s.position + 1))]
        == s.entries[..s.index + 1] + [Entry(url, Some(s.position + 1))];
  }

  /** Arriving somewhere else is noticed at once: it passes exactly when there is no
      draft or the editor is the same one. */
  lemma PassesIff(s: State, base: int, delta: int)
    requires Inv(s, base) && Enabled(s, Traverse(delta)) && Findable(s, delta)
    ensures var t2 := Step(Step(s, Traverse(delta)), Arrive);
            t2.InRange(t2.index) && Enabled(t2, Deliver) &&
            var t3 := Step(t2, Deliver);
            (t3.flight.Idle? && t3.shown == s.entries[s.index + delta].url)
            <==> s.dirty == {} || SameEditor(s.Current(), s.entries[s.index + delta].url)
  {
    hide SameEditor;
    if s.dirty == {} || SameEditor(s.Current(), s.entries[s.index + delta].url) {
      TraversalPasses(s, base, delta);
    } else {
      RefusalSettles(s, base, delta);
    }
  }

  /** The skip link never asks and never navigates. */
  lemma SkipLinkStays(s: State, url: Url)
    requires s.InRange(s.index) && Enabled(s, Follow(url)) && url.hash == SKIP_LINK
    ensures Step(s, Follow(url)) == s
  {
  }

  // ----- the registry and the screens -----

  /** Registering concerns one form only, and the flag says whether any is dirty. */
  lemma RegisterIs(s: State, id: string, isDirty: bool, other: string)
    requires s.InRange(s.index)
    ensures var t := Step(s, Register(id, isDirty));
            && (other in t.dirty <==> if other == id then isDirty else other in s.dirty)
            && (t.hasDraft <==> exists x :: x in t.dirty)
            && t == s.(dirty := t.dirty, hasDraft := t.hasDraft)
  {
    var t := Step(s, Register(id, isDirty));
    if t.dirty != {} {
      var x :| x in t.dirty;
    }
  }

  /** A screen that asks to leave is let go at once without a draft, and made to ask
      with one; discarding then does what it asked for. */
  lemma LeaveIs(s: State, action: Action)
    requires s.InRange(s.index) && Enabled(s, Leave(action))
    ensures s.dirty == {} && action.Local? ==> Step(s, Leave(action)) == s
    ensures s.dirty == {} && action.Assign? ==> Step(s, Leave(action)) == Step(s, Visit(action.url))
    ensures s.dirty != {} ==>
              var asked := Step(s, Leave(action));
              && asked == s.(pending := Some(action)) && Enabled(asked, Confirm)
              && var free := s.(dirty := {}, hasDraft := false, pending := None);
                 Step(asked, Confirm) == if action.Assign? then Step(free, Visit(action.url)) else free
  {
  }

  /** A finished creation changes its entry's address and the screen, and nothing else. */
  lemma AdoptionIs(s: State, base: int, url: Url)
    requires Inv(s, base) && Enabled(s, ReplaceSaved(url))
    ensures var t := Step(s, ReplaceSaved(url));
            && t.Current() == url && t.shown == url && t.entries[t.index].stamp == s.entries[s.index].stamp
            && |t.entries| == |s.entries| && (forall i :: s.InRange(i) && i != s.index ==> t.entries[i] == s.entries[i])
            && t == s.(entries := t.entries, shown := url)
  {
  }

  // ----- when the undo misses -----

  /** Where the browser rests after a refused traversal, whatever the stamps say. */
  ghost function AfterUndo(s: State, delta: int): State
    requires s.InRange(s.index) && Enabled(s, Traverse(delta))
  {
    var noticed := HashChange(s.(index := s.index + delta), s.Current(), s.entries[s.index + delta].url);
    if noticed.flight.Traversing? then ArriveAt(noticed, noticed.flight.delta) else noticed
  }

  /** The undo finds its way back exactly when the target's stamp, or position + 1
      for an entry without one, is `delta` away from the position. Stamped entries
      always satisfy this; an unstamped one only for a single step forward. */
  lemma UndoneIff(s: State, delta: int)
    requires s.InRange(s.index) && Enabled(s, Traverse(delta)) && s.restoring.None? && s.dirty != {}
    requires !SameEditor(s.Current(), s.entries[s.index + delta].url)
    ensures AfterUndo(s, delta).index == s.index <==>
            match s.entries[s.index + delta].stamp
            case Some(stamp) => stamp == s.position + delta
            case None => delta == 1
  {
    hide SameEditor;
  }

  lemma {:induction false} RunSnoc(s: State, events: seq<Event>, e: Event)
    requires ValidRun(s, events)
    requires var t := Run(s, events); t.InRange(t.index) && Enabled(t, e)
    ensures ValidRun(s, events + [e]) && Run(s, events + [e]) == Step(Run(s, events), e)
    decreases |events|
  {
    if events == [] {
      assert events + [e] == [e] && [e][1..] == [];
      assert ValidRun(Step(s, e), []) && Run(Step(s, e), []) == Step(s, e);
    } else {
      RunSnoc(Step(s, events[0]), events[1..], e);
      assert (events + [e])[1..] == events[1..] + [e];
    }
  }

  /** One more event of a witness run. */
  lemma Take(s: State, events: seq<Event>, e: Event) returns (longer: seq<Event>)
    requires ValidRun(s, events)
    requires var t := Run(s, events); t.InRange(t.index) && Enabled(t, e)
    ensures longer == events + [e] && ValidRun(s, longer) && Run(s, longer) == Step(Run(s, events), e)
  {
    RunSnoc(s, events, e);
    longer := events + [e];
  }

  /** A visit to `b`, a click on its own link, and a visit to `c`. */
  lemma StampLost(a: Url, b: Url, c: Url) returns (events: seq<Event>)
    requires a != b && b != c && b.hash != SKIP_LINK
    ensures ValidRun(Mount([Entry(a, None)], 0), events)
    ensures Run(Mount([Entry(a, None)], 0), events) ==
            State([Entry(a, Some(0)), Entry(b, None), Entry(c, Some(2))], 2, Idle, 2, None, {}, false, None, c)
    ensures forall k :: 0 <= k < |events| ==> !events[k].Confirm? && !events[k].Expire? && !events[k].Register?
  {
    hide SameEditor;
    var s := Mount([Entry(a, None)], 0);
    events := [];
    assert ValidRun(s, events) && Run(s, events) == State([Entry(a, Some(0))], 0, Idle, 0, None, {}, false, None, a);
    hide Run;
    hide ValidRun;
    hide Mount;
    events := Take(s, events, Visit(b));
    events := Take(s, events, Deliver);
    assert Run(s, events).entries == [Entry(a, Some(0)), Entry(b, Some(1))];
    events := Take(s, events, Follow(b));
    assert Run(s, events).entries == [Entry(a, Some(0)), Entry(b, None)];
    events := Take(s, events, Visit(c));
    assert Run(s, events).entries == [Entry(a, Some(0)), Entry(b, None), Entry(c, None)];
    events := Take(s, events, Deliver);
  }

  /** The undo misses on a run from a fresh tab: one step Back from a draft at `c` to
      an entry that a click on its own link has robbed of its stamp. It comes to rest
      two entries away, at `a`, with the draft still on screen. */
  lemma UnstampedEntryMisses(a: Url, b: Url, c: Url, id: string) returns (events: seq<Event>)
    requires a != b && b != c && b.hash != SKIP_LINK && !SameEditor(c, b)
    ensures ValidRun(Mount([Entry(a, None)], 0), events)
    ensures var t := Run(Mount([Entry(a, None)], 0), events);
            t == State([Entry(a, Some(0)), Entry(b, Some(3)), Entry(c, Some(2))], 0, Idle, 2, None,
                       {id}, true, Some(Go(1)), c)
    ensures forall k :: 0 <= k < |events| ==> !Discards(events[k], id)
  {
    hide SameEditor;
    hide Run;
    hide ValidRun;
    hide Mount;
    var s := Mount([Entry(a, None)], 0);
    events := StampLost(a, b, c);
    events := Take(s, events, Register(id, true));
    events := Take(s, events, Traverse(-1));
    events := Take(s, events, Arrive);
    assert Run(s, events) == State([Entry(a, Some(0)), Entry(b, None), Entry(c, Some(2))], 1, Changed(c, b), 2, None,
                                   {id}, true, None, c);
    events := Take(s, events, Deliver);
    MissNoticed(a, b, c, id);
    events := Take(s, events, Arrive);
    events := Take(s, events, Deliver);
  }

  /** The missing stamp is taken for 3, one after the position, and the guard goes
      one step back from it. */
  lemma MissNoticed(a: Url, b: Url, c: Url, id: string)
    requires b != c && !SameEditor(c, b)
    ensures HashChange(State([Entry(a, Some(0)), Entry(b, None), Entry(c, Some(2))], 1, Changed(c, b), 2, None,
                             {id}, true, None, c), c, b) ==
            State([Entry(a, Some(0)), Entry(b, Some(3)), Entry(c, Some(2))], 1, Traversing(-1), 2, Some(1),
                  {id}, true, None, c)
  {
    hide SameEditor;
  }

  /** And then the draft's screen can be left without a question: from the entry the
      miss ended at, a change of tab there is let through. */
  lemma MissLosesDraft(a: Url, b: Url, c: Url, d: Url, id: string) returns (events: seq<Event>)
    requires a != b && b != c && b.hash != SKIP_LINK && !SameEditor(c, b) && a != d
    ensures ValidRun(Mount([Entry(a, None)], 0), events)
    ensures var t := Run(Mount([Entry(a, None)], 0), events);
            id in t.dirty && (SameEditor(a, d) ==> t.flight.Idle? && t.shown == d)
    ensures forall k :: 0 <= k < |events| ==> !Discards(events[k], id)
  {
    hide SameEditor;
    hide Run;
    hide ValidRun;
    hide Mount;
    var s := Mount([Entry(a, None)], 0);
    events := UnstampedEntryMisses(a, b, c, id);
    events := Take(s, events, Cancel);
    events := Take(s, events, Visit(d));
    events := Take(s, events, Deliver);
  }

  // ----- the handlers, in place -----

  /** The guard component with the window it listens to. Each handler is `Step`
      for its event, so the run properties above are about this object. */
  class Guard {
    var entries: seq<Entry>
    var index: nat
    var flight: Flight
    var position: int
    var restoring: Option<int>
    var dirty: set<string>
    var hasDraft: bool
    var pending: Option<Action>
    var shown: Url

    function View(): State
      reads this
    {
      State(entries, index, flight, position, restoring, dirty, hasDraft, pending, shown)
    }

    ghost predicate Valid()
      reads this
    {
      index < |entries|
    }

    constructor (history: seq<Entry>, at: nat)
      requires at < |history|
      ensures Valid() && View() == Mount(history, at)
    {
      var stamp := history[at].stamp;
      position := if stamp.Some? then stamp.value else 0;
      entries := history;
      index, flight, restoring := at, Idle, None;
      dirty, hasDraft, pending := {}, false, None;
      shown := history[at].url;
      new;
      ReplaceStamp(position);
    }

    /** `history.replaceState` with a new `draftPosition`. */
    method ReplaceStamp(stamp: int)
      requires Valid()
      modifies this`entries
      ensures Valid() && View() == Stamped(old(View()), stamp)
    {
      entries := entries[index := entries[index].(stamp := Some(stamp))];
    }

    /** `location.assign`. */
    method Navigate(url: Url)
      requires Valid()
      modifies this`entries, this`index, this`flight
      ensures Valid() && View() == Push(old(View()), url)
    {
      if url == entries[index].url {
        entries := entries[index := entries[index].(stamp := None)];
        return;
      }
      flight := Changed(entries[index].url, url);
      entries := entries[..index + 1] + [Entry(url, None)];
      index := index + 1;
    }

    /** Setting `location.hash`. */
    method SetFragment(url: Url)
      requires Valid()
      modifies this`entries, this`index, this`flight
      ensures Valid() && View() == Hashed(old(View()), url)
    {
      if url != entries[index].url { Navigate(url); }
    }

    method Run(action: Action)
      requires Valid()
      modifies this`entries, this`index, this`flight
      ensures Valid() && View() == Perform(old(View()), action)
    {
      match action {
        case Assign(url) => Navigate(url);
        case Go(delta) => flight := Traversing(delta);
        case Local =>
      }
    }

    method SetRegistry(id: string, value: bool)
      requires Valid()
      modifies this`dirty, this`hasDraft
      ensures Valid() && View() == Step(old(View()), Register(id, value))
    {
      if value { dirty := dirty + {id}; } else { dirty := dirty - {id}; }
      hasDraft := |dirty| > 0;
    }

    method RequestLeave(action: Action)
      requires Valid()
      modifies this`entries, this`index, this`flight, this`pending
      ensures Valid() && View() == LeaveWith(old(View()), action)
    {
      if |dirty| == 0 { Run(action); } else { pending := Some(action); }
    }

    method Click(url: Url)
      requires Valid() && Enabled(View(), Follow(url))
      modifies this`entries, this`index, this`flight, this`pending
      ensures Valid() && View() == Step(old(View()), Follow(url))
    {
      if url.hash == SKIP_LINK {
        return;
      }
      if |dirty| == 0 || url == entries[index].url || SameEditor(entries[index].url, url) {
        Navigate(url);
      } else {
        RequestLeave(Assign(url));
      }
    }

    method Expired()
      requires Valid()
      modifies this`dirty, this`hasDraft, this`pending
      ensures Valid() && View() == Step(old(View()), Expire)
    {
      dirty, hasDraft, pending := {}, false, None;
    }

    method Discard()
      requires Valid() && Enabled(View(), Confirm)
      modifies this
      ensures Valid() && View() == Step(old(View()), Confirm)
    {
      var action := pending.value;
      dirty, hasDraft, pending := {}, false, None;
      Run(action);
    }

    method KeepEditing()
      requires Valid() && Enabled(View(), Cancel)
      modifies this`pending
      ensures Valid() && View() == Step(old(View()), Cancel)
    {
      pending := None;
    }

    /** The `hashchange` listener, then the application's unless it was stopped. */
    method OnHashChange()
      requires Valid() && Enabled(View(), Deliver)
      modifies this
      ensures Valid() && View() == Step(old(View()), Deliver)
    {
      hide SameEditor;
      var oldUrl, newUrl := flight.oldUrl, flight.newUrl;
      flight := Idle;
      if oldUrl == newUrl {
        shown := entries[index].url;
        return;
      }
      if restoring.Some? {
        var offer := restoring.value;
        restoring := None;
        RequestLeave(Go(offer));
        return;
      }
      var stamp := entries[index].stamp;
      var target := if stamp.Some? then stamp.value else position + 1;
      ReplaceStamp(target);
      if |dirty| == 0 || SameEditor(oldUrl, newUrl) {
        position := target;
        shown := entries[index].url;
        return;
      }
      var delta := target - position;
      if delta == 0 {
        return;
      }
      restoring := Some(delta);
      Run(Go(-delta));
    }

    method Arrived()
      requires Valid() && Enabled(View(), Arrive)
      modifies this`index, this`flight
      ensures Valid() && View() == Step(old(View()), Arrive)
    {
      var target := index + flight.delta;
      if target < 0 || target >= |entries| {
        flight := Idle;
      } else {
        flight := if entries[target].url == entries[index].url then Idle
                  else Changed(entries[index].url, entries[target].url);
        index := target;
      }
    }
  }
}
