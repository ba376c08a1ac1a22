/** The audit trail's generation-fenced pager. Answers arrive in any order, and
    "load more" runs in a handler closed over the last committed render. The effect of
    a committed render runs some time after it, but before the next render. */
module AuditPager {
  import opened Texts

  /** `queryOf` and the server are abstract: a filter selects a trail of rows, and a
      cursor is a position in it. */
  type Trails<!F, R> = F -> seq<R>

  datatype Page<+R> = Page(items: seq<R>, next: Option<nat>)

  datatype Load<+R> = Loading | Ready(rows: seq<R>, next: Option<nat>) | Failed

  /** A call in flight, with what its continuation captured. */
  datatype Request<+F, +R> = Request(generation: nat, filters: F, from: nat, more: bool, rows: seq<R>)

  /** What the handlers of a committed render see, and the filters of the refresh
      that its rows come from. */
  datatype Screen<+F, +R> = Screen(applied: F, load: Load<R>, more: bool, query: F)

  datatype State<+F, +R> = State(
    applied: F, load: Load<R>, more: bool,      // component state
    generation: nat,                            // requestGeneration
    screen: Screen<F, R>, due: bool,            // the committed render, and whether its effect is due
    stale: bool,                                // filters were applied since
    requests: seq<Request<F, R>>,
    query: F)                                   // the filters of the latest refresh

  datatype Event<+F, +R> =
    | Apply(filters: F)                         // setApplied
    | Commit                                    // React commits a render
    | Effect                                    // the due effect on `applied` runs
    | Retry                                     // refresh(applied) from the screen
    | LoadMore
    | Answer(i: nat, page: Page<R>)
    | Refuse(i: nat)

  // ----- the handlers -----

  function Initial<F, R>(filters: F): State<F, R> {
    State(filters, Loading, false, 0, Screen(filters, Loading, false, filters), true, false, [], filters)
  }

  function Refresh<F, R>(s: State<F, R>, filters: F): State<F, R> {
    s.(generation := s.generation + 1, more := false, load := Loading, query := filters,
       requests := s.requests + [Request(s.generation + 1, filters, 0, false, [])])
  }

  /** The due effect, which React runs before it renders what an update asks for. */
  function Flushed<F, R>(s: State<F, R>): State<F, R> {
    if s.due then Refresh(s, s.screen.applied).(due := false) else s
  }

  /** The press asks for a page: there is a next one, and none is being loaded. */
  predicate Live<F, R>(s: State<F, R>) {
    !s.screen.more && s.screen.load.Ready? && s.screen.load.next.Some?
  }

  predicate Enabled<F, R>(s: State<F, R>, e: Event<F, R>) {
    match e
    case Commit => !s.due
    case Effect => s.due
    case Answer(i, _) => i < |s.requests|
    case Refuse(i) => i < |s.requests|
    case _ => true
  }

  function Step<F(==), R>(s: State<F, R>, e: Event<F, R>): State<F, R>
    requires Enabled(s, e)
  {
    match e
    case Apply(filters) => s.(applied := filters, stale := true)
    case Commit => s.(screen := Screen(s.applied, s.load, s.more, s.query), due := s.stale, stale := false)
    case Effect => Flushed(s)
    case Retry => Refresh(s, s.screen.applied)
    case LoadMore =>
      if !Live(s) then s
      else
        Flushed(s.(more := true,
                   requests := s.requests + [Request(s.generation, s.screen.applied, s.screen.load.next.value,
                                                     true, s.screen.load.rows)]))
    case Answer(i, page) =>
      var r := s.requests[i];
      var t := s.(requests := Without(s.requests, i));
      if r.generation != s.generation then t
      else t.(load := Ready(r.rows + page.items, page.next), more := if r.more then false else t.more)
    case Refuse(i) =>
      var r := s.requests[i];
      var t := s.(requests := Without(s.requests, i));
      if r.generation != s.generation then t
      else t.(load := Failed, more := if r.more then false else t.more)
  }

  // ----- the server -----

  /** A page of a trail from a position: what lies there, and a cursor where it
      stops, which only the end may do without. */
  ghost predicate PageOf<R>(trail: seq<R>, from: nat, page: Page<R>) {
    && from + |page.items| <= |trail| && page.items == trail[from..from + |page.items|]
    && (page.next == Some(from + |page.items|) || (page.next.None? && from + |page.items| == |trail|))
  }

  ghost predicate Honest<F, R>(s: State<F, R>, e: Event<F, R>, trails: Trails<F, R>)
    requires Enabled(s, e)
  {
    e.Answer? ==> PageOf(trails(s.requests[e.i].filters), s.requests[e.i].from, e.page)
  }

  // ----- the law -----

  /** Rows and cursor are a contiguous prefix of a trail and where it ends; without a
      cursor it is the whole trail. */
  ghost predicate Prefix<R>(trail: seq<R>, load: Load<R>) {
    load.Ready? ==>
      && |load.rows| <= |trail| && load.rows == trail[..|load.rows|]
      && (load.next == Some(|load.rows|) || (load.next.None? && |load.rows| == |trail|))
  }

  ghost predicate Sound<F, R>(r: Request<F, R>, query: F, trails: Trails<F, R>) {
    && r.filters == query && r.from == |r.rows|
    && r.from <= |trails(query)| && r.rows == trails(query)[..r.from]
  }

  ghost predicate Inv<F, R>(s: State<F, R>, trails: Trails<F, R>) {
    && Prefix(trails(s.query), s.load) && Prefix(trails(s.screen.query), s.screen.load)
    && (!s.due ==> s.screen.applied == s.query) && (!s.stale ==> s.applied == s.screen.applied)
    && (forall i :: 0 <= i < |s.requests| ==> s.requests[i].generation <= s.generation)
    && (forall i :: 0 <= i < |s.requests| && s.requests[i].generation == s.generation
          ==> Sound(s.requests[i], s.query, trails))
  }

  /** The render's rows are those of the latest refresh, or its effect is still due. */
  predicate UpToDate<F(==), R>(s: State<F, R>) {
    s.due || s.screen.query == s.query
  }

  lemma AnswerKeeps<F, R>(s: State<F, R>, i: nat, page: Page<R>, trails: Trails<F, R>)
    requires Inv(s, trails) && i < |s.requests|
    requires PageOf(trails(s.requests[i].filters), s.requests[i].from, page)
    ensures Inv(Step(s, Answer(i, page)), trails)
  {
    var r, trail := s.requests[i], trails(s.query);
    if r.generation == s.generation {
      assert Sound(r, s.query, trails);
      var end := r.from + |page.items|;
      assert trail[..r.from] + trail[r.from..end] == trail[..end];
    }
  }

  lemma MoreKeeps<F, R>(s: State<F, R>, trails: Trails<F, R>)
    requires Inv(s, trails) && (Live(s) ==> UpToDate(s))
    ensures Inv(Step(s, LoadMore), trails)
  {
  }

  lemma FirstSound<F, R>(filters: F, generation: nat, trails: Trails<F, R>)
    ensures Sound(Request(generation, filters, 0, false, []), filters, trails)
    ensures Prefix(trails(filters), Loading) && Prefix(trails(filters), Failed)
  {
  }

  lemma StepKeeps<F, R>(s: State<F, R>, e: Event<F, R>, trails: Trails<F, R>)
    requires Inv(s, trails) && Enabled(s, e) && Honest(s, e, trails)
    requires e.LoadMore? && Live(s) ==> UpToDate(s)
    ensures Inv(Step(s, e), trails)
  {
    hide Prefix;
    match e {
      case Answer(i, page) => AnswerKeeps(s, i, page, trails);
      case LoadMore => MoreKeeps(s, trails);
      case Effect => FirstSound(s.screen.applied, s.generation + 1, trails);
      case Retry => FirstSound(s.screen.applied, s.generation + 1, trails);
      case Refuse(_) => FirstSound(s.query, s.generation, trails);
      case _ =>
    }
  }

  /** What is shown as busy is waited for: a spinner has a first page on its way or a
      refresh due, and a disabled button a next page on its way. */
  ghost predicate NotStuck<F, R>(s: State<F, R>) {
    && (s.load.Loading? ==> s.due || Awaited(s.requests, s.generation, false))
    && (s.more ==> Awaited(s.requests, s.generation, true))
  }

  ghost predicate Awaited<F, R>(requests: seq<Request<F, R>>, generation: nat, more: bool) {
    exists i :: 0 <= i < |requests| && requests[i].generation == generation && requests[i].more == more
  }

  lemma AwaitedStill<F, R>(requests: seq<Request<F, R>>, generation: nat, more: bool, i: nat)
    requires i < |requests| && Awaited(requests, generation, more)
    requires requests[i].generation != generation || requests[i].more != more
    ensures Awaited(Without(requests, i), generation, more)
  {
    var j :| 0 <= j < |requests| && requests[j].generation == generation && requests[j].more == more;
    assert Without(requests, i)[if j < i then j else j - 1] == requests[j];
  }

  lemma AwaitedMore<F, R>(requests: seq<Request<F, R>>, r: Request<F, R>, generation: nat, more: bool)
    ensures Awaited(requests, generation, more) ==> Awaited(requests + [r], generation, more)
    ensures Awaited(requests + [r], r.generation, r.more)
  {
    if Awaited(requests, generation, more) {
      var j :| 0 <= j < |requests| && requests[j].generation == generation && requests[j].more == more;
      assert (requests + [r])[j] == requests[j];
    }
    assert (requests + [r])[|requests|] == r;
  }

  /** No step of any kind, a refused call or a press on an old render included, leaves
      the screen waiting for nothing. */
  lemma StepNotStuck<F, R>(s: State<F, R>, e: Event<F, R>)
    requires NotStuck(s) && Enabled(s, e)
    ensures NotStuck(Step(s, e))
  {
    var t := Step(s, e);
    match e {
      case Answer(i, _) => RemovedNotStuck(s, i);
      case Refuse(i) => RemovedNotStuck(s, i);
      case Effect => AwaitedMore(s.requests, t.requests[|s.requests|], s.generation, true);
      case Retry => AwaitedMore(s.requests, t.requests[|s.requests|], s.generation, true);
      case LoadMore =>
        if Live(s) {
          var pressed := s.requests + [t.requests[|s.requests|]];
          AwaitedMore(s.requests, t.requests[|s.requests|], s.generation, false);
          if s.due { AwaitedMore(pressed, t.requests[|pressed|], s.generation, false); }
        }
      case _ =>
    }
  }

  lemma RemovedNotStuck<F, R>(s: State<F, R>, i: nat)
    requires NotStuck(s) && i < |s.requests|
    ensures var r, rest := s.requests[i], Without(s.requests, i);
            && (r.generation != s.generation ==> NotStuck(s.(requests := rest)))
            && (r.generation == s.generation && !r.more && s.more ==> Awaited(rest, s.generation, true))
  {
    var r := s.requests[i];
    if r.generation != s.generation || !r.more {
      if s.more { AwaitedStill(s.requests, s.generation, true, i); }
    }
    if r.generation != s.generation && s.load.Loading? && !s.due {
      AwaitedStill(s.requests, s.generation, false, i);
    }
  }

  ghost predicate ValidRun<F, R>(s: State<F, R>, events: seq<Event<F, R>>, trails: Trails<F, R>)
    decreases |events|
  {
    events != [] ==>
      && Enabled(s, events[0]) && Honest(s, events[0], trails) && (events[0].LoadMore? && Live(s) ==> UpToDate(s))
      && ValidRun(Step(s, events[0]), events[1..], trails)
  }

  ghost function Run<F, R>(s: State<F, R>, events: seq<Event<F, R>>, trails: Trails<F, R>): State<F, R>
    requires ValidRun(s, events, trails)
    decreases |events|
  {
    if events == [] then s else Run(Step(s, events[0]), events[1..], trails)
  }

  lemma {:induction false} RunKeeps<F, R>(s: State<F, R>, events: seq<Event<F, R>>, trails: Trails<F, R>)
    requires Inv(s, trails) && NotStuck(s) && ValidRun(s, events, trails)
    ensures Inv(Run(s, events, trails), trails) && NotStuck(Run(s, events, trails))
    decreases |events|
  {
    if events != [] {
      StepKeeps(s, events[0], trails);
      StepNotStuck(s, events[0]);
      RunKeeps(Step(s, events[0]), events[1..], trails);
    }
  }

  /** For any arrival order, late and duplicate answers included, the rows shown and
      their cursor are a contiguous prefix of one trail: the latest refresh's, which
      is the applied filters' once no refresh is due. And it never waits for nothing. */
  lemma ShowsOnePrefix<F, R>(filters: F, events: seq<Event<F, R>>, trails: Trails<F, R>)
    requires ValidRun(Initial(filters), events, trails)
    ensures var s := Run(Initial(filters), events, trails);
            && Prefix(trails(s.query), s.load)
            && (!s.due && !s.stale ==> Prefix(trails(s.applied), s.load))
            && NotStuck(s)
  {
    RunKeeps(Initial(filters), events, trails);
  }

  // ----- presses on an older render -----

  ghost predicate Reached<F(!new), R(!new)>(s: State<F, R>, trails: Trails<F, R>) {
    exists filters: F, events: seq<Event<F, R>> ::
      ValidRun(Initial(filters), events, trails) && Run(Initial(filters), events, trails) == s
  }

  lemma {:induction false} RunSnoc<F, R>(s: State<F, R>, events: seq<Event<F, R>>, e: Event<F, R>, trails: Trails<F, R>)
    requires ValidRun(s, events, trails) && ValidRun(Run(s, events, trails), [e], trails)
    ensures ValidRun(s, events + [e], trails)
    ensures Run(s, events + [e], trails) == Step(Run(s, events, trails), e)
    decreases |events|
  {
    if events == [] {
      assert events + [e] == [e];
      assert Run(Step(s, e), [], trails) == Step(s, e);
    } else {
      RunSnoc(Step(s, events[0]), events[1..], e, trails);
      assert (events + [e])[1..] == events[1..] + [e];
    }
  }

  lemma ReachedStep<F(!new), R(!new)>(s: State<F, R>, e: Event<F, R>, trails: Trails<F, R>)
    requires Reached(s, trails) && Enabled(s, e) && Honest(s, e, trails) && (e.LoadMore? && Live(s) ==> UpToDate(s))
    ensures Reached(Step(s, e), trails)
  {
    var filters: F, events: seq<Event<F, R>> :|
      ValidRun(Initial(filters), events, trails) && Run(Initial(filters), events, trails) == s;
    assert [e][1..] == [];
    RunSnoc(Initial(filters), events, e, trails);
    assert Run(Initial(filters), events + [e], trails) == Step(s, e);
  }

  lemma ReachedInitial<F(!new), R(!new)>(filters: F, trails: Trails<F, R>)
    ensures Reached(Initial(filters), trails)
  {
    assert ValidRun(Initial(filters), [], trails);
    assert Run(Initial(filters), [], trails) == Initial(filters);
  }

  /** The press, and the answer to it. */
  function Pressed<F(==), R>(s: State<F, R>, page: Page<R>): State<F, R>
    requires Live(s)
  {
    Step(Step(s, LoadMore), Answer(|s.requests|, page))
  }

  /** A page the server may answer the press with. */
  ghost predicate Answers<F, R>(s: State<F, R>, trails: Trails<F, R>, page: Page<R>)
    requires Live(s)
  {
    PageOf(trails(s.screen.applied), s.screen.load.next.value, page)
  }

  // ----- what is loaded is shown -----

  /** A press appends its page to the rows of the render it was made on, and changes
      nothing else once it is answered; with the effect due it changes nothing at all. */
  lemma PressShows<F, R>(s: State<F, R>, page: Page<R>)
    requires Live(s)
    ensures !s.due ==>
              && Step(s, LoadMore).more && Step(s, LoadMore).load == s.load
              && Pressed(s, page) ==
                   s.(load := Ready(s.screen.load.rows + page.items, page.next), more := false)
    ensures s.due ==> Pressed(s, page) == Step(s, Effect)
  {
    var t := Step(s, LoadMore);
    var r := t.requests[|s.requests|];
    assert Without(s.requests + [r], |s.requests|) == s.requests;
    if s.due {
      var first := t.requests[|s.requests| + 1];
      assert t.requests == s.requests + [r, first];
      assert Without(t.requests, |s.requests|) == s.requests + [first];
    }
  }

  /** A refresh shows a spinner, and then its first page or the failure, by itself. */
  lemma RefreshShows<F, R>(s: State<F, R>, page: Page<R>)
    requires s.due
    ensures var t := Step(s, Effect);
            && t.load.Loading? && t.requests[|s.requests|].filters == s.screen.applied == t.query
            && var done := s.(generation := s.generation + 1, more := false, query := s.screen.applied, due := false);
               && Step(t, Answer(|s.requests|, page)) == done.(load := Ready(page.items, page.next))
               && Step(t, Refuse(|s.requests|)) == done.(load := Failed)
  {
    var t := Step(s, Effect);
    assert Without(t.requests, |s.requests|) == s.requests;
    assert [] + page.items == page.items;
  }

  /** "Try again" does the same with the filters on screen. */
  lemma RetryShows<F, R>(s: State<F, R>, page: Page<R>)
    ensures Step(s, Retry) == Step(s.(due := true), Effect).(due := s.due)
  {
  }

  /** An answer or a failure from before the latest refresh is not noticed. */
  lemma LateIsDropped<F, R>(s: State<F, R>, i: nat, page: Page<R>)
    requires i < |s.requests| && s.requests[i].generation != s.generation
    ensures Step(s, Answer(i, page)) == Step(s, Refuse(i)) == s.(requests := Without(s.requests, i))
  {
  }

  /** Pages that continue a trail from a position, each but the last with a cursor. */
  ghost predicate PagesFrom<R>(trail: seq<R>, from: nat, pages: seq<Page<R>>)
    decreases |pages|
  {
    pages != [] ==>
      && PageOf(trail, from, pages[0]) && (|pages| > 1 ==> pages[0].next.Some?)
      && PagesFrom(trail, from + |pages[0].items|, pages[1..])
  }

  function Items<R>(pages: seq<Page<R>>): seq<R> {
    if pages == [] then [] else pages[0].items + Items(pages[1..])
  }

  /** Committing, pressing and being answered, once for each page. */
  function Presses<F, R>(n: nat, pages: seq<Page<R>>): seq<Event<F, R>> {
    if pages == [] then [] else [Commit, LoadMore, Answer(n, pages[0])] + Presses(n, pages[1..])
  }

  /** One round: the render is committed, the button pressed, the page answered. */
  lemma OneRound<F, R>(s: State<F, R>, page: Page<R>, rest: seq<Event<F, R>>, trails: Trails<F, R>) returns (t: State<F, R>)
    requires s.load.Ready? && s.load.next == Some(|s.load.rows|) && !s.more && !s.due && !s.stale
    requires s.applied == s.query && PageOf(trails(s.query), |s.load.rows|, page)
    ensures t.load == Ready(s.load.rows + page.items, page.next)
    ensures t == s.(load := t.load, screen := t.screen)
    ensures ValidRun(t, rest, trails) ==>
              var events := [Commit, LoadMore, Answer(|s.requests|, page)] + rest;
              ValidRun(s, events, trails) && Run(s, events, trails) == Run(t, rest, trails)
  {
    var s1 := Step(s, Commit);
    var s2 := Step(s1, LoadMore);
    PressShows(s1, page);
    t := Pressed(s1, page);
    var e3 := [Answer(|s.requests|, page)] + rest;
    var e2 := [LoadMore] + e3;
    var events := [Commit, LoadMore, Answer(|s.requests|, page)] + rest;
    assert events[1..] == e2 && e2[1..] == e3 && e3[1..] == rest;
    if ValidRun(t, rest, trails) {
      assert ValidRun(s2, e3, trails) && Run(s2, e3, trails) == Run(t, rest, trails);
      assert ValidRun(s1, e2, trails) && Run(s1, e2, trails) == Run(s2, e3, trails);
    }
  }

  lemma NoEvents<F, R>(s: State<F, R>, trails: Trails<F, R>)
    ensures ValidRun(s, [], trails) && Run(s, [], trails) == s
  {
  }

  lemma {:induction false} PressesShow<F, R>(s: State<F, R>, pages: seq<Page<R>>, trails: Trails<F, R>)
    requires s.load.Ready? && !s.more && !s.due && !s.stale && s.applied == s.query
    requires pages != [] ==> s.load.next == Some(|s.load.rows|)
    requires PagesFrom(trails(s.query), |s.load.rows|, pages)
    ensures ValidRun(s, Presses(|s.requests|, pages), trails)
    ensures var t := Run(s, Presses(|s.requests|, pages), trails);
            && t.query == s.query
            && t.load == Ready(s.load.rows + Items(pages),
                               if pages == [] then s.load.next else pages[|pages| - 1].next)
    decreases |pages|
  {
    hide ValidRun;
    hide Run;
    hide Step;
    hide PageOf;
    hide PagesFrom;
    hide Presses;
    hide Items;
    var n := |s.requests|;
    if pages == [] {
      NoEvents(s, trails);
      NoPages<F, R>(n);
      assert s.load.rows + [] == s.load.rows;
    } else {
      var page, rest := pages[0], pages[1..];
      PagesStep(trails(s.query), |s.load.rows|, pages);
      PressesStep<F, R>(n, pages);
      var t := OneRound(s, page, Presses(n, rest), trails);
      PressesShow(t, rest, trails);
      assert s.load.rows + (page.items + Items(rest)) == t.load.rows + Items(rest);
      assert rest != [] ==> rest[|rest| - 1] == pages[|pages| - 1];
    }
  }

  lemma NoPages<F, R>(n: nat)
    ensures Presses<F, R>(n, []) == [] && Items<R>([]) == []
  {
  }

  lemma PressesStep<F, R>(n: nat, pages: seq<Page<R>>)
    requires pages != []
    ensures Presses<F, R>(n, pages) == [Commit, LoadMore, Answer(n, pages[0])] + Presses<F, R>(n, pages[1..])
    ensures Items(pages) == pages[0].items + Items(pages[1..])
  {
  }

  lemma PagesStep<R>(trail: seq<R>, from: nat, pages: seq<Page<R>>)
    requires pages != [] && PagesFrom(trail, from, pages)
    ensures PageOf(trail, from, pages[0]) && PagesFrom(trail, from + |pages[0].items|, pages[1..])
    ensures |pages| > 1 ==> pages[0].next == Some(from + |pages[0].items|)
  {
  }

  /** Pressing up to a page without a cursor shows the whole trail. */
  lemma {:induction false} LoadsAll<F, R>(filters: F, pages: seq<Page<R>>, trails: Trails<F, R>)
    requires pages != [] && PagesFrom(trails(filters), 0, pages) && pages[|pages| - 1].next.None?
    ensures var events := [Effect, Answer(0, pages[0])] + Presses(0, pages[1..]);
            ValidRun(Initial(filters), events, trails) &&
            Run(Initial(filters), events, trails).load == Ready(trails(filters), None)
  {
    var s := Initial<F, R>(filters);
    var rest := pages[1..];
    var e1 := [Answer(0, pages[0])] + Presses<F, R>(0, rest);
    var events := [Effect, Answer(0, pages[0])] + Presses<F, R>(0, rest);
    assert events[1..] == e1 && e1[1..] == Presses<F, R>(0, rest);
    var s1 := Step(s, Effect);
    RefreshShows(s, pages[0]);
    var s2 := Step(s1, Answer(0, pages[0]));
    PressesShow(s2, rest, trails);
    assert ValidRun(s1, e1, trails) && Run(s1, e1, trails) == Run(s2, Presses(0, rest), trails);
    assert ValidRun(s, events, trails) && Run(s, events, trails) == Run(s1, e1, trails);
    ShowsOnePrefix(filters, events, trails);
    var t := Run(s, events, trails);
    assert t.load.next.None? by { if rest != [] { assert rest[|rest| - 1] == pages[|pages| - 1]; } }
    assert trails(filters)[..|trails(filters)|] == trails(filters);
  }

  /** Whatever the server holds and answers: after a refresh with this query, a press on
      a render with rows from that one, its effect due or not, leaves a prefix on
      screen. It is the first press of its run that may not. */
  ghost predicate Harmless<F(!new), R(!new)>(query: F, shown: F, due: bool) {
    forall s: State<F, R>, trails: Trails<F, R>, page: Page<R> ::
      (&& Reached(s, trails) && Live(s) && Answers(s, trails, page)
       && s.query == query && s.screen.query == shown && s.due == due)
      ==> var t := Pressed(s, page); Prefix(trails(t.query), t.load)
  }

  /** Such a press keeps the invariant, and shows a prefix after any honest answer. */
  lemma PressKeeps<F, R>(s: State<F, R>, page: Page<R>, trails: Trails<F, R>)
    requires Inv(s, trails) && Live(s) && UpToDate(s) && Answers(s, trails, page)
    ensures Inv(Step(s, LoadMore), trails)
    ensures Prefix(trails(Pressed(s, page).query), Pressed(s, page).load)
  {
    StepKeeps(s, LoadMore, trails);
    AnswerKeeps(Step(s, LoadMore), |s.requests|, page, trails);
  }

  /** Old rows: filters are applied, committed and refreshed, and the press comes
      before the next commit, with the refresh still on its way. It passes the
      fence, and the answer is appended to rows of the other trail. */
  lemma StaleRows<F(!new), R(!new)>(query: F, shown: F, a: R, b: R)
    returns (s: State<F, R>, trails: Trails<F, R>, page: Page<R>)
    requires a != b && shown != query
    ensures Reached(s, trails) && Live(s) && Answers(s, trails, page)
    ensures s.query == s.screen.applied == query && s.screen.query == shown && !s.due
    ensures Awaited(s.requests, s.generation, false)
    ensures Pressed(s, page).query == query && !Prefix(trails(query), Pressed(s, page).load)
  {
    hide Reached;
    trails := f => if f == shown then [a, b] else [b, b];
    page := Page([b], None);
    s := Initial(shown);
    ReachedInitial(shown, trails);
    s := Take(s, Effect, trails);
    s := Take(s, Answer(0, Page([a], Some(1))), trails);
    s := Take(s, Commit, trails);
    s := Take(s, Apply(query), trails);
    s := Take(s, Commit, trails);
    assert s.requests == [] && s.generation == 1;
    assert s.load == Ready([a], Some(1));
    s := Take(s, Effect, trails);
    assert s.requests[0] == Request(2, query, 0, false, []);
    assert Pressed(s, page).load.rows[0] == a && [b, b][..2][0] == b;
  }

  /** One more event of a witness run. */
  lemma Take<F(!new), R(!new)>(s: State<F, R>, e: Event<F, R>, trails: Trails<F, R>) returns (t: State<F, R>)
    requires Reached(s, trails) && Enabled(s, e) && Honest(s, e, trails) && !e.LoadMore?
    ensures t == Step(s, e) && Reached(t, trails)
  {
    ReachedStep(s, e, trails);
    t := Step(s, e);
  }

  /** Exactly when a press is harmless: when the render's rows are the latest
      refresh's, or its effect is still due, which then fences the answer out. */
  lemma PressIff<F(!new), R(!new)>(query: F, shown: F, due: bool, a: R, b: R)
    requires a != b
    ensures Harmless<F, R>(query, shown, due) <==> due || shown == query
  {
    if due || shown == query {
      forall s: State<F, R>, trails: Trails<F, R>, page: Page<R> |
        Reached(s, trails) && Live(s) && Answers(s, trails, page)
        && s.query == query && s.screen.query == shown && s.due == due
        ensures var t := Pressed(s, page); Prefix(trails(t.query), t.load)
      {
        ReachedKeeps(s, trails);
        PressKeeps(s, page, trails);
      }
    } else {
      var s, trails, page := StaleRows(query, shown, a, b);
      assert !Prefix(trails(Pressed(s, page).query), Pressed(s, page).load);
    }
  }

  lemma ReachedKeeps<F(!new), R(!new)>(s: State<F, R>, trails: Trails<F, R>)
    requires Reached(s, trails)
    ensures Inv(s, trails) && NotStuck(s)
  {
    var filters: F, events: seq<Event<F, R>> :|
      ValidRun(Initial(filters), events, trails) && Run(Initial(filters), events, trails) == s;
    RunKeeps(Initial(filters), events, trails);
  }

  /** However wrong the rows are, the next refresh to be committed ends it: the
      fence drops every answer from before. */
  lemma RefreshRestores<F, R>(s: State<F, R>, trails: Trails<F, R>)
    requires s.due && (s.stale || s.applied == s.screen.applied)
    requires forall i :: 0 <= i < |s.requests| ==> s.requests[i].generation <= s.generation
    ensures Inv(Step(Step(s, Effect), Commit), trails)
  {
  }

  // ----- the component, in place -----

  /** The explorer: each callback is `Step` for its event. */
  class Explorer<F(==), R> {
    var applied: F
    var load: Load<R>
    var more: bool
    var generation: nat
    var screen: Screen<F, R>
    var due: bool
    var stale: bool
    var requests: seq<Request<F, R>>
    var query: F

    function View(): State<F, R>
      reads this
    {
      State(applied, load, more, generation, screen, due, stale, requests, query)
    }

    constructor (filters: F)
      ensures View() == Initial(filters)
    {
      applied, load, more, generation := filters, Loading, false, 0;
      screen, due, stale := Screen(filters, Loading, false, filters), true, false;
      requests, query := [], filters;
    }

    method SetApplied(filters: F)
      modifies this
      ensures View() == Step(old(View()), Apply(filters))
    {
      applied, stale := filters, true;
    }

    method Render()
      requires Enabled(View(), Commit)
      modifies this
      ensures View() == Step(old(View()), Commit)
    {
      screen, due, stale := Screen(applied, load, more, query), stale, false;
    }

    method RefreshWith(filters: F)
      modifies this
      ensures View() == Refresh(old(View()), filters)
    {
      generation := generation + 1;
      more, load, query := false, Loading, filters;
      requests := requests + [Request(generation, filters, 0, false, [])];
    }

    method RunEffect()
      requires Enabled(View(), Effect)
      modifies this
      ensures View() == Step(old(View()), Effect)
    {
      due := false;
      RefreshWith(screen.applied);
    }

    method PressMore()
      modifies this
      ensures View() == Step(old(View()), LoadMore)
    {
      if screen.more || !screen.load.Ready? || screen.load.next.None? {
        return;
      }
      more := true;
      requests := requests + [Request(generation, screen.applied, screen.load.next.value, true, screen.load.rows)];
      if due { RunEffect(); }
    }

    method OnPage(i: nat, page: Page<R>)
      requires i < |requests|
      modifies this
      ensures View() == Step(old(View()), Answer(i, page))
    {
      var r := requests[i];
      requests := Without(requests, i);
      if r.generation != generation {
        return;
      }
      load := Ready(r.rows + page.items, page.next);
      if r.more { more := false; }
    }

    method OnError(i: nat)
      requires i < |requests|
      modifies this
      ensures View() == Step(old(View()), Refuse(i))
    {
      var r := requests[i];
      requests := Without(requests, i);
      if r.generation != generation {
        return;
      }
      load := Failed;
      if r.more { more := false; }
    }
  }
}
