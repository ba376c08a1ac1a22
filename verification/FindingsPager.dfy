/** The governance findings pager: a sequence number fences every call, and the
    report grows page by page within one section. A section stands for the workspace
    too: the effect depends on both. It runs some time after the render that changed
    them is committed, but before the next render. */
module FindingsPager {
  import opened Texts

  /** A section's records as the server scans them; some yield a finding. */
  type Records<F> = seq<Option<F>>

  datatype Report<+S, +F> = Report(section: S, items: seq<F>, next: Option<nat>, scanned: nat)

  /** A call in flight: the section asked for, and the report to append to. */
  datatype Request<+S, +F> = Request(number: nat, section: S, from: nat, previous: Option<Report<S, F>>)

  /** What the handlers of a committed render see, and the section of the refresh
      that its report comes from. */
  datatype Screen<+S, +F> = Screen(section: S, report: Option<Report<S, F>>, busy: bool, query: S)

  /** Before the first effect, after it, and after the last one is cleaned up. */
  datatype Life = Mounting | Mounted | Gone

  datatype State<+S, +F> = State(
    section: S, report: Option<Report<S, F>>, busy: bool, error: bool,
    number: nat,                                   // sequence
    screen: Screen<S, F>, due: bool,               // the committed render, and whether its effect is due
    life: Life,
    requests: seq<Request<S, F>>,
    query: S)                                      // the section of the latest refresh

  datatype Event<+S, +F> =
    | Select(section: S)                           // setSection
    | Commit
    | Unmount                                      // the last effect is cleaned up
    | Effect                                       // the old effect is cleaned up, the due one runs
    | Refresh                                      // the button, from the screen
    | More
    | Answer(i: nat, value: Report<S, F>)
    | Refuse(i: nat)

  function Initial<S, F>(section: S): State<S, F> {
    State(section, None, false, false, 0, Screen(section, None, false, section), true, Mounting, [], section)
  }

  function Refreshed<S, F>(s: State<S, F>, section: S): State<S, F> {
    s.(number := s.number + 1, busy := true, error := false, report := None, query := section,
       requests := s.requests + [Request(s.number + 1, section, 0, None)])
  }

  /** The due effect, which React runs before it renders what an update asks for. */
  function Flushed<S, F>(s: State<S, F>): State<S, F> {
    if !s.due then s
    else Refreshed(s.(number := if s.life.Mounted? then s.number + 1 else s.number, life := Mounted, due := false),
                   s.screen.section)
  }

  /** The page alone, or appended to the report before it. */
  function Appended<S, F>(previous: Option<Report<S, F>>, value: Report<S, F>): Report<S, F> {
    match previous
    case None => value
    case Some(p) => value.(items := p.items + value.items, scanned := p.scanned + value.scanned)
  }

  /** The press asks for a page: there is a report, and a next page. */
  predicate Live<S, F>(s: State<S, F>) {
    s.screen.report.Some? && s.screen.report.value.next.Some?
  }

  predicate Enabled<S, F>(s: State<S, F>, e: Event<S, F>) {
    match e
    case Answer(i, _) => i < |s.requests|
    case Refuse(i) => i < |s.requests|
    case Effect => !s.life.Gone? && s.due
    case Commit => !s.life.Gone? && !s.due
    case _ => !s.life.Gone?
  }

  function Step<S(==), F>(s: State<S, F>, e: Event<S, F>): State<S, F>
    requires Enabled(s, e)
  {
    match e
    case Select(section) => s.(section := section)
    case Commit => s.(screen := Screen(s.section, s.report, s.busy, s.query), due := s.section != s.screen.section)
    case Unmount => s.(number := s.number + 1, life := Gone)
    case Effect => Flushed(s)
    case Refresh => Refreshed(s, s.screen.section)
    case More =>
      if !Live(s) then s
      else
        Flushed(s.(number := s.number + 1, busy := true, error := false,
                   requests := s.requests + [Request(s.number + 1, s.screen.section,
                                                     s.screen.report.value.next.value, s.screen.report)]))
    case Answer(i, value) =>
      var r := s.requests[i];
      var t := s.(requests := Without(s.requests, i));
      if r.number != s.number then t
      else if value.section != r.section then t.(error := true, busy := false)
      else t.(report := Some(Appended(r.previous, value)), busy := false)
    case Refuse(i) =>
      var r := s.requests[i];
      var t := s.(requests := Without(s.requests, i));
      if r.number != s.number then t else t.(error := true, busy := false)
  }

  // ----- the server -----

  function Findings<F>(records: Records<F>): seq<F> {
    if records == [] then []
    else
      var last := records[|records| - 1];
      Findings(records[..|records| - 1]) + (if last.Some? then [last.value] else [])
  }

  /** A page: the findings among the records it inspected, how many, and where it stopped. */
  ghost predicate PageOf<S, F>(records: Records<F>, from: nat, value: Report<S, F>) {
    && from + value.scanned <= |records|
    && value.items == Findings(records[from..from + value.scanned])
    && (value.next == Some(from + value.scanned) || (value.next.None? && from + value.scanned == |records|))
  }

  /** Whatever section the server answers for, the page is one of that section. */
  ghost predicate Honest<S, F>(s: State<S, F>, e: Event<S, F>, sections: S -> Records<F>)
    requires Enabled(s, e)
  {
    e.Answer? ==> PageOf(sections(e.value.section), s.requests[e.i].from, e.value)
  }

  // ----- the law -----

  /** The findings among the first `scanned` records of its section, and no others. */
  ghost predicate Prefix<S, F>(sections: S -> Records<F>, report: Report<S, F>) {
    var records := sections(report.section);
    && report.scanned <= |records| && report.items == Findings(records[..report.scanned])
    && (report.next == Some(report.scanned) || (report.next.None? && report.scanned == |records|))
  }

  ghost predicate Sound<S, F>(r: Request<S, F>, query: S, sections: S -> Records<F>) {
    && r.section == query
    && match r.previous
       case None => r.from == 0
       case Some(p) => p.section == query && Prefix(sections, p) && p.next == Some(r.from)
  }

  ghost predicate Current<S, F>(report: Option<Report<S, F>>, query: S, sections: S -> Records<F>) {
    report.Some? ==> report.value.section == query && Prefix(sections, report.value)
  }

  ghost predicate Inv<S, F>(s: State<S, F>, sections: S -> Records<F>) {
    && Current(s.report, s.query, sections) && Current(s.screen.report, s.screen.query, sections)
    && (!s.due ==> s.screen.section == s.query)
    && (forall i :: 0 <= i < |s.requests| ==> s.requests[i].number <= s.number)
    && (forall i :: 0 <= i < |s.requests| && s.requests[i].number == s.number
          ==> Sound(s.requests[i], s.query, sections))
  }

  /** The render's report is the latest refresh's, or its effect is still due. */
  predicate UpToDate<S(==), F>(s: State<S, F>) {
    s.due || s.screen.query == s.query
  }

  lemma {:induction false} FindingsJoin<F>(a: Records<F>, b: Records<F>)
    ensures Findings(a + b) == Findings(a) + Findings(b)
  {
    if b == [] {
      assert a + b == a;
    } else {
      var front := b[..|b| - 1];
      assert (a + b)[..|a + b| - 1] == a + front;
      FindingsJoin(a, front);
    }
  }

  /** A page appended to the prefix it continues is a longer prefix. */
  lemma AppendedPrefix<S, F>(p: Report<S, F>, value: Report<S, F>, from: nat, sections: S -> Records<F>)
    requires Prefix(sections, p) && p.next == Some(from) && value.section == p.section
    requires PageOf(sections(p.section), from, value)
    ensures Prefix(sections, Appended(Some(p), value))
  {
    var records, end := sections(p.section), from + value.scanned;
    FindingsJoin(records[..from], records[from..end]);
    assert records[..from] + records[from..end] == records[..end];
  }

  lemma FirstPrefix<S, F>(value: Report<S, F>, sections: S -> Records<F>)
    requires PageOf(sections(value.section), 0, value)
    ensures Prefix(sections, value)
  {
    var records := sections(value.section);
    assert records[0..value.scanned] == records[..value.scanned];
  }

  lemma AnswerKeeps<S, F>(s: State<S, F>, i: nat, value: Report<S, F>, sections: S -> Records<F>)
    requires Inv(s, sections) && i < |s.requests|
    requires PageOf(sections(value.section), s.requests[i].from, value)
    ensures Inv(Step(s, Answer(i, value)), sections)
  {
    hide Prefix;
    hide PageOf;
    var r := s.requests[i];
    if r.number == s.number && value.section == r.section {
      assert Sound(r, s.query, sections);
      if r.previous.Some? {
        AppendedPrefix(r.previous.value, value, r.from, sections);
      } else {
        FirstPrefix(value, sections);
      }
    }
  }

  lemma MoreKeeps<S, F>(s: State<S, F>, sections: S -> Records<F>)
    requires Inv(s, sections) && !s.life.Gone? && (Live(s) ==> UpToDate(s))
    ensures Inv(Step(s, More), sections)
  {
    hide Appended;
  }

  lemma StepKeeps<S, F>(s: State<S, F>, e: Event<S, F>, sections: S -> Records<F>)
    requires Inv(s, sections) && Enabled(s, e) && Honest(s, e, sections)
    requires e.More? && Live(s) ==> UpToDate(s)
    ensures Inv(Step(s, e), sections)
  {
    hide Prefix;
    hide Appended;
    match e {
      case Answer(i, value) => AnswerKeeps(s, i, value, sections);
      case More => MoreKeeps(s, sections);
      case _ =>
    }
  }

  /** While mounted, a busy screen has the current call on its way or a refresh due. */
  ghost predicate NotStuck<S, F>(s: State<S, F>) {
    s.busy && !s.life.Gone? ==> s.due || Awaited(s.requests, s.number)
  }

  ghost predicate Awaited<S, F>(requests: seq<Request<S, F>>, number: nat) {
    exists i :: 0 <= i < |requests| && requests[i].number == number
  }

  lemma AwaitedStill<S, F>(requests: seq<Request<S, F>>, number: nat, i: nat)
    requires i < |requests| && Awaited(requests, number) && requests[i].number != number
    ensures Awaited(Without(requests, i), number)
  {
    var j :| 0 <= j < |requests| && requests[j].number == number;
    assert Without(requests, i)[if j < i then j else j - 1] == requests[j];
  }

  /** No step of any kind leaves the screen waiting for nothing. */
  lemma StepNotStuck<S, F>(s: State<S, F>, e: Event<S, F>)
    requires NotStuck(s) && Enabled(s, e)
    ensures NotStuck(Step(s, e))
  {
    hide Appended;
    var t := Step(s, e);
    if e.Answer? || e.Refuse? {
      if Awaited(s.requests, s.number) && s.requests[e.i].number != s.number {
        AwaitedStill(s.requests, s.number, e.i);
      }
    } else if |t.requests| > |s.requests| {
      assert t.requests[|t.requests| - 1].number == t.number;
    }
  }

  ghost predicate ValidRun<S, F>(s: State<S, F>, events: seq<Event<S, F>>, sections: S -> Records<F>)
    decreases |events|
  {
    events != [] ==>
      && Enabled(s, events[0]) && Honest(s, events[0], sections) && (events[0].More? && Live(s) ==> UpToDate(s))
      && ValidRun(Step(s, events[0]), events[1..], sections)
  }

  ghost function Run<S, F>(s: State<S, F>, events: seq<Event<S, F>>, sections: S -> Records<F>): State<S, F>
    requires ValidRun(s, events, sections)
    decreases |events|
  {
    if events == [] then s else Run(Step(s, events[0]), events[1..], sections)
  }

  lemma {:induction false} RunKeeps<S, F>(s: State<S, F>, events: seq<Event<S, F>>, sections: S -> Records<F>)
    requires Inv(s, sections) && NotStuck(s) && ValidRun(s, events, sections)
    ensures Inv(Run(s, events, sections), sections) && NotStuck(Run(s, events, sections))
    decreases |events|
  {
    hide Inv;
    hide NotStuck;
    if events != [] {
      StepKeeps(s, events[0], sections);
      StepNotStuck(s, events[0]);
      RunKeeps(Step(s, events[0]), events[1..], sections);
    }
  }

  /** For any arrival order, answers for another section included: a report on screen
      is about the section of the latest refresh, and holds exactly the findings of
      the first `scanned` records. And it never waits for nothing. */
  lemma ShowsOnePrefix<S, F>(section: S, events: seq<Event<S, F>>, sections: S -> Records<F>)
    requires ValidRun(Initial(section), events, sections)
    ensures var s := Run(Initial(section), events, sections);
            && Current(s.report, s.query, sections)
            && (!s.due && s.section == s.screen.section ==> s.query == s.section)
            && NotStuck(s)
  {
    RunKeeps(Initial(section), events, sections);
  }

  // ----- presses on an older render -----

  ghost predicate Reached<S(!new), F(!new)>(s: State<S, F>, sections: S -> Records<F>) {
    exists section: S, events: seq<Event<S, F>> ::
      ValidRun(Initial(section), events, sections) && Run(Initial(section), events, sections) == s
  }

  lemma {:induction false} RunSnoc<S, F>(s: State<S, F>, events: seq<Event<S, F>>, e: Event<S, F>,
                                         sections: S -> Records<F>)
    requires ValidRun(s, events, sections) && ValidRun(Run(s, events, sections), [e], sections)
    ensures ValidRun(s, events + [e], sections)
    ensures Run(s, events + [e], sections) == Step(Run(s, events, sections), e)
    decreases |events|
  {
    if events == [] {
      assert events + [e] == [e];
      assert Run(Step(s, e), [], sections) == Step(s, e);
    } else {
      RunSnoc(Step(s, events[0]), events[1..], e, sections);
      assert (events + [e])[1..] == events[1..] + [e];
    }
  }

  lemma ReachedInitial<S(!new), F(!new)>(section: S, sections: S -> Records<F>)
    ensures Reached(Initial(section), sections)
  {
    assert ValidRun(Initial(section), [], sections);
    assert Run(Initial(section), [], sections) == Initial(section);
  }

  /** One more event of a witness run. */
  lemma Take<S(!new), F(!new)>(s: State<S, F>, e: Event<S, F>, sections: S -> Records<F>) returns (t: State<S, F>)
    requires Reached(s, sections) && Enabled(s, e) && Honest(s, e, sections) && !e.More?
    ensures t == Step(s, e) && Reached(t, sections)
  {
    var section: S, events: seq<Event<S, F>> :|
      ValidRun(Initial(section), events, sections) && Run(Initial(section), events, sections) == s;
    assert [e][1..] == [];
    RunSnoc(Initial(section), events, e, sections);
    t := Step(s, e);
    assert Run(Initial(section), events + [e], sections) == t;
  }

  lemma ReachedKeeps<S(!new), F(!new)>(s: State<S, F>, sections: S -> Records<F>)
    requires Reached(s, sections)
    ensures Inv(s, sections) && NotStuck(s)
  {
    var section: S, events: seq<Event<S, F>> :|
      ValidRun(Initial(section), events, sections) && Run(Initial(section), events, sections) == s;
    RunKeeps(Initial(section), events, sections);
  }

  /** The press, and the answer to it. */
  function Pressed<S(==), F>(s: State<S, F>, value: Report<S, F>): State<S, F>
    requires Live(s) && !s.life.Gone?
  {
    Step(Step(s, More), Answer(|s.requests|, value))
  }

  /** A report the server may answer the press with. */
  ghost predicate Answers<S, F>(s: State<S, F>, sections: S -> Records<F>, value: Report<S, F>)
    requires Live(s)
  {
    PageOf(sections(value.section), s.screen.report.value.next.value, value)
  }

  // ----- what is loaded is shown -----

  /** A press appends its page to the report of the render it was made on, or reports
      an answer for another section; with the effect due it changes nothing but the
      number. */
  lemma PressShows<S, F>(s: State<S, F>, value: Report<S, F>)
    requires Live(s) && !s.life.Gone? && !s.due
    ensures Step(s, More).busy && !Step(s, More).error && Step(s, More).report == s.report
    ensures var p, done := s.screen.report.value, s.(number := s.number + 1, busy := false);
            Pressed(s, value) ==
              if value.section != s.screen.section then done.(error := true)
              else done.(error := false,
                         report := Some(Report(value.section, p.items + value.items, value.next, p.scanned + value.scanned)))
  {
    var t := Step(s, More);
    assert Without(t.requests, |s.requests|) == s.requests;
  }

  /** A refresh empties the screen, and then shows its first page by itself. */
  lemma RefreshShows<S, F>(s: State<S, F>, value: Report<S, F>)
    requires s.due && !s.life.Gone?
    ensures var t := Step(s, Effect);
            && t.report.None? && t.busy && !t.error && t.requests[|s.requests|].section == s.screen.section == t.query
            && var done := t.(requests := s.requests, busy := false);
               && Step(t, Refuse(|s.requests|)) == done.(error := true)
               && Step(t, Answer(|s.requests|, value)) ==
                    if value.section != s.screen.section then done.(error := true) else done.(report := Some(value))
  {
    var t := Step(s, Effect);
    assert Without(t.requests, |s.requests|) == s.requests;
  }

  /** An answer or a failure from before the latest call is not noticed. */
  lemma LateIsDropped<S, F>(s: State<S, F>, i: nat, value: Report<S, F>)
    requires i < |s.requests| && s.requests[i].number != s.number
    ensures Step(s, Answer(i, value)) == Step(s, Refuse(i)) == s.(requests := Without(s.requests, i))
  {
  }

  /** Pages that continue a section from a record, each but the last with a cursor. */
  ghost predicate PagesFrom<S, F>(sections: S -> Records<F>, section: S, from: nat, pages: seq<Report<S, F>>)
    decreases |pages|
  {
    pages != [] ==>
      && pages[0].section == section && PageOf(sections(section), from, pages[0])
      && (|pages| > 1 ==> pages[0].next.Some?)
      && PagesFrom(sections, section, from + pages[0].scanned, pages[1..])
  }

  function Presses<S, F>(n: nat, pages: seq<Report<S, F>>): seq<Event<S, F>> {
    if pages == [] then [] else [Commit, More, Answer(n, pages[0])] + Presses(n, pages[1..])
  }

  /** One round: the render is committed, the button pressed, the page answered. */
  lemma OneRound<S, F>(s: State<S, F>, page: Report<S, F>, rest: seq<Event<S, F>>, sections: S -> Records<F>)
    returns (t: State<S, F>)
    requires s.report.Some? && s.report.value.next == Some(s.report.value.scanned) && !s.due && s.life.Mounted?
    requires s.section == s.query == s.screen.section == s.report.value.section == page.section
    requires PageOf(sections(s.query), s.report.value.scanned, page)
    ensures t.report.Some? && t.report.value.section == s.query && t.report.value.next == page.next
    ensures t.report.value.scanned == s.report.value.scanned + page.scanned
    ensures t.report.value.items == s.report.value.items + page.items
    ensures t == s.(report := t.report, screen := t.screen, number := t.number, busy := false, error := false)
    ensures t.screen.section == s.section
    ensures ValidRun(t, rest, sections) ==>
              var events := [Commit, More, Answer(|s.requests|, page)] + rest;
              ValidRun(s, events, sections) && Run(s, events, sections) == Run(t, rest, sections)
  {
    hide PageOf;
    var s1 := Step(s, Commit);
    var s2 := Step(s1, More);
    PressShows(s1, page);
    t := Pressed(s1, page);
    var e3 := [Answer(|s.requests|, page)] + rest;
    var e2 := [More] + e3;
    var events := [Commit, More, Answer(|s.requests|, page)] + rest;
    assert events[1..] == e2 && e2[1..] == e3 && e3[1..] == rest;
    if ValidRun(t, rest, sections) {
      assert ValidRun(s2, e3, sections) && Run(s2, e3, sections) == Run(t, rest, sections);
      assert ValidRun(s1, e2, sections) && Run(s1, e2, sections) == Run(s2, e3, sections);
    }
  }

  lemma NoEvents<S, F>(s: State<S, F>, sections: S -> Records<F>)
    ensures ValidRun(s, [], sections) && Run(s, [], sections) == s
  {
  }

  lemma {:induction false} PressesShow<S, F>(s: State<S, F>, pages: seq<Report<S, F>>, sections: S -> Records<F>)
    requires s.report.Some? && !s.due && s.life.Mounted?
    requires s.section == s.query == s.screen.section == s.report.value.section
    requires pages != [] ==> s.report.value.next == Some(s.report.value.scanned)
    requires PagesFrom(sections, s.query, s.report.value.scanned, pages)
    ensures ValidRun(s, Presses(|s.requests|, pages), sections)
    ensures var t := Run(s, Presses(|s.requests|, pages), sections);
            && t.query == s.query && t.report.Some?
            && t.report.value.next == if pages == [] then s.report.value.next else pages[|pages| - 1].next
    decreases |pages|
  {
    hide ValidRun;
    hide Run;
    hide Step;
    NoEvents(s, sections);
    if pages != [] {
      var rest := pages[1..];
      var t := OneRound(s, pages[0], Presses(|s.requests|, rest), sections);
      PressesShow(t, rest, sections);
    }
  }

  /** Continuing up to a page without a cursor shows every finding of the section. */
  lemma {:induction false} LoadsAll<S, F>(section: S, pages: seq<Report<S, F>>, sections: S -> Records<F>)
    requires pages != [] && PagesFrom(sections, section, 0, pages) && pages[|pages| - 1].next.None?
    ensures var events := [Effect, Answer(0, pages[0])] + Presses(0, pages[1..]);
            ValidRun(Initial(section), events, sections) &&
            Run(Initial(section), events, sections).report ==
              Some(Report(section, Findings(sections(section)), None, |sections(section)|))
  {
    var s := Initial<S, F>(section);
    var rest := pages[1..];
    var e1 := [Answer(0, pages[0])] + Presses<S, F>(0, rest);
    var events := [Effect, Answer(0, pages[0])] + Presses<S, F>(0, rest);
    assert events[1..] == e1 && e1[1..] == Presses<S, F>(0, rest);
    var s1 := Step(s, Effect);
    RefreshShows(s, pages[0]);
    var s2 := Step(s1, Answer(0, pages[0]));
    PressesShow(s2, rest, sections);
    assert ValidRun(s1, e1, sections) && Run(s1, e1, sections) == Run(s2, Presses(0, rest), sections);
    assert ValidRun(s, events, sections) && Run(s, events, sections) == Run(s1, e1, sections);
    ShowsOnePrefix(section, events, sections);
    var t := Run(s, events, sections);
    assert t.report.value.next.None? by { if rest != [] { assert rest[|rest| - 1] == pages[|pages| - 1]; } }
    assert sections(section)[..|sections(section)|] == sections(section);
  }

  /** Whatever the server holds and answers: after a refresh of this section, a press on
      a render with a report from that one, its effect due or not, leaves a report on
      the section of the latest refresh. It is the first press of its run that may not. */
  ghost predicate Harmless<S(!new), F(!new)>(query: S, shown: S, due: bool) {
    forall s: State<S, F>, sections: S -> Records<F>, value: Report<S, F> ::
      (&& Reached(s, sections) && Live(s) && !s.life.Gone? && Answers(s, sections, value)
       && s.query == query && s.screen.query == shown && s.due == due)
      ==> var t := Pressed(s, value); Current(t.report, t.query, sections)
  }

  lemma PressKeeps<S, F>(s: State<S, F>, value: Report<S, F>, sections: S -> Records<F>)
    requires Inv(s, sections) && Live(s) && !s.life.Gone? && UpToDate(s) && Answers(s, sections, value)
    ensures Inv(Step(s, More), sections)
    ensures Current(Pressed(s, value).report, Pressed(s, value).query, sections)
  {
    hide Prefix;
    hide PageOf;
    StepKeeps(s, More, sections);
    AnswerKeeps(Step(s, More), |s.requests|, value, sections);
  }

  /** A section with one finding on each of two records. */
  ghost function Two<F>(x: F, y: F): Records<F> { [Some(x), Some(y)] }

  lemma TwoFindings<F>(x: F, y: F)
    ensures |Two(x, y)| == 2
    ensures Findings(Two(x, y)[..0]) == [] && Findings(Two(x, y)[..1]) == [x] && Findings(Two(x, y)[..2]) == [x, y]
    ensures Findings(Two(x, y)[0..1]) == [x] && Findings(Two(x, y)[1..2]) == [y]
  {
    var r := Two(x, y);
    assert r[..0] == [] && r[..1] == r[0..1] == [Some(x)] && r[1..2] == [Some(y)] && r[..2] == [Some(x), Some(y)];
    assert [Some(x)][..0] == [] && [Some(y)][..0] == [] && [Some(x), Some(y)][..1] == [Some(x)];
  }

  /** An old report: a section is selected, committed and refreshed, and the press
      comes before the next commit, on a button not yet disabled. It takes a new
      number, and its page is appended to the other section's findings. */
  lemma StaleReport<S(!new), F(!new)>(query: S, shown: S, a: F, b: F)
    returns (s: State<S, F>, sections: S -> Records<F>, value: Report<S, F>)
    requires a != b && shown != query
    ensures Reached(s, sections) && Live(s) && !s.life.Gone? && Answers(s, sections, value) && !s.screen.busy
    ensures s.query == s.screen.section == query && s.screen.query == shown && !s.due
    ensures var report := Pressed(s, value).report;
            report.Some? && report.value.section == query && !Prefix(sections, report.value)
  {
    hide Reached;
    hide Findings;
    hide Two;
    sections := x => if x == shown then Two(a, b) else Two(b, b);
    value := Report(query, [b], None, 1);
    TwoFindings(a, b);
    TwoFindings(b, b);
    s := Initial(shown);
    ReachedInitial(shown, sections);
    s := Take(s, Effect, sections);
    s := Take(s, Answer(0, Report(shown, [a], Some(1), 1)), sections);
    s := Take(s, Commit, sections);
    s := Take(s, Select(query), sections);
    s := Take(s, Commit, sections);
    assert s.report == Some(Report(shown, [a], Some(1), 1));
    s := Take(s, Effect, sections);
    assert Pressed(s, value).report == Some(Report(query, [a] + [b], None, 2));
    assert ([a] + [b])[0] == a && [b, b][0] == b;
  }

  /** Exactly when a press is harmless: when the render's report is the latest
      refresh's, or its effect is still due, which then fences the answer out. */
  lemma PressIff<S(!new), F(!new)>(query: S, shown: S, due: bool, a: F, b: F)
    requires a != b
    ensures Harmless<S, F>(query, shown, due) <==> due || shown == query
  {
    hide Prefix;
    if due || shown == query {
      forall s: State<S, F>, sections: S -> Records<F>, value: Report<S, F> |
        Reached(s, sections) && Live(s) && !s.life.Gone? && Answers(s, sections, value)
        && s.query == query && s.screen.query == shown && s.due == due
        ensures var t := Pressed(s, value); Current(t.report, t.query, sections)
      {
        ReachedKeeps(s, sections);
        PressKeeps(s, value, sections);
      }
    } else {
      var s, sections, value := StaleReport(query, shown, a, b);
      assert !Current(Pressed(s, value).report, Pressed(s, value).query, sections);
    }
  }

  /** However wrong the report is, the next refresh to be committed ends it. */
  lemma RefreshRestores<S, F>(s: State<S, F>, sections: S -> Records<F>)
    requires Enabled(s, Effect)
    requires forall i :: 0 <= i < |s.requests| ==> s.requests[i].number <= s.number
    ensures Inv(Step(Step(s, Effect), Commit), sections)
  {
  }

  // ----- the component, in place -----

  /** The findings screen: each callback is `Step` for its event. */
  class Screening<S(==), F> {
    var section: S
    var report: Option<Report<S, F>>
    var busy: bool
    var error: bool
    var number: nat
    var screen: Screen<S, F>
    var due: bool
    var life: Life
    var requests: seq<Request<S, F>>
    var query: S

    function View(): State<S, F>
      reads this
    {
      State(section, report, busy, error, number, screen, due, life, requests, query)
    }

    constructor (first: S)
      ensures View() == Initial(first)
    {
      section, report, busy, error, number := first, None, false, false, 0;
      screen, due, life := Screen(first, None, false, first), true, Mounting;
      requests, query := [], first;
    }

    method RefreshSection(chosen: S)
      modifies this
      ensures View() == Refreshed(old(View()), chosen)
    {
      number := number + 1;
      busy, error, report, query := true, false, None, chosen;
      requests := requests + [Request(number, chosen, 0, None)];
    }

    method RunEffect()
      requires Enabled(View(), Effect)
      modifies this
      ensures View() == Step(old(View()), Effect)
    {
      if life.Mounted? { number := number + 1; }
      due, life := false, Mounted;
      RefreshSection(screen.section);
    }

    method PressMore()
      requires Enabled(View(), More)
      modifies this
      ensures View() == Step(old(View()), More)
    {
      if screen.report.None? || screen.report.value.next.None? {
        return;
      }
      number := number + 1;
      busy, error := true, false;
      requests := requests + [Request(number, screen.section, screen.report.value.next.value, screen.report)];
      if due { RunEffect(); }
    }

    method OnReport(i: nat, value: Report<S, F>)
      requires i < |requests|
      modifies this
      ensures View() == Step(old(View()), Answer(i, value))
    {
      var r := requests[i];
      requests := Without(requests, i);
      if r.number != number {
        return;
      }
      if value.section != r.section {
        error := true;
      } else {
        report := Some(Appended(r.previous, value));
      }
      busy := false;
    }

    method OnError(i: nat)
      requires i < |requests|
      modifies this
      ensures View() == Step(old(View()), Refuse(i))
    {
      var r := requests[i];
      requests := Without(requests, i);
      if r.number == number {
        error, busy := true, false;
      }
    }
  }
}
