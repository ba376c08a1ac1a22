/** The second stage of the conformance gate: applying the waivers to a run's report
    and deciding whether a release may be tagged on the strength of it. */
module ConformanceVerdict {
  import opened Texts
  import opened ConformanceReport

  /** One element of the waiver file; absent members are none. */
  datatype WaiverEntry =
    | NotAnObject
    | Waiver(mod: Option<string>, ticket: Option<string>, reason: Option<string>, recorded: Option<string>)

  const GREEN: set<string> := {"PASSED", "REVIEW", "WARNING", "SKIPPED"}

  const EXIT_UNREADABLE := 73
  const EXIT_FAILED := 74
  const EXIT_STALE := 75

  // ----- the waiver file -----

  predicate Given(o: Option<string>) { o.Some? && o.value != "" }

  /** A waiver says who, why and since when. */
  predicate Complete(w: WaiverEntry) {
    w.Waiver? && Given(w.mod) && Given(w.ticket) && Given(w.reason) && Given(w.recorded)
  }

  /** A waiver file the gate accepts: every entry complete, no module twice. */
  predicate WellFormed(ws: seq<WaiverEntry>) {
    && (forall i :: 0 <= i < |ws| ==> Complete(ws[i]))
    && (forall i, j :: 0 <= i < j < |ws| && Complete(ws[i]) && Complete(ws[j]) ==> ws[i].mod != ws[j].mod)
  }

  /** The file keyed by module name. */
  ghost predicate Keyed(waivers: map<string, WaiverEntry>, ws: seq<WaiverEntry>) {
    && (forall i :: 0 <= i < |ws| ==> Complete(ws[i]) && ws[i].mod.value in waivers && waivers[ws[i].mod.value] == ws[i])
    && (forall m :: m in waivers ==> waivers[m] in ws && Complete(waivers[m]) && waivers[m].mod == Some(m))
  }

  lemma AddKeyed(waivers: map<string, WaiverEntry>, ws: seq<WaiverEntry>, w: WaiverEntry)
    requires Keyed(waivers, ws) && WellFormed(ws) && Complete(w) && w.mod.value !in waivers
    ensures Keyed(waivers[w.mod.value := w], ws + [w]) && WellFormed(ws + [w])
  {
  }

  lemma WaivedTwice(waivers: map<string, WaiverEntry>, ws: seq<WaiverEntry>, k: nat)
    requires k < |ws| && Keyed(waivers, ws[..k]) && Complete(ws[k]) && ws[k].mod.value in waivers
    ensures !WellFormed(ws)
  {
    var first := waivers[ws[k].mod.value];
    var i :| 0 <= i < |ws[..k]| && ws[..k][i] == first;
    assert Complete(ws[i]) && Complete(ws[k]) && ws[i].mod == ws[k].mod;
  }

  lemma Incomplete(ws: seq<WaiverEntry>, k: nat)
    requires k < |ws| && !Complete(ws[k])
    ensures !WellFormed(ws)
  {
  }

  method LoadWaivers(file: Option<seq<WaiverEntry>>) returns (r: Option<map<string, WaiverEntry>>)
    ensures r.Some? <==> file.Some? && WellFormed(file.value)
    ensures r.Some? ==> Keyed(r.value, file.value)
  {
    if file.None? { return None; }
    var ws := file.value;
    var waivers: map<string, WaiverEntry> := map[];
    assert WellFormed(ws[..0]) && Keyed(waivers, ws[..0]);
    hide WellFormed;
    hide Keyed;
    for k := 0 to |ws|
      invariant WellFormed(ws[..k]) && Keyed(waivers, ws[..k])
    {
      var w := ws[k];
      if !w.Waiver? || !Given(w.mod) || !Given(w.ticket) || !Given(w.reason) || !Given(w.recorded) {
        Incomplete(ws, k);
        return None;
      }
      if w.mod.value in waivers {
        WaivedTwice(waivers, ws, k);
        return None;
      }
      AddKeyed(waivers, ws[..k], w);
      waivers := waivers[w.mod.value := w];
      assert ws[..k + 1] == ws[..k] + [w];
    }
    assert ws[..|ws|] == ws;
    r := Some(waivers);
  }

  // ----- the decision -----

  predicate IsGreen(e: Entry) { e.result in GREEN }

  /** The name a waiver must carry to cover this module. */
  function Label(e: Entry): string {
    if e.mod != "" then e.mod else if e.name != "" then e.name else "?"
  }

  /** The red modules of a report, waived or not. */
  function Red(es: seq<Entry>): seq<string> {
    if es == [] then []
    else Red(es[..|es| - 1]) + (if IsGreen(es[|es| - 1]) then [] else [Label(es[|es| - 1])])
  }

  function Keep(names: seq<string>, keys: set<string>, inside: bool): seq<string> {
    if names == [] then []
    else
      var last := names[|names| - 1];
      Keep(names[..|names| - 1], keys, inside) + (if (last in keys) == inside then [last] else [])
  }

  datatype Outcome = Outcome(exit: int, waived: seq<string>, unwaived: seq<string>, stale: set<string>)

  lemma KeepMore(names: seq<string>, x: string, keys: set<string>, inside: bool)
    ensures Keep(names + [x], keys, inside) ==
            Keep(names, keys, inside) + (if (x in keys) == inside then [x] else [])
  {
    assert (names + [x])[..|names|] == names;
  }

  /** The loop over the modules: green ones pass, the others are sorted by waiver. */
  method Classify(modules: seq<Entry>, keys: set<string>) returns (waived: seq<string>, unwaived: seq<string>)
    ensures waived == Keep(Red(modules), keys, true) && unwaived == Keep(Red(modules), keys, false)
  {
    waived, unwaived := [], [];
    for i := 0 to |modules|
      invariant waived == Keep(Red(modules[..i]), keys, true)
      invariant unwaived == Keep(Red(modules[..i]), keys, false)
    {
      var before := Red(modules[..i]);
      assert modules[..i + 1][..i] == modules[..i];
      if modules[i].result !in GREEN {
        var name := Label(modules[i]);
        KeepMore(before, name, keys, true);
        KeepMore(before, name, keys, false);
        if name in keys { waived := waived + [name]; } else { unwaived := unwaived + [name]; }
      } else {
        assert Red(modules[..i + 1]) == before;
      }
    }
    assert modules[..|modules|] == modules;
  }

  /** The report argument: left out, which checks the waiver file alone; a file that
      cannot be read; or what it holds. */
  datatype Input = Omitted | Unreadable | Read(verdict: Verdict)

  /** The three lists a judged report is printed with: every red module once, by
      whether it is waived, and the waivers that covered none of them. */
  ghost predicate Lists(r: Outcome, es: seq<Entry>, ws: seq<WaiverEntry>) {
    && multiset(r.waived) + multiset(r.unwaived) == multiset(Red(es))
    && (forall m :: m in r.waived <==> m in Red(es) && Waives(ws, m))
    && (forall m :: m in r.unwaived <==> m in Red(es) && !Waives(ws, m))
    && (forall m :: m in r.stale <==> Waives(ws, m) && m !in Red(es))
  }

  /** The decision, with the age of the report in hours and none when its timestamp
      cannot be read. Whenever the modules are judged the lists are right, and on exit
      0 every red module of a report is waived. */
  method Decide(file: Option<seq<WaiverEntry>>, input: Input, age: Option<real>, maxAge: Option<real>)
    returns (r: Outcome)
    ensures r.exit == Exit(file, input, age, maxAge)
    ensures input.Read? && r.exit in {0, EXIT_FAILED, EXIT_STALE} ==>
              file.Some? && Lists(r, input.verdict.modules, file.value)
    ensures input.Read? && r.exit in {0, EXIT_STALE} ==> r.waived == Red(input.verdict.modules) && r.unwaived == []
    ensures r.exit == EXIT_FAILED ==> r.unwaived != []
  {
    hide WellFormed;
    hide Keyed;
    hide AllWaived;
    hide Waives;
    hide Red;
    hide Keep;
    var waivers := LoadWaivers(file);
    if waivers.None? { return Outcome(EXIT_UNREADABLE, [], [], {}); }
    if input.Omitted? { return Outcome(0, [], [], {}); }
    if input.Unreadable? || input.verdict.schema != SCHEMA || age.None? {
      return Outcome(EXIT_UNREADABLE, [], [], {});
    }
    var modules, keys := input.verdict.modules, waivers.value.Keys;
    if modules == [] { return Outcome(EXIT_EMPTY, [], [], {}); }
    var waived, unwaived := Classify(modules, keys);
    var stale := set m | m in keys && m !in waived;
    KeptAll(Red(modules), keys);
    KeysAreWaivers(waivers.value, file.value);
    RedWaived(modules, file.value);
    if unwaived != [] { return Outcome(EXIT_FAILED, waived, unwaived, stale); }
    if maxAge.Some? && age.value > maxAge.value { return Outcome(EXIT_STALE, waived, unwaived, stale); }
    r := Outcome(0, waived, unwaived, stale);
  }

  // ----- what the exit code means -----

  predicate Waives(ws: seq<WaiverEntry>, m: string) {
    exists i :: 0 <= i < |ws| && ws[i].Waiver? && ws[i].mod == Some(m)
  }

  predicate AllWaived(es: seq<Entry>, ws: seq<WaiverEntry>) {
    forall i :: 0 <= i < |es| && !IsGreen(es[i]) ==> Waives(ws, Label(es[i]))
  }

  /** The precedence of exits: unreadable input, then an empty report, then an
      unwaived failure, then age. */
  function Exit(file: Option<seq<WaiverEntry>>, input: Input, age: Option<real>, maxAge: Option<real>): int {
    if file.None? || !WellFormed(file.value) then EXIT_UNREADABLE
    else if input.Omitted? then 0
    else if input.Unreadable? || input.verdict.schema != SCHEMA || age.None? then EXIT_UNREADABLE
    else if input.verdict.modules == [] then EXIT_EMPTY
    else if !AllWaived(input.verdict.modules, file.value) then EXIT_FAILED
    else if maxAge.Some? && age.value > maxAge.value then EXIT_STALE
    else 0
  }

  lemma {:induction false} KeptIn(names: seq<string>, keys: set<string>, inside: bool, m: string)
    ensures m in Keep(names, keys, inside) <==> m in names && (m in keys) == inside
  {
    if names != [] {
      var front := names[..|names| - 1];
      KeptIn(front, keys, inside, m);
      assert names == front + [names[|names| - 1]];
    }
  }

  lemma {:induction false} KeptOnce(names: seq<string>, keys: set<string>)
    ensures multiset(Keep(names, keys, true)) + multiset(Keep(names, keys, false)) == multiset(names)
  {
    if names == [] {
      assert Keep(names, keys, true) == [] && Keep(names, keys, false) == [];
    } else {
      hide Keep;
      var front, x := names[..|names| - 1], names[|names| - 1];
      KeptOnce(front, keys);
      assert names == front + [x];
      KeepMore(front, x, keys, true);
      KeepMore(front, x, keys, false);
      var inside, outside := Keep(front, keys, true), Keep(front, keys, false);
      if x in keys {
        assert Keep(names, keys, true) == inside + [x] && Keep(names, keys, false) == outside + [] == outside;
      } else {
        assert Keep(names, keys, true) == inside + [] == inside && Keep(names, keys, false) == outside + [x];
      }
    }
  }

  lemma {:induction false} KeptWhole(names: seq<string>, keys: set<string>)
    requires forall i :: 0 <= i < |names| ==> names[i] in keys
    ensures Keep(names, keys, true) == names
  {
    if names != [] {
      KeptWhole(names[..|names| - 1], keys);
      assert names == names[..|names| - 1] + [names[|names| - 1]];
    }
  }

  lemma KeptAll(names: seq<string>, keys: set<string>)
    ensures forall m :: m in Keep(names, keys, true) <==> m in names && m in keys
    ensures forall m :: m in Keep(names, keys, false) <==> m in names && m !in keys
    ensures multiset(Keep(names, keys, true)) + multiset(Keep(names, keys, false)) == multiset(names)
    ensures Keep(names, keys, false) == [] <==> forall m :: m in names ==> m in keys
    ensures Keep(names, keys, false) == [] ==> Keep(names, keys, true) == names
  {
    hide Keep;
    forall m ensures m in Keep(names, keys, true) <==> m in names && m in keys { KeptIn(names, keys, true, m); }
    forall m ensures m in Keep(names, keys, false) <==> m in names && m !in keys { KeptIn(names, keys, false, m); }
    KeptOnce(names, keys);
    var left := Keep(names, keys, false);
    assert left != [] ==> left[0] in left;
    if left == [] {
      forall i | 0 <= i < |names| ensures names[i] in keys { assert names[i] !in left; }
      KeptWhole(names, keys);
    }
  }

  lemma KeysAreWaivers(waivers: map<string, WaiverEntry>, ws: seq<WaiverEntry>)
    requires Keyed(waivers, ws)
    ensures forall m :: m in waivers <==> Waives(ws, m)
  {
    forall m ensures m in waivers <==> Waives(ws, m) {
      if m in waivers {
        var i :| 0 <= i < |ws| && ws[i] == waivers[m];
        assert ws[i].mod == Some(m);
      }
    }
  }

  lemma {:induction false} RedWaived(es: seq<Entry>, ws: seq<WaiverEntry>)
    ensures AllWaived(es, ws) <==> forall m :: m in Red(es) ==> Waives(ws, m)
  {
    if es != [] {
      var front, last := es[..|es| - 1], es[|es| - 1];
      RedWaived(front, ws);
      assert es == front + [last];
      assert AllWaived(es, ws) <==> AllWaived(front, ws) && (!IsGreen(last) ==> Waives(ws, Label(last)));
    }
  }
}
