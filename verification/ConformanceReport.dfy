/** The first stage of the conformance gate: reading a run's results back out of the
    suite, counting them and refusing a run that judged nothing. */
module ConformanceReport {
  import opened Texts

  /** A member of a JSON object, which may be missing or null. */
  datatype Member = Missing | Null | Text(text: string)

  /** What the suite's API says of one instance. */
  datatype Info = Info(status: Member, result: Member, testName: Member)

  datatype Module = Module(testModule: Member, instances: seq<Info>)

  datatype Plan = Plan(modules: seq<Module>)

  /** One line of `verdict.json`. */
  datatype Entry = Entry(mod: string, name: string, result: string, status: string)

  datatype Verdict = Verdict(schema: int, modules: seq<Entry>, counts: map<string, nat>)

  const KNOWN_STATUSES: set<string> :=
    {"NOT_YET_CREATED", "CREATED", "CONFIGURED", "RUNNING", "WAITING", "INTERRUPTED", "FINISHED"}
  const KNOWN_RESULTS: seq<string> := ["PASSED", "FAILED", "WARNING", "REVIEW", "SKIPPED", "UNKNOWN"]
  const FINISHED := "FINISHED"
  const SCHEMA := 1

  const EXIT_EMPTY := 72
  const EXIT_UNKNOWN_FORMAT := 73

  /** `str(get(member, fallback))`: the fallback is for a missing member, and a null
      one is written as Python writes it. */
  function Written(m: Member, fallback: string): string {
    match m
    case Missing => fallback
    case Null => "None"
    case Text(text) => text
  }

  /** The line an instance is written as; a null or empty result is unknown. */
  function EntryOf(m: Module, info: Info): Entry {
    var name := Written(info.testName, Written(m.testModule, "?"));
    Entry(Written(m.testModule, name), name,
          if info.result.Text? && info.result.text != "" then info.result.text else "UNKNOWN",
          Written(info.status, ""))
  }

  predicate Recognised(e: Entry) { e.status in KNOWN_STATUSES && e.result in KNOWN_RESULTS }

  // ----- all lines of a run, in reading order -----

  function OfModule(m: Module, k: nat): seq<Entry>
    requires k <= |m.instances|
  {
    if k == 0 then [] else OfModule(m, k - 1) + [EntryOf(m, m.instances[k - 1])]
  }

  function OfModules(ms: seq<Module>): seq<Entry> {
    if ms == [] then []
    else OfModules(ms[..|ms| - 1]) + OfModule(ms[|ms| - 1], |ms[|ms| - 1].instances|)
  }

  function OfPlans(ps: seq<Plan>): seq<Entry> {
    if ps == [] then [] else OfPlans(ps[..|ps| - 1]) + OfModules(ps[|ps| - 1].modules)
  }

  predicate AllRecognised(es: seq<Entry>) { forall i :: 0 <= i < |es| ==> Recognised(es[i]) }

  // ----- the lines in terms of what the suite holds -----

  /** An instance of a module of a plan. */
  ghost predicate Holds(plans: seq<Plan>, m: Module, info: Info) {
    exists p, j :: 0 <= p < |plans| && 0 <= j < |plans[p].modules| && plans[p].modules[j] == m && info in m.instances
  }

  lemma {:induction false} OfModuleIs(m: Module, k: nat, e: Entry)
    requires k <= |m.instances|
    ensures e in OfModule(m, k) <==> exists i :: 0 <= i < k && EntryOf(m, m.instances[i]) == e
  {
    hide EntryOf;
    if k > 0 {
      OfModuleIs(m, k - 1, e);
      if e == EntryOf(m, m.instances[k - 1]) { assert e in OfModule(m, k); }
    }
  }

  lemma {:induction false} OfModulesIs(ms: seq<Module>, e: Entry)
    ensures e in OfModules(ms) <==>
            exists j, i :: 0 <= j < |ms| && 0 <= i < |ms[j].instances| && EntryOf(ms[j], ms[j].instances[i]) == e
  {
    hide EntryOf;
    if ms != [] {
      var front, last := ms[..|ms| - 1], ms[|ms| - 1];
      OfModulesIs(front, e);
      OfModuleIs(last, |last.instances|, e);
      if e in OfModules(front) {
        var j, i :| 0 <= j < |front| && 0 <= i < |front[j].instances| && EntryOf(front[j], front[j].instances[i]) == e;
        assert front[j] == ms[j];
      }
      if e in OfModule(last, |last.instances|) {
        var i :| 0 <= i < |last.instances| && EntryOf(last, last.instances[i]) == e;
        assert EntryOf(ms[|ms| - 1], ms[|ms| - 1].instances[i]) == e;
      }
      if j, i :| 0 <= j < |ms| && 0 <= i < |ms[j].instances| && EntryOf(ms[j], ms[j].instances[i]) == e {
        if j < |front| { assert front[j] == ms[j]; }
      }
    }
  }

  lemma {:induction false} OfPlansIs(ps: seq<Plan>, e: Entry)
    ensures e in OfPlans(ps) <==> exists p :: 0 <= p < |ps| && e in OfModules(ps[p].modules)
  {
    hide OfModules;
    if ps != [] {
      var front, last := ps[..|ps| - 1], ps[|ps| - 1];
      OfPlansIs(front, e);
      if e in OfPlans(front) {
        var p :| 0 <= p < |front| && e in OfModules(front[p].modules);
        assert front[p] == ps[p];
      }
      if p :| 0 <= p < |ps| && e in OfModules(ps[p].modules) {
        if p < |front| { assert front[p] == ps[p]; }
      }
    }
  }

  /** The lines are those of the instances the suite holds, and no others. */
  lemma LinesAre(plans: seq<Plan>, e: Entry)
    ensures e in OfPlans(plans) <==> exists m, info :: Holds(plans, m, info) && EntryOf(m, info) == e
  {
    hide EntryOf;
    hide OfPlans;
    hide OfModules;
    OfPlansIs(plans, e);
    if e in OfPlans(plans) {
      var p :| 0 <= p < |plans| && e in OfModules(plans[p].modules);
      var ms := plans[p].modules;
      OfModulesIs(ms, e);
      var j, i :| 0 <= j < |ms| && 0 <= i < |ms[j].instances| && EntryOf(ms[j], ms[j].instances[i]) == e;
      assert Holds(plans, ms[j], ms[j].instances[i]);
    }
    if m, info :| Holds(plans, m, info) && EntryOf(m, info) == e {
      var p, j :| 0 <= p < |plans| && 0 <= j < |plans[p].modules| && plans[p].modules[j] == m && info in m.instances;
      var i :| 0 <= i < |m.instances| && m.instances[i] == info;
      assert EntryOf(plans[p].modules[j], plans[p].modules[j].instances[i]) == e;
      OfModulesIs(plans[p].modules, e);
    }
  }

  /** An instance with this result; null, missing and empty ones have none, which is
      written as "UNKNOWN". */
  predicate HasResult(info: Info, result: string) {
    match info.result
    case Text(text) => if text == "" then result == "UNKNOWN" else result == text
    case _ => result == "UNKNOWN"
  }

  function CountInstances(infos: seq<Info>, result: string): nat {
    if infos == [] then 0
    else CountInstances(infos[..|infos| - 1], result) + (if HasResult(infos[|infos| - 1], result) then 1 else 0)
  }

  function CountModules(ms: seq<Module>, result: string): nat {
    if ms == [] then 0
    else CountModules(ms[..|ms| - 1], result) + CountInstances(ms[|ms| - 1].instances, result)
  }

  /** How many instances of a run have this result. */
  function CountPlans(ps: seq<Plan>, result: string): nat {
    if ps == [] then 0 else CountPlans(ps[..|ps| - 1], result) + CountModules(ps[|ps| - 1].modules, result)
  }

  lemma {:induction false} CountJoin(a: seq<Entry>, b: seq<Entry>, result: string)
    ensures CountOf(a + b, result) == CountOf(a, result) + CountOf(b, result)
  {
    if b == [] {
      assert a + b == a;
    } else {
      assert (a + b)[..|a + b| - 1] == a + b[..|b| - 1];
      CountJoin(a, b[..|b| - 1], result);
    }
  }

  lemma {:induction false} ModuleCounts(m: Module, k: nat, result: string)
    requires k <= |m.instances|
    ensures CountOf(OfModule(m, k), result) == CountInstances(m.instances[..k], result)
  {
    if k > 0 {
      ModuleCounts(m, k - 1, result);
      var e := EntryOf(m, m.instances[k - 1]);
      CountJoin(OfModule(m, k - 1), [e], result);
      assert [e][..0] == [];
      assert m.instances[..k][..k - 1] == m.instances[..k - 1];
      assert e.result == result <==> HasResult(m.instances[k - 1], result);
    }
  }

  lemma {:induction false} ModulesCount(ms: seq<Module>, result: string)
    ensures CountOf(OfModules(ms), result) == CountModules(ms, result)
  {
    if ms != [] {
      var front, last := ms[..|ms| - 1], ms[|ms| - 1];
      ModulesCount(front, result);
      CountJoin(OfModules(front), OfModule(last, |last.instances|), result);
      ModuleCounts(last, |last.instances|, result);
      assert last.instances[..|last.instances|] == last.instances;
    }
  }

  /** The counts are of instances, by the result the suite gave them. */
  lemma {:induction false} PlansCount(ps: seq<Plan>, result: string)
    ensures CountOf(OfPlans(ps), result) == CountPlans(ps, result)
  {
    if ps != [] {
      var front, last := ps[..|ps| - 1], ps[|ps| - 1];
      PlansCount(front, result);
      CountJoin(OfPlans(front), OfModules(last.modules), result);
      ModulesCount(last.modules, result);
    }
  }

  // ----- counting -----

  function CountOf(es: seq<Entry>, result: string): nat {
    if es == [] then 0
    else CountOf(es[..|es| - 1], result) + (if es[|es| - 1].result == result then 1 else 0)
  }

  function Unfinished(es: seq<Entry>): nat {
    if es == [] then 0
    else Unfinished(es[..|es| - 1]) + (if es[|es| - 1].status != FINISHED then 1 else 0)
  }

  /** `counts` holds how often each result occurs, and only results that do. */
  ghost predicate Counts(counts: map<string, nat>, es: seq<Entry>) {
    && (forall r :: r in counts ==> counts[r] == CountOf(es, r))
    && (forall r :: r in counts <==> CountOf(es, r) > 0)
  }

  function CountIn(counts: map<string, nat>, r: string): nat { if r in counts then counts[r] else 0 }

  function Sum(counts: map<string, nat>, results: seq<string>): nat {
    if results == [] then 0
    else Sum(counts, results[..|results| - 1]) + CountIn(counts, results[|results| - 1])
  }

  lemma {:induction false} UnfinishedAll(es: seq<Entry>)
    ensures Unfinished(es) <= |es|
    ensures Unfinished(es) == |es| <==> forall i :: 0 <= i < |es| ==> es[i].status != FINISHED
  {
    if es != [] { UnfinishedAll(es[..|es| - 1]); }
  }

  /** Occurrences of any of these results. */
  function Among(es: seq<Entry>, results: seq<string>): nat {
    if es == [] then 0
    else Among(es[..|es| - 1], results) + (if es[|es| - 1].result in results then 1 else 0)
  }

  lemma {:induction false} AmongMore(es: seq<Entry>, results: seq<string>, r: string)
    requires r !in results
    ensures Among(es, results + [r]) == Among(es, results) + CountOf(es, r)
  {
    if es != [] { AmongMore(es[..|es| - 1], results, r); }
  }

  lemma {:induction false} SumIsAmong(counts: map<string, nat>, es: seq<Entry>, results: seq<string>)
    requires Counts(counts, es) && forall i, j :: 0 <= i < j < |results| ==> results[i] != results[j]
    ensures Sum(counts, results) == Among(es, results)
  {
    if results == [] {
      AmongNone(es);
    } else {
      var front, last := results[..|results| - 1], results[|results| - 1];
      SumIsAmong(counts, es, front);
      AmongMore(es, front, last);
      assert results == front + [last];
    }
  }

  lemma {:induction false} AmongNone(es: seq<Entry>)
    ensures Among(es, []) == 0
  {
    if es != [] { AmongNone(es[..|es| - 1]); }
  }

  lemma {:induction false} AmongAll(es: seq<Entry>, results: seq<string>)
    requires forall i :: 0 <= i < |es| ==> es[i].result in results
    ensures Among(es, results) == |es|
  {
    if es != [] { AmongAll(es[..|es| - 1], results); }
  }

  /** The counts add up to the number of modules. */
  lemma CountsSum(counts: map<string, nat>, es: seq<Entry>)
    requires Counts(counts, es) && AllRecognised(es)
    ensures Sum(counts, KNOWN_RESULTS) == |es|
  {
    SumIsAmong(counts, es, KNOWN_RESULTS);
    AmongAll(es, KNOWN_RESULTS);
  }

  // ----- sorting by name -----

  /** Code point order, as Python compares strings. */
  predicate Leq(a: string, b: string) {
    a == "" || (b != "" && (a[0] < b[0] || (a[0] == b[0] && Leq(a[1..], b[1..]))))
  }

  lemma {:induction false} LeqTotal(a: string, b: string)
    ensures Leq(a, b) || Leq(b, a)
  {
    if a != "" && b != "" && a[0] == b[0] { LeqTotal(a[1..], b[1..]); }
  }

  lemma {:induction false} LeqTransitive(a: string, b: string, c: string)
    requires Leq(a, b) && Leq(b, c)
    ensures Leq(a, c)
  {
    if a != "" && a[0] == b[0] && b[0] == c[0] { LeqTransitive(a[1..], b[1..], c[1..]); }
  }

  predicate Sorted(es: seq<Entry>) {
    forall i, j :: 0 <= i < j < |es| ==> Leq(es[i].name, es[j].name)
  }

  /** After every entry whose name is not greater: equal names keep their order. */
  function Insert(es: seq<Entry>, e: Entry): seq<Entry> {
    if es == [] || Leq(es[|es| - 1].name, e.name) then es + [e]
    else Insert(es[..|es| - 1], e) + [es[|es| - 1]]
  }

  function SortByName(es: seq<Entry>): seq<Entry> {
    if es == [] then [] else Insert(SortByName(es[..|es| - 1]), es[|es| - 1])
  }

  lemma {:induction false} InsertIs(es: seq<Entry>, e: Entry)
    requires Sorted(es)
    ensures Sorted(Insert(es, e)) && multiset(Insert(es, e)) == multiset(es) + multiset{e}
  {
    if es != [] {
      var front, last := es[..|es| - 1], es[|es| - 1];
      assert es == front + [last];
      if Leq(last.name, e.name) {
        forall i | 0 <= i < |es| ensures Leq(es[i].name, e.name) {
          if i < |front| { LeqTransitive(es[i].name, last.name, e.name); }
        }
      } else {
        LeqTotal(last.name, e.name);
        InsertIs(front, e);
        var r := Insert(front, e);
        forall i | 0 <= i < |r| ensures Leq(r[i].name, last.name) {
          assert r[i] in multiset(r);
          assert r[i] == e || r[i] in front;
        }
      }
    }
  }

  /** Names compare as Python compares text: by the first code point that differs, and
      a name before its extensions. */
  lemma {:induction false} LeqIs(common: string, x: char, y: char, s: string, t: string)
    ensures Leq(common, common + s)
    ensures x < y ==> Leq(common + [x] + s, common + [y] + t) && !Leq(common + [y] + t, common + [x] + s)
    ensures s != "" ==> !Leq(common + s, common)
  {
    if common == "" {
      assert common + s == s && common + [x] + s == [x] + s && common + [y] + t == [y] + t;
      assert ([x] + s)[0] == x && ([y] + t)[0] == y;
    } else {
      LeqIs(common[1..], x, y, s, t);
      assert (common + s)[1..] == common[1..] + s;
      assert (common + [x] + s)[1..] == common[1..] + [x] + s && (common + [y] + t)[1..] == common[1..] + [y] + t;
    }
  }

  /** The lines with one name, in order. */
  function Called(es: seq<Entry>, name: string): seq<Entry> {
    if es == [] then []
    else Called(es[..|es| - 1], name) + (if es[|es| - 1].name == name then [es[|es| - 1]] else [])
  }

  lemma {:induction false} LeqReflexive(a: string)
    ensures Leq(a, a)
  {
    if a != "" { LeqReflexive(a[1..]); }
  }

  lemma CalledMore(es: seq<Entry>, e: Entry, name: string)
    ensures Called(es + [e], name) == Called(es, name) + (if e.name == name then [e] else [])
  {
    assert (es + [e])[..|es|] == es;
  }

  lemma {:induction false} InsertStable(es: seq<Entry>, e: Entry, name: string)
    ensures Called(Insert(es, e), name) == Called(es + [e], name)
  {
    hide Called;
    if es != [] {
      var front, last := es[..|es| - 1], es[|es| - 1];
      LeqReflexive(e.name);
      if !Leq(last.name, e.name) {
        InsertStable(front, e, name);
        CalledMore(Insert(front, e), last, name);
        CalledMore(front, e, name);
        CalledMore(front, last, name);
        CalledMore(es, e, name);
        assert es == front + [last];
      }
    }
  }

  /** Lines with one name stay in reading order. */
  lemma {:induction false} SortStable(es: seq<Entry>, name: string)
    ensures Called(SortByName(es), name) == Called(es, name)
  {
    if es != [] {
      var front, last := es[..|es| - 1], es[|es| - 1];
      SortStable(front, name);
      assert SortByName(es) == Insert(SortByName(front), last);
      hide Called;
      hide Insert;
      InsertStable(SortByName(front), last, name);
      CalledMore(SortByName(front), last, name);
      CalledMore(front, last, name);
      assert es == front + [last];
    }
  }

  lemma NoneSorted()
    ensures Sorted([])
  {
  }

  /** The written list is a sorted permutation of the lines read. */
  lemma {:induction false} SortIs(es: seq<Entry>)
    ensures Sorted(SortByName(es)) && multiset(SortByName(es)) == multiset(es)
    ensures |SortByName(es)| == |es|
  {
    hide Insert;
    hide Sorted;
    if es == [] {
      NoneSorted();
    } else {
      var front, last := es[..|es| - 1], es[|es| - 1];
      SortIs(front);
      assert SortByName(es) == Insert(SortByName(front), last);
      hide SortByName;
      InsertIs(SortByName(front), last);
      assert es == front + [last];
      assert multiset(es) == multiset(front) + multiset{last};
    }
    assert |multiset(SortByName(es))| == |multiset(es)|;
  }

  // ----- the run -----

  /** What the reading loop accumulates. */
  datatype Tally = Tally(total: nat, counts: map<string, nat>, unfinished: nat, entries: seq<Entry>)

  ghost predicate TallyOf(t: Tally, es: seq<Entry>) {
    t.total == |es| && Counts(t.counts, es) && t.unfinished == Unfinished(es) && t.entries == es && AllRecognised(es)
  }

  method ReadInstance(t: Tally, ghost es: seq<Entry>, m: Module, info: Info) returns (r: Tally)
    requires TallyOf(t, es) && Recognised(EntryOf(m, info))
    ensures TallyOf(r, es + [EntryOf(m, info)])
  {
    var e := EntryOf(m, info);
    ghost var es' := es + [e];
    assert es'[..|es'| - 1] == es;
    var counts := t.counts[e.result := CountIn(t.counts, e.result) + 1];
    r := Tally(t.total + 1, counts, t.unfinished + (if e.status != FINISHED then 1 else 0), t.entries + [e]);
    forall k ensures CountOf(es', k) == CountOf(es, k) + (if k == e.result then 1 else 0) {}
  }

  method ReadModule(t: Tally, ghost es: seq<Entry>, m: Module) returns (ok: bool, r: Tally)
    requires TallyOf(t, es)
    ensures ok <==> AllRecognised(OfModule(m, |m.instances|))
    ensures ok ==> TallyOf(r, es + OfModule(m, |m.instances|))
  {
    hide TallyOf;
    hide EntryOf;
    r := t;
    assert es + [] == es;
    for k := 0 to |m.instances|
      invariant AllRecognised(OfModule(m, k)) && TallyOf(r, es + OfModule(m, k))
    {
      var e := EntryOf(m, m.instances[k]);
      assert OfModule(m, k + 1)[k] == e by { ModuleSize(m, k); }
      if e.status !in KNOWN_STATUSES || e.result !in KNOWN_RESULTS {
        ModuleGrows(m, k + 1, |m.instances|);
        assert !Recognised(OfModule(m, |m.instances|)[k]);
        return false, r;
      }
      r := ReadInstance(r, es + OfModule(m, k), m, m.instances[k]);
      assert es + OfModule(m, k) + [e] == es + OfModule(m, k + 1);
    }
    ok := true;
  }

  lemma {:induction false} ModuleSize(m: Module, k: nat)
    requires k <= |m.instances|
    ensures |OfModule(m, k)| == k
  {
    if k > 0 { ModuleSize(m, k - 1); }
  }

  lemma {:induction false} ModuleGrows(m: Module, k: nat, n: nat)
    requires k <= n <= |m.instances|
    ensures |OfModule(m, k)| == k && OfModule(m, k) <= OfModule(m, n)
  {
    ModuleSize(m, k);
    if k < n { ModuleGrows(m, k, n - 1); }
  }

  lemma {:induction false} ModulesGrow(ms: seq<Module>, k: nat)
    requires k <= |ms|
    ensures OfModules(ms[..k]) <= OfModules(ms)
    decreases |ms|
  {
    if k == |ms| {
      assert ms[..k] == ms;
    } else {
      var front := ms[..|ms| - 1];
      ModulesGrow(front, k);
      assert front[..k] == ms[..k];
    }
  }

  lemma {:induction false} PlansGrow(ps: seq<Plan>, k: nat)
    requires k <= |ps|
    ensures OfPlans(ps[..k]) <= OfPlans(ps)
    decreases |ps|
  {
    if k == |ps| {
      assert ps[..k] == ps;
    } else {
      var front := ps[..|ps| - 1];
      PlansGrow(front, k);
      assert front[..k] == ps[..k];
    }
  }

  lemma ModulesStep(es: seq<Entry>, ms: seq<Module>, k: nat)
    requires k < |ms|
    ensures var one := OfModule(ms[k], |ms[k].instances|);
            && OfModules(ms[..k + 1]) == OfModules(ms[..k]) + one
            && es + OfModules(ms[..k + 1]) == (es + OfModules(ms[..k])) + one
  {
    assert ms[..k + 1][..k] == ms[..k];
  }

  method ReadPlan(t: Tally, ghost es: seq<Entry>, p: Plan) returns (ok: bool, r: Tally)
    requires TallyOf(t, es)
    ensures ok <==> AllRecognised(OfModules(p.modules))
    ensures ok ==> TallyOf(r, es + OfModules(p.modules))
  {
    var ms := p.modules;
    assert OfModules(ms[..0]) == [] && AllRecognised([]) && es + [] == es;
    hide TallyOf;
    hide AllRecognised;
    hide OfModule;
    hide OfModules;
    r := t;
    for k := 0 to |ms|
      invariant AllRecognised(OfModules(ms[..k])) && TallyOf(r, es + OfModules(ms[..k]))
    {
      var one := OfModule(ms[k], |ms[k].instances|);
      ModulesStep(es, ms, k);
      JoinRecognised(OfModules(ms[..k]), one);
      ok, r := ReadModule(r, es + OfModules(ms[..k]), ms[k]);
      if !ok {
        ModulesGrow(ms, k + 1);
        RefusedPart(OfModules(ms[..k]), one, OfModules(ms));
        return false, r;
      }
    }
    assert ms[..|ms|] == ms;
    ok := true;
  }

  lemma JoinRecognised(a: seq<Entry>, b: seq<Entry>)
    ensures AllRecognised(a + b) <==> AllRecognised(a) && AllRecognised(b)
  {
    if AllRecognised(a + b) {
      assert forall i :: 0 <= i < |a| ==> a[i] == (a + b)[i];
      assert forall i :: 0 <= i < |b| ==> b[i] == (a + b)[|a| + i];
    }
  }

  /** An unrecognised line in a part is one in the whole. */
  lemma RefusedPart(before: seq<Entry>, part: seq<Entry>, whole: seq<Entry>)
    requires before + part <= whole && !AllRecognised(part)
    ensures !AllRecognised(whole)
  {
    var i :| 0 <= i < |part| && !Recognised(part[i]);
    assert (before + part)[|before| + i] == part[i];
    assert whole[|before| + i] == part[i];
  }

  /** The whole script, from the plans of this run: no plans, an unreadable line, no
      lines, or nothing finished are each refused; the verdict file is written in
      every case where all lines were read. */
  method Report(plans: seq<Plan>) returns (exit: int, verdict: Option<Verdict>)
    ensures plans == [] || !AllRecognised(OfPlans(plans)) ==> verdict.None? && exit != 0
    ensures plans == [] ==> exit == EXIT_EMPTY
    ensures plans != [] && !AllRecognised(OfPlans(plans)) ==> exit == EXIT_UNKNOWN_FORMAT
    ensures plans != [] && AllRecognised(OfPlans(plans)) ==>
              && verdict.Some? && verdict.value.schema == SCHEMA
              && verdict.value.modules == SortByName(OfPlans(plans))
              && Counts(verdict.value.counts, OfPlans(plans))
              && (forall r :: CountIn(verdict.value.counts, r) == CountPlans(plans, r))
              && exit == (if exists i :: 0 <= i < |OfPlans(plans)| && OfPlans(plans)[i].status == FINISHED
                          then 0 else EXIT_EMPTY)
  {
    if plans == [] { return EXIT_EMPTY, None; }
    var t := Tally(0, map[], 0, []);
    for k := 0 to |plans|
      invariant TallyOf(t, OfPlans(plans[..k]))
    {
      var one := OfModules(plans[k].modules);
      assert plans[..k + 1][..k] == plans[..k];
      assert OfPlans(plans[..k + 1]) == OfPlans(plans[..k]) + one;
      var ok;
      ok, t := ReadPlan(t, OfPlans(plans[..k]), plans[k]);
      if !ok {
        PlansGrow(plans, k + 1);
        RefusedPart(OfPlans(plans[..k]), one, OfPlans(plans));
        return EXIT_UNKNOWN_FORMAT, None;
      }
    }
    assert plans[..|plans|] == plans;
    UnfinishedAll(OfPlans(plans));
    forall r ensures CountIn(t.counts, r) == CountPlans(plans, r) { PlansCount(plans, r); }
    verdict := Some(Verdict(SCHEMA, SortByName(t.entries), t.counts));
    if t.total == 0 { return EXIT_EMPTY, verdict; }
    if t.unfinished == t.total { return EXIT_EMPTY, verdict; }
    exit := 0;
  }
}
