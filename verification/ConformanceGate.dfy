/** The two stages together: what it takes for a release to be cleared. */
module ConformanceGate {
  import opened Texts
  import opened ConformanceReport
  import opened ConformanceVerdict

  predicate SomeFinished(es: seq<Entry>) {
    exists i :: 0 <= i < |es| && es[i].status == FINISHED
  }

  /** The release rule, stated on what the suite holds and what the waiver file says. */
  predicate Clear(plans: seq<Plan>, file: Option<seq<WaiverEntry>>, age: Option<real>, maxAge: Option<real>) {
    var es := OfPlans(plans);
    && plans != [] && AllRecognised(es) && SomeFinished(es)
    && file.Some? && WellFormed(file.value) && AllWaived(es, file.value)
    && age.Some? && (maxAge.Some? ==> age.value <= maxAge.value)
  }

  /** Sorting the lines changes neither what must be waived nor whether there are any. */
  lemma SortedWaived(es: seq<Entry>, ws: seq<WaiverEntry>)
    ensures AllWaived(SortByName(es), ws) <==> AllWaived(es, ws)
    ensures SortByName(es) == [] <==> es == []
  {
    SortIs(es);
    var sorted := SortByName(es);
    if AllWaived(es, ws) { SameLines(es, sorted, ws); }
    if AllWaived(sorted, ws) { SameLines(sorted, es, ws); }
  }

  lemma SameLines(a: seq<Entry>, b: seq<Entry>, ws: seq<WaiverEntry>)
    requires multiset(a) == multiset(b) && AllWaived(a, ws)
    ensures AllWaived(b, ws)
  {
    forall i | 0 <= i < |b| && !IsGreen(b[i]) ensures Waives(ws, Label(b[i])) {
      assert b[i] in multiset(a);
      var j :| 0 <= j < |a| && a[j] == b[i];
    }
  }

  // ----- the rule in terms of the suite and the waiver file -----

  /** A status and a result the gate knows; no result at all is one of them. */
  predicate Readable(info: Info) {
    && info.status.Text?
    && info.status.text in {"NOT_YET_CREATED", "CREATED", "CONFIGURED", "RUNNING", "WAITING", "INTERRUPTED", "FINISHED"}
    && (info.result.Text? ==>
          info.result.text in {"", "PASSED", "FAILED", "WARNING", "REVIEW", "SKIPPED", "UNKNOWN"})
  }

  predicate Passing(info: Info) {
    info.result.Text? && info.result.text in {"PASSED", "REVIEW", "WARNING", "SKIPPED"}
  }

  /** The name a waiver must carry for an instance: its module's, its own when the
      module has none, and a question mark when neither has one. */
  predicate CalledBy(m: Module, info: Info, name: string) {
    if m.testModule.Null? then name == "None"
    else if m.testModule.Text? && m.testModule.text != "" then name == m.testModule.text
    else if info.testName.Null? then name == "None"
    else if info.testName.Text? && info.testName.text != "" then name == info.testName.text
    else name == "?"
  }

  /** A waiver for an instance that says who decided it, why, and when. */
  predicate WaivedBy(w: WaiverEntry, m: Module, info: Info) {
    && w.Waiver? && w.mod.Some? && CalledBy(m, info, w.mod.value)
    && w.ticket.Some? && w.ticket.value != "" && w.reason.Some? && w.reason.value != ""
    && w.recorded.Some? && w.recorded.value != ""
  }

  /** What it takes, spelled out on every instance of every module of every plan. */
  ghost predicate MayRelease(plans: seq<Plan>, file: Option<seq<WaiverEntry>>, age: Option<real>, maxAge: Option<real>) {
    && (forall m, info :: Holds(plans, m, info) ==> Readable(info))
    && (exists m, info :: Holds(plans, m, info) && info.status == Text("FINISHED"))
    && file.Some? && WellFormed(file.value)
    && (forall m, info :: Holds(plans, m, info) ==>
          Passing(info) || exists k :: 0 <= k < |file.value| && WaivedBy(file.value[k], m, info))
    && age.Some? && (maxAge.Some? ==> age.value <= maxAge.value)
  }

  /** One line, in terms of the instance it was read from. */
  lemma LineIs(m: Module, info: Info)
    ensures var e := EntryOf(m, info);
            && (Recognised(e) <==> Readable(info)) && (e.status == FINISHED <==> info.status == Text("FINISHED"))
            && (IsGreen(e) <==> Passing(info)) && CalledBy(m, info, Label(e))
  {
    var e := EntryOf(m, info);
    assert "" !in KNOWN_STATUSES && "None" !in KNOWN_STATUSES by {
      assert forall x :: x in KNOWN_STATUSES ==> |x| > 4;
    }
    assert "None" != FINISHED && "" != FINISHED;
    assert "UNKNOWN" == KNOWN_RESULTS[5] && "PASSED" == KNOWN_RESULTS[0] && "FAILED" == KNOWN_RESULTS[1];
    assert "WARNING" == KNOWN_RESULTS[2] && "REVIEW" == KNOWN_RESULTS[3] && "SKIPPED" == KNOWN_RESULTS[4];
    assert "UNKNOWN" !in GREEN;
  }

  lemma CalledOnce(m: Module, info: Info, a: string, b: string)
    requires CalledBy(m, info, a) && CalledBy(m, info, b)
    ensures a == b
  {
  }

  /** Being waived, line by line and instance by instance. */
  lemma WaivedLine(ws: seq<WaiverEntry>, m: Module, info: Info)
    requires WellFormed(ws)
    ensures Waives(ws, Label(EntryOf(m, info))) <==> exists k :: 0 <= k < |ws| && WaivedBy(ws[k], m, info)
  {
    hide EntryOf;
    hide Label;
    var name := Label(EntryOf(m, info));
    LineIs(m, info);
    if Waives(ws, name) {
      var k :| 0 <= k < |ws| && ws[k].Waiver? && ws[k].mod == Some(name);
      assert Complete(ws[k]);
      assert WaivedBy(ws[k], m, info);
    }
    if k :| 0 <= k < |ws| && WaivedBy(ws[k], m, info) {
      CalledOnce(m, info, ws[k].mod.value, name);
    }
  }

  lemma LinesRecognised(plans: seq<Plan>)
    ensures AllRecognised(OfPlans(plans)) <==> forall m, info :: Holds(plans, m, info) ==> Readable(info)
  {
    hide EntryOf;
    hide Holds;
    hide Readable;
    hide Recognised;
    hide OfPlans;
    var es := OfPlans(plans);
    if AllRecognised(es) {
      forall m, info | Holds(plans, m, info) ensures Readable(info) {
        LinesAre(plans, EntryOf(m, info));
        LineIs(m, info);
      }
    } else {
      var i :| 0 <= i < |es| && !Recognised(es[i]);
      LinesAre(plans, es[i]);
      var m, info :| Holds(plans, m, info) && EntryOf(m, info) == es[i];
      LineIs(m, info);
    }
  }

  lemma LinesFinished(plans: seq<Plan>)
    ensures SomeFinished(OfPlans(plans)) <==> exists m, info :: Holds(plans, m, info) && info.status == Text("FINISHED")
  {
    hide EntryOf;
    hide Holds;
    hide OfPlans;
    var es := OfPlans(plans);
    if i :| 0 <= i < |es| && es[i].status == FINISHED {
      LinesAre(plans, es[i]);
      var m, info :| Holds(plans, m, info) && EntryOf(m, info) == es[i];
      LineIs(m, info);
    }
    if m, info :| Holds(plans, m, info) && info.status == Text("FINISHED") {
      LineIs(m, info);
      LinesAre(plans, EntryOf(m, info));
      var i :| 0 <= i < |es| && es[i] == EntryOf(m, info);
    }
  }

  lemma LinesWaived(plans: seq<Plan>, ws: seq<WaiverEntry>)
    requires WellFormed(ws)
    ensures AllWaived(OfPlans(plans), ws) <==>
            forall m, info :: Holds(plans, m, info) ==>
              Passing(info) || exists k :: 0 <= k < |ws| && WaivedBy(ws[k], m, info)
  {
    hide EntryOf;
    hide Holds;
    hide OfPlans;
    hide WaivedBy;
    hide Passing;
    hide IsGreen;
    hide Waives;
    hide Label;
    var es := OfPlans(plans);
    if AllWaived(es, ws) {
      forall m, info | Holds(plans, m, info)
        ensures Passing(info) || exists k :: 0 <= k < |ws| && WaivedBy(ws[k], m, info)
      {
        LinesAre(plans, EntryOf(m, info));
        LineIs(m, info);
        WaivedLine(ws, m, info);
        var i :| 0 <= i < |es| && es[i] == EntryOf(m, info);
      }
    } else {
      var i :| 0 <= i < |es| && !IsGreen(es[i]) && !Waives(ws, Label(es[i]));
      LinesAre(plans, es[i]);
      var m, info :| Holds(plans, m, info) && EntryOf(m, info) == es[i];
      LineIs(m, info);
      WaivedLine(ws, m, info);
    }
  }

  /** The two ways of saying it agree. */
  lemma ClearIs(plans: seq<Plan>, file: Option<seq<WaiverEntry>>, age: Option<real>, maxAge: Option<real>)
    ensures Clear(plans, file, age, maxAge) <==> MayRelease(plans, file, age, maxAge)
  {
    hide AllRecognised;
    hide SomeFinished;
    hide AllWaived;
    hide WellFormed;
    hide OfPlans;
    LinesRecognised(plans);
    LinesFinished(plans);
    if file.Some? && WellFormed(file.value) { LinesWaived(plans, file.value); }
    if m, info :| Holds(plans, m, info) && info.status == Text("FINISHED") { assert plans != []; }
  }

  /** Report, then verdict on the file the report wrote. Both exit 0 exactly when the
      run may be released. */
  method Release(plans: seq<Plan>, file: Option<seq<WaiverEntry>>, age: Option<real>, maxAge: Option<real>)
    returns (reportExit: int, verdictExit: int)
    ensures reportExit == 0 && verdictExit == 0 <==> MayRelease(plans, file, age, maxAge)
  {
    hide MayRelease;
    hide WellFormed;
    hide AllWaived;
    hide AllRecognised;
    hide Counts;
    hide Waives;
    var verdict;
    reportExit, verdict := Report(plans);
    var outcome := Decide(file, if verdict.Some? then Read(verdict.value) else Unreadable, age, maxAge);
    verdictExit := outcome.exit;
    if verdict.Some? && file.Some? {
      SortedWaived(OfPlans(plans), file.value);
    }
    ClearIs(plans, file, age, maxAge);
  }

  /** The case the gate exists for: a finished module that failed, and no waivers. */
  lemma FailureIsHeld(m: Module, info: Info, age: Option<real>, maxAge: Option<real>)
    requires info in m.instances && info.result == Text("FAILED")
    ensures !MayRelease([Plan([m])], Some([]), age, maxAge)
  {
    assert [Plan([m])][0].modules[0] == m;
    assert Holds([Plan([m])], m, info);
  }

  /** In a clear run every module that is not green is named by exactly one waiver,
      which carries a ticket, a reason and a date. */
  lemma ClearMeans(plans: seq<Plan>, file: Option<seq<WaiverEntry>>, age: Option<real>, maxAge: Option<real>, i: nat)
    requires Clear(plans, file, age, maxAge)
    requires i < |OfPlans(plans)| && !IsGreen(OfPlans(plans)[i])
    ensures exists k :: 0 <= k < |file.value| && Complete(file.value[k])
              && file.value[k].mod == Some(Label(OfPlans(plans)[i]))
              && forall j :: 0 <= j < |file.value| && j != k ==> file.value[j].mod != file.value[k].mod
  {
    var ws, name := file.value, Label(OfPlans(plans)[i]);
    assert Waives(ws, name);
    var k :| 0 <= k < |ws| && ws[k].Waiver? && ws[k].mod == Some(name);
    forall j | 0 <= j < |ws| && j != k ensures ws[j].mod != ws[k].mod {
      assert Complete(ws[j]) && Complete(ws[k]);
    }
  }
}
