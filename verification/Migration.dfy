/** The migration driver: which scripts run, in which order, and which versions are recorded on the way. */
module Migrations {
  import opened Sequences
  import opened Wrappers

  /** Versions, by their order. */
  type Version = int
  type Cube = string

  /** A file of a migration directory: its name, and the version and the mode that the name says, if it says any. */
  datatype File = File(name: string, version: Option<Version>, mode: string)

  datatype Script = Script(version: Version, name: string)

  // ----- the order of scripts

  /** The order of Python strings. */
  predicate Before(a: string, b: string) {
    b != "" && (a == "" || a[0] < b[0] || (a[0] == b[0] && Before(a[1..], b[1..])))
  }

  lemma {:induction false} BeforeIsTotal(a: string, b: string)
    ensures Before(a, b) || Before(b, a) || a == b
  {
    if a != "" && b != "" && a[0] == b[0] {
      BeforeIsTotal(a[1..], b[1..]);
      assert a == [a[0]] + a[1..] && b == [b[0]] + b[1..];
    }
  }

  lemma {:induction false} BeforeIsTransitive(a: string, b: string, c: string)
    requires Before(a, b) && Before(b, c)
    ensures Before(a, c)
  {
    if a != "" && a[0] == b[0] == c[0] {
      BeforeIsTransitive(a[1..], b[1..], c[1..]);
    }
  }

  /** Scripts run in the order of their versions, those of one version in the order of their names. */
  predicate Upto(a: Script, b: Script) {
    a.version < b.version || (a.version == b.version && (a.name == b.name || Before(a.name, b.name)))
  }

  predicate Sorted(s: seq<Script>) {
    forall i, j | 0 <= i < j < |s| :: Upto(s[i], s[j])
  }

  function Insert(x: Script, s: seq<Script>): seq<Script> {
    if s == [] || Upto(x, s[0]) then [x] + s else [s[0]] + Insert(x, s[1..])
  }

  /** `sorted` */
  function Sort(s: seq<Script>): seq<Script> {
    if s == [] then [] else Insert(s[|s| - 1], Sort(s[..|s| - 1]))
  }

  lemma UptoIsTransitive(a: Script, b: Script, c: Script)
    requires Upto(a, b) && Upto(b, c)
    ensures Upto(a, c)
  {
    if a.version == b.version == c.version && a.name != b.name && b.name != c.name {
      BeforeIsTransitive(a.name, b.name, c.name);
    }
  }

  lemma {:induction false} InsertSorts(x: Script, s: seq<Script>)
    requires Sorted(s)
    ensures Sorted(Insert(x, s)) && multiset(Insert(x, s)) == multiset(s) + multiset{x}
  {
    if s == [] {
    } else if Upto(x, s[0]) {
      forall i | 0 <= i < |s| ensures Upto(x, s[i]) {
        if i > 0 {
          UptoIsTransitive(x, s[0], s[i]);
        }
      }
    } else {
      var rest := Insert(x, s[1..]);
      InsertSorts(x, s[1..]);
      BeforeIsTotal(x.name, s[0].name);
      assert s == [s[0]] + s[1..];
      forall y | y in rest ensures Upto(s[0], y) {
        SameElements(rest, s[1..], x, y);
      }
      hide Insert, Upto;
    }
  }

  lemma SameElements(rest: seq<Script>, s: seq<Script>, x: Script, y: Script)
    requires multiset(rest) == multiset(s) + multiset{x} && y in rest
    ensures y == x || y in s
  {
    assert y in multiset(rest);
  }

  lemma {:induction false} SortSorts(s: seq<Script>)
    ensures Sorted(Sort(s)) && multiset(Sort(s)) == multiset(s)
  {
    if s != [] {
      SortSorts(s[..|s| - 1]);
      InsertSorts(s[|s| - 1], Sort(s[..|s| - 1]));
      assert s == s[..|s| - 1] + [s[|s| - 1]];
    }
  }

  /** The scripts for versions above `v`. */
  function Above(s: seq<Script>, v: Version): seq<Script> {
    if s == [] then []
    else if s[0].version > v then [s[0]] + Above(s[1..], v)
    else Above(s[1..], v)
  }

  lemma {:induction false} AboveOfInsert(x: Script, s: seq<Script>, v: Version)
    requires Sorted(s)
    ensures Above(Insert(x, s), v) == if x.version > v then Insert(x, Above(s, v)) else Above(s, v)
  {
    if s == [] {
      assert Insert(x, s) == [x];
    } else if Upto(x, s[0]) {
      assert ([x] + s)[1..] == s;
      if x.version > v {
        AllAbove(s, v);
      }
    } else {
      AboveOfInsert(x, s[1..], v);
      assert ([s[0]] + Insert(x, s[1..]))[1..] == Insert(x, s[1..]);
      BeforeIsTotal(x.name, s[0].name);
      if s[0].version > v {
        var above := [s[0]] + Above(s[1..], v);
        assert above[0] == s[0] && above[1..] == Above(s[1..], v);
        assert Insert(x, above) == [s[0]] + Insert(x, Above(s[1..], v));
      }
    }
  }

  lemma {:induction false} AllAbove(s: seq<Script>, v: Version)
    requires Sorted(s) && s != [] && s[0].version > v
    ensures Above(s, v) == s
  {
    if |s| > 1 {
      assert Upto(s[0], s[1]);
      AllAbove(s[1..], v);
    }
    assert s == [s[0]] + s[1..];
  }

  // ----- the scripts of an upgrade

  /** The script that a file is, if it is one for this upgrade. */
  function ScriptOf(f: File, accepts: string -> bool, from: Version, to: Version): Option<Script> {
    if f.version.Some? && accepts(f.mode) && from < f.version.value <= to then Some(Script(f.version.value, f.name))
        else None
  }

  function Select(files: seq<File>, accepts: string -> bool, from: Version, to: Version): seq<Script> {
    if files == [] then []
    else
      var last := ScriptOf(files[|files| - 1], accepts, from, to);
      Select(files[..|files| - 1], accepts, from, to) + if last.Some? then [last.value] else []
  }

  /** What `filter_scripts` gives. */
  function Scripts(files: seq<File>, accepts: string -> bool, from: Version, to: Version): seq<Script> {
    if from == to then [] else Sort(Select(files, accepts, from, to))
  }

  method FilterScripts(files: seq<File>, accepts: string -> bool, from: Version, to: Version) returns (r: seq<Script>)
    requires from <= to
    ensures r == Scripts(files, accepts, from, to)
  {
    if from == to {
      return [];
    }
    var result: seq<Script> := [];
    for i := 0 to |files|
      invariant result == Select(files[..i], accepts, from, to)
    {
      assert files[..i + 1][..i] == files[..i];
      var f := files[i];
      if f.version.Some? && accepts(f.mode) && f.version.value > from && f.version.value <= to {
        result := result + [Script(f.version.value, f.name)];
      }
    }
    assert files[..|files|] == files;
    r := Sort(result);
  }

  lemma {:induction false} SelectIs(files: seq<File>, accepts: string -> bool, from: Version, to: Version, s: Script)
    ensures s in Select(files, accepts, from, to) <==> exists f <- files :: ScriptOf(f, accepts, from, to) == Some(s)
  {
    if files != [] {
      SelectIs(files[..|files| - 1], accepts, from, to, s);
      assert forall f :: f in files <==> f in files[..|files| - 1] || f == files[|files| - 1];
    }
  }

  /** `filter_scripts` gives the accepted scripts for the versions above the one and up to the other, in order. */
  lemma ScriptsAre(files: seq<File>, accepts: string -> bool, from: Version, to: Version)
    requires from <= to
    ensures Sorted(Scripts(files, accepts, from, to))
    ensures forall s :: s in Scripts(files, accepts, from, to) <==>
              exists f <- files :: ScriptOf(f, accepts, from, to) == Some(s)
  {
    SortSorts(Select(files, accepts, from, to));
    forall s
      ensures s in Scripts(files, accepts, from, to) <==> exists f <- files :: ScriptOf(f, accepts, from, to) == Some(s)
    {
      SelectIs(files, accepts, from, to, s);
      assert s in Sort(Select(files, accepts, from, to)) <==> s in multiset(Sort(Select(files, accepts, from, to)));
    }
  }

  lemma {:induction false} AboveOfConcat(a: seq<Script>, b: seq<Script>, v: Version)
    ensures Above(a + b, v) == Above(a, v) + Above(b, v)
  {
    if a == [] {
      assert a + b == b;
    } else {
      AboveOfConcat(a[1..], b, v);
      assert (a + b)[1..] == a[1..] + b && (a + b)[0] == a[0];
      Assoc([a[0]], Above(a[1..], v), Above(b, v));
    }
  }

  lemma {:induction false} SelectAbove(files: seq<File>, accepts: string -> bool, from: Version, v: Version,
                                       to: Version)
    requires from <= v
    ensures Select(files, accepts, v, to) == Above(Select(files, accepts, from, to), v)
  {
    if files != [] {
      var before := files[..|files| - 1];
      var last := ScriptOf(files[|files| - 1], accepts, from, to);
      SelectAbove(before, accepts, from, v, to);
      AboveOfConcat(Select(before, accepts, from, to), if last.Some? then [last.value] else [], v);
    }
  }

  lemma {:induction false} SortAbove(s: seq<Script>, v: Version)
    ensures Sort(Above(s, v)) == Above(Sort(s), v)
  {
    if s != [] {
      var before, last := s[..|s| - 1], s[|s| - 1];
      SortAbove(before, v);
      SortAboveMore(before, last, v);
      assert s == before + [last];
    }
  }

  lemma SortAboveMore(before: seq<Script>, last: Script, v: Version)
    requires Sort(Above(before, v)) == Above(Sort(before), v)
    ensures Sort(Above(before + [last], v)) == Above(Sort(before + [last]), v)
  {
    hide Sort, Above, Insert, Sorted;
    SortSorts(before);
    AboveOfInsert(last, Sort(before), v);
    AboveOfLast(before, last, v);
    SortOfMore(before, last);
    SortOfMore(Above(before, v), last);
  }

  lemma AboveOfLast(before: seq<Script>, last: Script, v: Version)
    ensures Above(before + [last], v) == if last.version > v then Above(before, v) + [last] else Above(before, v)
  {
    AboveOfConcat(before, [last], v);
    assert Above([last], v) == if last.version > v then [last] else [];
  }

  lemma SortOfMore(s: seq<Script>, last: Script)
    ensures Sort(s + [last]) == Insert(last, Sort(s))
  {
    assert (s + [last])[..|s|] == s;
  }

  /** The scripts from a later version on are the scripts above that version. */
  lemma ScriptsFrom(files: seq<File>, accepts: string -> bool, from: Version, v: Version, to: Version)
    requires from <= v < to
    ensures Scripts(files, accepts, v, to) == Above(Scripts(files, accepts, from, to), v)
  {
    SelectAbove(files, accepts, from, v, to);
    SortAbove(Select(files, accepts, from, to), v);
  }

  // ----- the run of an upgrade

  datatype Event = Bootstrap | Ran(cube: Cube, script: Script) | Recorded(cube: Cube, version: Version)

  /** What is left to do, when the last script that ran was one for `prev`. */
  function PlanFrom(cube: Cube, scripts: seq<Script>, prev: Option<Version>, to: Version): seq<Event> {
    if scripts == [] then [Recorded(cube, to)]
    else
      Pending(cube, scripts[0], prev) + [Ran(cube, scripts[0])]
      + PlanFrom(cube, scripts[1..], Some(scripts[0].version), to)
  }

  /** A version is recorded when the first script for a later one is up. */
  function Pending(cube: Cube, next: Script, prev: Option<Version>): seq<Event> {
    if prev.Some? && next.version != prev.value then [Recorded(cube, prev.value)] else []
  }

  /** The upgrade of a cube. */
  function Plan(cube: Cube, scripts: seq<Script>, to: Version): seq<Event> {
    PlanFrom(cube, scripts, None, to)
  }

  datatype Upgrade = Upgrade(cube: Cube, files: seq<File>, from: Version, to: Version)

  function PlanOf(u: Upgrade, accepts: string -> bool): seq<Event> {
    Plan(u.cube, Scripts(u.files, accepts, u.from, u.to), u.to)
  }

  function FullPlan(ups: seq<Upgrade>, accepts: string -> bool): seq<Event> {
    if ups == [] then [] else PlanOf(ups[0], accepts) + FullPlan(ups[1..], accepts)
  }

  function BootstrapPlan(ups: seq<Upgrade>, accepts: string -> bool): seq<Event> {
    if accepts("Any") && exists u <- ups :: u.cube == "cubicweb" then [Bootstrap] else []
  }

  /** The log of what happened. A script or the recording of a version may fail at any point. */
  class Migration {
    var log: seq<Event>
    const crashes: seq<Event> -> bool

    constructor (crashes: seq<Event> -> bool)
      ensures log == [] && this.crashes == crashes
    {
      this.log, this.crashes := [], crashes;
    }

    /** `cmd_process_script` or `cube_upgraded` */
    method Do(e: Event) returns (ok: bool)
      modifies this
      ensures ok == !crashes(old(log))
      ensures log == if ok then old(log) + [e] else old(log)
    {
      ok := !crashes(log);
      if ok {
        log := log + [e];
      }
    }

    /** The upgrade of one cube, in the loop of `migrate`. */
    method MigrateCube(u: Upgrade, accepts: string -> bool) returns (ok: bool)
      requires u.from <= u.to
      modifies this
      ensures ok ==> log == old(log) + PlanOf(u, accepts)
      ensures !ok ==> old(log) <= log < old(log) + PlanOf(u, accepts) && crashes(log)
    {
      var scripts := FilterScripts(u.files, accepts, u.from, u.to);
      var prev: Option<Version> := None;
      ghost var all := old(log) + PlanOf(u, accepts);
      for i := 0 to |scripts|
        invariant Leads(old(log), log, PlanFrom(u.cube, scripts[i..], prev, u.to), all)
      {
        ghost var after := PlanFrom(u.cube, scripts[i + 1..], Some(scripts[i].version), u.to);
        NextScript(u.cube, scripts, i, prev, u.to);
        hide Leads, PlanFrom;
        if prev.Some? && scripts[i].version != prev.value {
          OneStep(old(log), log, Recorded(u.cube, prev.value), [Ran(u.cube, scripts[i])] + after, all);
          ok := Do(Recorded(u.cube, prev.value));
          if !ok {
            return;
          }
        }
        OneStep(old(log), log, Ran(u.cube, scripts[i]), after, all);
        prev := Some(scripts[i].version);
        ok := Do(Ran(u.cube, scripts[i]));
        if !ok {
          return;
        }
      }
      ok := Do(Recorded(u.cube, u.to));
    }

    /** `migrate` */
    method Migrate(ups: seq<Upgrade>, accepts: string -> bool) returns (ok: bool)
      requires forall u <- ups :: u.from <= u.to
      modifies this
      ensures ok ==> log == old(log) + (BootstrapPlan(ups, accepts) + FullPlan(ups, accepts))
      ensures !ok ==>
                old(log) <= log < old(log) + (BootstrapPlan(ups, accepts) + FullPlan(ups, accepts)) && crashes(log)
    {
      ghost var all := old(log) + (BootstrapPlan(ups, accepts) + FullPlan(ups, accepts));
      ok := RunBootstrap(ups, accepts);
      ManySteps(old(log), old(log), log, BootstrapPlan(ups, accepts), FullPlan(ups, accepts), all);
      if !ok {
        return;
      }
      assert ups[0..] == ups;
      hide Leads, FullPlan, PlanOf, BootstrapPlan;
      for i := 0 to |ups|
        invariant Leads(old(log), log, FullPlan(ups[i..], accepts), all)
      {
        NextUpgrade(ups, i, accepts);
        ghost var log0 := log;
        ok := MigrateCube(ups[i], accepts);
        ManySteps(old(log), log0, log, PlanOf(ups[i], accepts), FullPlan(ups[i + 1..], accepts), all);
        if !ok {
          return;
        }
      }
      NothingLeft(old(log), log, accepts, ups, all);
      ok := true;
    }

    method RunBootstrap(ups: seq<Upgrade>, accepts: string -> bool) returns (ok: bool)
      modifies this
      ensures ok ==> log == old(log) + BootstrapPlan(ups, accepts)
      ensures !ok ==> old(log) <= log < old(log) + BootstrapPlan(ups, accepts) && crashes(log)
    {
      ok := true;
      if accepts("Any") && exists u <- ups :: u.cube == "cubicweb" {
        ok := Do(Bootstrap);
      }
    }
  }

  /** What is left completes the log. */
  ghost predicate Leads(log0: seq<Event>, log: seq<Event>, left: seq<Event>, all: seq<Event>) {
    log0 <= log && log + left == all
  }

  lemma OneStep(log0: seq<Event>, log: seq<Event>, e: Event, left: seq<Event>, all: seq<Event>)
    requires Leads(log0, log, [e] + left, all)
    ensures Leads(log0, log + [e], left, all) && log0 <= log < all
  {
    assert (log + [e]) + left == log + ([e] + left);
  }

  lemma ManySteps(log0: seq<Event>, log: seq<Event>, log': seq<Event>, plan: seq<Event>, left: seq<Event>,
                  all: seq<Event>)
    requires Leads(log0, log, plan + left, all)
    ensures log' == log + plan ==> Leads(log0, log', left, all)
    ensures log <= log' < log + plan ==> log0 <= log' < all
  {
    assert (log + plan) + left == log + (plan + left);
  }

  lemma NothingLeft(log0: seq<Event>, log: seq<Event>, accepts: string -> bool, ups: seq<Upgrade>, all: seq<Event>)
    requires Leads(log0, log, FullPlan(ups[|ups|..], accepts), all)
    ensures log == all
  {
    assert ups[|ups|..] == [];
  }

  lemma NextUpgrade(ups: seq<Upgrade>, i: nat, accepts: string -> bool)
    requires i < |ups|
    ensures FullPlan(ups[i..], accepts) == PlanOf(ups[i], accepts) + FullPlan(ups[i + 1..], accepts)
  {
    assert ups[i..][0] == ups[i] && ups[i..][1..] == ups[i + 1..];
  }

  lemma NextScript(cube: Cube, scripts: seq<Script>, i: nat, prev: Option<Version>, to: Version)
    requires i < |scripts|
    ensures var next, after := scripts[i], PlanFrom(cube, scripts[i + 1..], Some(scripts[i].version), to);
            PlanFrom(cube, scripts[i..], prev, to)
            == if prev.Some? && next.version != prev.value then [Recorded(cube, prev.value)]
                + ([Ran(cube, next)] + after)
               else [Ran(cube, next)] + after
  {
    assert scripts[i..][0] == scripts[i] && scripts[i..][1..] == scripts[i + 1..];
  }

  // ----- what is recorded, and when

  predicate Within(scripts: seq<Script>, prev: Option<Version>, to: Version) {
    && Sorted(scripts) && (forall s <- scripts :: s.version <= to)
    && (prev.Some? ==> prev.value <= to && forall s <- scripts :: prev.value <= s.version)
  }

  lemma WithinRest(scripts: seq<Script>, prev: Option<Version>, to: Version)
    requires Within(scripts, prev, to) && scripts != []
    ensures Within(scripts[1..], Some(scripts[0].version), to)
  {
    forall s | s in scripts[1..] ensures scripts[0].version <= s.version {
      var i :| 0 <= i < |scripts[1..]| && scripts[1..][i] == s;
      assert Upto(scripts[0], scripts[i + 1]);
    }
  }

  /** The versions that are recorded are not below the last script's, increase strictly, and end at the version
      that the cube is upgraded to. */
  lemma {:induction false} RecordsIncrease(cube: Cube, scripts: seq<Script>, prev: Option<Version>, to: Version)
    requires Within(scripts, prev, to)
    ensures var plan := PlanFrom(cube, scripts, prev, to);
            && plan[|plan| - 1] == Recorded(cube, to)
            && (forall i | 0 <= i < |plan| && plan[i].Recorded? ::
                  plan[i].version <= to && (prev.Some? ==> plan[i].version >= prev.value))
            && (forall i, j | 0 <= i < j < |plan| && plan[i].Recorded? && plan[j].Recorded? ::
                plan[i].version < plan[j].version)
    decreases |scripts|
  {
    if scripts != [] {
      WithinRest(scripts, prev, to);
      RecordsIncrease(cube, scripts[1..], Some(scripts[0].version), to);
    }
  }

  /** A version is recorded after all of the scripts up to that version ran, and before any script above it. */
  lemma {:induction false} RecordedAfterScripts(cube: Cube, scripts: seq<Script>, prev: Option<Version>, to: Version,
                                                i: nat)
    requires Within(scripts, prev, to)
    requires i < |PlanFrom(cube, scripts, prev, to)| && PlanFrom(cube, scripts, prev, to)[i].Recorded?
    ensures var plan := PlanFrom(cube, scripts, prev, to);
            forall s: Script :: Ran(cube, s) in plan[..i] <==> s in scripts && s.version <= plan[i].version
    decreases |scripts|
  {
    if scripts != [] {
      var head := Pending(cube, scripts[0], prev) + [Ran(cube, scripts[0])];
      var rest := PlanFrom(cube, scripts[1..], Some(scripts[0].version), to);
      var plan := PlanFrom(cube, scripts, prev, to);
      assert plan == head + rest;
      WithinRest(scripts, prev, to);
      if i < |head| {
        assert i == 0 && plan[..i] == [];
        assert forall s <- scripts :: s.version >= scripts[0].version by {
          assert forall s <- scripts :: s == scripts[0] || s in scripts[1..];
        }
      } else {
        RecordedAfterScripts(cube, scripts[1..], Some(scripts[0].version), to, i - |head|);
        RecordsIncrease(cube, scripts[1..], Some(scripts[0].version), to);
        assert plan[..i] == head + rest[..i - |head|];
        assert forall s :: s in scripts <==> s == scripts[0] || s in scripts[1..];
      }
    }
  }

  lemma ScriptsWithin(u: Upgrade, accepts: string -> bool)
    requires u.from <= u.to
    ensures Within(Scripts(u.files, accepts, u.from, u.to), None, u.to)
    ensures forall s <- Scripts(u.files, accepts, u.from, u.to) :: u.from < s.version
  {
    var scripts := Scripts(u.files, accepts, u.from, u.to);
    ScriptsAre(u.files, accepts, u.from, u.to);
    forall s | s in scripts ensures u.from < s.version <= u.to {
      var f :| f in u.files && ScriptOf(f, accepts, u.from, u.to) == Some(s);
    }
  }

  /** The upgrade of a cube: what `RecordsIncrease` and `RecordedAfterScripts` say of its plan. */
  lemma UpgradeRecords(u: Upgrade, accepts: string -> bool, i: nat)
    requires u.from <= u.to && i < |PlanOf(u, accepts)| && PlanOf(u, accepts)[i].Recorded?
    ensures var plan := PlanOf(u, accepts);
            && plan[|plan| - 1] == Recorded(u.cube, u.to) && u.from <= plan[i].version <= u.to
            && (forall j | 0 <= j < i && plan[j].Recorded? :: plan[j].version < plan[i].version)
            && (forall s: Script :: Ran(u.cube, s) in plan[..i] <==>
                  s.version <= plan[i].version && exists f <- u.files :: ScriptOf(f, accepts, u.from, u.to) == Some(s))
  {
    var scripts := Scripts(u.files, accepts, u.from, u.to);
    ScriptsWithin(u, accepts);
    ScriptsAre(u.files, accepts, u.from, u.to);
    RecordsIncrease(u.cube, scripts, None, u.to);
    RecordedAfterScripts(u.cube, scripts, None, u.to, i);
    RecordedFrom(u.cube, scripts, None, u.to, u.from, i);
  }

  // ----- a restart

  /** The version that was last recorded. */
  function LastRecorded(events: seq<Event>): Option<Version> {
    if events == [] then None
    else
      var e := events[|events| - 1];
      if e.Recorded? then Some(e.version) else LastRecorded(events[..|events| - 1])
  }

  lemma {:induction false} LastOfConcat(a: seq<Event>, b: seq<Event>)
    ensures LastRecorded(a + b) == if LastRecorded(b).Some? then LastRecorded(b) else LastRecorded(a)
  {
    if b == [] {
      assert a + b == a;
    } else {
      LastOfConcat(a, b[..|b| - 1]);
      assert (a + b)[..|a + b| - 1] == a + b[..|b| - 1];
    }
  }

  lemma {:induction false} LastIsRecorded(events: seq<Event>)
    ensures LastRecorded(events).Some? ==>
              exists i | 0 <= i < |events| :: events[i].Recorded? && events[i].version == LastRecorded(events).value
  {
    if events != [] && !events[|events| - 1].Recorded? {
      LastIsRecorded(events[..|events| - 1]);
    }
  }

  /** After a crash at any point, what is left of the plan after the version that was recorded last is the plan of the
      upgrade from that version. */
  lemma {:induction false} Resume(cube: Cube, scripts: seq<Script>, prev: Option<Version>, to: Version, k: nat)
    returns (j: nat)
    requires Within(scripts, prev, to) && k <= |PlanFrom(cube, scripts, prev, to)|
    requires LastRecorded(PlanFrom(cube, scripts, prev, to)[..k]).Some?
             && LastRecorded(PlanFrom(cube, scripts, prev, to)[..k]).value < to
    ensures var plan := PlanFrom(cube, scripts, prev, to);
            var v := LastRecorded(plan[..k]).value;
            && 0 < j <= k && plan[j - 1] == Recorded(cube, v) && plan[j..] == Plan(cube, Above(scripts, v), to)
    decreases |scripts|, 1
  {
    LastIsRecorded(PlanFrom(cube, scripts, prev, to)[..k]);
    if scripts != [] {
      var head := Pending(cube, scripts[0], prev) + [Ran(cube, scripts[0])];
      var rest := PlanFrom(cube, scripts[1..], Some(scripts[0].version), to);
      if k > |head| && LastRecorded(rest[..k - |head|]).Some? {
        j := ResumeInRest(cube, scripts, prev, to, k, head, rest);
      } else {
        LastInHead(cube, scripts[0], prev, rest, k);
        j := 1;
        hide Sorted, LastRecorded;
        FirstIsAbove(cube, scripts, prev, to);
      }
    }
  }

  lemma {:induction false} ResumeInRest(cube: Cube, scripts: seq<Script>, prev: Option<Version>, to: Version, k: nat,
                                        head: seq<Event>, rest: seq<Event>) returns (j: nat)
    requires Within(scripts, prev, to) && scripts != [] && |head| < k <= |head + rest|
    requires head == Pending(cube, scripts[0], prev) + [Ran(cube, scripts[0])]
    requires rest == PlanFrom(cube, scripts[1..], Some(scripts[0].version), to)
    requires LastRecorded(rest[..k - |head|]).Some? && LastRecorded((head + rest)[..k]).Some?
             && LastRecorded((head + rest)[..k]).value < to
    ensures var v := LastRecorded((head + rest)[..k]).value;
            && 0 < j <= k && (head + rest)[j - 1] == Recorded(cube, v)
                && (head + rest)[j..] == Plan(cube, Above(scripts, v), to)
    decreases |scripts|, 0
  {
    LastThrough(head, rest, k);
    WithinRest(scripts, prev, to);
    hide LastRecorded, Pending;
    j := Resume(cube, scripts[1..], Some(scripts[0].version), to, k - |head|);
    RecordsIncrease(cube, scripts[1..], Some(scripts[0].version), to);
    AboveRest(scripts, rest[j - 1].version);
    hide *;
    Shift(head, rest, j);
    j := j + |head|;
  }

  lemma LastThrough(a: seq<Event>, b: seq<Event>, k: nat)
    requires |a| <= k <= |a + b| && LastRecorded(b[..k - |a|]).Some?
    ensures LastRecorded((a + b)[..k]) == LastRecorded(b[..k - |a|])
  {
    CutConcat(a, b, k);
    LastOfConcat(a, b[..k - |a|]);
  }

  lemma Shift(a: seq<Event>, b: seq<Event>, j: nat)
    requires 0 < j <= |b|
    ensures (a + b)[j + |a| - 1] == b[j - 1] && (a + b)[j + |a|..] == b[j..]
  {
  }

  lemma AboveRest(scripts: seq<Script>, v: Version)
    requires scripts != [] && scripts[0].version <= v
    ensures Above(scripts, v) == Above(scripts[1..], v)
  {
  }

  lemma CutConcat(a: seq<Event>, b: seq<Event>, k: nat)
    requires |a| <= k <= |a + b|
    ensures (a + b)[..k] == a + b[..k - |a|] && (a + b)[k..] == b[k - |a|..]
  {
  }

  lemma FirstIsAbove(cube: Cube, scripts: seq<Script>, prev: Option<Version>, to: Version)
    requires Within(scripts, prev, to) && scripts != [] && prev.Some? && scripts[0].version != prev.value
    ensures var plan := PlanFrom(cube, scripts, prev, to);
            plan[0] == Recorded(cube, prev.value) && plan[1..] == Plan(cube, Above(scripts, prev.value), to)
  {
    var rest := PlanFrom(cube, scripts[1..], Some(scripts[0].version), to);
    AllAbove(scripts, prev.value);
    var plan := PlanFrom(cube, scripts, prev, to);
    assert plan == [Recorded(cube, prev.value)] + [Ran(cube, scripts[0])] + rest;
    assert plan[1..] == [Ran(cube, scripts[0])] + rest;
    assert Pending(cube, scripts[0], None) + [Ran(cube, scripts[0])] == [Ran(cube, scripts[0])];
  }

  lemma LastInHead(cube: Cube, next: Script, prev: Option<Version>, rest: seq<Event>, k: nat)
    requires var head := Pending(cube, next, prev) + [Ran(cube, next)];
             && k <= |head + rest| && LastRecorded((head + rest)[..k]).Some?
             && (k > |head| ==> LastRecorded(rest[..k - |head|]).None?)
    ensures prev.Some? && next.version != prev.value && k >= 1
              && LastRecorded((Pending(cube, next, prev) + [Ran(cube, next)] + rest)[..k]) == prev
  {
    var head := Pending(cube, next, prev) + [Ran(cube, next)];
    LastOfHead(cube, next, prev);
    if k > |head| {
      assert (head + rest)[..k] == head + rest[..k - |head|];
      LastOfConcat(head, rest[..k - |head|]);
    } else {
      assert (head + rest)[..k] == head[..k];
      assert k == |head| ==> head[..k] == head;
      assert k == 1 ==> head[..k] == [head[0]];
    }
  }

  lemma LastOfHead(cube: Cube, next: Script, prev: Option<Version>)
    ensures LastRecorded(Pending(cube, next, prev) + [Ran(cube, next)])
            == if prev.Some? && next.version != prev.value then prev else None
    ensures LastRecorded([Ran(cube, next)]) == None && LastRecorded([]) == None
    ensures forall v :: LastRecorded([Recorded(cube, v)]) == Some(v)
  {
    LastOfConcat(Pending(cube, next, prev), [Ran(cube, next)]);
    LastOfConcat([], [Ran(cube, next)]);
    forall v ensures LastRecorded([Recorded(cube, v)]) == Some(v) {
    }
  }

  /** Restarting the upgrade of a cube from the version that was recorded last runs the scripts above it, in order, and
      completes what the crash left. */
  lemma CrashRestart(u: Upgrade, accepts: string -> bool, k: nat) returns (j: nat)
    requires u.from <= u.to && k <= |PlanOf(u, accepts)|
    requires var last := LastRecorded(PlanOf(u, accepts)[..k]); last.Some? && last.value < u.to
    ensures var v := LastRecorded(PlanOf(u, accepts)[..k]).value;
            && u.from <= v && j <= k && LastRecorded(PlanOf(u, accepts)[..j]) == Some(v)
            && PlanOf(u, accepts) == PlanOf(u, accepts)[..j] + PlanOf(u.(from := v), accepts)
  {
    var scripts := Scripts(u.files, accepts, u.from, u.to);
    ScriptsWithin(u, accepts);
    j := Resume(u.cube, scripts, None, u.to, k);
    var v := LastRecorded(PlanOf(u, accepts)[..k]).value;
    RecordedAfterScripts(u.cube, scripts, None, u.to, j - 1);
    RecordedFrom(u.cube, scripts, None, u.to, u.from, j - 1);
    ScriptsFrom(u.files, accepts, u.from, v, u.to);
    assert PlanOf(u, accepts)[..j][j - 1] == Recorded(u.cube, v);
  }

  lemma {:induction false} RecordedFrom(cube: Cube, scripts: seq<Script>, prev: Option<Version>, to: Version,
                                        from: Version, i: nat)
    requires forall s <- scripts :: from < s.version
    requires from <= to && (prev.Some? ==> from <= prev.value)
    requires i < |PlanFrom(cube, scripts, prev, to)| && PlanFrom(cube, scripts, prev, to)[i].Recorded?
    ensures from <= PlanFrom(cube, scripts, prev, to)[i].version
    decreases |scripts|
  {
    if scripts != [] {
      var head := Pending(cube, scripts[0], prev) + [Ran(cube, scripts[0])];
      if i >= |head| {
        RecordedFrom(cube, scripts[1..], Some(scripts[0].version), to, from, i - |head|);
      }
    }
  }

  // ----- the restart of a whole run

  predicate IsOf(e: Event, cube: Cube) {
    !e.Bootstrap? && e.cube == cube
  }

  /** The version that was last recorded for the cube. */
  function LastFor(events: seq<Event>, cube: Cube): Option<Version> {
    if events == [] then None
    else
      var e := events[|events| - 1];
      if e.Recorded? && e.cube == cube then Some(e.version) else LastFor(events[..|events| - 1], cube)
  }

  lemma {:induction false} LastForConcat(a: seq<Event>, b: seq<Event>, cube: Cube)
    ensures LastFor(a + b, cube) == if LastFor(b, cube).Some? then LastFor(b, cube) else LastFor(a, cube)
  {
    if b == [] {
      assert a + b == a;
    } else {
      LastForConcat(a, b[..|b| - 1], cube);
      assert (a + b)[..|a + b| - 1] == a + b[..|b| - 1];
    }
  }

  lemma {:induction false} LastForOwn(events: seq<Event>, cube: Cube)
    requires forall e <- events :: IsOf(e, cube)
    ensures LastFor(events, cube) == LastRecorded(events)
    ensures forall other | other != cube :: LastFor(events, other) == None
  {
    if events != [] {
      LastForOwn(events[..|events| - 1], cube);
      assert IsOf(events[|events| - 1], cube);
    }
  }

  lemma {:induction false} LastForNone(events: seq<Event>, cube: Cube)
    requires forall e <- events :: !IsOf(e, cube)
    ensures LastFor(events, cube) == None
  {
    if events != [] {
      LastForNone(events[..|events| - 1], cube);
      assert !IsOf(events[|events| - 1], cube);
    }
  }

  lemma {:induction false} PlanIsOf(cube: Cube, scripts: seq<Script>, prev: Option<Version>, to: Version)
    ensures forall e <- PlanFrom(cube, scripts, prev, to) :: IsOf(e, cube)
  {
    if scripts != [] {
      PlanIsOf(cube, scripts[1..], Some(scripts[0].version), to);
    }
  }

  lemma {:induction false} FullPlanIsOf(ups: seq<Upgrade>, accepts: string -> bool)
    ensures forall e <- FullPlan(ups, accepts) :: exists u <- ups :: IsOf(e, u.cube)
  {
    if ups != [] {
      FullPlanIsOf(ups[1..], accepts);
      PlanIsOf(ups[0].cube, Scripts(ups[0].files, accepts, ups[0].from, ups[0].to), None, ups[0].to);
      assert forall u <- ups[1..] :: u in ups;
      assert ups[0] in ups;
    }
  }

  /** What a restart asks for: every cube from the version that is recorded for it. */
  function Resumed(ups: seq<Upgrade>, done: seq<Event>): seq<Upgrade> {
    if ups == [] then []
    else
      var u := ups[0];
      [if LastFor(done, u.cube).Some? then u.(from := LastFor(done, u.cube).value) else u] + Resumed(ups[1..], done)
  }

  /** `upgrade_instance` leaves out the cubes that have the version they should have. */
  function Unfinished(ups: seq<Upgrade>): seq<Upgrade> {
    if ups == [] then [] else (if ups[0].from < ups[0].to then [ups[0]] else []) + Unfinished(ups[1..])
  }

  function RecordsOf(ups: seq<Upgrade>): seq<Event> {
    if ups == [] then [] else [Recorded(ups[0].cube, ups[0].to)] + RecordsOf(ups[1..])
  }

  /** Upgrades of different cubes, each to a later version. */
  predicate Upgrades(ups: seq<Upgrade>) {
    ups == [] || (ups[0].from < ups[0].to && (forall u <- ups[1..] :: u.cube != ups[0].cube) && Upgrades(ups[1..]))
  }

  lemma {:induction false} NothingResumed(ups: seq<Upgrade>, done: seq<Event>)
    requires Upgrades(ups) && forall u <- ups :: LastFor(done, u.cube) == None
    ensures Resumed(ups, done) == ups == Unfinished(ups)
  {
    if ups != [] {
      assert ups[0] in ups && forall u <- ups[1..] :: u in ups;
      NothingResumed(ups[1..], done);
      assert [ups[0]] + ups[1..] == ups;
    }
  }

  lemma {:induction false} SameResumed(ups: seq<Upgrade>, a: seq<Event>, b: seq<Event>)
    requires forall u <- ups :: LastFor(a, u.cube) == LastFor(b, u.cube)
    ensures Resumed(ups, a) == Resumed(ups, b)
  {
    if ups != [] {
      assert ups[0] in ups && forall u <- ups[1..] :: u in ups;
      SameResumed(ups[1..], a, b);
    }
  }

  /** Nothing is recorded in a part of the plan. */
  predicate NoRecord(events: seq<Event>) {
    forall e <- events :: !e.Recorded?
  }

  predicate EndsWith(s: seq<Event>, t: seq<Event>) {
    |t| <= |s| && s[|s| - |t|..] == t
  }

  /** The crash came while this cube was upgraded, after `done`: from the version that is recorded, what was done after
      the record comes again, and then what is left. */
  lemma {:induction false} RestartOne(u: Upgrade, accepts: string -> bool, done: seq<Event>, left: seq<Event>)
    returns (gap: seq<Event>)
    requires u.from < u.to && PlanOf(u, accepts) == done + left && left != []
    ensures EndsWith(done, gap) && NoRecord(gap)
    ensures var last := LastRecorded(done);
            && (last.Some? ==> u.from <= last.value < u.to)
            && PlanOf(if last.Some? then u.(from := last.value) else u, accepts) == gap + left
  {
    var plan, k := PlanOf(u, accepts), |done|;
    assert plan[..k] == done;
    if LastRecorded(done).Some? {
      LastBelow(u, accepts, k);
      var j := CrashRestart(u, accepts, k);
      NoRecordAfter(u, accepts, j, k);
      gap := plan[j..k];
      hide PlanOf, LastRecorded, NoRecord;
      assert plan[j..] == gap + left;
    } else {
      gap := done;
      NoneRecorded(done);
    }
  }

  lemma {:induction false} NoneRecorded(events: seq<Event>)
    requires LastRecorded(events).None?
    ensures NoRecord(events)
  {
    if events != [] {
      NoneRecorded(events[..|events| - 1]);
      assert events == events[..|events| - 1] + [events[|events| - 1]];
    }
  }

  lemma {:induction false} LastBelow(u: Upgrade, accepts: string -> bool, k: nat)
    requires u.from < u.to && k < |PlanOf(u, accepts)| && LastRecorded(PlanOf(u, accepts)[..k]).Some?
    ensures u.from <= LastRecorded(PlanOf(u, accepts)[..k]).value < u.to
  {
    var plan := PlanOf(u, accepts);
    LastIsRecorded(plan[..k]);
    var i :| 0 <= i < k && plan[..k][i].Recorded? && plan[..k][i].version == LastRecorded(plan[..k]).value;
    UpgradeRecords(u, accepts, i);
    UpgradeRecords(u, accepts, |plan| - 1);
  }

  /** Versions that are recorded later are higher. */
  lemma {:induction false} NoRecordAfter(u: Upgrade, accepts: string -> bool, j: nat, k: nat)
    requires u.from < u.to && j <= k < |PlanOf(u, accepts)|
    requires LastRecorded(PlanOf(u, accepts)[..j]).Some?
    requires LastRecorded(PlanOf(u, accepts)[..j]) == LastRecorded(PlanOf(u, accepts)[..k])
    ensures NoRecord(PlanOf(u, accepts)[j..k])
  {
    var plan := PlanOf(u, accepts);
    LastIsRecorded(plan[..j]);
    var i :| 0 <= i < j && plan[..j][i].Recorded? && plan[..j][i].version == LastRecorded(plan[..j]).value;
    assert plan[..k] == plan[..j] + plan[j..k];
    LastOfConcat(plan[..j], plan[j..k]);
    if LastRecorded(plan[j..k]).Some? {
      LastIsRecorded(plan[j..k]);
      var l :| 0 <= l < k - j && plan[j..k][l].Recorded? && plan[j..k][l].version == LastRecorded(plan[j..k]).value;
      UpgradeRecords(u, accepts, j + l);
    } else {
      NoneRecorded(plan[j..k]);
    }
  }

  /** Started again after `done`, when `todo` was left, the upgrades record the first `m` cubes again, and go on after
      the last record: with the end `gap` of what was done. The cubes that were finished are left out when only cubes
      with an old version are upgraded. */
  predicate RestartsAt(ups: seq<Upgrade>, accepts: string -> bool, done: seq<Event>, todo: seq<Event>, m: nat,
                       gap: seq<Event>) {
    && EndsWith(done, gap) && NoRecord(gap) && m <= |ups|
    && FullPlan(Resumed(ups, done), accepts) == RecordsOf(ups[..m]) + (gap + todo)
    && FullPlan(Unfinished(Resumed(ups, done)), accepts) == gap + todo
  }

  /** A run of several upgrades that stops at any point, and is started again from the versions that are recorded: the
      cubes that were finished are recorded again, and then comes what the first run left after the last record. */
  lemma {:induction false} Restart(ups: seq<Upgrade>, accepts: string -> bool, done: seq<Event>, todo: seq<Event>)
    returns (m: nat, gap: seq<Event>)
    requires Upgrades(ups) && FullPlan(ups, accepts) == done + todo
    ensures RestartsAt(ups, accepts, done, todo, m, gap)
    decreases |ups|
  {
    if ups == [] {
      m, gap := 0, [];
    } else {
      hide RestartsAt, PlanOf, Upgrades;
      var first, rest := PlanOf(ups[0], accepts), FullPlan(ups[1..], accepts);
      if |done| < |first| {
        CutInFirst(first, rest, done, todo);
        m := 0;
        gap := RestartInFirst(ups, accepts, done, first[|done|..]);
      } else {
        CutAfterFirst(first, rest, done, todo);
        UpgradesRest(ups);
        m, gap := Restart(ups[1..], accepts, done[|first|..], todo);
        RestartAfterFirst(ups, accepts, done[|first|..], todo, m, gap);
        m := m + 1;
      }
    }
  }

  lemma {:induction false} UpgradesRest(ups: seq<Upgrade>)
    requires Upgrades(ups) && ups != []
    ensures Upgrades(ups[1..])
  {
  }

  lemma {:induction false} CutInFirst(first: seq<Event>, rest: seq<Event>, done: seq<Event>, todo: seq<Event>)
    requires first + rest == done + todo && |done| < |first|
    ensures first == done + first[|done|..] && todo == first[|done|..] + rest
  {
    assert (first + rest)[|done|..] == first[|done|..] + rest && (done + todo)[|done|..] == todo;
    assert (first + rest)[..|done|] == first[..|done|] && (done + todo)[..|done|] == done;
  }

  lemma {:induction false} CutAfterFirst(first: seq<Event>, rest: seq<Event>, done: seq<Event>, todo: seq<Event>)
    requires first + rest == done + todo && |first| <= |done|
    ensures done == first + done[|first|..] && rest == done[|first|..] + todo
  {
    assert (done + todo)[|first|..] == done[|first|..] + todo && (first + rest)[|first|..] == rest;
    assert (done + todo)[..|first|] == done[..|first|] && (first + rest)[..|first|] == first;
  }

  lemma {:induction false} RestartInFirst(ups: seq<Upgrade>, accepts: string -> bool, done: seq<Event>,
                                          left: seq<Event>)
    returns (gap: seq<Event>)
    requires Upgrades(ups) && ups != [] && PlanOf(ups[0], accepts) == done + left && left != []
    ensures RestartsAt(ups, accepts, done, left + FullPlan(ups[1..], accepts), 0, gap)
  {
    var u, rest := ups[0], FullPlan(ups[1..], accepts);
    PlanIsOf(u.cube, Scripts(u.files, accepts, u.from, u.to), None, u.to);
    LastForOwn(done, u.cube);
    NothingResumed(ups[1..], done);
    gap := RestartOne(u, accepts, done, left);
    var last := LastRecorded(done);
    var u' := if last.Some? then u.(from := last.value) else u;
    assert Resumed(ups, done) == [u'] + ups[1..];
    hide PlanOf, NoRecord, LastFor, LastRecorded, Upgrades, Resumed, EndsWith;
    StartedAgain(u', ups[1..], accepts);
    Assoc(gap, left, rest);
    EmptyLeft(gap + (left + rest));
  }

  lemma {:induction false} StartedAgain(u: Upgrade, others: seq<Upgrade>, accepts: string -> bool)
    requires u.from < u.to && Unfinished(others) == others
    ensures FullPlan([u] + others, accepts) == PlanOf(u, accepts) + FullPlan(others, accepts)
    ensures Unfinished([u] + others) == [u] + others
  {
    assert ([u] + others)[1..] == others;
    hide PlanOf;
  }

  lemma {:induction false} RestartAfterFirst(ups: seq<Upgrade>, accepts: string -> bool, done: seq<Event>,
                                             todo: seq<Event>, m: nat, gap: seq<Event>)
    requires Upgrades(ups) && ups != [] && FullPlan(ups[1..], accepts) == done + todo
    requires RestartsAt(ups[1..], accepts, done, todo, m, gap)
    ensures RestartsAt(ups, accepts, PlanOf(ups[0], accepts) + done, todo, m + 1, gap)
  {
    var u, first := ups[0], PlanOf(ups[0], accepts);
    FinishedFirst(ups, accepts, done);
    assert Resumed(ups, first + done) == [u.(from := u.to)] + Resumed(ups[1..], done);
    hide PlanOf, NoRecord, LastFor, Upgrades, Resumed;
    FinishedAgain(u, Resumed(ups[1..], done), accepts);
    RecordsFirst(ups, m);
    Assoc([Recorded(u.cube, u.to)], RecordsOf(ups[1..][..m]), gap + todo);
    EndsLater(first, done, gap);
  }

  lemma {:induction false} EndsLater(a: seq<Event>, b: seq<Event>, t: seq<Event>)
    requires EndsWith(b, t)
    ensures EndsWith(a + b, t)
  {
  }

  lemma {:induction false} RecordsFirst(ups: seq<Upgrade>, m: nat)
    requires m < |ups|
    ensures RecordsOf(ups[..m + 1]) == [Recorded(ups[0].cube, ups[0].to)] + RecordsOf(ups[1..][..m])
  {
    assert ups[..m + 1][1..] == ups[1..][..m];
  }

  /** A cube that has its new version is recorded again, unless it is left out. */
  lemma {:induction false} FinishedAgain(u: Upgrade, again: seq<Upgrade>, accepts: string -> bool)
    ensures FullPlan([u.(from := u.to)] + again, accepts) == [Recorded(u.cube, u.to)] + FullPlan(again, accepts)
    ensures Unfinished([u.(from := u.to)] + again) == Unfinished(again)
  {
    assert ([u.(from := u.to)] + again)[1..] == again;
  }

  /** The first cube is at its new version, and its plan tells nothing of the others. */
  lemma {:induction false} FinishedFirst(ups: seq<Upgrade>, accepts: string -> bool, done: seq<Event>)
    requires Upgrades(ups) && ups != [] && done <= FullPlan(ups[1..], accepts)
    ensures LastFor(PlanOf(ups[0], accepts) + done, ups[0].cube) == Some(ups[0].to)
    ensures Resumed(ups[1..], PlanOf(ups[0], accepts) + done) == Resumed(ups[1..], done)
  {
    var u, first := ups[0], PlanOf(ups[0], accepts);
    var scripts := Scripts(u.files, accepts, u.from, u.to);
    PlanIsOf(u.cube, scripts, None, u.to);
    LastForOwn(first, u.cube);
    ScriptsWithin(u, accepts);
    RecordsIncrease(u.cube, scripts, None, u.to);
    FullPlanIsOf(ups[1..], accepts);
    forall e | e in done
      ensures !IsOf(e, u.cube)
    {
      assert e in FullPlan(ups[1..], accepts);
    }
    LastForNone(done, u.cube);
    LastForConcat(first, done, u.cube);
    forall v | v in ups[1..]
      ensures LastFor(first + done, v.cube) == LastFor(done, v.cube)
    {
      LastForConcat(first, done, v.cube);
    }
    SameResumed(ups[1..], first + done, done);
  }

  /** The same for a run of `migrate` with its log, which may start with the bootstrap script: started again for the
      cubes that have not their new version yet, the run does the bootstrap script, if "cubicweb" is still one of them,
      and then all that the first run left after its last record. */
  lemma {:induction false} MigrateRestart(ups: seq<Upgrade>, accepts: string -> bool, log: seq<Event>, todo: seq<Event>)
    returns (gap: seq<Event>)
    requires Upgrades(ups) && BootstrapPlan(ups, accepts) + FullPlan(ups, accepts) == log + todo
    ensures NoRecord(gap) && EndsWith(log, gap)
    ensures BootstrapPlan(ups, accepts) <= log ==> FullPlan(Unfinished(Resumed(ups, log)), accepts) == gap + todo
    ensures !(BootstrapPlan(ups, accepts) <= log) ==> log == [] && Unfinished(Resumed(ups, log)) == ups
  {
    var boot, rest := BootstrapPlan(ups, accepts), FullPlan(ups, accepts);
    BootIsNoCube(ups, accepts);
    if |log| < |boot| {
      assert log == [];
      gap := [];
      NothingResumed(ups, []);
    } else {
      CutAfterFirst(boot, rest, log, todo);
      var done := log[|boot|..];
      var m;
      m, gap := Restart(ups, accepts, done, todo);
      hide FullPlan, BootstrapPlan, Upgrades;
      forall u | u in ups
        ensures LastFor(boot + done, u.cube) == LastFor(done, u.cube)
      {
        LastForConcat(boot, done, u.cube);
        LastForNone(boot, u.cube);
      }
      SameResumed(ups, boot + done, done);
      EndsLater(boot, done, gap);
    }
  }

  lemma {:induction false} BootIsNoCube(ups: seq<Upgrade>, accepts: string -> bool)
    ensures forall e <- BootstrapPlan(ups, accepts) :: e == Bootstrap
  {
  }
}
