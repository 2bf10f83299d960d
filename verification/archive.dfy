/** The certificate run (`generar_todos_certificados`, app.py:405-621, and
    the loop of `generar_certificados_grupo`, app.py:300-402): one ZIP
    archive holding the Constancias folder and one PDF per row that
    renders, group after group, with the progress reported after each
    certificate; and the name the archive is offered under (app.py:673-679). */
module Archive {
  import opened Wrappers
  import opened Text
  import opened Roster
  import opened Classify
  import opened Styles
  import opened Certificate

  /** The empty directory entry written before any certificate. */
  const FolderEntry := ZipEntry(ConstanciasFolder, [])

  /** What every row of a run relies on: a rectangular roster carrying the
      display name column, and a valid day. */
  predicate Ready(t: Table, env: Env) {
    Shaped(t) && DisplayColumn in Labels(t) && EnvOk(env)
  }

  predicate RowsIn(t: Table, rows: seq<nat>) {
    forall k :: 0 <= k < |rows| ==> rows[k] < |t.rows|
  }

  /** One group to generate: its row positions and its template. */
  datatype Job = Job(rows: seq<nat>, template: Template)

  /** app.py:583-588, in the order the groups are visited: grupo_1 with
      `fondo_1` up to grupo_4 with `fondo_4`. */
  function Plan(g: Groups): (plan: seq<Job>)
    ensures |plan| == 4
    ensures plan[0] == Job(g.g1, Fondo1) && plan[1] == Job(g.g2, Fondo2)
    ensures plan[2] == Job(g.g3, Fondo3) && plan[3] == Job(g.g4, Fondo4)
  {
    [Job(g.g1, Fondo1), Job(g.g2, Fondo2), Job(g.g3, Fondo3), Job(g.g4, Fondo4)]
  }

  // ------------------------------------------------------ row outcomes

  /** What each row of a group yields, by position. */
  type Outcome = nat --> Result<ZipEntry, RowError>

  /** The outcome of each template's rows. */
  type Outcomes = Template -> Outcome

  /** The outcome of the rows of the roster on one template. */
  function RowOutcome(t: Table, template: Template, env: Env): (o: Outcome)
    requires Ready(t, env)
    ensures forall i :: 0 <= i < |t.rows| ==> o.requires(i) && o(i) == RowEntry(t, i, template, env)
  {
    (i: nat) requires i < |t.rows| && Ready(t, env) => RowEntry(t, i, template, env)
  }

  /** The outcomes of a run over the roster. */
  function RunOutcomes(t: Table, env: Env): (os: Outcomes)
    requires Ready(t, env)
    ensures forall template :: os(template) == RowOutcome(t, template, env)
  {
    (template: Template) => RowOutcome(t, template, env)
  }

  ghost predicate Defined(o: Outcome, rows: seq<nat>) {
    forall k :: 0 <= k < |rows| ==> o.requires(rows[k])
  }

  ghost predicate PlanDefined(plan: seq<Job>, os: Outcomes) {
    forall k :: 0 <= k < |plan| ==> Defined(os(plan[k].template), plan[k].rows)
  }

  // ------------------------------------------------------ specification

  /** The entry a row adds: its certificate, or nothing. */
  function Produced(r: Result<ZipEntry, RowError>): (es: seq<ZipEntry>)
    ensures |es| <= 1
  {
    if r.Success? then [r.value] else []
  }

  /** The entries a group adds, in row order: one per row that renders,
      nothing for a row that fails. */
  function GroupEntries(rows: seq<nat>, o: Outcome): (es: seq<ZipEntry>)
    requires Defined(o, rows)
    ensures |es| <= |rows|
    decreases |rows|
  {
    if rows == [] then []
    else GroupEntries(rows[..|rows| - 1], o) + Produced(o(rows[|rows| - 1]))
  }

  /** One more row of a group adds that row's entry, if any. */
  lemma GroupStep(rows: seq<nat>, j: nat, o: Outcome)
    requires Defined(o, rows) && j < |rows|
    ensures GroupEntries(rows[..j + 1], o) == GroupEntries(rows[..j], o) + Produced(o(rows[j]))
  {
    assert rows[..j + 1][..j] == rows[..j];
  }

  /** `min(p, 1.0)`. */
  function Clamp(p: real): real {
    if p < 1.0 then p else 1.0
  }

  /** The value the bar shows once `x` of `total` students are done:
      `min(x / total, 1.0)`; with no students there is nothing to show. */
  function Share(x: nat, total: nat): real {
    if total == 0 then 0.0 else Clamp(x as real / total as real)
  }

  /** The values reported for the `count` certificates of a group that
      starts after `base` students of `total`. */
  function ProgressSteps(base: nat, count: nat, total: nat): (ps: seq<real>)
    ensures |ps| == count
  {
    seq(count, k requires 0 <= k < count => Share(base + k + 1, total))
  }

  lemma ProgressStep(base: nat, count: nat, total: nat)
    ensures ProgressSteps(base, count + 1, total)
         == ProgressSteps(base, count, total) + [Share(base + count + 1, total)]
  {
  }

  /** The number of students in the first `n` groups of a plan. */
  function Before(plan: seq<Job>, n: nat): nat
    requires n <= |plan|
  {
    if n == 0 then 0 else Before(plan, n - 1) + |plan[n - 1].rows|
  }

  /** The number of students over all groups: `total_estudiantes`. */
  function Total(plan: seq<Job>): nat {
    Before(plan, |plan|)
  }

  lemma {:induction false} BeforeTotal(plan: seq<Job>, n: nat)
    requires n <= |plan|
    ensures Before(plan, n) <= Total(plan)
    decreases |plan| - n
  {
    if n < |plan| {
      BeforeTotal(plan, n + 1);
    }
  }

  /** The entries the first `n` groups of a plan add, group after group. */
  function PlanEntries(plan: seq<Job>, n: nat, os: Outcomes): seq<ZipEntry>
    requires PlanDefined(plan, os) && n <= |plan|
  {
    if n == 0 then []
    else PlanEntries(plan, n - 1, os) + GroupEntries(plan[n - 1].rows, os(plan[n - 1].template))
  }

  /** The progress values the first `n` groups of a plan report: each group
      starts where the students of the groups before it end, whether or not
      their certificates were produced. */
  function PlanProgress(plan: seq<Job>, n: nat, os: Outcomes, total: nat): seq<real>
    requires PlanDefined(plan, os) && n <= |plan| && Before(plan, n) <= total
  {
    if n == 0 then []
    else
      PlanProgress(plan, n - 1, os, total)
        + ProgressSteps(Before(plan, n - 1), |GroupEntries(plan[n - 1].rows, os(plan[n - 1].template))|, total)
  }

  /** One more group of a plan adds its entries and its progress values
      after those already in the archive. */
  lemma PlanStep(plan: seq<Job>, j: nat, os: Outcomes, total: nat)
    requires PlanDefined(plan, os) && j < |plan| && Before(plan, j + 1) <= total
    ensures var es := GroupEntries(plan[j].rows, os(plan[j].template));
      && [FolderEntry] + PlanEntries(plan, j, os) + es == [FolderEntry] + PlanEntries(plan, j + 1, os)
      && [0.0] + PlanProgress(plan, j, os, total) + ProgressSteps(Before(plan, j), |es|, total)
         == [0.0] + PlanProgress(plan, j + 1, os, total)
  {
    var es := GroupEntries(plan[j].rows, os(plan[j].template));
    assert PlanEntries(plan, j + 1, os) == PlanEntries(plan, j, os) + es;
  }

  // ----------------------------------------------------------- the run

  /** The archive being written and the values the progress bar has shown. */
  class ZipArchive {
    var entries: seq<ZipEntry>
    var reported: seq<real>

    /** app.py:409-417: the bar starts at zero and the folder entry comes
        first. */
    constructor ()
      ensures entries == [FolderEntry] && reported == [0.0]
    {
      entries := [FolderEntry];
      reported := [0.0];
    }

    /** app.py:300-402: each row of the group in order; a row that renders
        is added and counted, and the bar then shows the share of the run's
        students reached so far. Returns the number of certificates. */
    method GenerateGroup(rows: seq<nat>, outcome: Outcome, base: nat, total: nat)
      returns (count: nat)
      requires Defined(outcome, rows) && base + |rows| <= total
      modifies this
      ensures count == |GroupEntries(rows, outcome)|
      ensures entries == old(entries) + GroupEntries(rows, outcome)
      ensures reported == old(reported) + ProgressSteps(base, count, total)
    {
      count := 0;
      for j := 0 to |rows|
        invariant count == |GroupEntries(rows[..j], outcome)|
        invariant entries == old(entries) + GroupEntries(rows[..j], outcome)
        invariant reported == old(reported) + ProgressSteps(base, count, total)
      {
        GroupStep(rows, j, outcome);
        var r := outcome(rows[j]);
        if r.Success? {
          ProgressStep(base, count, total);
          assert Produced(r) == [r.value];
          entries := entries + [r.value];
          count := count + 1;
          reported := reported + [Share(base + count, total)];
        } else {
          assert Produced(r) == [];
        }
      }
      assert rows[..|rows|] == rows;
    }

    /** app.py:589-608: a non-empty group is generated from `base`; an empty
        one adds nothing and reports nothing. */
    method RunJob(job: Job, outcome: Outcome, base: nat, total: nat)
      requires Defined(outcome, job.rows) && base + |job.rows| <= total
      modifies this
      ensures entries == old(entries) + GroupEntries(job.rows, outcome)
      ensures reported == old(reported) + ProgressSteps(base, |GroupEntries(job.rows, outcome)|, total)
    {
      if job.rows != [] {
        var count := GenerateGroup(job.rows, outcome, base, total);
      }
    }
  }

  /** app.py:582-610: a fresh archive receives the groups of the plan in
      order, each starting after the students of the groups before it. */
  method RunPlan(plan: seq<Job>, os: Outcomes) returns (archive: ZipArchive)
    requires PlanDefined(plan, os)
    ensures fresh(archive)
    ensures archive.entries == [FolderEntry] + PlanEntries(plan, |plan|, os)
    ensures archive.reported == [0.0] + PlanProgress(plan, |plan|, os, Total(plan))
  {
    var total := Total(plan);
    archive := new ZipArchive();
    var base := 0;
    for j := 0 to |plan|
      invariant fresh(archive)
      invariant base == Before(plan, j) && base <= total
      invariant archive.entries == [FolderEntry] + PlanEntries(plan, j, os)
      invariant archive.reported == [0.0] + PlanProgress(plan, j, os, total)
    {
      BeforeTotal(plan, j + 1);
      PlanStep(plan, j, os, total);
      archive.RunJob(plan[j], os(plan[j].template), base, total);
      base := base + |plan[j].rows|;
    }
  }

  /** app.py:405-621: nothing is generated without groups or without the
      four templates; otherwise the groups run in the order of `Plan`, each
      row through `RowEntry`. */
  method GenerateAll(t: Table, c: Classification, templatesLoaded: bool, env: Env) returns (archive: ZipArchive?)
    requires Ready(t, env)
    requires c.Grouped? ==> PlanDefined(Plan(c.groups), RunOutcomes(t, env))
    ensures archive == null <==> !(c.Grouped? && templatesLoaded)
    ensures archive != null ==>
      && fresh(archive)
      && archive.entries == [FolderEntry] + PlanEntries(Plan(c.groups), 4, RunOutcomes(t, env))
      && archive.reported == [0.0] + PlanProgress(Plan(c.groups), 4, RunOutcomes(t, env), Total(Plan(c.groups)))
  {
    if !(c.Grouped? && templatesLoaded) {
      return null;
    }
    archive := RunPlan(Plan(c.groups), RunOutcomes(t, env));
  }

  // ------------------------------------------------------- run properties

  /** The classifier's groups only name rows of the roster, so every row of
      a run has an outcome. */
  lemma ClassifiedRunDefined(t: Table, fileName: string, env: Env)
    requires Ready(t, env) && Classify.Classify(t, fileName).Grouped?
    ensures PlanDefined(Plan(Classify.Classify(t, fileName).groups), RunOutcomes(t, env))
  {
    var plan := Plan(Classify.Classify(t, fileName).groups);
    forall k, m | 0 <= k < |plan| && 0 <= m < |plan[k].rows|
      ensures plan[k].rows[m] < |t.rows|
    {
      if ProgressiveFile(fileName) {
        ProgressiveTakesAll(t, fileName);
      } else {
        GroupMembers(t, fileName, plan[k].rows[m]);
        assert plan[k].rows[m] in plan[k].rows;
      }
    }
  }

  /** A group's entries are exactly the certificates of its rows that
      render. */
  lemma {:induction false} GroupEntriesFrom(rows: seq<nat>, o: Outcome, e: ZipEntry)
    requires Defined(o, rows)
    ensures e in GroupEntries(rows, o) <==> exists k :: 0 <= k < |rows| && o(rows[k]) == Success(e)
    decreases |rows|
  {
    if rows != [] {
      var init := rows[..|rows| - 1];
      GroupEntriesFrom(init, o, e);
      if e in GroupEntries(rows, o) && e !in GroupEntries(init, o) {
        assert o(rows[|rows| - 1]) == Success(e);
      }
      if exists k :: 0 <= k < |rows| && o(rows[k]) == Success(e) {
        var k :| 0 <= k < |rows| && o(rows[k]) == Success(e);
        if k < |rows| - 1 {
          assert init[k] == rows[k];
        }
      }
    }
  }

  /** A group yields one certificate per row exactly when no row fails. */
  lemma {:induction false} GroupComplete(rows: seq<nat>, o: Outcome)
    requires Defined(o, rows)
    ensures |GroupEntries(rows, o)| == |rows| <==> forall k :: 0 <= k < |rows| ==> o(rows[k]).Success?
    decreases |rows|
  {
    if rows != [] {
      var init := rows[..|rows| - 1];
      GroupComplete(init, o);
      if forall k :: 0 <= k < |rows| ==> o(rows[k]).Success? {
        assert forall k :: 0 <= k < |init| ==> o(init[k]).Success? by {
          forall k | 0 <= k < |init| ensures o(init[k]).Success? {
            assert init[k] == rows[k];
          }
        }
      }
      if |GroupEntries(rows, o)| == |rows| {
        assert |GroupEntries(init, o)| == |init|;
        forall k | 0 <= k < |rows| ensures o(rows[k]).Success? {
          if k < |rows| - 1 {
            assert init[k] == rows[k];
          }
        }
      }
    }
  }

  /** Every certificate of a group is a PDF, filed in the Constancias
      folder exactly when the group's template is `fondo_2`. */
  lemma GroupEntriesShape(t: Table, rows: seq<nat>, template: Template, env: Env, e: ZipEntry)
    requires Ready(t, env) && RowsIn(t, rows)
    requires e in GroupEntries(rows, RowOutcome(t, template, env))
    ensures PdfName(e.name) && (HasPrefix(e.name, ConstanciasFolder) <==> template == Fondo2)
  {
    var o := RowOutcome(t, template, env);
    GroupEntriesFrom(rows, o, e);
    var k :| 0 <= k < |rows| && o(rows[k]) == Success(e);
    RowEntryShape(t, rows[k], template, env);
  }

  /** The run's certificates are those of grupo_1 to grupo_4 in that order. */
  lemma RunEntries(t: Table, g: Groups, env: Env)
    requires Ready(t, env) && PlanDefined(Plan(g), RunOutcomes(t, env))
    ensures PlanEntries(Plan(g), 4, RunOutcomes(t, env))
         == GroupEntries(g.g1, RowOutcome(t, Fondo1, env)) + GroupEntries(g.g2, RowOutcome(t, Fondo2, env))
          + GroupEntries(g.g3, RowOutcome(t, Fondo3, env)) + GroupEntries(g.g4, RowOutcome(t, Fondo4, env))
  {
    var plan := Plan(g);
    var os := RunOutcomes(t, env);
    assert PlanEntries(plan, 1, os) == GroupEntries(g.g1, RowOutcome(t, Fondo1, env));
    assert PlanEntries(plan, 2, os) == PlanEntries(plan, 1, os) + GroupEntries(g.g2, RowOutcome(t, Fondo2, env));
    assert PlanEntries(plan, 3, os) == PlanEntries(plan, 2, os) + GroupEntries(g.g3, RowOutcome(t, Fondo3, env));
    assert PlanEntries(plan, 4, os) == PlanEntries(plan, 3, os) + GroupEntries(g.g4, RowOutcome(t, Fondo4, env));
  }

  /** After the folder entry every entry of a run is a PDF, and the ones
      filed in the folder are exactly grupo_2's participation
      certificates. */
  lemma RunFolder(t: Table, g: Groups, env: Env, e: ZipEntry)
    requires Ready(t, env) && RowsIn(t, g.g1) && RowsIn(t, g.g2) && RowsIn(t, g.g3) && RowsIn(t, g.g4)
    requires PlanDefined(Plan(g), RunOutcomes(t, env))
    requires e in PlanEntries(Plan(g), 4, RunOutcomes(t, env))
    ensures PdfName(e.name)
    ensures HasPrefix(e.name, ConstanciasFolder) <==> e in GroupEntries(g.g2, RowOutcome(t, Fondo2, env))
  {
    RunEntries(t, g, env);
    if e in GroupEntries(g.g2, RowOutcome(t, Fondo2, env)) {
      GroupEntriesShape(t, g.g2, Fondo2, env, e);
    } else if e in GroupEntries(g.g1, RowOutcome(t, Fondo1, env)) {
      GroupEntriesShape(t, g.g1, Fondo1, env, e);
    } else if e in GroupEntries(g.g3, RowOutcome(t, Fondo3, env)) {
      GroupEntriesShape(t, g.g3, Fondo3, env, e);
    } else {
      GroupEntriesShape(t, g.g4, Fondo4, env, e);
    }
  }

  // --------------------------------------------------- progress properties

  lemma DivLess(a: real, b: real, t: real)
    requires t > 0.0 && a < b
    ensures a / t < b / t
  {
    assert b / t - a / t == (b - a) / t;
  }

  /** The bar is never empty once a student is done, and never past full. */
  lemma ShareBounds(x: nat, total: nat)
    requires 0 < x <= total
    ensures 0.0 < Share(x, total) <= 1.0
  {
    DivLess(0.0, x as real, total as real);
  }

  /** The `min` with 1.0 never changes the value: the bar shows exactly the
      share of the students done. */
  lemma ClampInactive(x: nat, total: nat)
    requires x <= total && total > 0
    ensures Share(x, total) * total as real == x as real
  {
    if x < total {
      DivLess(x as real, total as real, total as real);
    }
  }

  /** A full run shows a full bar. */
  lemma ShareFull(total: nat)
    requires total > 0
    ensures Share(total, total) == 1.0
  {
  }

  /** More students done shows strictly more progress. */
  lemma ShareLess(x: nat, y: nat, total: nat)
    requires x < y <= total
    ensures Share(x, total) < Share(y, total)
  {
    DivLess(x as real, y as real, total as real);
    if y < total {
      DivLess(y as real, total as real, total as real);
    }
  }

  predicate Rising(ps: seq<real>) {
    forall a, b :: 0 <= a < b < |ps| ==> ps[a] < ps[b]
  }

  /** Every value shows progress, and no more than `reached` students of
      `total`. */
  predicate Within(ps: seq<real>, total: nat, reached: nat) {
    forall k :: 0 <= k < |ps| ==> 0.0 < ps[k] <= Share(reached, total)
  }

  lemma RisingAppend(init: seq<real>, base: nat, count: nat, total: nat)
    requires Rising(init) && Within(init, total, base) && base + count <= total
    ensures Rising(init + ProgressSteps(base, count, total))
    ensures Within(init + ProgressSteps(base, count, total), total, base + count)
  {
    var steps := ProgressSteps(base, count, total);
    var ps := init + steps;
    forall a, b | 0 <= a < b < |ps| ensures ps[a] < ps[b] {
      if b >= |init| {
        assert ps[b] == Share(base + b - |init| + 1, total);
        if a >= |init| {
          assert ps[a] == Share(base + a - |init| + 1, total);
          ShareLess(base + a - |init| + 1, base + b - |init| + 1, total);
        } else {
          assert ps[a] == init[a];
          ShareLess(base, base + b - |init| + 1, total);
        }
      } else {
        assert ps[a] == init[a] && ps[b] == init[b];
      }
    }
    forall k | 0 <= k < |ps| ensures 0.0 < ps[k] <= Share(base + count, total) {
      if k >= |init| {
        assert ps[k] == Share(base + k - |init| + 1, total);
        ShareBounds(base + k - |init| + 1, total);
        if base + k - |init| + 1 < base + count {
          ShareLess(base + k - |init| + 1, base + count, total);
        }
      } else {
        assert ps[k] == init[k];
        if base < base + count {
          ShareLess(base, base + count, total);
        }
      }
    }
  }

  /** The progress of a run only rises, never leaves (0, 1], and never gets
      ahead of the students of the groups started. */
  lemma {:induction false} PlanProgressRises(plan: seq<Job>, n: nat, os: Outcomes, total: nat)
    requires PlanDefined(plan, os) && n <= |plan| && Before(plan, n) <= total
    ensures Rising(PlanProgress(plan, n, os, total))
    ensures Within(PlanProgress(plan, n, os, total), total, Before(plan, n))
    ensures forall k :: 0 <= k < |PlanProgress(plan, n, os, total)| ==>
      0.0 < PlanProgress(plan, n, os, total)[k] <= 1.0
  {
    if n > 0 {
      PlanProgressRises(plan, n - 1, os, total);
      var base := Before(plan, n - 1);
      var count := |GroupEntries(plan[n - 1].rows, os(plan[n - 1].template))|;
      RisingAppend(PlanProgress(plan, n - 1, os, total), base, count, total);
      if base + count < Before(plan, n) {
        ShareLess(base + count, Before(plan, n), total);
      }
    }
  }

  /** The bar moves once per certificate: one value per entry added. */
  lemma {:induction false} ProgressPerCertificate(plan: seq<Job>, n: nat, os: Outcomes, total: nat)
    requires PlanDefined(plan, os) && n <= |plan| && Before(plan, n) <= total
    ensures |PlanProgress(plan, n, os, total)| == |PlanEntries(plan, n, os)|
  {
    if n > 0 {
      ProgressPerCertificate(plan, n - 1, os, total);
    }
  }

  /** Every group of the first `n` yields one certificate per row. */
  ghost predicate AllProduced(plan: seq<Job>, n: nat, os: Outcomes)
    requires PlanDefined(plan, os) && n <= |plan|
  {
    forall k :: 0 <= k < n ==> |GroupEntries(plan[k].rows, os(plan[k].template))| == |plan[k].rows|
  }

  /** When no row fails, the last value reported is the share of all the
      students of the groups so far. */
  lemma {:induction false} LastProgress(plan: seq<Job>, n: nat, os: Outcomes, total: nat)
    requires PlanDefined(plan, os) && n <= |plan| && Before(plan, n) <= total
    requires AllProduced(plan, n, os) && Before(plan, n) > 0
    ensures |PlanProgress(plan, n, os, total)| > 0
    ensures PlanProgress(plan, n, os, total)[|PlanProgress(plan, n, os, total)| - 1]
         == Share(Before(plan, n), total)
  {
    var count := |GroupEntries(plan[n - 1].rows, os(plan[n - 1].template))|;
    var base := Before(plan, n - 1);
    var init := PlanProgress(plan, n - 1, os, total);
    var steps := ProgressSteps(base, count, total);
    assert PlanProgress(plan, n, os, total) == init + steps;
    assert count == |plan[n - 1].rows|;
    if count == 0 {
      assert AllProduced(plan, n - 1, os);
      LastProgress(plan, n - 1, os, total);
      assert init + steps == init;
    } else {
      assert (init + steps)[|init + steps| - 1] == steps[count - 1];
    }
  }

  /** A run in which every row renders ends with a full bar. */
  lemma FullBar(plan: seq<Job>, os: Outcomes)
    requires PlanDefined(plan, os) && AllProduced(plan, |plan|, os) && Total(plan) > 0
    ensures |PlanProgress(plan, |plan|, os, Total(plan))| > 0
    ensures PlanProgress(plan, |plan|, os, Total(plan))[|PlanProgress(plan, |plan|, os, Total(plan))| - 1] == 1.0
  {
    LastProgress(plan, |plan|, os, Total(plan));
    ShareFull(Total(plan));
  }

  // ------------------------------------------------------------- ZIP name

  /** `str.rfind`: the last position of `c`, or -1. */
  function LastIndex(s: string, c: char): (r: int)
    ensures -1 <= r < |s|
    ensures r >= 0 ==> s[r] == c
    ensures forall j :: r < j < |s| ==> s[j] != c
  {
    if s == [] then -1
    else if s[|s| - 1] == c then |s| - 1
    else LastIndex(s[..|s| - 1], c)
  }

  /** `os.path.splitext(p)[0]` on POSIX paths: the text before the last dot
      of the final component, unless only dots precede that dot in the
      component. */
  function Stem(p: string): (r: string)
    ensures |r| <= |p| && r == p[..|r|]
  {
    var sep := LastIndex(p, '/');
    var dot := LastIndex(p, '.');
    if dot > sep && exists k :: sep < k < dot && p[k] != '.' then p[..dot] else p
  }

  const DefaultStem := "CERTIFICADOS"

  /** The second character of the stem, upper-cased, is `P`. */
  predicate Preliminary(stem: string) {
    |stem| >= 2 && UpperChar(stem[1]) == 'P'
  }

  /** app.py:673-679: the stem of the uploaded name, or "CERTIFICADOS" when
      there is none, marked preliminary by the second letter. */
  function ZipName(fileName: string): (r: string)
    ensures var stem := if fileName != [] then Stem(fileName) else DefaultStem;
      && |stem| <= |r| && r[..|stem|] == stem
      && (Preliminary(stem) ==> r[|stem|..] == "_PRELIMINAR.zip")
      && (!Preliminary(stem) ==> r[|stem|..] == ".zip")
  {
    var stem := if fileName != [] then Stem(fileName) else DefaultStem;
    var suffix := if Preliminary(stem) then "_PRELIMINAR.zip" else ".zip";
    assert (stem + suffix)[..|stem|] == stem && (stem + suffix)[|stem|..] == suffix;
    stem + suffix
  }

  lemma PreliminaryLetter(stem: string)
    ensures Preliminary(stem) <==> |stem| >= 2 && (stem[1] == 'p' || stem[1] == 'P')
  {
  }

  /** A name with one extension loses exactly that extension. */
  lemma StemOfName(base: string, ext: string)
    requires '/' !in base && |base| > 0 && base[0] != '.'
    requires '.' !in ext && '/' !in ext
    ensures Stem(base + "." + ext) == base
  {
    var p := base + "." + ext;
    assert p[|base|] == '.';
    assert forall j :: |base| < j < |p| ==> p[j] == ext[j - |base| - 1];
    assert LastIndex(p, '.') == |base|;
    assert forall j :: 0 <= j < |p| ==> p[j] != '/' by {
      forall j | 0 <= j < |p| ensures p[j] != '/' {
        if j < |base| {
          assert p[j] == base[j];
        } else if j > |base| {
          assert p[j] == ext[j - |base| - 1];
        }
      }
    }
    assert p[0] == base[0];
    assert p[..|base|] == base;
  }

  /** The archive of an upload named `base.ext` is `base.zip`, or
      `base_PRELIMINAR.zip` when the second letter of `base` is `p`. */
  lemma ZipNameOfUpload(base: string, ext: string)
    requires '/' !in base && |base| > 0 && base[0] != '.'
    requires '.' !in ext && '/' !in ext
    ensures ZipName(base + "." + ext) == base + (if Preliminary(base) then "_PRELIMINAR.zip" else ".zip")
  {
    StemOfName(base, ext);
  }

  /** Without a file name the archive is "CERTIFICADOS.zip"; a name made
      only of a dot and an extension keeps it whole, as `splitext` treats a
      leading dot as part of the name. */
  lemma ZipNameEdges(e: string)
    requires '.' !in e && '/' !in e
    ensures ZipName("") == "CERTIFICADOS.zip"
    ensures Stem("." + e) == "." + e
    ensures ZipName("." + e) == "." + e + (if Preliminary("." + e) then "_PRELIMINAR.zip" else ".zip")
  {
    assert !Preliminary(DefaultStem);
    var p := "." + e;
    assert p[0] == '.';
    assert forall j :: 0 < j < |p| ==> p[j] == e[j - 1];
    assert LastIndex(p, '.') == 0;
    assert LastIndex(p, '/') == -1;
  }

  /** An upload whose name starts with "PI" is progressive, and its
      certificates are watermarked on `fondo_1`. */
  lemma ProgressiveUpload(rest: string)
    ensures ProgressiveFile("PI" + rest) && WatermarkApplies("PI" + rest, Fondo1, true)
  {
    ProgressiveFileInitial("PI" + rest);
  }

  /** An upload whose name starts with "RP" is neither progressive nor
      watermarked. */
  lemma RegularUpload(rest: string)
    ensures !ProgressiveFile("RP" + rest) && !WatermarkApplies("RP" + rest, Fondo1, true)
  {
    ProgressiveFileInitial("RP" + rest);
  }
}
