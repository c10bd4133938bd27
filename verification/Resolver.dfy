/** Resolution of imports: workers explore the module graph in any interleaving and always
    collect the same thing; emission then lists each module once, after what it imports. */
module Resolver {
  import opened Names
  import opened Finite
  import opened Graphs

  // ----- The files -----

  // A statement is an import, resolved to a module if there is one, or code.
  datatype Item = Import(target: Option<nat>) | Code(text: string)

  datatype File = Broken | Parsed(items: seq<Item>)

  function Targets(items: seq<Item>): seq<nat> {
    if items == [] then []
    else Targets(items[..|items| - 1]) + (match items[|items| - 1] case Import(Some(m)) => [m] case _ => [])
  }

  function CodeOf(items: seq<Item>): seq<string> {
    if items == [] then []
    else CodeOf(items[..|items| - 1]) + (match items[|items| - 1] case Code(t) => [t] case _ => [])
  }

  /** The targets are those of the imports that lead somewhere, picked by position. */
  lemma {:induction false} TargetsByPosition(items: seq<Item>) returns (at: seq<nat>)
    ensures Ascending(at) && forall i: nat :: i in at <==> i < |items| && items[i].Import? && items[i].target.Some?
    ensures |Targets(items)| == |at|
    ensures forall k | 0 <= k < |at| :: at[k] < |items| && items[at[k]] == Import(Some(Targets(items)[k]))
  {
    at := [];
    if items != [] {
      var front := items[..|items| - 1];
      at := TargetsByPosition(front);
      if items[|front|].Import? && items[|front|].target.Some? {
        OneMore(at, |front|);
        at := at + [|front|];
      }
    }
  }

  /** The code is that of the other statements, picked by position. */
  lemma {:induction false} CodeByPosition(items: seq<Item>) returns (at: seq<nat>)
    ensures Ascending(at) && forall i: nat :: i in at <==> i < |items| && items[i].Code?
    ensures |CodeOf(items)| == |at|
    ensures forall k | 0 <= k < |at| :: at[k] < |items| && items[at[k]] == Code(CodeOf(items)[k])
  {
    at := [];
    if items != [] {
      var front := items[..|items| - 1];
      at := CodeByPosition(front);
      if items[|front|].Code? {
        OneMore(at, |front|);
        at := at + [|front|];
      }
    }
  }

  /** As many imports lead nowhere as there are positions of such. */
  lemma {:induction false} NowhereByPosition(items: seq<Item>) returns (at: seq<nat>)
    ensures Ascending(at) && forall i: nat :: i in at <==> i < |items| && items[i] == Import(None)
    ensures LeadNowhere(items) == |at|
  {
    at := [];
    if items != [] {
      var front := items[..|items| - 1];
      at := NowhereByPosition(front);
      if items[|front|] == Import(None) {
        OneMore(at, |front|);
        at := at + [|front|];
      }
    }
  }

  function ImportsOf(f: File): seq<nat> {
    match f
    case Broken => []
    case Parsed(items) => Targets(items)
  }

  /** Who imports whom. */
  function ImportGraph(files: seq<File>): Graph {
    seq(|files|, m requires 0 <= m < |files| => ImportsOf(files[m]))
  }

  // Every import that resolves names one of the files.
  ghost predicate Closed(files: seq<File>) {
    Graphs.Valid(ImportGraph(files))
  }

  // Whether the module has a file that parses.
  predicate Parses(files: seq<File>, m: nat) {
    m < |files| && files[m].Parsed?
  }

  function Imports(files: seq<File>, m: nat): seq<nat> {
    if m < |files| then ImportsOf(files[m]) else []
  }

  // How many imports lead nowhere.
  function LeadNowhere(items: seq<Item>): nat {
    if items == [] then 0 else LeadNowhere(items[..|items| - 1]) + One(items[|items| - 1] == Import(None))
  }

  function Unresolved(files: seq<File>, m: nat): nat {
    if Parses(files, m) then LeadNowhere(files[m].items) else 0
  }

  // ----- Exploration -----

  /** What is reported: a module that cannot be read or parsed, an import of a module that
      leads nowhere. */
  datatype Error = NotParsed(m: nat) | NotFound(m: nat)

  /** What one worker is about to do: claim a module, parse the one it claimed, or publish the
      imports of the one it parsed and hand them on. */
  datatype Task = Claim(m: nat) | Parse(m: nat) | Publish(m: nat)

  // The shared tables and the workers; `parsed` counts the parses of each module.
  datatype State = State(visited: set<nat>, deps: map<nat, seq<nat>>, errors: multiset<Error>, parsed: multiset<nat>,
      tasks: multiset<Task>)

  function Claims(ms: seq<nat>): multiset<Task> {
    if ms == [] then multiset{} else Claims(ms[..|ms| - 1]) + multiset{Claim(ms[|ms| - 1])}
  }

  // The errors the one parse of a module reports.
  function Reports(files: seq<File>, m: nat): multiset<Error> {
    if Parses(files, m) then Times(NotFound(m), Unresolved(files, m)) else multiset{NotParsed(m)}
  }

  function Times(e: Error, n: nat): multiset<Error> {
    if n == 0 then multiset{} else Times(e, n - 1) + multiset{e}
  }

  lemma {:induction false} TimesCounts(e: Error, n: nat, x: Error)
    ensures Times(e, n)[x] == if x == e then n else 0
  {
    if n > 0 {
      TimesCounts(e, n - 1, x);
    }
  }

  lemma ReportsCounts(files: seq<File>, t: nat, m: nat)
    ensures Reports(files, t)[NotParsed(m)] == One(t == m && !Parses(files, m))
    ensures Reports(files, t)[NotFound(m)] == if t == m then Unresolved(files, m) else 0
  {
    TimesCounts(NotFound(t), Unresolved(files, t), NotParsed(m));
    TimesCounts(NotFound(t), Unresolved(files, t), NotFound(m));
  }

  /** One step of a worker. */
  function Step(files: seq<File>, s: State, t: Task): State {
    var rest := s.tasks - multiset{t};
    match t
    case Claim(m) =>
      if m in s.visited then s.(tasks := rest)
      else s.(visited := s.visited + {m}, tasks := rest + multiset{Parse(m)})
    case Parse(m) =>
      var s' := s.(parsed := s.parsed + multiset{m}, errors := s.errors + Reports(files, m));
      s'.(tasks := if Parses(files, m) then rest + multiset{Publish(m)} else rest)
    case Publish(m) =>
      s.(deps := s.deps[m := Imports(files, m)], tasks := rest + Claims(Imports(files, m)))
  }

  function Start(entry: nat): State {
    State({}, map[], multiset{}, multiset{}, multiset{Claim(entry)})
  }

  /** The state after a schedule: which worker moves at each step. */
  function Run(files: seq<File>, s: State, schedule: seq<Task>): Option<State>
    decreases |schedule|
  {
    if schedule == [] then Some(s)
    else if schedule[0] in s.tasks then Run(files, Step(files, s, schedule[0]), schedule[1..])
    else None
  }

  // ----- What holds after every step -----

  function One(b: bool): nat {
    if b then 1 else 0
  }

  // A claimed module has one worker, or is done; it has been parsed once, or is about to be;
  // what its parse reports has been reported once, or nothing yet.
  ghost predicate AccountedFor(files: seq<File>, s: State, m: nat) {
    && s.tasks[Parse(m)] + s.tasks[Publish(m)] + One(m in s.deps) + s.errors[NotParsed(m)] == One(m in s.visited)
    && s.parsed[m] + s.tasks[Parse(m)] == One(m in s.visited)
    && s.errors[NotFound(m)] == (if s.parsed[m] > 0 then Unresolved(files, m) else 0)
  }

  ghost predicate Accounted(files: seq<File>, s: State) {
    forall m: nat :: AccountedFor(files, s, m)
  }

  ghost predicate Genuine(files: seq<File>, entry: nat, s: State) {
    var g := ImportGraph(files);
    && (forall t | t in s.tasks :: Reach(g, entry, t.m))
    && (forall m | m in s.visited :: Reach(g, entry, m))
    && (forall m | Publish(m) in s.tasks :: Parses(files, m))
    && (forall m | NotParsed(m) in s.errors :: !Parses(files, m))
    && (forall m | m in s.deps :: Parses(files, m) && s.deps[m] == Imports(files, m))
  }

  ghost predicate Underway(s: State, d: nat) {
    d in s.visited || Claim(d) in s.tasks
  }

  // What a published module imports has been claimed or is about to be.
  ghost predicate Followed(entry: nat, s: State) {
    Underway(s, entry) && forall m, d | m in s.deps && d in s.deps[m] :: Underway(s, d)
  }

  ghost predicate Inv(files: seq<File>, entry: nat, s: State) {
    Accounted(files, s) && Genuine(files, entry, s) && Followed(entry, s)
  }

  lemma StartInv(files: seq<File>, entry: nat)
    ensures Inv(files, entry, Start(entry))
  {
    ReachRefl(ImportGraph(files), entry);
  }

  lemma {:induction false} ClaimsAre(ms: seq<nat>)
    ensures forall m: nat :: m in ms <==> Claim(m) in Claims(ms)
    ensures forall t | t in Claims(ms) :: t.Claim? && t.m in ms
  {
    if ms != [] {
      ClaimsAre(ms[..|ms| - 1]);
      assert ms == ms[..|ms| - 1] + [ms[|ms| - 1]];
    }
  }

  lemma NoWork(ms: seq<nat>, m: nat)
    ensures Claims(ms)[Parse(m)] == 0 && Claims(ms)[Publish(m)] == 0
  {
    ClaimsAre(ms);
    assert Parse(m) !in Claims(ms) && Publish(m) !in Claims(ms);
  }

  // One worker out, others in.
  lemma Exchanged(tasks: multiset<Task>, t: Task, more: multiset<Task>, x: Task)
    requires t in tasks
    ensures (tasks - multiset{t} + more)[x] == tasks[x] - One(x == t) + more[x]
  {
  }

  // What joins when t moves.
  function Joining(files: seq<File>, s: State, t: Task): multiset<Task> {
    match t
    case Claim(m) => if m in s.visited then multiset{} else multiset{Parse(m)}
    case Parse(m) => if Parses(files, m) then multiset{Publish(m)} else multiset{}
    case Publish(m) => Claims(Imports(files, m))
  }

  lemma StepTasks(files: seq<File>, s: State, t: Task)
    ensures Step(files, s, t).tasks == s.tasks - multiset{t} + Joining(files, s, t)
  {
    hide Claims, Imports, Parses;
  }

  lemma JoiningWork(files: seq<File>, s: State, t: Task, m: nat)
    ensures Joining(files, s, t)[Parse(m)] == One(t == Claim(m) && m !in s.visited)
    ensures Joining(files, s, t)[Publish(m)] == One(t == Parse(m) && Parses(files, m))
  {
    hide Claims, Imports, Parses;
    NoWork(Imports(files, t.m), m);
  }

  // How the tables change.
  lemma StepTables(files: seq<File>, s: State, t: Task)
    ensures var s' := Step(files, s, t);
      && s'.visited == (if t.Claim? then s.visited + {t.m} else s.visited)
      && (forall m: nat :: m in s'.deps <==> m in s.deps || t == Publish(m))
      && s'.parsed == s.parsed + (if t.Parse? then multiset{t.m} else multiset{})
      && s'.errors == s.errors + (if t.Parse? then Reports(files, t.m) else multiset{})
  {
    hide Claims, Imports, Parses, Reports;
  }

  lemma Counted<T>(a: multiset<T>, b: multiset<T>, x: T)
    ensures (a + b)[x] == a[x] + b[x]
  {
  }

  // How each count of a module changes.
  lemma StepCounts(files: seq<File>, s: State, t: Task, m: nat)
    ensures var s' := Step(files, s, t);
      && s'.parsed[m] == s.parsed[m] + One(t == Parse(m))
      && s'.errors[NotParsed(m)] == s.errors[NotParsed(m)] + One(t == Parse(m) && !Parses(files, m))
      && s'.errors[NotFound(m)] == s.errors[NotFound(m)] + if t == Parse(m) then Unresolved(files, m) else 0
  {
    StepTables(files, s, t);
    ReportsCounts(files, t.m, m);
    hide Step, Parses, Reports, Unresolved;
    if t.Parse? {
      Counted(s.parsed, multiset{t.m}, m);
      Counted(s.errors, Reports(files, t.m), NotParsed(m));
      Counted(s.errors, Reports(files, t.m), NotFound(m));
    }
  }

  lemma StepWorkers(files: seq<File>, s: State, t: Task, m: nat)
    requires t in s.tasks
    ensures var s' := Step(files, s, t);
      && s'.tasks[Parse(m)] == s.tasks[Parse(m)] - One(t == Parse(m)) + One(t == Claim(m) && m !in s.visited)
      && s'.tasks[Publish(m)] == s.tasks[Publish(m)] - One(t == Publish(m)) + One(t == Parse(m) && Parses(files, m))
  {
    StepTasks(files, s, t);
    JoiningWork(files, s, t, m);
    Exchanged(s.tasks, t, Joining(files, s, t), Parse(m));
    Exchanged(s.tasks, t, Joining(files, s, t), Publish(m));
    hide Step, Joining, Parses;
  }

  lemma StepMarks(files: seq<File>, s: State, t: Task, m: nat)
    ensures m in Step(files, s, t).visited <==> m in s.visited || t == Claim(m)
    ensures m in Step(files, s, t).deps <==> m in s.deps || t == Publish(m)
  {
    StepTables(files, s, t);
    hide Step;
  }

  lemma StepAccountsOne(files: seq<File>, s: State, t: Task, m: nat)
    requires t in s.tasks && AccountedFor(files, s, m)
    ensures AccountedFor(files, Step(files, s, t), m)
  {
    hide Step, Parses, Unresolved;
    StepMarks(files, s, t, m);
    StepCounts(files, s, t, m);
    StepWorkers(files, s, t, m);
    assert s.tasks[t] > 0;
  }

  lemma StepAccounts(files: seq<File>, s: State, t: Task)
    requires Accounted(files, s) && t in s.tasks
    ensures Accounted(files, Step(files, s, t))
  {
    hide Step, AccountedFor;
    forall m: nat
      ensures AccountedFor(files, Step(files, s, t), m)
    {
      StepAccountsOne(files, s, t, m);
    }
  }

  // A worker after the step was there before or has just joined.
  lemma StillThere(files: seq<File>, s: State, t: Task, x: Task)
    requires t in s.tasks && x in Step(files, s, t).tasks
    ensures x in s.tasks || x in Joining(files, s, t)
  {
    hide Joining;
    StepTasks(files, s, t);
  }

  lemma JoiningGenuine(files: seq<File>, entry: nat, s: State, t: Task, x: Task)
    requires Reach(ImportGraph(files), entry, t.m) && x in Joining(files, s, t)
    ensures Reach(ImportGraph(files), entry, x.m) && (x.Publish? ==> Parses(files, x.m))
  {
    hide Reach, Claims, Imports, ImportGraph;
    if t.Publish? {
      ClaimsAre(Imports(files, t.m));
      ImportIsEdge(files, t.m, x.m);
      ReachThenEdge(ImportGraph(files), entry, t.m, x.m);
    }
  }

  lemma ImportIsEdge(files: seq<File>, m: nat, d: nat)
    requires d in Imports(files, m)
    ensures Edge(ImportGraph(files), m, d)
  {
  }

  lemma StepGenuine(files: seq<File>, entry: nat, s: State, t: Task)
    requires Genuine(files, entry, s) && t in s.tasks
    ensures Genuine(files, entry, Step(files, s, t))
  {
    hide Reach, Claims, Imports, ImportGraph, Joining, Parses, Reports, Unresolved;
    var s' := Step(files, s, t);
    forall x | x in s'.tasks
      ensures Reach(ImportGraph(files), entry, x.m) && (x.Publish? ==> Parses(files, x.m))
    {
      hide Step;
      StillThere(files, s, t, x);
      if x in Joining(files, s, t) {
        JoiningGenuine(files, entry, s, t, x);
      } else {
        assert x.Publish? ==> x == Publish(x.m);
      }
    }
    forall m | NotParsed(m) in s'.errors
      ensures !Parses(files, m)
    {
      hide Genuine, Step;
      StepErrors(files, s, t, m);
      assert Genuine(files, entry, s);
    }
  }

  lemma StepErrors(files: seq<File>, s: State, t: Task, m: nat)
    requires NotParsed(m) in Step(files, s, t).errors
    ensures NotParsed(m) in s.errors || !Parses(files, m)
  {
    hide Claims, Imports, ImportGraph, Parses, Reports, Unresolved;
    ReportsCounts(files, t.m, m);
    assert NotParsed(m) !in s.errors ==> NotParsed(m) in Reports(files, t.m);
  }

  lemma StepFollows(files: seq<File>, entry: nat, s: State, t: Task)
    requires Followed(entry, s) && t in s.tasks
    ensures Followed(entry, Step(files, s, t))
  {
    var s' := Step(files, s, t);
    ClaimsAre(Imports(files, t.m));
    hide Imports, Claims;
    forall d | Underway(s, d)
      ensures Underway(s', d)
    {
    }
  }

  lemma StepKeeps(files: seq<File>, entry: nat, s: State, t: Task)
    requires Inv(files, entry, s) && t in s.tasks
    ensures Inv(files, entry, Step(files, s, t))
  {
    StepAccounts(files, s, t);
    StepGenuine(files, entry, s, t);
    StepFollows(files, entry, s, t);
    hide Accounted, Genuine, Followed;
  }

  lemma {:induction false} RunKeeps(files: seq<File>, entry: nat, s: State, schedule: seq<Task>)
    requires Inv(files, entry, s) && Run(files, s, schedule).Some?
    ensures Inv(files, entry, Run(files, s, schedule).value)
    decreases |schedule|
  {
    hide Inv, Step;
    if schedule != [] {
      StepKeeps(files, entry, s, schedule[0]);
      RunKeeps(files, entry, Step(files, s, schedule[0]), schedule[1..]);
    }
  }

  // ----- The end of every schedule -----

  /** What exploration comes to: the modules reachable from the entry, each parsed once, the
      import lists of those that parse and, once each, those that do not and the imports that
      lead nowhere. */
  ghost predicate Explored(files: seq<File>, entry: nat, s: State) {
    var g := ImportGraph(files);
    && (forall m: nat :: m in s.visited <==> Reach(g, entry, m))
    && (forall m: nat :: s.parsed[m] == One(m in s.visited))
    && (forall m: nat :: m in s.deps <==> m in s.visited && Parses(files, m))
    && (forall m | m in s.deps :: s.deps[m] == Imports(files, m))
    && (forall m: nat :: s.errors[NotParsed(m)] == One(m in s.visited && !Parses(files, m)))
    && (forall m: nat :: s.errors[NotFound(m)] == if m in s.visited then Unresolved(files, m) else 0)
  }

  lemma IdleIsExplored(files: seq<File>, entry: nat, s: State)
    requires Inv(files, entry, s) && s.tasks == multiset{}
    ensures Explored(files, entry, s)
  {
    hide Reach;
    var g := ImportGraph(files);
    forall m: nat
      ensures m in s.deps <==> m in s.visited && Parses(files, m)
      ensures s.errors[NotParsed(m)] == One(m in s.visited && !Parses(files, m))
      ensures s.errors[NotFound(m)] == if m in s.visited then Unresolved(files, m) else 0
      ensures s.parsed[m] == One(m in s.visited)
    {
      assert AccountedFor(files, s, m);
      assert s.tasks[Parse(m)] == 0 && s.tasks[Publish(m)] == 0;
      assert NotParsed(m) in s.errors <==> s.errors[NotParsed(m)] > 0;
    }
    forall a, b | a in s.visited && Edge(g, a, b)
      ensures b in s.visited
    {
      assert a in s.deps && b in s.deps[a];
      assert Underway(s, b);
    }
    assert Underway(s, entry);
    forall m: nat
      ensures m in s.visited <==> Reach(g, entry, m)
    {
      if Reach(g, entry, m) {
        ClosedKeeps(g, s.visited, entry, m);
      }
    }
  }

  /** Exploration does not depend on the schedule: every interleaving of claims, parses and
      publications that runs to its end collects the same graph, parsing each module once. */
  lemma ExplorationIsExact(files: seq<File>, entry: nat, schedule: seq<Task>)
    requires var s := Run(files, Start(entry), schedule); s.Some? && s.value.tasks == multiset{}
    ensures Explored(files, entry, Run(files, Start(entry), schedule).value)
  {
    hide Run, Inv, Explored;
    StartInv(files, entry);
    RunKeeps(files, entry, Start(entry), schedule);
    IdleIsExplored(files, entry, Run(files, Start(entry), schedule).value);
  }

  /** Any two complete schedules leave the same tables. */
  lemma SchedulesAgree(files: seq<File>, entry: nat, one: seq<Task>, other: seq<Task>)
    requires var s := Run(files, Start(entry), one); s.Some? && s.value.tasks == multiset{}
    requires var s := Run(files, Start(entry), other); s.Some? && s.value.tasks == multiset{}
    ensures Run(files, Start(entry), one) == Run(files, Start(entry), other)
  {
    hide Run, Reach, ImportGraph;
    ExplorationIsExact(files, entry, one);
    ExplorationIsExact(files, entry, other);
    var s, t := Run(files, Start(entry), one).value, Run(files, Start(entry), other).value;
    forall e: Error
      ensures s.errors[e] == t.errors[e]
    {
      assert e == NotParsed(e.m) || e == NotFound(e.m);
    }
    assert s.visited == t.visited && s.deps == t.deps && s.parsed == t.parsed && s.errors == t.errors;
  }

  // ----- Termination -----

  // What is still to be claimed among everything that could ever be.
  ghost function Unclaimed(files: seq<File>, entry: nat, s: State): set<nat> {
    Below(|files| + entry + 1) - s.visited
  }

  ghost function Unparsed(s: State): set<nat> {
    set m | m in s.visited && m !in s.parsed
  }

  ghost function Unsettled(s: State): set<nat> {
    set m | m in s.visited && m !in s.deps
  }

  /** Whichever worker moves, there is less to do: fewer modules to claim, or fewer to parse,
      or fewer to publish, or fewer workers. */
  lemma StepShrinks(files: seq<File>, entry: nat, s: State, t: Task)
    requires Closed(files) && Inv(files, entry, s) && t in s.tasks
    ensures var s' := Step(files, s, t);
      (Unclaimed(files, entry, s') < Unclaimed(files, entry, s))
      || (Unclaimed(files, entry, s') == Unclaimed(files, entry, s)
          && (Unparsed(s') < Unparsed(s)
              || (Unparsed(s') == Unparsed(s)
                  && (Unsettled(s') < Unsettled(s) || (Unsettled(s') == Unsettled(s) && |s'.tasks| < |s.tasks|)))))
  {
    hide Reach, Below, Claims, Imports, ImportGraph, Closed, Reports, Unresolved, Parses;
    var s' := Step(files, s, t);
    assert AccountedFor(files, s, t.m);
    assert s.tasks[t] > 0 && Reach(ImportGraph(files), entry, t.m);
    hide Inv, Accounted, Genuine, Followed, Reports, Unresolved;
    match t
    case Claim(m) =>
      if m !in s.visited {
        InUniverse(files, entry, m);
        assert m in Unclaimed(files, entry, s) && m !in Unclaimed(files, entry, s');
      }
    case Parse(m) =>
      assert m in Unparsed(s) && m !in Unparsed(s');
    case Publish(m) =>
      assert m in Unsettled(s) && m !in Unsettled(s');
  }

  lemma InUniverse(files: seq<File>, entry: nat, m: nat)
    requires Closed(files) && Reach(ImportGraph(files), entry, m)
    ensures m in Below(|files| + entry + 1)
  {
    var g, all := ImportGraph(files), Below(|files| + entry + 1);
    forall a, b | a in all && Edge(g, a, b)
      ensures b in all
    {
    }
    ClosedKeeps(g, all, entry, m);
  }

  // ----- The resolver's tables, filled by workers in any order -----

  lemma Joined<T>(a: multiset<T>, b: multiset<T>, c: multiset<T>)
    ensures a + b + c == a + (b + c)
  {
  }

  lemma NothingRead(m: nat)
    ensures Targets([]) == [] && Times(NotFound(m), LeadNowhere([])) == multiset{}
  {
  }

  lemma ReadOne(m: nat, items: seq<Item>, k: nat)
    requires k < |items|
    ensures Targets(items[..k + 1]) == match items[k] case Import(Some(d)) => Targets(items[..k]) + [d]
      case _ => Targets(items[..k])
    ensures Times(NotFound(m), LeadNowhere(items[..k + 1]))
            == Times(NotFound(m), LeadNowhere(items[..k])) + if items[k] == Import(None) then multiset{NotFound(m)}
              else multiset{}
  {
    assert items[..k + 1][..k] == items[..k];
  }

  class Context {
    var visited: set<nat>
    var deps: map<nat, seq<nat>>
    var errors: multiset<Error>
    ghost var parsed: multiset<nat>

    constructor ()
      ensures visited == {} && deps == map[] && errors == multiset{} && parsed == multiset{}
    {
      visited, deps, errors, parsed := {}, map[], multiset{}, multiset{};
    }

    ghost function S(tasks: multiset<Task>): State
      reads this
    {
      State(visited, deps, errors, parsed, tasks)
    }

    // Under the lock: true for the one worker that gets there first.
    method ClaimModule(m: nat) returns (mine: bool)
      modifies `visited
      ensures mine <==> m !in old(visited)
      ensures visited == old(visited) + {m}
    {
      mine := m !in visited;
      visited := visited + {m};
    }

    // The imports that lead somewhere, in order; one error for each that does not, or for a
    // module that does not parse.
    method ParseProgram(files: seq<File>, m: nat) returns (imports: Option<seq<nat>>)
      modifies `errors, `parsed
      ensures parsed == old(parsed) + multiset{m}
      ensures imports == if Parses(files, m) then Some(Imports(files, m)) else None
      ensures errors == old(errors) + Reports(files, m)
    {
      parsed := parsed + multiset{m};
      if m >= |files| || files[m].Broken? {
        errors := errors + multiset{NotParsed(m)};
        return None;
      }
      hide Targets, LeadNowhere, Times;
      var items, found := files[m].items, [];
      ghost var reported: multiset<Error> := multiset{};
      NothingRead(m);
      for k := 0 to |items|
        invariant found == Targets(items[..k]) && parsed == old(parsed) + multiset{m}
        invariant reported == Times(NotFound(m), LeadNowhere(items[..k])) && errors == old(errors) + reported
      {
        ReadOne(m, items, k);
        match items[k]
        case Import(Some(d)) => found := found + [d];
        case Import(None) =>
          Joined(old(errors), reported, multiset{NotFound(m)});
          errors, reported := errors + multiset{NotFound(m)}, reported + multiset{NotFound(m)};
        case Code(_) =>
      }
      assert items[..|items|] == items;
      imports := Some(found);
    }

    /** Runs the workers in an arbitrary order until none is left: it terminates, and the
        tables then hold exactly the reachable part of the module graph. */
    method CollectModuleGraph(files: seq<File>, entry: nat)
      requires Closed(files) && visited == {} && deps == map[] && errors == multiset{} && parsed == multiset{}
      modifies this
      ensures Explored(files, entry, S(multiset{}))
    {
      hide Inv, Explored, Claims, Unclaimed, Unparsed, Unsettled, Imports, Parses, Reports;
      var tasks := multiset{Claim(entry)};
      StartInv(files, entry);
      while tasks != multiset{}
        invariant Inv(files, entry, S(tasks))
        decreases Unclaimed(files, entry, S(tasks)), Unparsed(S(tasks)), Unsettled(S(tasks)), |tasks|
      {
        assert |tasks| > 0;
        var t :| t in tasks;
        ghost var s := S(tasks);
        StepKeeps(files, entry, s, t);
        StepShrinks(files, entry, s, t);
        tasks := tasks - multiset{t};
        match t {
          case Claim(m) =>
            var mine := ClaimModule(m);
            if mine {
              tasks := tasks + multiset{Parse(m)};
            } else {
              assert visited == s.visited;
            }
          case Parse(m) =>
            var imports := ParseProgram(files, m);
            if imports.Some? {
              tasks := tasks + multiset{Publish(m)};
            }
          case Publish(m) =>
            deps := deps[m := Imports(files, m)];
            tasks := tasks + Claims(Imports(files, m));
        }
        assert S(tasks) == Step(files, s, t);
      }
      IdleIsExplored(files, entry, S(multiset{}));
    }
  }

  // ----- Emission -----

  /** No module reached from the entry imports itself, directly or through others. */
  ghost predicate Acyclic(g: Graph, entry: nat) {
    forall m: nat | Reach(g, entry, m) :: !ReachPlus(g, m, m)
  }

  /** Every module reached from the entry parses, and all it imports is there. */
  ghost predicate Sound(files: seq<File>, entry: nat) {
    forall m: nat | Reach(ImportGraph(files), entry, m) :: Parses(files, m) && Unresolved(files, m) == 0
  }

  // Exploration reports something exactly when something is wrong.
  lemma ErrorsExactly(files: seq<File>, entry: nat, s: State)
    requires Explored(files, entry, s)
    ensures s.errors == multiset{} <==> Sound(files, entry)
  {
    hide Reach, Parses, Unresolved, ImportGraph;
    if s.errors == multiset{} {
      forall m: nat | Reach(ImportGraph(files), entry, m)
        ensures Parses(files, m) && Unresolved(files, m) == 0
      {
        assert s.errors[NotParsed(m)] == 0 && s.errors[NotFound(m)] == 0;
      }
    }
    if e :| e in s.errors {
      assert s.errors[e] > 0;
      assert Reach(ImportGraph(files), entry, e.m) && (!Parses(files, e.m) || Unresolved(files, e.m) > 0) by {
        match e
        case NotParsed(m) =>
        case NotFound(m) =>
      }
    }
  }

  ghost function ReachSet(g: Graph, bound: nat, m: nat): set<nat> {
    set x | x in Below(bound) && Reach(g, m, x)
  }

  // Below an import there are fewer modules.
  lemma ImportReachesLess(g: Graph, bound: nat, m: nat, d: nat)
    requires !ReachPlus(g, m, m) && Edge(g, m, d) && m < bound
    ensures ReachSet(g, bound, d) < ReachSet(g, bound, m)
  {
    forall x | Reach(g, d, x)
      ensures Reach(g, m, x)
    {
      EdgeThenReach(g, m, d, x);
    }
    ReachRefl(g, m);
    hide Reach, Below;
    assert m in ReachSet(g, bound, m);
    NotBack(g, m, d);
  }

  // An import does not lead back.
  lemma NotBack(g: Graph, m: nat, d: nat)
    requires !ReachPlus(g, m, m) && Edge(g, m, d)
    ensures !Reach(g, d, m)
  {
    hide Reach;
    assert Reach(g, d, m) ==> ReachPlus(g, m, m);
  }

  // The statements of some modules, imports left out, one module after another.
  function Bodies(files: seq<File>, order: seq<nat>): seq<string> {
    if order == [] then []
    else
      var m := order[|order| - 1];
      Bodies(files, order[..|order| - 1]) + (if Parses(files, m) then CodeOf(files[m].items) else [])
  }

  /** Each module listed parses and stands after everything it imports. */
  ghost predicate AfterImports(files: seq<File>, order: seq<nat>) {
    forall i | 0 <= i < |order| :: Parses(files, order[i]) && forall d | d in Imports(files, order[i]) ::
      d in order[..i]
  }

  // The dependency table left by exploration.
  ghost predicate Table(files: seq<File>, entry: nat, deps: map<nat, seq<nat>>) {
    && (forall m | m in deps :: Parses(files, m) && deps[m] == Imports(files, m))
    && (forall m: nat | Reach(ImportGraph(files), entry, m) && Parses(files, m) :: m in deps)
  }

  lemma ExploredTable(files: seq<File>, entry: nat, s: State)
    requires Explored(files, entry, s)
    ensures Table(files, entry, s.deps)
  {
    hide Reach;
  }

  lemma AfterImportsMore(files: seq<File>, order: seq<nat>, m: nat)
    requires AfterImports(files, order) && Parses(files, m) && forall d | d in Imports(files, m) :: d in order
    ensures AfterImports(files, order + [m])
  {
    var after := order + [m];
    forall i | 0 <= i < |after|
      ensures Parses(files, after[i]) && forall d | d in Imports(files, after[i]) :: d in after[..i]
    {
      assert i < |order| ==> after[..i] == order[..i];
      assert i == |order| ==> after[..i] == order;
    }
  }

  /** How emitting comes out: the modules emitted so far, one that does not parse, or no end
      within the depth allowed. */
  datatype Emission = Done(order: seq<nat>) | Fails | Deeper

  /** Emitting a module after everything it imports, in at most `depth` nested calls. A module
      counts as emitted only when its imports are, so a cycle is never noticed. */
  function Emit(files: seq<File>, key: nat, order: seq<nat>, depth: nat): Emission
    decreases depth, 0
  {
    if key in order then Done(order)
    else if depth == 0 then Deeper
    else
      match EmitAll(files, Imports(files, key), order, depth - 1)
      case Done(after) => if Parses(files, key) then Done(after + [key]) else Fails
      case r => r
  }

  function EmitAll(files: seq<File>, keys: seq<nat>, order: seq<nat>, depth: nat): Emission
    decreases depth, 1, |keys|
  {
    if keys == [] then Done(order)
    else
      match EmitAll(files, keys[..|keys| - 1], order, depth)
      case Done(after) => Emit(files, keys[|keys| - 1], after, depth)
      case r => r
  }

  // Allowed more depth, emission comes out the same.
  lemma {:induction false} EmitMore(files: seq<File>, key: nat, order: seq<nat>, depth: nat, more: nat)
    requires Emit(files, key, order, depth) != Deeper && depth <= more
    ensures Emit(files, key, order, more) == Emit(files, key, order, depth)
    decreases depth, 0
  {
    if key !in order {
      EmitAllMore(files, Imports(files, key), order, depth - 1, more - 1);
    }
  }

  lemma {:induction false} EmitAllMore(files: seq<File>, keys: seq<nat>, order: seq<nat>, depth: nat, more: nat)
    requires EmitAll(files, keys, order, depth) != Deeper && depth <= more
    ensures EmitAll(files, keys, order, more) == EmitAll(files, keys, order, depth)
    decreases depth, 1, |keys|
  {
    if keys != [] {
      EmitAllMore(files, keys[..|keys| - 1], order, depth, more);
      var r := EmitAll(files, keys[..|keys| - 1], order, depth);
      if r.Done? {
        EmitMore(files, keys[|keys| - 1], r.order, depth, more);
      }
    }
  }

  // A module from which the recursion is over within this depth.
  ghost predicate Shallow(files: seq<File>, bound: nat, key: nat, depth: nat) {
    key < bound && Acyclic(ImportGraph(files), key) && |ReachSet(ImportGraph(files), bound, key)| <= depth
  }

  // Without a cycle below it a module is emitted in as many nested calls as it reaches modules.
  lemma {:induction false} EmitEnds(files: seq<File>, bound: nat, key: nat, order: seq<nat>, depth: nat)
    requires Closed(files) && |files| <= bound && Shallow(files, bound, key, depth)
    ensures Emit(files, key, order, depth) != Deeper
    decreases depth, 0
  {
    if key !in order {
      forall d | d in Imports(files, key)
        ensures depth > 0 && Shallow(files, bound, d, depth - 1)
      {
        ImportBelow(files, bound, key, d);
      }
      ReachesItself(ImportGraph(files), bound, key);
      hide Shallow, Imports, Closed;
      EmitAllEnds(files, bound, Imports(files, key), order, depth - 1);
    }
  }

  lemma {:induction false} EmitAllEnds(files: seq<File>, bound: nat, keys: seq<nat>, order: seq<nat>, depth: nat)
    requires Closed(files) && |files| <= bound && forall d | d in keys :: Shallow(files, bound, d, depth)
    ensures EmitAll(files, keys, order, depth) != Deeper
    decreases depth, 1, |keys|
  {
    hide Shallow, Closed, Imports;
    if keys != [] {
      EmitAllEnds(files, bound, keys[..|keys| - 1], order, depth);
      var r := EmitAll(files, keys[..|keys| - 1], order, depth);
      if r.Done? {
        EmitEnds(files, bound, keys[|keys| - 1], r.order, depth);
      }
    }
  }

  lemma ReachesItself(g: Graph, bound: nat, key: nat)
    requires key < bound
    ensures |ReachSet(g, bound, key)| > 0
  {
    ReachRefl(g, key);
    hide Reach;
    assert key in ReachSet(g, bound, key);
  }

  // An import is a file, reaches less, and no cycle.
  lemma ImportBelow(files: seq<File>, bound: nat, key: nat, d: nat)
    requires Closed(files) && |files| <= bound && key < bound && Acyclic(ImportGraph(files), key)
      && d in Imports(files, key)
    ensures d < bound && Acyclic(ImportGraph(files), d)
    ensures |ReachSet(ImportGraph(files), bound, d)| < |ReachSet(ImportGraph(files), bound, key)|
  {
    var g := ImportGraph(files);
    ImportIsEdge(files, key, d);
    ReachRefl(g, key);
    ImportReachesLess(g, bound, key, d);
    StrictlySmaller(ReachSet(g, bound, d), ReachSet(g, bound, key));
    hide Reach, ReachPlus;
    forall m: nat | Reach(g, d, m)
      ensures Reach(g, key, m)
    {
      EdgeThenReach(g, key, d, m);
    }
  }

  // What has been emitted stands after all it imports.
  lemma {:induction false} EmitLists(files: seq<File>, key: nat, order: seq<nat>, depth: nat)
    requires AfterImports(files, order) && Emit(files, key, order, depth).Done?
    ensures var after := Emit(files, key, order, depth).order;
      order <= after && key in after && AfterImports(files, after)
    decreases depth, 0
  {
    hide AfterImports;
    if key !in order {
      EmitAllLists(files, Imports(files, key), order, depth - 1);
      AfterImportsMore(files, EmitAll(files, Imports(files, key), order, depth - 1).order, key);
    }
  }

  lemma {:induction false} EmitAllLists(files: seq<File>, keys: seq<nat>, order: seq<nat>, depth: nat)
    requires AfterImports(files, order) && EmitAll(files, keys, order, depth).Done?
    ensures var after := EmitAll(files, keys, order, depth).order;
      order <= after && AfterImports(files, after) && forall d | d in keys :: d in after
    decreases depth, 1, |keys|
  {
    hide AfterImports;
    if keys != [] {
      var front := keys[..|keys| - 1];
      EmitAllLists(files, front, order, depth);
      EmitLists(files, keys[|keys| - 1], EmitAll(files, front, order, depth).order, depth);
      assert keys == front + [keys[|keys| - 1]];
    }
  }

  // In such a list nothing leads back to itself.
  lemma ListedIsAcyclic(files: seq<File>, order: seq<nat>, m: nat)
    requires AfterImports(files, order) && m in order
    ensures !ReachPlus(ImportGraph(files), m, m)
  {
    hide Reach, Imports;
    var g := ImportGraph(files);
    var i := FirstAt(order, m);
    if ReachPlus(g, m, m) {
      var w :| Edge(g, m, w) && Reach(g, w, m);
      EdgeIsImport(files, m, w);
      PrefixKeeps(files, order, i, w, m);
      assert false;
    }
  }

  lemma FirstAt(order: seq<nat>, m: nat) returns (i: nat)
    requires m in order
    ensures i < |order| && order[i] == m && m !in order[..i]
  {
    i := 0;
    while order[i] != m
      invariant i < |order| && m !in order[..i] && m in order[i..]
      decreases |order| - i
    {
      i := i + 1;
    }
  }

  lemma EdgeIsImport(files: seq<File>, m: nat, d: nat)
    requires Edge(ImportGraph(files), m, d)
    ensures d in Imports(files, m)
  {
  }

  lemma PrefixKeeps(files: seq<File>, order: seq<nat>, i: nat, u: nat, v: nat)
    requires AfterImports(files, order) && i <= |order| && u in order[..i] && Reach(ImportGraph(files), u, v)
    ensures v in order[..i]
  {
    hide Reach, Imports;
    var g, all := ImportGraph(files), Elements(order[..i]);
    forall a, b | a in all && Edge(g, a, b)
      ensures b in all
    {
      EdgeIsImport(files, a, b);
      var j :| 0 <= j < i && order[j] == a;
      assert b in order[..j];
    }
    ClosedKeeps(g, all, u, v);
  }

  /** Emission ends if and only if no module reached from the entry imports itself, directly
      or through others. */
  lemma EmissionEndsExactly(files: seq<File>, entry: nat)
    requires Closed(files) && Sound(files, entry)
    ensures (exists depth: nat :: Emit(files, entry, [], depth) != Deeper) <==> Acyclic(ImportGraph(files), entry)
  {
    hide Reach, ReachSet, Imports, ImportGraph, AfterImports, Closed;
    var g := ImportGraph(files);
    if Acyclic(g, entry) {
      var bound := |files| + entry + 1;
      EmitEnds(files, bound, entry, [], |ReachSet(g, bound, entry)|);
    }
    if depth: nat :| Emit(files, entry, [], depth) != Deeper {
      NothingListed(files);
      ReachRefl(g, entry);
      EmitSucceeds(files, entry, entry, [], depth);
      EmitLists(files, entry, [], depth);
      var after := Emit(files, entry, [], depth).order;
      forall m: nat | Reach(g, entry, m)
        ensures !ReachPlus(g, m, m)
      {
        assert after == after[..|after|];
        PrefixKeeps(files, after, |after|, entry, m);
        ListedIsAcyclic(files, after, m);
      }
    }
  }

  // A module that imports itself.
  function SelfImport(): seq<File> {
    [Parsed([Import(Some(0))])]
  }

  /** All is well with it but the cycle, and emission never ends. */
  lemma SelfImportNeverEnds()
    ensures Closed(SelfImport()) && Sound(SelfImport(), 0) && !Acyclic(ImportGraph(SelfImport()), 0)
    ensures forall depth: nat :: Emit(SelfImport(), 0, [], depth) == Deeper
  {
    var files, g := SelfImport(), ImportGraph(SelfImport());
    var items := files[0].items;
    assert items[..0] == [] && Targets(items) == [] + [0] && LeadNowhere(items) == 0;
    assert |g| == 1 && g[0] == Targets(items) == [0];
    hide Reach;
    forall m: nat | Reach(g, 0, m)
      ensures Parses(files, m) && Unresolved(files, m) == 0
    {
      ClosedKeeps(g, {0}, 0, m);
    }
    ReachRefl(g, 0);
    assert Edge(g, 0, 0) && ReachPlus(g, 0, 0);
    EmissionEndsExactly(files, 0);
  }

  // Where everything parses emission does not fail.
  lemma {:induction false} EmitSucceeds(files: seq<File>, entry: nat, key: nat, order: seq<nat>, depth: nat)
    requires Sound(files, entry) && Reach(ImportGraph(files), entry, key)
    ensures !Emit(files, key, order, depth).Fails?
    decreases depth, 0
  {
    hide Reach, Imports, ImportGraph;
    if key !in order && depth > 0 {
      forall d | d in Imports(files, key)
        ensures Reach(ImportGraph(files), entry, d)
      {
        ImportIsEdge(files, key, d);
        ReachThenEdge(ImportGraph(files), entry, key, d);
      }
      EmitAllSucceeds(files, entry, Imports(files, key), order, depth - 1);
    }
  }

  lemma {:induction false} EmitAllSucceeds(files: seq<File>, entry: nat, keys: seq<nat>, order: seq<nat>, depth: nat)
    requires Sound(files, entry) && forall d | d in keys :: Reach(ImportGraph(files), entry, d)
    ensures !EmitAll(files, keys, order, depth).Fails?
    decreases depth, 1, |keys|
  {
    hide Reach, Imports, ImportGraph, Sound;
    if keys != [] {
      EmitAllSucceeds(files, entry, keys[..|keys| - 1], order, depth);
      var r := EmitAll(files, keys[..|keys| - 1], order, depth);
      if r.Done? {
        EmitSucceeds(files, entry, keys[|keys| - 1], r.order, depth);
      }
    }
  }

  // Emission comes out like this, in enough depth.
  ghost predicate Emits(files: seq<File>, key: nat, order: seq<nat>, r: Emission) {
    r != Deeper && exists depth: nat :: Emit(files, key, order, depth) == r
  }

  ghost predicate EmitsAll(files: seq<File>, keys: seq<nat>, order: seq<nat>, r: Emission) {
    r != Deeper && exists depth: nat :: EmitAll(files, keys, order, depth) == r
  }

  lemma EmitsOneMore(files: seq<File>, keys: seq<nat>, order: seq<nat>, after: seq<nat>, key: nat, r: Emission)
    requires EmitsAll(files, keys, order, Done(after)) && Emits(files, key, after, r)
    ensures EmitsAll(files, keys + [key], order, r)
  {
    var d1: nat :| EmitAll(files, keys, order, d1) == Done(after);
    var d2: nat :| Emit(files, key, after, d2) == r;
    var d := d1 + d2;
    EmitAllMore(files, keys, order, d1, d);
    EmitMore(files, key, after, d2, d);
    assert (keys + [key])[..|keys|] == keys;
    assert EmitAll(files, keys + [key], order, d) == r;
  }

  lemma {:induction false} EmitsFailEarly(files: seq<File>, keys: seq<nat>, k: nat, order: seq<nat>)
    requires k <= |keys| && EmitsAll(files, keys[..k], order, Fails)
    ensures EmitsAll(files, keys, order, Fails)
    decreases |keys| - k
  {
    if k == |keys| {
      assert keys[..k] == keys;
    } else {
      var d: nat :| EmitAll(files, keys[..k], order, d) == Fails;
      assert keys[..k + 1][..k] == keys[..k];
      assert EmitAll(files, keys[..k + 1], order, d) == Fails;
      EmitsFailEarly(files, keys, k + 1, order);
    }
  }

  lemma EmitsLast(files: seq<File>, key: nat, order: seq<nat>, r: Emission)
    requires key !in order && EmitsAll(files, Imports(files, key), order, r)
    ensures Emits(files, key, order,
      match r case Done(after) => if Parses(files, key) then Done(after + [key]) else Fails case _ => Fails)
  {
    hide Imports, Parses;
    var d: nat :| EmitAll(files, Imports(files, key), order, d) == r;
    assert Emit(files, key, order, d + 1) ==
      match r case Done(after) => if Parses(files, key) then Done(after + [key]) else Fails case _ => Fails;
  }

  lemma NothingEmits(files: seq<File>, key: nat, order: seq<nat>)
    ensures EmitsAll(files, [], order, Done(order))
    ensures key in order ==> Emits(files, key, order, Done(order))
  {
    assert EmitAll(files, [], order, 0) == Done(order);
    assert key in order ==> Emit(files, key, order, 0) == Done(order);
  }

  lemma ImportsNothing(files: seq<File>, key: nat)
    ensures !Parses(files, key) ==> Imports(files, key) == []
  {
  }

  class Emitter {
    var emitted: set<nat>
    var out: seq<string>
    ghost var order: seq<nat>

    constructor ()
      ensures emitted == {} && out == [] && order == []
    {
      emitted, out, order := {}, [], [];
    }

    // The output is the code of the modules emitted so far, each once, after what it imports.
    ghost predicate Listed(files: seq<File>)
      reads this
    {
      emitted == Elements(order) && Distinct(order) && out == Bodies(files, order) && AfterImports(files, order)
    }

    /** Emits a module after everything it imports; fails exactly when something it reaches
        does not parse. */
    method EmitModule(files: seq<File>, entry: nat, deps: map<nat, seq<nat>>, key: nat) returns (ok: bool)
      requires Closed(files) && Acyclic(ImportGraph(files), entry) && Table(files, entry, deps)
      requires Reach(ImportGraph(files), entry, key) && Listed(files)
      modifies this
      ensures Listed(files) && old(order) <= order
      ensures forall m | m in order[|old(order)|..] :: Reach(ImportGraph(files), key, m)
      ensures Emits(files, key, old(order), if ok then Done(order) else Fails)
      ensures ok ==> key in emitted
      ensures !ok ==> exists m :: Reach(ImportGraph(files), key, m) && !Parses(files, m)
      decreases ReachSet(ImportGraph(files), |files|, key)
    {
      hide Reach, ImportGraph, AfterImports, Distinct, Imports, Bodies, ReachSet, Emits, EmitsAll;
      ghost var g := ImportGraph(files);
      ReachRefl(g, key);
      NothingEmits(files, key, order);
      ImportsNothing(files, key);
      if key in emitted {
        return true;
      }
      if key in deps {
        var children := deps[key];
        for k := 0 to |children|
          invariant Listed(files) && old(order) <= order
          invariant forall m | m in order[|old(order)|..] :: Reach(g, key, m)
          invariant key !in order && forall j | 0 <= j < k :: children[j] in emitted
          invariant EmitsAll(files, children[..k], old(order), Done(order))
        {
          var d := children[k];
          assert d in Imports(files, key);
          ImportIsEdge(files, key, d);
          ReachThenEdge(g, entry, key, d);
          ImportReachesLess(g, |files|, key, d);
          NotBack(g, key, d);
          ghost var before := order;
          ok := EmitModule(files, entry, deps, d);
          assert order == before + order[|before|..];
          forall m | Reach(g, d, m)
            ensures Reach(g, key, m)
          {
            EdgeThenReach(g, key, d, m);
          }
          NewOnes(old(order), before, order);
          EmitsOneMore(files, children[..k], old(order), before, d, if ok then Done(order) else Fails);
          assert children[..k] + [d] == children[..k + 1];
          if !ok {
            EmitsFailEarly(files, children, k + 1, old(order));
            EmitsLast(files, key, old(order), Fails);
            return;
          }
        }
        assert children[..|children|] == children;
      }
      ghost var mid := order;
      EmitsLast(files, key, old(order), Done(mid));
      ok := Finish(files, entry, deps, key);
    }

    // Parses the module again and appends its code.
    method Finish(files: seq<File>, entry: nat, deps: map<nat, seq<nat>>, key: nat) returns (ok: bool)
      requires Listed(files) && Table(files, entry, deps) && Reach(ImportGraph(files), entry, key)
      requires key in deps ==> forall d | d in deps[key] :: d in emitted
      requires key !in emitted
      modifies this
      ensures Listed(files) && ok == Parses(files, key)
      ensures order == old(order) + if ok then [key] else []
    {
      hide Reach, ImportGraph, Imports;
      if key >= |files| || files[key].Broken? {
        return false;
      }
      var items := files[key].items;
      for k := 0 to |items|
        invariant emitted == old(emitted) && order == old(order) && out == old(out) + CodeOf(items[..k])
      {
        assert items[..k + 1][..k] == items[..k];
        match items[k]
        case Code(text) => out := out + [text];
        case Import(_) =>
      }
      assert items[..|items|] == items;
      emitted := emitted + {key};
      AfterImportsMore(files, order, key);
      DistinctAppend(order, key);
      assert (order + [key])[..|order|] == order;
      order := order + [key];
      ok := true;
    }
  }

  // What came after the first part is in the second growth or was in the first.
  lemma NewOnes(start: seq<nat>, mid: seq<nat>, end: seq<nat>)
    requires start <= mid <= end
    ensures forall m | m in end[|start|..] :: m in mid[|start|..] || m in end[|mid|..]
  {
    assert end[|start|..] == mid[|start|..] + end[|mid|..];
  }

  /** The whole resolution. There is a program if and only if every module reached parses and
      all imports lead somewhere; it then lists every module reached exactly once, each after
      all it imports, and is their code in that order. Import cycles are excluded only where
      nothing else is wrong: see `EmissionEndsExactly`. */
  method Resolve(files: seq<File>, entry: nat) returns (program: Option<seq<string>>, ghost order: seq<nat>)
    requires Closed(files) && (Sound(files, entry) ==> Acyclic(ImportGraph(files), entry))
    ensures program.Some? <==> Sound(files, entry)
    ensures program.Some? ==>
      Distinct(order) && (forall m: nat :: m in order <==> Reach(ImportGraph(files), entry, m))
      && AfterImports(files, order) && program.value == Bodies(files, order)
  {
    hide Reach, ImportGraph, AfterImports, Distinct, Acyclic, Explored, Bodies, Imports, Emits;
    var ctx := new Context();
    ctx.CollectModuleGraph(files, entry);
    ErrorsExactly(files, entry, ctx.S(multiset{}));
    if ctx.errors != multiset{} {
      return None, [];
    }
    ExploredTable(files, entry, ctx.S(multiset{}));
    var e := new Emitter();
    assert e.Listed(files) by {
      NothingListed(files);
    }
    ReachRefl(ImportGraph(files), entry);
    var ok := e.EmitModule(files, entry, ctx.deps, entry);
    assert ok;
    order := e.order;
    assert order == order[0..];
    AllListed(files, entry, order);
    program := Some(e.out);
  }

  lemma NothingListed(files: seq<File>)
    ensures Distinct<nat>([]) && Bodies(files, []) == [] && AfterImports(files, [])
  {
  }

  // A list closed under imports holds all that its members reach.
  lemma AllListed(files: seq<File>, entry: nat, order: seq<nat>)
    requires AfterImports(files, order) && entry in order && forall m | m in order ::
      Reach(ImportGraph(files), entry, m)
    ensures forall m: nat :: m in order <==> Reach(ImportGraph(files), entry, m)
    ensures forall m: nat | Reach(ImportGraph(files), entry, m) :: Parses(files, m)
  {
    hide Reach;
    var g, all := ImportGraph(files), Elements(order);
    forall a, b | a in all && Edge(g, a, b)
      ensures b in all
    {
      var i :| 0 <= i < |order| && order[i] == a;
      assert b in Imports(files, order[i]);
      assert b in order[..i];
    }
    forall m: nat | Reach(g, entry, m)
      ensures m in order
    {
      ClosedKeeps(g, all, entry, m);
    }
  }
}
