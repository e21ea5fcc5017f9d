/** The files the rules generate in a repository that shows the project, and what they read for them. */
module ProjectFiles {
  import opened CStrings
  import opened OverlayPaths
  import opened OverlayTrees
  import opened OverlayWalk
  import opened Repositories
  import opened RepositoryWrites

  /** Where the rules find their inputs and generate their files. */
  datatype Layout = Layout(
    pfm: Path, ignore: Path, buildFile: Path, build: Path, vars: Path, llvmTargets: Path, boltTargets: Path,
    instrumentor: Path, cmake: Path, version: Path, helper: Path)

  /** What is generated at each path; how it comes from what is read does not matter here. */
  type Texts = Path -> string

  // ---------- what the rule does, step by step ----------

  /** Reading a file, writing one, and deleting what is at a path before writing there. */
  datatype Step = Input(path: Path) | Output(path: Path) | Replacement(path: Path)

  function Take(s: Contents, texts: Texts, step: Step): Option<Contents> {
    match step
    case Input(p) => if Read(s, p).Some? then Some(s) else None
    case Output(p) => Put(s, p, texts(p))
    case Replacement(p) => Put(Deleted(s, p), p, texts(p))
  }

  function Run(s: Contents, texts: Texts, steps: seq<Step>): Option<Contents>
    decreases |steps|
  {
    if steps == [] then Some(s)
    else
      match Take(s, texts, steps[0])
      case None => None
      case Some(t) => Run(t, texts, steps[1..])
  }

  /** The build file beside a pfm.BUILD, and the rewritten ignore file. */
  function FirstSteps(n: Layout, s: Contents): seq<Step> {
    if Exists(s, n.pfm) then [Input(n.ignore), Replacement(n.ignore), Replacement(n.buildFile)] else []
  }

  function MiddleSteps(n: Layout): seq<Step> {
    [Output(n.build), Input(n.cmake), Input(n.version), Output(n.vars), Output(n.llvmTargets), Output(n.boltTargets)]
  }

  /** The file made from a header, if there is one. */
  function LastSteps(n: Layout, s: Contents): seq<Step> {
    if Exists(s, n.helper) then [Input(n.helper), Output(n.instrumentor)] else []
  }

  function Generated(n: Layout, s: Contents, texts: Texts): Option<Contents> {
    match Run(s, texts, FirstSteps(n, s))
    case None => None
    case Some(t) =>
      match Run(t, texts, MiddleSteps(n))
      case None => None
      case Some(u) => Run(u, texts, LastSteps(n, u))
  }

  method GenerateFile(repo: Repository, texts: Texts, p: Path) returns (ok: bool)
    requires ProperPath(p)
    modifies repo
    ensures ok <==> Take(old(repo.State()), texts, Output(p)).Some?
    ensures ok ==> Take(old(repo.State()), texts, Output(p)) == Some(repo.State())
  {
    SpellRoundTrip(p);
    ok := repo.File(Spell(p), texts(p));
  }

  method ReplaceFile(repo: Repository, texts: Texts, p: Path) returns (ok: bool)
    requires ProperPath(p)
    modifies repo
    ensures ok <==> Take(old(repo.State()), texts, Replacement(p)).Some?
    ensures ok ==> Take(old(repo.State()), texts, Replacement(p)) == Some(repo.State())
  {
    SpellRoundTrip(p);
    repo.Delete(Spell(p));
    ok := repo.File(Spell(p), texts(p));
  }

  lemma RunFirst(s: Contents, texts: Texts, step: Step, rest: seq<Step>)
    ensures Run(s, texts, [step] + rest) ==
      match Take(s, texts, step)
      case None => None
      case Some(t) => Run(t, texts, rest)
  {
    assert ([step] + rest)[1..] == rest;
  }

  lemma RunTwo(s: Contents, texts: Texts, a: Step, b: Step)
    ensures Run(s, texts, [a, b]) ==
      match Take(s, texts, a)
      case None => None
      case Some(t) => Take(t, texts, b)
  {
    assert [a, b] == [a] + [b] && [b] == [b] + [];
    RunFirst(s, texts, a, [b]);
    if t :| Take(s, texts, a) == Some(t) {
      RunFirst(t, texts, b, []);
    }
  }

  lemma RunThree(s: Contents, texts: Texts, a: Step, b: Step, c: Step)
    ensures Run(s, texts, [a, b, c]) ==
      match Take(s, texts, a)
      case None => None
      case Some(t) => (
        match Take(t, texts, b)
        case None => None
        case Some(u) => Take(u, texts, c))
  {
    assert [a, b, c] == [a] + [b, c];
    RunFirst(s, texts, a, [b, c]);
    if t :| Take(s, texts, a) == Some(t) {
      RunTwo(t, texts, b, c);
    }
  }

  lemma {:induction false} RunConcat(s: Contents, texts: Texts, a: seq<Step>, b: seq<Step>)
    ensures Run(s, texts, a + b) ==
      match Run(s, texts, a)
      case None => None
      case Some(t) => Run(t, texts, b)
    decreases |a|
  {
    if a == [] {
      assert a + b == b;
    } else {
      assert (a + b)[0] == a[0] && (a + b)[1..] == a[1..] + b;
      if t :| Take(s, texts, a[0]) == Some(t) {
        RunConcat(t, texts, a[1..], b);
      }
    }
  }

  predicate Proper(n: Layout) {
    && ProperPath(n.ignore) && ProperPath(n.buildFile) && ProperPath(n.build) && ProperPath(n.vars)
    && ProperPath(n.llvmTargets) && ProperPath(n.boltTargets) && ProperPath(n.instrumentor)
  }

  method ExposeThirdPartyBuildFiles(repo: Repository, texts: Texts, n: Layout) returns (ok: bool)
    requires Proper(n)
    modifies repo
    ensures var r := Run(old(repo.State()), texts, FirstSteps(n, old(repo.State())));
      if ok then r == Some(repo.State()) else r == None
  {
    ok := true;
    if Exists(repo.State(), n.pfm) {
      RunThree(repo.State(), texts, Input(n.ignore), Replacement(n.ignore), Replacement(n.buildFile));
      ok := Read(repo.State(), n.ignore).Some?;
      if ok {
        ok := ReplaceFile(repo, texts, n.ignore);
      }
      if ok {
        ok := ReplaceFile(repo, texts, n.buildFile);
      }
    }
  }

  method WriteBuild(repo: Repository, texts: Texts, n: Layout) returns (ok: bool)
    requires Proper(n)
    modifies repo
    ensures var r := Run(old(repo.State()), texts, [Output(n.build), Input(n.cmake), Input(n.version)]);
      if ok then r == Some(repo.State()) else r == None
  {
    RunThree(repo.State(), texts, Output(n.build), Input(n.cmake), Input(n.version));
    ok := GenerateFile(repo, texts, n.build);
    if ok {
      ok := Read(repo.State(), n.cmake).Some? && Read(repo.State(), n.version).Some?;
    }
  }

  method WriteTargets(repo: Repository, texts: Texts, n: Layout) returns (ok: bool)
    requires Proper(n)
    modifies repo
    ensures var r := Run(old(repo.State()), texts, [Output(n.vars), Output(n.llvmTargets), Output(n.boltTargets)]);
      if ok then r == Some(repo.State()) else r == None
  {
    RunThree(repo.State(), texts, Output(n.vars), Output(n.llvmTargets), Output(n.boltTargets));
    ok := GenerateFile(repo, texts, n.vars);
    if ok {
      ok := GenerateFile(repo, texts, n.llvmTargets);
    }
    if ok {
      ok := GenerateFile(repo, texts, n.boltTargets);
    }
  }

  method WriteInstrumentor(repo: Repository, texts: Texts, n: Layout) returns (ok: bool)
    requires Proper(n)
    modifies repo
    ensures var r := Run(old(repo.State()), texts, LastSteps(n, old(repo.State())));
      if ok then r == Some(repo.State()) else r == None
  {
    ok := true;
    if Exists(repo.State(), n.helper) {
      RunTwo(repo.State(), texts, Input(n.helper), Output(n.instrumentor));
      ok := Read(repo.State(), n.helper).Some?;
      if ok {
        ok := GenerateFile(repo, texts, n.instrumentor);
      }
    }
  }

  /** Writes the generated files, or stops at one that cannot be written or an input that is missing. */
  method WriteProjectFiles(repo: Repository, texts: Texts, n: Layout) returns (ok: bool)
    requires Proper(n)
    modifies repo
    ensures if ok then Generated(n, old(repo.State()), texts) == Some(repo.State())
            else Generated(n, old(repo.State()), texts) == None
  {
    ok := ExposeThirdPartyBuildFiles(repo, texts, n);
    if !ok {
      return;
    }
    ghost var a, b := [Output(n.build), Input(n.cmake), Input(n.version)],
                      [Output(n.vars), Output(n.llvmTargets), Output(n.boltTargets)];
    assert MiddleSteps(n) == a + b;
    RunConcat(repo.State(), texts, a, b);
    ok := WriteBuild(repo, texts, n);
    if ok {
      ok := WriteTargets(repo, texts, n);
    }
    if ok {
      ok := WriteInstrumentor(repo, texts, n);
    }
  }

  // ---------- what a series of steps comes to ----------

  ghost function OutputsOf(steps: seq<Step>): seq<Path> {
    if steps == [] then []
    else if steps[0].Input? then OutputsOf(steps[1..])
    else [steps[0].path] + OutputsOf(steps[1..])
  }

  /** Whether the step could be taken at the start. */
  ghost predicate Possible(s: Contents, step: Step) {
    match step
    case Input(p) => Read(s, p).Some?
    case Output(p) => Writable(s, p)
    case Replacement(p) => Writable(s, p)
  }

  ghost predicate AllPossible(s: Contents, steps: seq<Step>) {
    forall step :: step in steps ==> Possible(s, step)
  }

  /** Each file is written once, and nothing is read at or below it afterwards; what is replaced is no directory. */
  ghost predicate InOrder(start: Contents, files: map<Path, string>, texts: Texts, done: seq<Path>, steps: seq<Step>)
    decreases |steps|
  {
    steps == [] ||
    match steps[0]
    case Input(p) =>
      && (forall q :: q in done ==> !(q <= p))
      && (Read(start, p).Some? ==> InOrder(start, files, texts, done, steps[1..]))
    case _ =>
      var p := steps[0].path;
      && p in files && files[p] == texts(p) && p !in done && Unaliased(start.links, p)
      && (steps[0].Replacement? ==> Bare(start, p))
      && InOrder(start, files, texts, done + [p], steps[1..])
  }

  lemma TakeMeaning(start: Contents, s: Contents, files: map<Path, string>, texts: Texts, done: seq<Path>, step: Step)
    requires Copied(start, s, files, done) && Independent(files) && !step.Input?
    requires step.path in files && files[step.path] == texts(step.path) && step.path !in done
    requires Unaliased(start.links, step.path) && (step.Replacement? ==> Bare(start, step.path))
    ensures Take(s, texts, step).Some? <==> Possible(start, step)
    ensures Take(s, texts, step).Some? ==> Copied(start, Take(s, texts, step).value, files, done + [step.path])
  {
    var p := step.path;
    CopiedNext(start, s, files, done, p);
    if step.Replacement? {
      assert ApartFrom(done, p);
      DeleteThenPut(s, p, texts(p));
    }
  }

  /** The steps can be taken one after the other exactly if each is possible at the start. */
  lemma {:induction false} RunMeaning(start: Contents, s: Contents, files: map<Path, string>, texts: Texts,
                                      done: seq<Path>, steps: seq<Step>)
    requires Copied(start, s, files, done) && Independent(files) && InOrder(start, files, texts, done, steps)
    ensures Run(s, texts, steps).Some? <==> AllPossible(start, steps)
    ensures Run(s, texts, steps).Some? ==>
      Copied(start, Run(s, texts, steps).value, files, done + OutputsOf(steps))
    decreases |steps|
  {
    if steps == [] {
      assert done + [] == done;
    } else {
      var first, rest := steps[0], steps[1..];
      assert forall step :: step in steps <==> step == first || step in rest;
      assert first in steps;
      if first.Input? {
        assert Read(s, first.path) == Read(start, first.path);
        if Read(start, first.path).Some? {
          RunMeaning(start, s, files, texts, done, rest);
        }
      } else {
        TakeMeaning(start, s, files, texts, done, first);
        if t :| Take(s, texts, first) == Some(t) {
          RunMeaning(start, t, files, texts, done + [first.path], rest);
          Reassociate(done, [first.path], OutputsOf(rest));
        }
      }
    }
  }

  // ---------- all generated files ----------

  /** All steps, as the state at the start decides them. */
  ghost function Steps(n: Layout, s: Contents): seq<Step> {
    FirstSteps(n, s) + MiddleSteps(n) + LastSteps(n, s)
  }

  lemma {:induction false} InOrderConcat(start: Contents, files: map<Path, string>, texts: Texts, done: seq<Path>,
                                         a: seq<Step>, b: seq<Step>)
    requires InOrder(start, files, texts, done, a) && InOrder(start, files, texts, done + OutputsOf(a), b)
    ensures InOrder(start, files, texts, done, a + b) && OutputsOf(a + b) == OutputsOf(a) + OutputsOf(b)
    decreases |a|
  {
    if a == [] {
      assert a + b == b && done + [] == done;
      assert OutputsOf(b) == [] + OutputsOf(b);
    } else {
      var all := a + b;
      assert all[0] == a[0] && all[1..] == a[1..] + b;
      if !a[0].Input? {
        Reassociate(done, [a[0].path], OutputsOf(a[1..]));
        InOrderConcat(start, files, texts, done + [a[0].path], a[1..], b);
      } else if Read(start, a[0].path).Some? {
        InOrderConcat(start, files, texts, done, a[1..], b);
      } else {
        OutputsConcat(a[1..], b);
      }
    }
  }

  lemma {:induction false} OutputsConcat(a: seq<Step>, b: seq<Step>)
    ensures OutputsOf(a + b) == OutputsOf(a) + OutputsOf(b)
  {
    if a == [] {
      assert a + b == b;
    } else {
      assert (a + b)[0] == a[0] && (a + b)[1..] == a[1..] + b;
      OutputsConcat(a[1..], b);
    }
  }

  lemma RunFromStart(s: Contents, files: map<Path, string>, texts: Texts, steps: seq<Step>)
    requires Sound(s) && Independent(files) && InOrder(s, files, texts, [], steps)
    ensures Run(s, texts, steps).Some? <==> AllPossible(s, steps)
    ensures Run(s, texts, steps).Some? ==> Copied(s, Run(s, texts, steps).value, files, OutputsOf(steps))
  {
    CopiedNothing(s, files);
    RunMeaning(s, s, files, texts, [], steps);
    assert [] + OutputsOf(steps) == OutputsOf(steps);
  }

  lemma SameLastSteps(n: Layout, s: Contents, u: Contents, files: map<Path, string>, done: seq<Path>)
    requires Copied(s, u, files, done) && ApartFrom(done, n.helper)
    ensures LastSteps(n, u) == LastSteps(n, s)
  {
  }

  /** Whether there is a header to read is not changed by what is written before it. */
  lemma GeneratedIsRun(n: Layout, s: Contents, files: map<Path, string>, texts: Texts, early: seq<Step>,
                       last: seq<Step>)
    requires early == FirstSteps(n, s) + MiddleSteps(n) && last == LastSteps(n, s)
    requires Sound(s) && Independent(files) && InOrder(s, files, texts, [], early) &&
      ApartFrom(OutputsOf(early), n.helper)
    ensures Generated(n, s, texts) == Run(s, texts, early + last)
  {
    RunConcat(s, texts, FirstSteps(n, s), MiddleSteps(n));
    RunConcat(s, texts, early, last);
    RunFromStart(s, files, texts, early);
    if u :| Run(s, texts, early) == Some(u) {
      SameLastSteps(n, s, u, files, OutputsOf(early));
    }
  }

  ghost predicate StepsInOrder(n: Layout, s: Contents, files: map<Path, string>, texts: Texts) {
    && InOrder(s, files, texts, [], FirstSteps(n, s) + MiddleSteps(n))
    && InOrder(s, files, texts, [], Steps(n, s))
    && ApartFrom(OutputsOf(FirstSteps(n, s) + MiddleSteps(n)), n.helper)
  }

  /**
   The files are generated exactly when every input can be read and every output written at
   the start; then these files have been written, in this order, and nothing else has changed.
   */
  lemma GeneratedMeaning(n: Layout, s: Contents, files: map<Path, string>, texts: Texts)
    requires Sound(s) && Independent(files) && StepsInOrder(n, s, files, texts)
    ensures Generated(n, s, texts).Some? <==> AllPossible(s, Steps(n, s))
    ensures Generated(n, s, texts).Some? ==> Copied(s, Generated(n, s, texts).value, files, OutputsOf(Steps(n, s)))
  {
    GeneratedIsRun(n, s, files, texts, FirstSteps(n, s) + MiddleSteps(n), LastSteps(n, s));
    RunFromStart(s, files, texts, Steps(n, s));
  }

  // ---------- where they are ----------

  lemma OutputInOrder(start: Contents, files: map<Path, string>, texts: Texts, done: seq<Path>, step: Step,
                      rest: seq<Step>)
    requires !step.Input? && step.path in files && files[step.path] == texts(step.path) && step.path !in done
    requires Unaliased(start.links, step.path) && (step.Replacement? ==> Bare(start, step.path))
    requires InOrder(start, files, texts, done + [step.path], rest)
    ensures InOrder(start, files, texts, done, [step] + rest)
    ensures OutputsOf([step] + rest) == [step.path] + OutputsOf(rest)
  {
    assert ([step] + rest)[1..] == rest;
  }

  lemma InputInOrder(start: Contents, files: map<Path, string>, texts: Texts, done: seq<Path>, p: Path, rest: seq<Step>)
    requires forall q :: q in done ==> !(q <= p)
    requires Read(start, p).Some? ==> InOrder(start, files, texts, done, rest)
    ensures InOrder(start, files, texts, done, [Input(p)] + rest)
    ensures OutputsOf([Input(p)] + rest) == OutputsOf(rest)
  {
    assert ([Input(p)] + rest)[1..] == rest;
  }

  /** The generated files are apart from each other and from what is read after them, and outside the overlay. */
  ghost predicate Placed(n: Layout, files: map<Path, string>) {
    && n.ignore in files && n.buildFile in files && n.build in files && n.vars in files
    && n.llvmTargets in files && n.boltTargets in files && n.instrumentor in files
    && n.ignore != n.buildFile
    && n.build !in [n.ignore, n.buildFile]
    && n.vars !in [n.ignore, n.buildFile, n.build]
    && n.llvmTargets !in [n.ignore, n.buildFile, n.build, n.vars]
    && n.boltTargets !in [n.ignore, n.buildFile, n.build, n.vars, n.llvmTargets]
    && n.instrumentor !in [n.ignore, n.buildFile, n.build, n.vars, n.llvmTargets, n.boltTargets]
    && (forall p :: p in files ==> !(OVERLAY_ROOT <= p))
    && (forall p :: p in files ==> Apart(p, n.cmake) && Apart(p, n.version) && Apart(p, n.helper))
  }

  ghost predicate TextsAt(files: map<Path, string>, texts: Texts) {
    forall p :: p in files ==> files[p] == texts(p)
  }

  lemma FirstInOrder(n: Layout, s: Contents, files: map<Path, string>, texts: Texts)
    requires Sound(s) && Placed(n, files) && TextsAt(files, texts) && (Exists(s, n.pfm) ==> Bare(s, n.buildFile))
    ensures InOrder(s, files, texts, [], FirstSteps(n, s))
    ensures OutputsOf(FirstSteps(n, s)) == ExposedOutputs(n, s)
  {
    if Exists(s, n.pfm) {
      var last, middle := Replacement(n.buildFile), Replacement(n.ignore);
      OutputInOrder(s, files, texts, [] + [n.ignore], last, []);
      assert [last] + [] == [last];
      if Read(s, n.ignore).Some? {
        ReadIsBare(s, n.ignore);
        OutputInOrder(s, files, texts, [], middle, [last]);
      }
      InputInOrder(s, files, texts, [], n.ignore, [middle] + [last]);
      assert [Input(n.ignore)] + ([middle] + [last]) == FirstSteps(n, s);
      TwoOutputs(middle, last);
    }
  }

  lemma TwoOutputs(a: Step, b: Step)
    requires !a.Input? && !b.Input?
    ensures OutputsOf([a] + [b]) == [a.path, b.path]
  {
    assert ([a] + [b])[1..] == [b] && [b][1..] == [];
    assert OutputsOf([b]) == [b.path] + [];
  }

  lemma TargetsInOrder(n: Layout, s: Contents, files: map<Path, string>, texts: Texts, done: seq<Path>)
    requires Placed(n, files) && TextsAt(files, texts)
    requires forall p :: p in done ==> p in [n.ignore, n.buildFile, n.build]
    ensures InOrder(s, files, texts, done, [Output(n.vars), Output(n.llvmTargets), Output(n.boltTargets)])
    ensures OutputsOf([Output(n.vars), Output(n.llvmTargets), Output(n.boltTargets)]) ==
      [n.vars, n.llvmTargets, n.boltTargets]
  {
    var a, b, c := Output(n.vars), Output(n.llvmTargets), Output(n.boltTargets);
    OutputInOrder(s, files, texts, done + [n.vars] + [n.llvmTargets], c, []);
    assert [c] + [] == [c] && [b] + [c] == [b, c] && [a] + [b, c] == [a, b, c];
    OutputInOrder(s, files, texts, done + [n.vars], b, [c]);
    OutputInOrder(s, files, texts, done, a, [b, c]);
  }

  lemma BuildInOrder(n: Layout, s: Contents, files: map<Path, string>, texts: Texts, done: seq<Path>)
    requires Placed(n, files) && TextsAt(files, texts) && forall p :: p in done ==> p in [n.ignore, n.buildFile]
    ensures InOrder(s, files, texts, done, [Output(n.build), Input(n.cmake), Input(n.version)])
    ensures OutputsOf([Output(n.build), Input(n.cmake), Input(n.version)]) == [n.build]
  {
    InConcat(done, [n.build]);
    OutputThenInputs(s, files, texts, done, n.build, n.cmake, n.version);
  }

  lemma OutputThenInputs(s: Contents, files: map<Path, string>, texts: Texts, done: seq<Path>, p: Path, i: Path,
                         j: Path)
    requires p in files && files[p] == texts(p) && p !in done && Unaliased(s.links, p)
    requires forall q :: q in done + [p] ==> !(q <= i) && !(q <= j)
    ensures InOrder(s, files, texts, done, [Output(p), Input(i), Input(j)])
    ensures OutputsOf([Output(p), Input(i), Input(j)]) == [p]
  {
    var a, b, c := Output(p), Input(i), Input(j);
    InputInOrder(s, files, texts, done + [p], j, []);
    assert [c] + [] == [c] && [b] + [c] == [b, c] && [a] + [b, c] == [a, b, c];
    InputInOrder(s, files, texts, done + [p], i, [c]);
    OutputInOrder(s, files, texts, done, a, [b, c]);
  }

  lemma MiddleInOrder(n: Layout, s: Contents, files: map<Path, string>, texts: Texts, done: seq<Path>)
    requires Placed(n, files) && TextsAt(files, texts) && forall p :: p in done ==> p in [n.ignore, n.buildFile]
    ensures InOrder(s, files, texts, done, MiddleSteps(n))
    ensures OutputsOf(MiddleSteps(n)) == PlainOutputs(n)
  {
    BuildInOrder(n, s, files, texts, done);
    InConcat(done, [n.build]);
    TargetsInOrder(n, s, files, texts, done + [n.build]);
    var a, b := [Output(n.build), Input(n.cmake), Input(n.version)],
                [Output(n.vars), Output(n.llvmTargets), Output(n.boltTargets)];
    MiddleParts(n, a, b);
    InOrderConcat(s, files, texts, done, a, b);
    assert [n.build] + [n.vars, n.llvmTargets, n.boltTargets] == PlainOutputs(n);
  }

  lemma MiddleParts(n: Layout, a: seq<Step>, b: seq<Step>)
    requires a == [Output(n.build), Input(n.cmake), Input(n.version)]
    requires b == [Output(n.vars), Output(n.llvmTargets), Output(n.boltTargets)]
    ensures MiddleSteps(n) == a + b
  {
  }

  lemma LastInOrder(n: Layout, s: Contents, files: map<Path, string>, texts: Texts, early: seq<Path>)
    requires Placed(n, files) && TextsAt(files, texts) && n.instrumentor !in early
    requires forall p :: p in early ==> p in files
    ensures InOrder(s, files, texts, early, LastSteps(n, s)) && ApartFrom(early, n.helper)
    ensures OutputsOf(LastSteps(n, s)) == HeaderOutputs(n, s)
  {
    if Exists(s, n.helper) {
      OutputInOrder(s, files, texts, early, Output(n.instrumentor), []);
      assert [Output(n.instrumentor)] + [] == [Output(n.instrumentor)];
      InputInOrder(s, files, texts, early, n.helper, [Output(n.instrumentor)]);
      assert [Input(n.helper)] + [Output(n.instrumentor)] == LastSteps(n, s);
    }
  }

  ghost function ExposedOutputs(n: Layout, s: Contents): seq<Path> {
    if Exists(s, n.pfm) then [n.ignore, n.buildFile] else []
  }

  ghost function PlainOutputs(n: Layout): seq<Path> {
    [n.build, n.vars, n.llvmTargets, n.boltTargets]
  }

  ghost function HeaderOutputs(n: Layout, s: Contents): seq<Path> {
    if Exists(s, n.helper) then [n.instrumentor] else []
  }

  lemma EarlyPlaced(n: Layout, s: Contents, files: map<Path, string>)
    requires Placed(n, files)
    ensures var early := ExposedOutputs(n, s) + PlainOutputs(n);
      n.instrumentor !in early && forall p :: p in early ==> p in files
  {
    InConcat(ExposedOutputs(n, s), PlainOutputs(n));
  }

  /** The steps of a well placed layout are in order, and which files they write. */
  lemma ProjectInOrder(n: Layout, s: Contents, files: map<Path, string>, texts: Texts)
    requires Sound(s) && Placed(n, files) && TextsAt(files, texts) && (Exists(s, n.pfm) ==> Bare(s, n.buildFile))
    ensures StepsInOrder(n, s, files, texts)
    ensures OutputsOf(Steps(n, s)) == ExposedOutputs(n, s) + PlainOutputs(n) + HeaderOutputs(n, s)
  {
    FirstInOrder(n, s, files, texts);
    MiddleInOrder(n, s, files, texts, ExposedOutputs(n, s));
    EarlyPlaced(n, s, files);
    LastInOrder(n, s, files, texts, ExposedOutputs(n, s) + PlainOutputs(n));
    JoinInOrder(s, files, texts, FirstSteps(n, s), MiddleSteps(n), LastSteps(n, s));
  }

  lemma JoinInOrder(s: Contents, files: map<Path, string>, texts: Texts, a: seq<Step>, b: seq<Step>, c: seq<Step>)
    requires InOrder(s, files, texts, [], a) && InOrder(s, files, texts, OutputsOf(a), b)
    requires InOrder(s, files, texts, OutputsOf(a) + OutputsOf(b), c)
    ensures InOrder(s, files, texts, [], a + b) && InOrder(s, files, texts, [], a + b + c)
    ensures OutputsOf(a + b) == OutputsOf(a) + OutputsOf(b)
    ensures OutputsOf(a + b + c) == OutputsOf(a) + OutputsOf(b) + OutputsOf(c)
  {
    assert [] + OutputsOf(a) == OutputsOf(a);
    InOrderConcat(s, files, texts, [], a, b);
    assert [] + OutputsOf(a + b) == OutputsOf(a + b);
    InOrderConcat(s, files, texts, [], a + b, c);
  }
}
