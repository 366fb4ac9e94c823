/**
 The package directory as a state machine.  Uploads, garbage collection and the cleanup of abandoned
 uploads interleave file operation by file operation, and may stop anywhere.  Time is in seconds.
 */
module PackageProtocol {
  import opened Wrappers
  import opened ByteCodec
  import opened Gbyl

  const TEMPORARY_MAX_AGE := 86_400
  const MIN_ARCHIVE_BYTES := 8

  datatype Settings = Settings(sha256: Bytes -> Bytes, minAge: int)
  {
    /** A digest in file names is lower-case hex. */
    function Digest(content: Bytes): string {
      BytesToHex(sha256(content))
    }

    /** What a published package must be. */
    predicate Sound(digest: string, content: Bytes) {
      && Digest(content) == digest
      && MIN_ARCHIVE_BYTES <= |content| <= MAX_ARCHIVE_BYTES
      && ParseBody(content).Ok?
    }
  }

  datatype File = File(content: Bytes, mtime: int)

  /** `owner` is the request that created the temporary. */
  datatype Temporary = Temporary(owner: nat, content: Bytes, mtime: int)

  /**
   One run of the garbage collector: when it read the head and what was referenced then, the hashes its scan
   found, the clock it read, and the files it listed with the mtime it saw.
   */
  datatype GcRun = GcRun(snapshotAt: int, known: set<string>, refs: Option<set<string>>, clock: Option<int>,
      candidates: map<string, int>)

  /** `references` maps a digest to the moment its first reference reached the safe head. */
  datatype World = World(
    now: int,
    published: map<string, File>,
    temporaries: map<nat, Temporary>,
    names: set<nat>,
    references: map<string, int>,
    runs: map<nat, GcRun>)

  datatype Label =
    | Pass(seconds: nat)
    | Reference(digest: string)
    // one upload request
    | CreateTemporary(agent: nat, name: nat)
    | Write(agent: nat, name: nat, chunk: Bytes)
    | Publish(agent: nat, name: nat, digest: string, content: Bytes)
    | Discard(agent: nat, name: nat)
    // maintenance
    | CleanTemporary(name: nat)
    // one run of the garbage collector
    | StartRun(run: nat)
    | ScanDone(run: nat, refs: set<string>)
    | ReadClock(run: nat)
    | Consider(run: nat, digest: string)
    | Collect(run: nat, digest: string)

  predicate Owns(w: World, agent: nat, name: nat) {
    name in w.temporaries && w.temporaries[name].owner == agent
  }

  predicate Enabled(s: Settings, w: World, l: Label) {
    match l
    case Pass(_) => true
    case Reference(digest) => digest !in w.references
    case CreateTemporary(_, name) => name !in w.names
    case Write(agent, name, _) => Owns(w, agent, name)
    case Publish(agent, name, digest, content) =>
      Owns(w, agent, name) && w.temporaries[name].content == content && s.Sound(digest, content)
    case Discard(agent, name) => Owns(w, agent, name)
    case CleanTemporary(name) => name in w.temporaries && w.temporaries[name].mtime < w.now - TEMPORARY_MAX_AGE
    case StartRun(run) => run !in w.runs
    case ScanDone(run, refs) => run in w.runs && w.runs[run].refs.None? && w.runs[run].known <= refs
    case ReadClock(run) => run in w.runs && w.runs[run].refs.Some? && w.runs[run].clock.None?
    case Consider(run, digest) =>
      && run in w.runs && w.runs[run].refs.Some? && w.runs[run].clock.Some?
      && digest in w.published
      && w.runs[run].clock.value - w.published[digest].mtime >= s.minAge
      && digest !in w.runs[run].refs.value
    case Collect(run, digest) => run in w.runs && digest in w.runs[run].candidates && digest in w.published
  }

  function WithRun(w: World, run: nat, g: GcRun): World {
    w.(runs := w.runs[run := g])
  }

  function Apply(s: Settings, w: World, l: Label): World
    requires Enabled(s, w, l)
  {
    match l
    case Pass(seconds) => w.(now := w.now + seconds)
    case Reference(digest) => w.(references := w.references[digest := w.now])
    case CreateTemporary(agent, name) =>
      w.(temporaries := w.temporaries[name := Temporary(agent, [], w.now)], names := w.names + {name})
    case Write(agent, name, chunk) =>
      w.(temporaries := w.temporaries[name := Temporary(agent, w.temporaries[name].content + chunk, w.now)])
    case Publish(agent, name, digest, content) =>
      w.(published := w.published[digest := File(content, w.temporaries[name].mtime)],
          temporaries := w.temporaries - {name})
    case Discard(_, name) => w.(temporaries := w.temporaries - {name})
    case CleanTemporary(name) => w.(temporaries := w.temporaries - {name})
    case StartRun(run) => WithRun(w, run, GcRun(w.now, w.references.Keys, None, None, map[]))
    case ScanDone(run, refs) => WithRun(w, run, w.runs[run].(refs := Some(refs)))
    case ReadClock(run) => WithRun(w, run, w.runs[run].(clock := Some(w.now)))
    case Consider(run, digest) =>
      WithRun(w, run, w.runs[run].(candidates := w.runs[run].candidates[digest := w.published[digest].mtime]))
    case Collect(_, digest) => w.(published := w.published - {digest})
  }

  ghost predicate Runs(s: Settings, w: World, labels: seq<Label>)
    decreases |labels|, 0
  {
    labels == [] || (Runs(s, w, labels[..|labels| - 1])
        && Enabled(s, After(s, w, labels[..|labels| - 1]), labels[|labels| - 1]))
  }

  ghost function After(s: Settings, w: World, labels: seq<Label>): World
    requires Runs(s, w, labels)
    decreases |labels|, 1
  {
    if labels == [] then w else Apply(s, After(s, w, labels[..|labels| - 1]), labels[|labels| - 1])
  }

  /******* Invariant *******/

  ghost predicate RunOk(s: Settings, w: World, g: GcRun) {
    && g.snapshotAt <= w.now
    && (forall d :: d in w.references && w.references[d] < g.snapshotAt ==> d in g.known)
    && g.known <= w.references.Keys
    && (g.refs.Some? ==> g.known <= g.refs.value)
    && (g.clock.Some? ==> g.refs.Some? && g.snapshotAt <= g.clock.value <= w.now)
    && (forall d :: d in g.candidates ==>
          g.clock.Some? && d !in g.refs.value && g.candidates[d] + s.minAge <= g.clock.value)
  }

  ghost predicate Invariant(s: Settings, w: World) {
    && (forall d :: d in w.published ==> s.Sound(d, w.published[d].content) && w.published[d].mtime <= w.now)
    && w.temporaries.Keys <= w.names
    && (forall name :: name in w.temporaries ==> w.temporaries[name].mtime <= w.now)
    && (forall d :: d in w.references ==> w.references[d] <= w.now)
    && (forall run :: run in w.runs ==> RunOk(s, w, w.runs[run]))
  }

  /** What no step takes back: time, references, used names, and what a run has read. */
  ghost predicate Extends(w: World, v: World) {
    && w.now <= v.now
    && (forall d :: d in w.references ==> d in v.references && v.references[d] == w.references[d])
    && w.names <= v.names
    && (forall run :: run in w.runs ==> run in v.runs && RunExtends(w.runs[run], v.runs[run]))
  }

  predicate RunExtends(g: GcRun, h: GcRun) {
    && h.snapshotAt == g.snapshotAt && h.known == g.known
    && (g.refs.Some? ==> h.refs == g.refs)
    && (g.clock.Some? ==> h.clock == g.clock)
    && g.candidates.Keys <= h.candidates.Keys
  }

  /** Steps of other runs, references and time leave a run sound. */
  lemma RunStaysOk(s: Settings, w: World, v: World, g: GcRun)
    requires RunOk(s, w, g) && w.now <= v.now
    requires forall d :: d in w.references ==> d in v.references && v.references[d] == w.references[d]
    requires forall d :: d in v.references && d !in w.references ==> v.references[d] >= w.now
    ensures RunOk(s, v, g)
  {
  }

  lemma StepKeeps(s: Settings, w: World, l: Label)
    requires Invariant(s, w) && Enabled(s, w, l)
    ensures Invariant(s, Apply(s, w, l)) && Extends(w, Apply(s, w, l))
  {
    hide Settings.Sound, RunOk;
    var v := Apply(s, w, l);
    forall run | run in v.runs ensures RunOk(s, v, v.runs[run]) {
      if run in w.runs && v.runs[run] == w.runs[run] {
        RunStaysOk(s, w, v, w.runs[run]);
      } else {
        RunStepKeeps(s, w, l, run);
      }
    }
  }

  /** The steps of a run keep the run sound. */
  lemma RunStepKeeps(s: Settings, w: World, l: Label, run: nat)
    requires Invariant(s, w) && Enabled(s, w, l)
    requires run in Apply(s, w, l).runs && (run !in w.runs || Apply(s, w, l).runs[run] != w.runs[run])
    ensures RunOk(s, Apply(s, w, l), Apply(s, w, l).runs[run])
  {
    hide Settings.Sound;
    if run in w.runs {
      assert RunOk(s, w, w.runs[run]);
    }
  }

  /** Before the first step no collector runs, and every stored package is sound. */
  ghost predicate Initial(s: Settings, w: World) {
    Invariant(s, w) && w.runs == map[]
  }

  lemma ExtendsTransitive(u: World, v: World, w: World)
    requires Extends(u, v) && Extends(v, w)
    ensures Extends(u, w)
  {
    forall run | run in u.runs ensures run in w.runs && RunExtends(u.runs[run], w.runs[run]) {
      assert RunExtends(v.runs[run], w.runs[run]);
    }
    forall d | d in u.references ensures d in w.references && w.references[d] == u.references[d] {
      assert v.references[d] == u.references[d];
    }
  }

  lemma ExtendsReflexive(w: World)
    ensures Extends(w, w)
  {
  }

  /**
   At every point of every run, whatever uploads, collectors and cleanups overlap and wherever they stop,
   every published package hashes to its name, parses, and is between 8 bytes and 10 MiB long.
   */
  lemma {:induction false} RunKeeps(s: Settings, w: World, labels: seq<Label>)
    requires Invariant(s, w) && Runs(s, w, labels)
    ensures Invariant(s, After(s, w, labels)) && Extends(w, After(s, w, labels))
    ensures forall d :: d in After(s, w, labels).published ==> s.Sound(d, After(s, w, labels).published[d].content)
    decreases |labels|
  {
    hide Enabled, Apply, Extends, Settings.Sound, RunOk;
    if labels == [] {
      ExtendsReflexive(w);
    } else {
      var before := labels[..|labels| - 1];
      RunKeeps(s, w, before);
      StepKeeps(s, After(s, w, before), labels[|labels| - 1]);
      ExtendsTransitive(w, After(s, w, before), After(s, w, labels));
    }
  }

  lemma Take(s: Settings, w: World, labels: seq<Label>, l: Label)
    requires Runs(s, w, labels) && Enabled(s, After(s, w, labels), l)
    ensures Runs(s, w, labels + [l]) && After(s, w, labels + [l]) == Apply(s, After(s, w, labels), l)
  {
    hide Enabled, Apply;
    assert (labels + [l])[..|labels|] == labels;
  }

  lemma {:induction false} PrefixRuns(s: Settings, w: World, labels: seq<Label>, n: nat)
    requires Runs(s, w, labels) && n <= |labels|
    ensures Runs(s, w, labels[..n])
    decreases |labels|
  {
    hide Enabled, Apply;
    if n == |labels| {
      assert labels[..n] == labels;
    } else {
      PrefixRuns(s, w, labels[..|labels| - 1], n);
      assert labels[..|labels| - 1][..n] == labels[..n];
    }
  }

  ghost function State(s: Settings, w: World, labels: seq<Label>, n: nat): World
    requires n <= |labels| && Runs(s, w, labels[..n])
  {
    After(s, w, labels[..n])
  }

  lemma StepOfRun(s: Settings, w: World, labels: seq<Label>, n: nat)
    requires Runs(s, w, labels) && n < |labels|
    ensures Runs(s, w, labels[..n]) && Runs(s, w, labels[..n + 1])
    ensures Enabled(s, State(s, w, labels, n), labels[n])
    ensures State(s, w, labels, n + 1) == Apply(s, State(s, w, labels, n), labels[n])
  {
    PrefixRuns(s, w, labels, n);
    PrefixRuns(s, w, labels, n + 1);
    hide Enabled, Apply;
    assert labels[..n + 1][..n] == labels[..n];
  }

  /** A later point of a run extends an earlier one. */
  lemma {:induction false} Grown(s: Settings, w: World, labels: seq<Label>, m: nat, n: nat)
    requires Invariant(s, w) && Runs(s, w, labels) && m <= n <= |labels|
    ensures Runs(s, w, labels[..m]) && Runs(s, w, labels[..n])
    ensures Extends(State(s, w, labels, m), State(s, w, labels, n))
    decreases n
  {
    hide Enabled, Apply, Extends, Invariant, Runs;
    PrefixRuns(s, w, labels, m);
    PrefixRuns(s, w, labels, n);
    if m == n {
      ExtendsReflexive(State(s, w, labels, n));
    } else {
      Grown(s, w, labels, m, n - 1);
      StepOfRun(s, w, labels, n - 1);
      RunKeeps(s, w, labels[..n - 1]);
      StepKeeps(s, State(s, w, labels, n - 1), labels[n - 1]);
      ExtendsTransitive(State(s, w, labels, m), State(s, w, labels, n - 1), State(s, w, labels, n));
    }
  }
}
