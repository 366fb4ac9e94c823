/** Which packages the garbage collector may delete, over all runs of the package directory. */
module GcTheorems {
  import opened Wrappers
  import opened ByteCodec
  import opened Gbyl
  import opened PackageProtocol

  /******* Garbage collection never deletes a package that is referenced in time *******/

  /**
   Whatever a run deletes it listed as old enough, and neither its scan nor any reference safe when
   it began names it.
   */
  lemma CollectedWasUnreferenced(s: Settings, w: World, labels: seq<Label>, n: nat)
    requires Initial(s, w) && Runs(s, w, labels) && n < |labels| && labels[n].Collect?
    ensures Runs(s, w, labels[..n])
    ensures var v, d := State(s, w, labels, n), labels[n].digest;
            && labels[n].run in v.runs
            && var g := v.runs[labels[n].run];
            && g.refs.Some? && g.clock.Some? && d in g.candidates
            && d !in g.refs.value && d !in g.known
            && g.candidates[d] + s.minAge <= g.clock.value
            && (d in v.references ==> v.references[d] >= g.snapshotAt)
  {
    StepOfRun(s, w, labels, n);
    RunKeeps(s, w, labels[..n]);
    hide Settings.Sound, Runs;
    var v := State(s, w, labels, n);
    assert RunOk(s, v, v.runs[labels[n].run]);
  }

  /** The mtime a run recorded is that of a package published at some earlier point. */
  lemma {:induction false} CandidateWasPublished(s: Settings, w: World, labels: seq<Label>, n: nat, run: nat,
          digest: string) returns (k: nat)
    requires Initial(s, w) && Runs(s, w, labels) && n <= |labels|
    requires Runs(s, w, labels[..n]) && run in State(s, w, labels, n).runs
        && digest in State(s, w, labels, n).runs[run].candidates
    ensures k <= n && Runs(s, w, labels[..k])
    ensures digest in State(s, w, labels, k).published
    ensures State(s, w, labels, k).published[digest].mtime == State(s, w, labels, n).runs[run].candidates[digest]
  {
    hide Invariant, Runs, Enabled, Apply;
    assert labels[..0] == [];
    if n == 0 {
      InitialHasNoRun(s, w);
    } else {
      StepOfRun(s, w, labels, n - 1);
      var v := State(s, w, labels, n - 1);
      if run in v.runs && digest in v.runs[run].candidates
          && v.runs[run].candidates[digest] == State(s, w, labels, n).runs[run].candidates[digest] {
        k := CandidateWasPublished(s, w, labels, n - 1, run, digest);
      } else {
        k := n - 1;
        NewlyListed(s, v, labels[n - 1], run, digest);
      }
    }
  }

  lemma NewlyListed(s: Settings, w: World, l: Label, run: nat, digest: string)
    requires Enabled(s, w, l) && run in Apply(s, w, l).runs && digest in Apply(s, w, l).runs[run].candidates
    requires !(run in w.runs && digest in w.runs[run].candidates
               && w.runs[run].candidates[digest] == Apply(s, w, l).runs[run].candidates[digest])
    ensures digest in w.published && w.published[digest].mtime == Apply(s, w, l).runs[run].candidates[digest]
  {
    hide Settings.Sound;
  }

  lemma InitialHasNoRun(s: Settings, w: World)
    requires Initial(s, w)
    ensures Runs(s, w, []) && After(s, w, []).runs == map[]
  {
  }

  /**
   Every package that is ever referenced is so more than `margin` before any stored copy of it
   reaches the minimum age.
   */
  ghost predicate ReferencedInTime(s: Settings, w: World, labels: seq<Label>, margin: int) {
    && Runs(s, w, labels)
    && forall k: nat, d ::
      && k <= |labels| && Runs(s, w, labels[..k]) && d in State(s, w, labels, k).published
      && d in After(s, w, labels).references ==>
      After(s, w, labels).references[d] < State(s, w, labels, k).published[d].mtime + s.minAge - margin
  }

  /** No collector took longer than `margin` from reading the chain head to reading the clock. */
  ghost predicate ScansWithin(s: Settings, w: World, labels: seq<Label>, margin: int) {
    && Runs(s, w, labels)
    && forall run :: run in After(s, w, labels).runs && After(s, w, labels).runs[run].clock.Some? ==>
         After(s, w, labels).runs[run].clock.value - After(s, w, labels).runs[run].snapshotAt <= margin
  }

  /**
   Whole-run safety: a package that is referenced at any time, before or after, is never deleted, provided
   its reference reaches the safe head early enough to leave the longest scan as a margin.
   */
  lemma ReferencedIsNeverDeleted(s: Settings, w: World, labels: seq<Label>, margin: int, n: nat)
    requires Initial(s, w) && Runs(s, w, labels) && n < |labels|
    requires ReferencedInTime(s, w, labels, margin) && ScansWithin(s, w, labels, margin)
    ensures labels[n].Collect? ==> labels[n].digest !in After(s, w, labels).references
  {
    if labels[n].Collect? && labels[n].digest in After(s, w, labels).references {
      hide Invariant, Enabled, Apply, Runs, RunOk;
      var d, run := labels[n].digest, labels[n].run;
      assert labels[..|labels|] == labels;
      StepOfRun(s, w, labels, n);
      InitialIsSound(s, w);
      CollectedWasUnreferenced(s, w, labels, n);
      Grown(s, w, labels, n, |labels|);
      var k := CandidateWasPublished(s, w, labels, n, run, d);
      var v, end := State(s, w, labels, n), After(s, w, labels);
      assert RunExtends(v.runs[run], end.runs[run]);
      LateReference(s, w, labels, n, d, run);
    }
  }

  lemma InitialIsSound(s: Settings, w: World)
    requires Initial(s, w)
    ensures Invariant(s, w)
  {
  }

  /** What a run did not know when it began was referenced no earlier. */
  lemma LateReference(s: Settings, w: World, labels: seq<Label>, n: nat, d: string, run: nat)
    requires Initial(s, w) && Runs(s, w, labels) && n <= |labels|
    requires Runs(s, w, labels[..n]) && run in State(s, w, labels, n).runs
        && d !in State(s, w, labels, n).runs[run].known
    requires d in After(s, w, labels).references
    ensures After(s, w, labels).references[d] >= State(s, w, labels, n).runs[run].snapshotAt
  {
    hide Settings.Sound, Enabled, Apply, Runs;
    RunKeeps(s, w, labels);
    assert labels[..|labels|] == labels;
    Grown(s, w, labels, n, |labels|);
    var end := After(s, w, labels);
    assert RunOk(s, end, end.runs[run]);
  }

  /******* Building runs of the collector *******/

  predicate StepsTo(s: Settings, w: World, l: Label, v: World) {
    Enabled(s, w, l) && Apply(s, w, l) == v
  }

  lemma Step(s: Settings, w: World, labels: seq<Label>, v: World, l: Label, u: World)
    requires Runs(s, w, labels) && After(s, w, labels) == v && StepsTo(s, v, l, u)
    ensures Runs(s, w, labels + [l]) && After(s, w, labels + [l]) == u
  {
    hide Enabled, Apply;
    Take(s, w, labels, l);
  }

  lemma NoSteps(s: Settings, w: World)
    ensures Runs(s, w, []) && After(s, w, []) == w
  {
  }

  /** The only run has begun at `began` and knows no reference. */
  function Began(w: World, began: int): World {
    w.(runs := map[0 := GcRun(began, {}, None, None, map[])])
  }

  /** It has scanned, and read its clock. */
  function ReadAt(w: World, began: int, clock: int): World {
    w.(runs := map[0 := GcRun(began, {}, Some({}), Some(clock), map[])])
  }

  function Listed(w: World, began: int, clock: int, digest: string, mtime: int): World {
    w.(runs := map[0 := GcRun(began, {}, Some({}), Some(clock), map[digest := mtime])])
  }

  lemma Begins(s: Settings, w: World)
    requires w.runs == map[] && w.references == map[]
    ensures StepsTo(s, w, StartRun(0), Began(w, w.now))
  {
    assert w.references.Keys == {};
  }

  lemma Scans(s: Settings, w: World, began: int) returns (v: World)
    requires w == Began(w, began)
    ensures StepsTo(s, w, ScanDone(0, {}), v) && StepsTo(s, v, ReadClock(0), ReadAt(w, began, w.now))
  {
    v := Apply(s, w, ScanDone(0, {}));
  }

  lemma Lists(s: Settings, w: World, began: int, digest: string)
    requires w == ReadAt(w, began, w.now)
    requires digest in w.published && w.published[digest].mtime + s.minAge <= w.now
    ensures StepsTo(s, w, Consider(0, digest), Listed(w, began, w.now, digest, w.published[digest].mtime))
  {
  }

  lemma Deletes(s: Settings, w: World, began: int, clock: int, digest: string, mtime: int)
    requires w == Listed(w, began, clock, digest, mtime) && digest in w.published
    ensures StepsTo(s, w, Collect(0, digest), w.(published := w.published - {digest}))
  {
  }

  /** The second half of every run below: scan, read the clock, list the one package, delete it. */
  lemma CollectsOld(s: Settings, w: World, labels: seq<Label>, v: World, began: int, digest: string)
    returns (all: seq<Label>)
    requires Runs(s, w, labels) && After(s, w, labels) == v && v == Began(v, began)
    requires digest in v.published && v.published[digest].mtime + s.minAge <= v.now
    ensures all == labels + [ScanDone(0, {}), ReadClock(0), Consider(0, digest), Collect(0, digest)]
    ensures Runs(s, w, all)
    ensures After(s, w, all) == Listed(v, began, v.now, digest,
        v.published[digest].mtime).(published := v.published - {digest})
  {
    hide StepsTo, Runs, After;
    var v1 := Scans(s, v, began);
    all := labels;
    Step(s, w, all, v, ScanDone(0, {}), v1);
    all := all + [ScanDone(0, {})];
    var v2 := ReadAt(v, began, v.now);
    Step(s, w, all, v1, ReadClock(0), v2);
    all := all + [ReadClock(0)];
    var v3 := Listed(v2, began, v.now, digest, v.published[digest].mtime);
    Lists(s, v2, began, digest);
    Step(s, w, all, v2, Consider(0, digest), v3);
    all := all + [Consider(0, digest)];
    Deletes(s, v3, began, v.now, digest, v.published[digest].mtime);
    Step(s, w, all, v3, Collect(0, digest), v3.(published := v3.published - {digest}));
    all := all + [Collect(0, digest)];
  }

  /******* The margin between reference and minimum age *******/

  /** A sound package of `digest` that nothing references yet, and that will be old enough in `scan` seconds. */
  ghost predicate OldIn(s: Settings, w: World, digest: string, scan: nat) {
    && Initial(s, w) && w.references == map[]
    && digest in w.published && w.published[digest].mtime + s.minAge == w.now + scan
  }

  lemma ReferencesAndWaits(s: Settings, w: World, digest: string, seconds: nat) returns (v: World)
    requires w.references == map[]
    ensures StepsTo(s, w, Reference(digest), v)
    ensures StepsTo(s, v, Pass(seconds), w.(references := map[digest := w.now], now := w.now + seconds))
  {
    v := w.(references := map[digest := w.now]);
  }

  /** A run begins, the package is referenced, and time passes. */
  lemma BeginsLate(s: Settings, w: World, digest: string, seconds: nat) returns (labels: seq<Label>)
    requires w.runs == map[] && w.references == map[]
    ensures labels == [StartRun(0), Reference(digest), Pass(seconds)] && Runs(s, w, labels)
    ensures After(s, w, labels) == Began(w, w.now).(references := map[digest := w.now], now := w.now + seconds)
  {
    NoSteps(s, w);
    Begins(s, w);
    var w1 := Began(w, w.now);
    var w2 := ReferencesAndWaits(s, w1, digest, seconds);
    hide StepsTo, Runs, After;
    labels := [];
    Step(s, w, labels, w, StartRun(0), w1);
    labels := labels + [StartRun(0)];
    Step(s, w, labels, w1, Reference(digest), w2);
    labels := labels + [Reference(digest)];
    Step(s, w, labels, w2, Pass(seconds), w1.(references := map[digest := w.now], now := w.now + seconds));
    labels := labels + [Pass(seconds)];
  }

  /**
   The margin is needed because the collector reads its clock after its scan.  Here the reference is safe
   `scan` seconds before the package reaches the minimum age, and the run that started just before deletes it.
   */
  lemma DeletedDuringScan(s: Settings, w: World, digest: string, scan: nat) returns (labels: seq<Label>)
    requires OldIn(s, w, digest, scan)
    ensures labels == [StartRun(0), Reference(digest), Pass(scan), ScanDone(0, {}), ReadClock(0), Consider(0, digest),
        Collect(0, digest)]
    ensures Runs(s, w, labels)
    ensures After(s, w, labels).references == map[digest := w.now]
    ensures After(s, w, labels).runs.Keys == {0} && After(s, w, labels).runs[0].snapshotAt == w.now
    ensures After(s, w, labels).runs[0].clock == Some(w.now + scan)
    ensures digest !in After(s, w, labels).published
  {
    hide Invariant, Runs, After;
    labels := BeginsLate(s, w, digest, scan);
    labels := CollectsOld(s, w, labels, After(s, w, labels), w.now, digest);
  }

  /** Without uploads only what was published at the start is ever published. */
  lemma {:induction false} NothingNew(s: Settings, w: World, labels: seq<Label>, k: nat)
    requires Runs(s, w, labels) && k <= |labels| && forall i :: 0 <= i < |labels| ==> !labels[i].Publish?
    ensures Runs(s, w, labels[..k])
    ensures forall d :: d in State(s, w, labels, k).published ==>
        d in w.published && State(s, w, labels, k).published[d] == w.published[d]
    decreases k
  {
    PrefixRuns(s, w, labels, k);
    if k == 0 {
      assert labels[..0] == [];
    } else {
      hide Runs, Apply, Enabled;
      NothingNew(s, w, labels, k - 1);
      StepOfRun(s, w, labels, k - 1);
      OnlyPublishAdds(s, State(s, w, labels, k - 1), labels[k - 1]);
    }
  }

  lemma OnlyPublishAdds(s: Settings, w: World, l: Label)
    requires Enabled(s, w, l) && !l.Publish?
    ensures forall d :: d in Apply(s, w, l).published ==>
        d in w.published && Apply(s, w, l).published[d] == w.published[d]
  {
  }

  /**
   No run whose scans stay within `scan`, and whose references leave `margin`, deletes a package
   that is referenced.
   */
  ghost predicate MarginSuffices(s: Settings, margin: int, scan: int) {
    forall w: World, labels: seq<Label> :: Admitted(s, w, labels, margin, scan) ==> KeepsReferenced(s, w, labels)
  }

  ghost predicate Admitted(s: Settings, w: World, labels: seq<Label>, margin: int, scan: int) {
    Initial(s, w) && ReferencedInTime(s, w, labels, margin) && ScansWithin(s, w, labels, scan)
  }

  ghost predicate KeepsReferenced(s: Settings, w: World, labels: seq<Label>) {
    Runs(s, w, labels) && forall n: nat :: n < |labels| && labels[n].Collect? ==>
        labels[n].digest !in After(s, w, labels).references
  }

  /** Exactly the margins that cover the longest scan suffice. */
  lemma MarginCoversScan(s: Settings, margin: int, scan: nat)
    requires s.minAge >= 0
    ensures MarginSuffices(s, margin, scan) <==> scan <= margin
  {
    if scan <= margin {
      forall w: World, labels: seq<Label> | Admitted(s, w, labels, margin, scan) ensures KeepsReferenced(s, w, labels) {
        hide Initial, Runs, After, ReferencedInTime;
        AdmittedRuns(s, w, labels, margin, scan);
        forall n: nat | n < |labels| && labels[n].Collect? ensures labels[n].digest !in After(s, w, labels).references {
          ReferencedIsNeverDeleted(s, w, labels, margin, n);
        }
      }
    } else {
      hide Admitted;
      var w, labels, n := LateCollection(s, margin, scan);
      assert !KeepsReferenced(s, w, labels);
    }
  }

  lemma AdmittedRuns(s: Settings, w: World, labels: seq<Label>, margin: int, scan: int)
    requires Admitted(s, w, labels, margin, scan)
    ensures Runs(s, w, labels)
  {
  }

  /** A run that a margin shorter than the scan admits, and that deletes a referenced package. */
  lemma LateCollection(s: Settings, margin: int, scan: nat) returns (w: World, labels: seq<Label>, n: nat)
    requires margin < scan && s.minAge >= 0
    ensures Admitted(s, w, labels, margin, scan)
    ensures n < |labels| && labels[n].Collect? && labels[n].digest in After(s, w, labels).references
  {
    hide Admitted, Runs, After;
    if margin < s.minAge {
      w, labels := StoredBeforeScan(s, margin, if scan < s.minAge then scan else s.minAge);
      n := 6;
      AdmittedLonger(s, w, labels, margin, if scan < s.minAge then scan else s.minAge, scan);
    } else {
      w, labels := StoredDuringScan(s, margin, scan);
      n := 10;
    }
  }

  lemma AdmittedLonger(s: Settings, w: World, labels: seq<Label>, margin: int, scan: int, longer: int)
    requires Admitted(s, w, labels, margin, scan) && scan <= longer
    ensures Admitted(s, w, labels, margin, longer)
  {
    hide Initial, ReferencedInTime, Runs;
  }

  /** Some sound content: the archive without items. */
  lemma EmptyArchive(s: Settings) returns (content: Bytes)
    ensures s.Sound(s.Digest(content), content)
  {
    content := Archive([]);
    ParseIffPrints(content, []);
  }

  /** A package stored so as to reach the minimum age `scan` seconds from now. */
  lemma StoredBeforeScan(s: Settings, margin: int, scan: nat) returns (w: World, labels: seq<Label>)
    requires margin < scan <= s.minAge
    ensures Admitted(s, w, labels, margin, scan) && |labels| == 7 && labels[6].Collect?
    ensures labels[6].digest in After(s, w, labels).references
  {
    var content := EmptyArchive(s);
    var digest := s.Digest(content);
    w := World(0, map[digest := File(content, scan - s.minAge)], map[], {}, map[], map[]);
    hide Settings.Sound, Settings.Digest;
    labels := DeletedDuringScan(s, w, digest, scan);
    hide Invariant, Runs, After;
    forall k: nat, d | k <= |labels| && Runs(s, w, labels[..k]) && d in State(s, w, labels, k).published
        && d in After(s, w, labels).references
      ensures After(s, w, labels).references[d] < State(s, w, labels, k).published[d].mtime + s.minAge - margin
    {
      NothingNew(s, w, labels, k);
    }
  }

  /** What is published at a point of a run that uploads nothing before `m` is no older than that moment. */
  lemma {:induction false} UploadedLater(s: Settings, w: World, labels: seq<Label>, m: nat, k: nat, since: int)
    requires Invariant(s, w) && w.published == map[] && w.temporaries == map[]
    requires Runs(s, w, labels) && m <= |labels| && k <= |labels|
    requires forall i :: 0 <= i < m ==> !(labels[i].CreateTemporary? || labels[i].Write? || labels[i].Publish?)
    requires Runs(s, w, labels[..m]) && State(s, w, labels, m).now >= since
    ensures Runs(s, w, labels[..k])
    ensures NoneBefore(State(s, w, labels, k), since)
    decreases k
  {
    hide Apply, Enabled, Invariant, Settings.Sound;
    PrefixRuns(s, w, labels, k);
    if k == 0 {
      assert labels[..0] == [];
    } else {
      hide Runs, NoneBefore;
      UploadedLater(s, w, labels, m, k - 1, since);
      StepOfRun(s, w, labels, k - 1);
      if k - 1 >= m {
        TimeGrows(s, w, labels, m, k - 1);
      }
      NoneBeforeStep(s, State(s, w, labels, k - 1), labels[k - 1], since);
    }
  }

  lemma TimeGrows(s: Settings, w: World, labels: seq<Label>, m: nat, n: nat)
    requires Invariant(s, w) && Runs(s, w, labels) && m <= n <= |labels|
    ensures Runs(s, w, labels[..m]) && Runs(s, w, labels[..n])
    ensures State(s, w, labels, m).now <= State(s, w, labels, n).now
  {
    hide Runs, Invariant, RunExtends;
    Grown(s, w, labels, m, n);
  }

  predicate NoneBefore(w: World, since: int) {
    && (forall d :: d in w.published ==> w.published[d].mtime >= since)
    && (forall name :: name in w.temporaries ==> w.temporaries[name].mtime >= since)
  }

  lemma NoneBeforeStep(s: Settings, w: World, l: Label, since: int)
    requires Enabled(s, w, l) && NoneBefore(w, since)
    requires l.CreateTemporary? || l.Write? ==> w.now >= since
    ensures NoneBefore(Apply(s, w, l), since)
  {
    hide Settings.Sound;
  }

  lemma Uploads(s: Settings, w: World, content: Bytes) returns (v: World, u: World)
    requires w.published == map[] && w.temporaries == map[] && w.names == {} && s.Sound(s.Digest(content), content)
    ensures StepsTo(s, w, CreateTemporary(0, 0), v) && StepsTo(s, v, Write(0, 0, content), u)
    ensures StepsTo(s, u, Publish(0, 0, s.Digest(content), content),
        w.(published := map[s.Digest(content) := File(content, w.now)], names := {0}))
  {
    hide Settings.Sound, Settings.Digest;
    v := w.(temporaries := map[0 := Temporary(0, [], w.now)], names := {0});
    u := v.(temporaries := map[0 := Temporary(0, content, w.now)]);
    assert [] + content == content;
    assert u.temporaries - {0} == map[];
  }

  lemma Waits(s: Settings, w: World, seconds: nat)
    ensures StepsTo(s, w, Pass(seconds), w.(now := w.now + seconds))
  {
  }

  /** Begun and referenced at 0, stored at `late`, old enough `minAge` seconds later. */
  lemma StoresLate(s: Settings, w: World, content: Bytes, late: nat) returns (labels: seq<Label>)
    requires w == World(0, map[], map[], {}, map[], map[]) && s.minAge >= 0 && s.Sound(s.Digest(content), content)
    ensures var digest := s.Digest(content);
            && |labels| == 7 && labels[..3] == [StartRun(0), Reference(digest), Pass(late)]
            && Runs(s, w, labels) && Runs(s, w, labels[..3]) && After(s, w, labels[..3]).now == late
            && var v := After(s, w, labels);
            && v == Began(v, 0) && v.now == late + s.minAge && v.references == map[digest := 0]
            && v.published == map[digest := File(content, late)]
  {
    var digest := s.Digest(content);
    hide Settings.Sound, Settings.Digest, StepsTo, Runs, After;
    labels := BeginsLate(s, w, digest, late);
    var v3 := After(s, w, labels);
    var v4, v5 := Uploads(s, v3, content);
    var v6 := v3.(published := map[digest := File(content, late)], names := {0});
    Waits(s, v6, s.minAge);
    var first := labels;
    Step(s, w, labels, v3, CreateTemporary(0, 0), v4);
    labels := labels + [CreateTemporary(0, 0)];
    Step(s, w, labels, v4, Write(0, 0, content), v5);
    labels := labels + [Write(0, 0, content)];
    Step(s, w, labels, v5, Publish(0, 0, digest, content), v6);
    labels := labels + [Publish(0, 0, digest, content)];
    Step(s, w, labels, v6, Pass(s.minAge), v6.(now := late + s.minAge));
    labels := labels + [Pass(s.minAge)];
    assert labels[..3] == first;
  }

  /** A package that is referenced, then stored, and reaches the minimum age, all during one scan. */
  lemma StoredDuringScan(s: Settings, margin: int, scan: nat) returns (w: World, labels: seq<Label>)
    requires 0 <= s.minAge <= margin < scan
    ensures Admitted(s, w, labels, margin, scan) && |labels| == 11 && labels[10].Collect?
    ensures labels[10].digest in After(s, w, labels).references
  {
    var content := EmptyArchive(s);
    var digest, late := s.Digest(content), margin - s.minAge + 1;
    w := World(0, map[], map[], {}, map[], map[]);
    hide Settings.Sound, Settings.Digest, StepsTo, Runs, After;
    var stored := StoresLate(s, w, content, late);
    labels := CollectsOld(s, w, stored, After(s, w, stored), 0, digest);
    assert labels[..3] == stored[..3];
    hide Invariant;
    forall k: nat, d | k <= |labels| && Runs(s, w, labels[..k]) && d in State(s, w, labels, k).published
        && d in After(s, w, labels).references
      ensures After(s, w, labels).references[d] < State(s, w, labels, k).published[d].mtime + s.minAge - margin
    {
      EmptyIsSound(s, w);
      assert forall i :: 0 <= i < 3 ==> labels[i] == labels[..3][i];
      UploadedLater(s, w, labels, 3, k, late);
    }
  }

  lemma EmptyIsSound(s: Settings, w: World)
    requires w == World(0, map[], map[], {}, map[], map[])
    ensures Initial(s, w)
  {
  }

  /******* The age of what is deleted *******/

  /** Another upload of the same package is written and about to be renamed over an old, unreferenced copy. */
  ghost predicate Republishing(s: Settings, w: World, digest: string, content: Bytes, name: nat) {
    && Initial(s, w) && w.references == map[] && s.minAge > 0
    && digest in w.published && w.published[digest].mtime + s.minAge <= w.now
    && name in w.temporaries && w.temporaries[name].content == content && w.temporaries[name].mtime == w.now
    && s.Sound(digest, content)
  }

  /** A run has listed the old copy. */
  lemma ListsOld(s: Settings, w: World, digest: string) returns (labels: seq<Label>)
    requires w.runs == map[] && w.references == map[]
    requires digest in w.published && w.published[digest].mtime + s.minAge <= w.now
    ensures labels == [StartRun(0), ScanDone(0, {}), ReadClock(0), Consider(0, digest)] && Runs(s, w, labels)
    ensures After(s, w, labels) == Listed(w, w.now, w.now, digest, w.published[digest].mtime)
  {
    NoSteps(s, w);
    Begins(s, w);
    hide StepsTo, Runs, After;
    var w1 := Began(w, w.now);
    var w2 := Scans(s, w1, w.now);
    var w3 := ReadAt(w1, w.now, w.now);
    Lists(s, w3, w.now, digest);
    labels := [];
    Step(s, w, labels, w, StartRun(0), w1);
    labels := labels + [StartRun(0)];
    Step(s, w, labels, w1, ScanDone(0, {}), w2);
    labels := labels + [ScanDone(0, {})];
    Step(s, w, labels, w2, ReadClock(0), w3);
    labels := labels + [ReadClock(0)];
    Step(s, w, labels, w3, Consider(0, digest), Listed(w, w.now, w.now, digest, w.published[digest].mtime));
    labels := labels + [Consider(0, digest)];
  }

  /** An old, unreferenced package is deleted. */
  lemma CollectedUnreferenced(s: Settings, w: World, digest: string) returns (labels: seq<Label>)
    requires w.runs == map[] && w.references == map[]
    requires digest in w.published && w.published[digest].mtime + s.minAge <= w.now
    ensures Runs(s, w, labels) && digest !in After(s, w, labels).published
  {
    hide StepsTo, Runs, After;
    labels := ListsOld(s, w, digest);
    var v := After(s, w, labels);
    Deletes(s, v, w.now, w.now, digest, w.published[digest].mtime);
    Step(s, w, labels, v, Collect(0, digest), v.(published := v.published - {digest}));
    labels := labels + [Collect(0, digest)];
  }

  lemma Renames(s: Settings, w: World, digest: string, content: Bytes, name: nat) returns (v: World)
    requires name in w.temporaries && w.temporaries[name].content == content && s.Sound(digest, content)
    ensures StepsTo(s, w, Publish(w.temporaries[name].owner, name, digest, content), v)
    ensures v == w.(published := w.published[digest := File(content, w.temporaries[name].mtime)],
        temporaries := v.temporaries)
  {
    hide Settings.Sound;
    v := Apply(s, w, Publish(w.temporaries[name].owner, name, digest, content));
  }

  /**
   The age limit holds for the file that was listed: a copy renamed into its place meanwhile is
   deleted however young.
   */
  lemma YoungCopyDeleted(s: Settings, w: World, digest: string, content: Bytes, name: nat) returns (labels: seq<Label>)
    requires Republishing(s, w, digest, content, name)
    ensures |labels| == 6 && labels[3] == Consider(0, digest) && labels[5] == Collect(0, digest) && Runs(s, w, labels)
    ensures Runs(s, w, labels[..5]) && digest in State(s, w, labels, 5).published
    ensures State(s, w, labels, 5).published[digest].mtime + s.minAge > After(s, w, labels).now
  {
    hide Invariant, Settings.Sound, StepsTo, Runs, After;
    labels := ListsOld(s, w, digest);
    var w4 := After(s, w, labels);
    var l := Publish(w.temporaries[name].owner, name, digest, content);
    var w5 := Renames(s, w4, digest, content, name);
    Deletes(s, w5, w.now, w.now, digest, w.published[digest].mtime);
    Step(s, w, labels, w4, l, w5);
    labels := labels + [l];
    var five := labels;
    Step(s, w, labels, w5, Collect(0, digest), w5.(published := w5.published - {digest}));
    labels := labels + [Collect(0, digest)];
    assert labels[..5] == five;
  }

  /** A copy of the package was renamed into place at `p`, and no other between `p` and `n`. */
  predicate LastCopyAt(labels: seq<Label>, p: nat, n: nat, digest: string) {
    && p < n <= |labels| && labels[p].Publish? && labels[p].digest == digest
    && forall k :: p < k < n ==> !(labels[k].Publish? && labels[k].digest == digest)
  }

  /** The last copy renamed into place between `m` and `n`, if any, had last been written a minimum age before `n`. */
  ghost predicate LastCopyIsOld(s: Settings, w: World, labels: seq<Label>, m: nat, n: nat, digest: string)
    requires Runs(s, w, labels) && n <= |labels| && Runs(s, w, labels[..n])
  {
    forall p: nat ::
      && m < p && LastCopyAt(labels, p, n, digest) && Runs(s, w, labels[..p])
      && labels[p].name in State(s, w, labels, p).temporaries ==>
      State(s, w, labels, p).temporaries[labels[p].name].mtime + s.minAge <= State(s, w, labels, n).now
  }

  /**
   A deleted file is at least the minimum age old if and only if no copy was renamed into its place since it was
   listed, or the last such copy was itself written a minimum age ago.
   */
  lemma CollectedIsOldIff(s: Settings, w: World, labels: seq<Label>, m: nat, n: nat, run: nat, digest: string)
    requires Initial(s, w) && Runs(s, w, labels) && m < n < |labels|
    requires labels[m] == Consider(run, digest) && labels[n] == Collect(run, digest)
    ensures Runs(s, w, labels[..n]) && digest in State(s, w, labels, n).published
    ensures State(s, w, labels, n).published[digest].mtime + s.minAge <= State(s, w, labels, n).now
       <==> LastCopyIsOld(s, w, labels, m, n, digest)
  {
    hide Runs, Initial;
    StepOfRun(s, w, labels, n);
    if p: nat :| m < p && LastCopyAt(labels, p, n, digest) {
      CopyStays(s, w, labels, p, n, digest);
      forall q: nat | m < q && LastCopyAt(labels, q, n, digest) ensures q == p {}
    } else {
      if k: nat :| m < k < n && labels[k].Publish? && labels[k].digest == digest {
        var p := LastCopy(labels, k, n, digest);
      }
      CollectedIsOldUnlessReplaced(s, w, labels, m, n, run, digest);
    }
  }

  /** If any copy was renamed, one was last. */
  lemma {:induction false} LastCopy(labels: seq<Label>, k: nat, n: nat, digest: string) returns (p: nat)
    requires k < n <= |labels| && labels[k].Publish? && labels[k].digest == digest
    ensures k <= p && LastCopyAt(labels, p, n, digest)
    decreases n - k
  {
    p := k;
    if later: nat :| k < later < n && labels[later].Publish? && labels[later].digest == digest {
      p := LastCopy(labels, later, n, digest);
    }
  }

  /** The copy renamed at `p` is what is published at `n`. */
  lemma CopyStays(s: Settings, w: World, labels: seq<Label>, p: nat, n: nat, digest: string)
    requires Runs(s, w, labels) && LastCopyAt(labels, p, n, digest) && Runs(s, w, labels[..n])
    requires digest in State(s, w, labels, n).published
    ensures Runs(s, w, labels[..p]) && labels[p].name in State(s, w, labels, p).temporaries
    ensures State(s, w, labels, n).published[digest].mtime == State(s, w, labels, p).temporaries[labels[p].name].mtime
  {
    StepOfRun(s, w, labels, p);
    PublishedNow(s, State(s, w, labels, p), labels[p]);
    hide Runs, Enabled, Apply;
    Unreplaced(s, w, labels, p + 1, n, digest);
  }

  lemma PublishedNow(s: Settings, w: World, l: Label)
    requires Enabled(s, w, l) && l.Publish?
    ensures l.name in w.temporaries && l.digest in Apply(s, w, l).published
    ensures Apply(s, w, l).published[l.digest].mtime == w.temporaries[l.name].mtime
  {
  }

  /** Unless a copy was renamed into its place since it was listed, a deleted file is at least the minimum age old. */
  lemma CollectedIsOldUnlessReplaced(s: Settings, w: World, labels: seq<Label>, m: nat, n: nat, run: nat,
          digest: string)
    requires Initial(s, w) && Runs(s, w, labels) && m < n < |labels|
    requires labels[m] == Consider(run, digest) && labels[n] == Collect(run, digest)
    requires forall k: nat :: m < k < n ==> !(labels[k].Publish? && labels[k].digest == digest)
    ensures Runs(s, w, labels[..n]) && digest in State(s, w, labels, n).published
    ensures State(s, w, labels, n).published[digest].mtime + s.minAge <= State(s, w, labels, n).now
  {
    hide Runs, Initial, Invariant, Enabled, Apply, Extends;
    StepOfRun(s, w, labels, m);
    StepOfRun(s, w, labels, n);
    InitialIsSound(s, w);
    RunKeeps(s, w, labels[..m]);
    ListedIsOld(s, State(s, w, labels, m), run, digest);
    CollectedIsPublished(s, State(s, w, labels, n), run, digest);
    assert !labels[m].Publish?;
    Unreplaced(s, w, labels, m, n, digest);
    Grown(s, w, labels, m, n);
    TimeExtends(State(s, w, labels, m), State(s, w, labels, n));
  }

  lemma ListedIsOld(s: Settings, w: World, run: nat, digest: string)
    requires Invariant(s, w) && Enabled(s, w, Consider(run, digest))
    ensures digest in w.published && w.published[digest].mtime + s.minAge <= w.now
  {
    hide Settings.Sound;
    assert RunOk(s, w, w.runs[run]);
  }

  lemma CollectedIsPublished(s: Settings, w: World, run: nat, digest: string)
    requires Enabled(s, w, Collect(run, digest))
    ensures digest in w.published
  {
  }

  lemma TimeExtends(w: World, v: World)
    requires Extends(w, v)
    ensures w.now <= v.now
  {
  }

  lemma OtherStepsKeepCopy(s: Settings, w: World, l: Label, digest: string)
    requires Enabled(s, w, l) && !(l.Publish? && l.digest == digest)
    ensures digest in Apply(s, w, l).published ==>
        digest in w.published && Apply(s, w, l).published[digest] == w.published[digest]
  {
    hide Settings.Sound;
  }

  /** Without a new copy, a package that is published later is the one that was published. */
  lemma {:induction false} Unreplaced(s: Settings, w: World, labels: seq<Label>, m: nat, n: nat, digest: string)
    requires Runs(s, w, labels) && m <= n <= |labels|
    requires forall k: nat :: m <= k < n ==> !(labels[k].Publish? && labels[k].digest == digest)
    ensures Runs(s, w, labels[..m]) && Runs(s, w, labels[..n])
    ensures digest in State(s, w, labels, n).published ==>
              digest in State(s, w, labels, m).published
                  && State(s, w, labels, n).published[digest] == State(s, w, labels, m).published[digest]
    decreases n
  {
    hide Runs, Enabled, Apply;
    PrefixRuns(s, w, labels, m);
    PrefixRuns(s, w, labels, n);
    if m < n {
      Unreplaced(s, w, labels, m, n - 1, digest);
      StepOfRun(s, w, labels, n - 1);
      OtherStepsKeepCopy(s, State(s, w, labels, n - 1), labels[n - 1], digest);
    }
  }

}
