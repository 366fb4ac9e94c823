/**
 One run of the orphan collector (backend/src/Operations/OrphanGarbageCollector.php): scan the chain, list
 old unreferenced packages, and only then delete, while uploads go on.
 */
module OrphanGc {
  import opened Wrappers
  import opened ByteCodec
  import opened PackageProtocol
  import ChainIndex

  datatype Failure = LockHeld | ScanFailed | MetadataUnreadable | NotDeleted

  datatype Candidate = Candidate(sha256: string, size: nat, ageSeconds: int)

  datatype Report = Report(safeBlock: int, candidates: seq<Candidate>, deleted: seq<string>)

  function Digests(candidates: seq<Candidate>): (digests: seq<string>)
    ensures |digests| == |candidates|
  {
    seq(|candidates|, i requires 0 <= i < |candidates| => candidates[i].sha256)
  }

  predicate OfRun(l: Label, run: nat) {
    (l.StartRun? || l.ScanDone? || l.ReadClock? || l.Consider? || l.Collect?) && l.run == run
  }

  /** What a run deleted, in order. */
  function Deletions(labels: seq<Label>, run: nat): seq<string> {
    if labels == [] then []
    else
      var last := labels[|labels| - 1];
      Deletions(labels[..|labels| - 1], run) + if last.Collect? && last.run == run then [last.digest] else []
  }

  /** The packages a run should report. */
  function Orphans(s: Settings, published: map<string, File>, clock: int, refs: set<string>): set<string> {
    set d | d in published && clock - published[d].mtime >= s.minAge && d !in refs
  }

  lemma OthersKeepRun(s: Settings, w: World, l: Label, run: nat)
    requires Enabled(s, w, l) && !OfRun(l, run)
    ensures run in w.runs <==> run in Apply(s, w, l).runs
    ensures run in w.runs ==> Apply(s, w, l).runs[run] == w.runs[run]
  {
    hide Settings.Sound;
  }

  /** The paths of all packages, each once. */
  method Glob(published: map<string, File>) returns (paths: seq<string>)
    ensures forall d :: d in paths <==> d in published
    ensures forall i, j :: 0 <= i < j < |paths| ==> paths[i] != paths[j]
  {
    paths := [];
    var left := published.Keys;
    while left != {}
      invariant left <= published.Keys
      invariant forall d :: d in paths <==> d in published && d !in left
      invariant forall i, j :: 0 <= i < j < |paths| ==> paths[i] != paths[j]
      decreases |left|
    {
      var d :| d in left;
      paths := paths + [d];
      left := left - {d};
    }
  }

  class OrphanGarbageCollector {
    const s: Settings
    /** Whether a file operation may fail, and whether anyone else acts meanwhile. */
    const faulty: bool
    const alone: bool
    const run: nat
    ghost const start: World
    var w: World
    ghost var log: seq<Label>

    ghost predicate Valid()
      reads this
    {
      Invariant(s, start) && Runs(s, start, log) && After(s, start, log) == w && Invariant(s, w)
    }

    /** Others moved; this run did not. */
    twostate predicate Quiet()
      reads this
    {
      && old(log) <= log && old(w).now <= w.now
      && Deletions(log, run) == Deletions(old(log), run)
      && (run in old(w).runs <==> run in w.runs)
      && (run in w.runs ==> w.runs[run] == old(w).runs[run])
      && (alone ==> w == old(w))
    }

    constructor (s: Settings, faulty: bool, alone: bool, run: nat, start: World)
      requires Invariant(s, start)
      ensures Valid() && this.s == s && this.faulty == faulty && this.alone == alone && this.run == run
          && this.start == start && w == start && log == []
    {
      this.s, this.faulty, this.alone, this.run, this.start, w := s, faulty, alone, run, start, start;
      log := [];
    }

    method Take(l: Label)
      requires Valid() && Enabled(s, w, l)
      modifies this
      ensures Valid() && w == Apply(s, old(w), l) && log == old(log) + [l] && old(w).now <= w.now
      ensures Deletions(log, run) == Deletions(old(log), run) + if l.Collect? && l.run == run then [l.digest] else []
    {
      hide Enabled, Apply, Invariant, Runs, After;
      StepKeeps(s, w, l);
      PackageProtocol.Take(s, start, log, l);
      assert (log + [l])[..|log|] == log;
      w := Apply(s, w, l);
      log := log + [l];
    }

    method Interfere()
      requires Valid()
      modifies this
      ensures Valid() && Quiet()
    {
      hide Enabled, Apply, Invariant, Runs, After;
      var steps: int := *;
      while steps > 0 && !alone
        invariant Valid() && Quiet()
      {
        steps := steps - 1;
        var l := AnyLabel();
        if Enabled(s, w, l) && !OfRun(l, run) {
          OthersKeepRun(s, w, l, run);
          Take(l);
        }
      }
    }

    method AnyLabel() returns (l: Label) {
      var kind: int, a: nat, n: nat, text: string, bytes: Bytes, refs: set<string> := *, *, *, *, *, *;
      l := if kind == 0 then Pass(n) else if kind == 1 then Reference(text) else if kind == 2 then CreateTemporary(a, n)
           else if kind == 3 then Write(a, n, bytes) else if kind == 4 then Publish(a, n, text, bytes)
           else if kind == 5 then Discard(a, n) else if kind == 6 then CleanTemporary(n) else if kind == 7
               then StartRun(n)
           else if kind == 8 then ScanDone(n, refs) else if kind == 9 then ReadClock(n) else if kind == 10
               then Consider(n, text)
           else Collect(n, text);
    }

    method Fails() returns (b: bool)
      ensures b ==> faulty
    {
      var chance: bool := *;
      return faulty && chance;
    }

    /** The run has read `clock`, and lists against `refs`. */
    predicate Listing(clock: int, refs: set<string>)
      reads this
    {
      run in w.runs && w.runs[run].clock == Some(clock) && w.runs[run].refs == Some(refs)
    }

    /** Everything before the listing: the scan of the chain, then the clock. */
    method Scan(snapshot: Option<ChainIndex.ChainSnapshot>) returns (r: Result<int, Failure>)
      requires Valid() && run !in w.runs
      requires snapshot.Some? ==> w.references.Keys <= snapshot.value.archiveHashes
      modifies this
      ensures Valid() && old(log) <= log && Deletions(log, run) == Deletions(old(log), run)
      ensures r.Ok? <==> snapshot.Some?
      ensures r.Ok? ==> Listing(r.value, snapshot.value.archiveHashes) && w.runs[run].candidates == map[]
      ensures r.Err? ==> r.error == ScanFailed
      ensures alone ==> w.published == old(w).published && (r.Ok? ==> r.value == old(w).now)
    {
      hide Invariant, Runs, After, Settings.Sound, Deletions;
      Take(StartRun(run));
      Interfere();
      if snapshot.None? {
        return Err(ScanFailed);
      }
      Take(ScanDone(run, snapshot.value.archiveHashes));
      Interfere();
      Take(ReadClock(run));
      return Ok(w.runs[run].clock.value);
    }

    /** The body of the listing loop. */
    method Examine(digest: string, clock: int, refs: set<string>) returns (r: Result<Option<Candidate>, Failure>)
      requires Valid() && Listing(clock, refs)
      modifies this
      ensures Valid() && old(log) <= log && Deletions(log, run) == Deletions(old(log), run)
      ensures Listing(clock, refs)
      ensures if r.Ok? && r.value.Some?
              then r.value.value.sha256 == digest && w.runs[run] ==
                  WithCandidate(old(w).runs[run], clock, r.value.value)
              else w.runs[run] == old(w).runs[run]
      ensures alone ==> w.published == old(w).published
      ensures alone && r.Ok? ==> (r.value.Some? <==> digest in Orphans(s, w.published, clock, refs))
      ensures alone && !faulty && digest in old(w).published ==> r.Ok?
    {
      hide Invariant, Runs, After, Settings.Sound;
      Interfere();
      var unreadable := Fails();
      if unreadable || digest !in w.published {
        return Err(MetadataUnreadable);
      }
      var size, age := |w.published[digest].content|, clock - w.published[digest].mtime;
      if age >= s.minAge && digest !in refs {
        Take(Consider(run, digest));
        return Ok(Some(Candidate(digest, size, age)));
      }
      return Ok(None);
    }

    /** The listing loop.  Nothing is deleted here. */
    method List(clock: int, refs: set<string>) returns (r: Result<seq<Candidate>, Failure>)
      requires Valid() && Listing(clock, refs) && w.runs[run].candidates == map[]
      modifies this
      ensures Valid() && old(log) <= log && Deletions(log, run) == Deletions(old(log), run)
      ensures Listing(clock, refs)
      ensures r.Ok? ==> Lists(w.runs[run], clock, r.value)
      ensures alone ==> w.published == old(w).published
      ensures alone && !faulty ==> r.Ok? && w.runs[run].candidates.Keys == Orphans(s, w.published, clock, refs)
    {
      hide Invariant, Runs, After, Settings.Sound, Enabled, Apply, Lists;
      var candidates: seq<Candidate> := [];
      NothingListed(w.runs[run], clock);
      var paths := Glob(w.published);
      for i := 0 to |paths|
        invariant Valid() && old(log) <= log && Deletions(log, run) == Deletions(old(log), run)
        invariant Listing(clock, refs)
        invariant Lists(w.runs[run], clock, candidates)
        invariant forall d :: d in w.runs[run].candidates ==> d in paths[..i]
        invariant alone ==> w.published == old(w).published
        invariant alone ==> forall d :: d in w.runs[run].candidates <==>
            d in paths[..i] && d in Orphans(s, w.published, clock, refs)
      {
        assert paths[..i + 1] == paths[..i] + [paths[i]];
        label before:
        var examined :- Examine(paths[i], clock, refs);
        if examined.Some? {
          ListsOneMore(old@before(w).runs[run], clock, candidates, examined.value);
          candidates := candidates + [examined.value];
        }
      }
      assert paths[..|paths|] == paths;
      return Ok(candidates);
    }

    /** The body of the deletion loop. */
    method DeleteOne(digest: string) returns (r: Result<(), Failure>)
      requires Valid() && run in w.runs && digest in w.runs[run].candidates
      modifies this
      ensures Valid() && old(log) <= log && run in w.runs && w.runs[run] == old(w).runs[run]
      ensures Deletions(log, run) == Deletions(old(log), run) + if r.Ok? then [digest] else []
      ensures r.Err? ==> r.error == NotDeleted
      ensures alone ==> w.published == if r.Ok? then old(w).published - {digest} else old(w).published
      ensures alone && !faulty && digest in old(w).published ==> r.Ok?
    {
      hide Invariant, Runs, After, Settings.Sound;
      Interfere();
      var failed := Fails();
      if failed || digest !in w.published {
        return Err(NotDeleted);
      }
      Take(Collect(run, digest));
      return Ok(());
    }

    /** The deletion loop, which stops at the first file it cannot delete. */
    method Delete(candidates: seq<Candidate>, ghost clock: int) returns (r: Result<(), Failure>, deleted: seq<string>)
      requires Valid() && run in w.runs && Lists(w.runs[run], clock, candidates)
      modifies this
      ensures Valid() && old(log) <= log && run in w.runs && w.runs[run] == old(w).runs[run]
      ensures Deletions(log, run) == Deletions(old(log), run) + deleted
      ensures deleted <= Digests(candidates)
      ensures r.Ok? ==> deleted == Digests(candidates)
      ensures alone && !faulty && w.runs[run].candidates.Keys <= old(w).published.Keys ==> r.Ok?
      ensures alone && r.Ok? ==> w.published == old(w).published - w.runs[run].candidates.Keys
    {
      hide Invariant, Runs, After, Settings.Sound, Enabled, Apply;
      deleted := [];
      ghost var gone := {};
      for i := 0 to |candidates|
        invariant Valid() && old(log) <= log && run in w.runs && w.runs[run] == old(w).runs[run]
        invariant deleted == Digests(candidates)[..i]
        invariant Deletions(log, run) == Deletions(old(log), run) + deleted
        invariant forall d :: d in gone <==> d in deleted
        invariant alone ==> w.published == old(w).published - gone
      {
        assert Digests(candidates)[i] == candidates[i].sha256;
        Distinct(candidates, i);
        var outcome := DeleteOne(candidates[i].sha256);
        if outcome.Err? {
          return Err(outcome.error), deleted;
        }
        deleted := deleted + [candidates[i].sha256];
        gone := gone + {candidates[i].sha256};
      }
      assert deleted == Digests(candidates);
      assert gone == w.runs[run].candidates.Keys;
      return Ok(()), deleted;
    }

    /**
     `run`.  Nothing is deleted in a dry run or when the scan fails.  Whatever is deleted, even by a run that
     stops half-way, was listed as at least the minimum age old and is not among the hashes of the scan; and
     an undisturbed run deletes exactly those packages.
     */
    method Run(apply: bool, lockHeld: bool, snapshot: Option<ChainIndex.ChainSnapshot>)
      returns (r: Result<Report, Failure>, deleted: seq<string>)
      requires Valid() && run !in w.runs
      requires snapshot.Some? ==> w.references.Keys <= snapshot.value.archiveHashes
      modifies this
      ensures Valid() && old(log) <= log
      ensures Deletions(log, run) == Deletions(old(log), run) + deleted
      ensures !apply || lockHeld || snapshot.None? ==> deleted == []
      ensures lockHeld || snapshot.None? ==> r.Err?
      ensures forall d :: d in deleted ==>
                && snapshot.Some? && d !in snapshot.value.archiveHashes
                && run in w.runs && d in w.runs[run].candidates && w.runs[run].candidates[d] + s.minAge <= w.now
      ensures r.Ok? ==> r.value.deleted == deleted && deleted == (if apply then Digests(r.value.candidates) else [])
      ensures r.Ok? ==>
          run in w.runs && w.runs[run].clock.Some? && Lists(w.runs[run], w.runs[run].clock.value, r.value.candidates)
      ensures alone && !faulty && !lockHeld && snapshot.Some? ==>
                && r.Ok?
                && var orphans := Orphans(s, old(w).published, old(w).now, snapshot.value.archiveHashes);
                && (forall d :: d in Digests(r.value.candidates) <==> d in orphans)
                && w.published == if apply then old(w).published - orphans else old(w).published
    {
      hide Invariant, Runs, After, Settings.Sound, Enabled, Apply, Orphans;
      hide Deletions;
      deleted := [];
      if lockHeld {
        return Err(LockHeld), [];
      }
      var clock := Scan(snapshot);
      if clock.Err? {
        return Err(clock.error), [];
      }
      var refs := snapshot.value.archiveHashes;
      var candidates := List(clock.value, refs);
      if candidates.Err? {
        return Err(candidates.error), [];
      }
      if apply {
        OrphansArePublished(s, w.published, clock.value, refs);
        var outcome;
        outcome, deleted := Delete(candidates.value, clock.value);
        DeletedWereListed(s, w, run, clock.value, refs, candidates.value, deleted);
        if outcome.Err? {
          return Err(outcome.error), deleted;
        }
      }
      return Ok(Report(snapshot.value.safeBlock, candidates.value, deleted)), deleted;
    }
  }

  function WithCandidate(g: GcRun, clock: int, c: Candidate): GcRun {
    g.(candidates := g.candidates[c.sha256 := clock - c.ageSeconds])
  }

  /** The report names every listed package once, with its age. */
  ghost predicate Lists(g: GcRun, clock: int, candidates: seq<Candidate>) {
    && (forall d :: d in Digests(candidates) <==> d in g.candidates)
    && (forall i :: 0 <= i < |candidates| ==>
          candidates[i].sha256 in g.candidates && candidates[i].ageSeconds ==
              clock - g.candidates[candidates[i].sha256])
    && (forall i, j :: 0 <= i < j < |candidates| ==> candidates[i].sha256 != candidates[j].sha256)
  }

  lemma NothingListed(g: GcRun, clock: int)
    requires g.candidates == map[]
    ensures Lists(g, clock, [])
  {
  }

  lemma ListsOneMore(g: GcRun, clock: int, candidates: seq<Candidate>, c: Candidate)
    requires Lists(g, clock, candidates) && c.sha256 !in g.candidates
    ensures Lists(WithCandidate(g, clock, c), clock, candidates + [c])
  {
    assert Digests(candidates + [c]) == Digests(candidates) + [c.sha256];
    forall i | 0 <= i < |candidates| ensures candidates[i].sha256 != c.sha256 {
      assert Digests(candidates)[i] == candidates[i].sha256;
    }
  }

  lemma Distinct(candidates: seq<Candidate>, i: nat)
    requires i < |candidates|
    requires forall i, j :: 0 <= i < j < |candidates| ==> candidates[i].sha256 != candidates[j].sha256
    ensures candidates[i].sha256 !in Digests(candidates)[..i]
  {
  }

  lemma OrphansArePublished(s: Settings, published: map<string, File>, clock: int, refs: set<string>)
    ensures Orphans(s, published, clock, refs) <= published.Keys
  {
  }

  lemma DeletedWereListed(s: Settings, w: World, run: nat, clock: int, refs: set<string>, candidates: seq<Candidate>,
          deleted: seq<string>)
    requires Invariant(s, w) && run in w.runs && w.runs[run].clock == Some(clock) && w.runs[run].refs == Some(refs)
    requires deleted <= Digests(candidates) && forall d :: d in Digests(candidates) <==> d in w.runs[run].candidates
    ensures forall d :: d in deleted ==>
        d !in refs && d in w.runs[run].candidates && w.runs[run].candidates[d] + s.minAge <= w.now
  {
    hide Settings.Sound;
    assert RunOk(s, w, w.runs[run]);
    forall d | d in deleted ensures d in Digests(candidates) {
      var i :| 0 <= i < |deleted| && deleted[i] == d;
      assert Digests(candidates)[i] == d;
    }
  }
}
