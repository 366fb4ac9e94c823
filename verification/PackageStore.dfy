/**
 Uploading a package (backend/src/Package/PackageStore.php): one request streams its body into a temporary
 file while other requests, collectors and cleanups act on the same directory between any two of its steps.
 */
module PackageStore {
  import opened Wrappers
  import opened ByteCodec
  import opened Crypto
  import opened Gbyl
  import opened GbylValidator
  import opened PackageProtocol

  const CHUNK_BYTES := 65_536

  datatype PutResult = PutResult(sha256: string, size: nat, created: bool)

  predicate ByAgent(l: Label, agent: nat) {
    (l.CreateTemporary? || l.Write? || l.Publish? || l.Discard?) && l.agent == agent
  }

  /** What one request published, in order. */
  function Publications(labels: seq<Label>, agent: nat): seq<(string, Bytes)> {
    if labels == [] then []
    else
      var last := labels[|labels| - 1];
      Publications(labels[..|labels| - 1], agent)
          + if last.Publish? && last.agent == agent then [(last.digest, last.content)] else []
  }

  predicate Collected(before: seq<Label>, log: seq<Label>, digest: string) {
    exists i :: |before| <= i < |log| && log[i].Collect? && log[i].digest == digest
  }

  predicate ValidDigest(sha256: string) {
    |sha256| == 64 && forall i :: 0 <= i < |sha256| ==> '0' <= sha256[i] <= '9' || 'a' <= sha256[i] <= 'f'
  }

  predicate ValidLength(contentLength: int) {
    MIN_ARCHIVE_BYTES <= contentLength <= MAX_ARCHIVE_BYTES
  }

  /** What the upload of an absent package must satisfy. */
  predicate Storable(s: Settings, sha256: string, contentLength: int, body: Bytes) {
    ValidDigest(sha256) && |body| == contentLength && s.Sound(sha256, body)
  }

  /** The outcome of streaming a body that may be published, in the order of the checks. */
  function Outcome(s: Settings, sha256: string, contentLength: nat, body: Bytes): (r: Result<PutResult, PackageError>)
    ensures ValidDigest(sha256) && ValidLength(contentLength) ==> (r.Ok? <==> Storable(s, sha256, contentLength, body))
  {
    if |body| > contentLength then Err(TooLarge)
    else if |body| < contentLength then Err(LengthMismatch)
    else if s.Digest(body) != sha256 then Err(HashMismatch)
    else if ParseBody(body).Err? then Err(FormatInvalid)
    else Ok(PutResult(sha256, contentLength, true))
  }

  ghost predicate NoCollision(s: Settings, digest: string) {
    forall a, b :: s.Digest(a) == digest && s.Digest(b) == digest ==> a == b
  }

  /**
   The request has one temporary, holding `content` and last written at `since` or later; or it had, and a
   cleanup a day later has removed it.
   */
  predicate Mine(w: World, agent: nat, name: nat, content: Bytes, since: int) {
    && name in w.names
    && since <= w.now
    && (forall n :: n in w.temporaries && w.temporaries[n].owner == agent ==> n == name)
    && if name in w.temporaries
       then w.temporaries[name].owner == agent && w.temporaries[name].content == content
           && w.temporaries[name].mtime >= since
       else w.now > since + TEMPORARY_MAX_AGE
  }

  predicate NoneMine(w: World, agent: nat) {
    forall n :: n in w.temporaries ==> w.temporaries[n].owner != agent
  }

  lemma OthersKeepMine(s: Settings, w: World, l: Label, agent: nat)
    requires Enabled(s, w, l) && !ByAgent(l, agent)
    ensures NoneMine(w, agent) ==> NoneMine(Apply(s, w, l), agent)
    ensures forall name, content, since :: Mine(w, agent, name, content, since) ==>
        Mine(Apply(s, w, l), agent, name, content, since)
  {
    hide Settings.Sound;
  }

  lemma PublishedStays(s: Settings, w: World, l: Label, digest: string)
    requires Enabled(s, w, l) && digest in w.published
    ensures digest in Apply(s, w, l).published || (l.Collect? && l.digest == digest)
  {
  }

  lemma CollectedGrows(before: seq<Label>, log: seq<Label>, l: Label, digest: string)
    requires |before| <= |log|
    ensures Collected(before, log, digest) ==> Collected(before, log + [l], digest)
    ensures l.Collect? && l.digest == digest ==> Collected(before, log + [l], digest)
  {
    if i :| |before| <= i < |log| && log[i].Collect? && log[i].digest == digest {
      assert (log + [l])[i] == log[i];
    }
    assert (log + [l])[|log|] == l;
  }

  lemma CollectedExtends(before: seq<Label>, middle: seq<Label>, log: seq<Label>, digest: string)
    requires before <= middle <= log
    ensures Collected(before, middle, digest) || Collected(middle, log, digest) ==> Collected(before, log, digest)
  {
  }

  lemma PublishedIsSound(s: Settings, w: World, digest: string)
    requires Invariant(s, w) && digest in w.published
    ensures s.Sound(digest, w.published[digest].content)
  {
  }

  class Store {
    const s: Settings
    /** Whether a file operation may fail. */
    const faulty: bool
    const agent: nat
    ghost const start: World
    var w: World
    ghost var log: seq<Label>

    ghost predicate Valid()
      reads this
    {
      Invariant(s, start) && Runs(s, start, log) && After(s, start, log) == w && Invariant(s, w)
    }

    /** Nothing was published by this request, and nothing vanished but by collection. */
    twostate predicate Quiet()
      reads this
    {
      && old(log) <= log && old(w).now <= w.now
      && Publications(log, agent) == Publications(old(log), agent)
      && forall d :: d in old(w).published ==> d in w.published || Collected(old(log), log, d)
    }

    constructor (s: Settings, faulty: bool, agent: nat, start: World)
      requires Invariant(s, start)
      ensures Valid() && this.s == s && this.faulty == faulty && this.agent == agent && this.start == start
          && w == start && log == []
    {
      this.s, this.faulty, this.agent, this.start, w := s, faulty, agent, start, start;
      log := [];
    }

    method Take(l: Label)
      requires Valid() && Enabled(s, w, l)
      modifies this
      ensures Valid() && w == Apply(s, old(w), l) && log == old(log) + [l] && old(w).now <= w.now
      ensures Publications(log, agent) ==
                Publications(old(log), agent) + if l.Publish? && l.agent == agent then [(l.digest, l.content)] else []
      ensures forall d :: d in old(w).published ==> d in w.published || Collected(old(log), log, d)
    {
      hide Enabled, Apply, Invariant, Runs, After;
      StepKeeps(s, w, l);
      PackageProtocol.Take(s, start, log, l);
      assert (log + [l])[..|log|] == log;
      forall d | d in w.published ensures d in Apply(s, w, l).published || Collected(log, log + [l], d) {
        PublishedStays(s, w, l, d);
        CollectedGrows(log, log, l, d);
      }
      w := Apply(s, w, l);
      log := log + [l];
    }

    /** Any number of steps of everyone else. */
    method Interfere()
      requires Valid()
      modifies this
      ensures Valid() && Quiet()
      ensures NoneMine(old(w), agent) ==> NoneMine(w, agent)
      ensures forall name, content, since :: Mine(old(w), agent, name, content, since) ==>
          Mine(w, agent, name, content, since)
    {
      hide Apply, Invariant, Runs, After, Mine, NoneMine, Settings.Sound;
      var steps: int := *;
      while steps > 0
        invariant Valid() && Quiet()
        invariant NoneMine(old(w), agent) ==> NoneMine(w, agent)
        invariant forall name, content, since :: Mine(old(w), agent, name, content, since) ==>
            Mine(w, agent, name, content, since)
      {
        steps := steps - 1;
        var l := AnyLabel();
        if Enabled(s, w, l) && !ByAgent(l, agent) {
          OthersKeepMine(s, w, l, agent);
          label before:
          Take(l);
          forall d
            ensures Collected(old(log), old@before(log), d) || Collected(old@before(log), log, d) ==>
                      Collected(old(log), log, d)
          {
            CollectedExtends(old(log), old@before(log), log, d);
          }
        }
      }
    }

    method AnyLabel() returns (l: Label) {
      var kind: int, a: nat, n: nat, text: string, bytes: Bytes, refs: set<string> := *, *, *, *, *, *;
      l := if kind == 0 then Pass(n) else if kind == 1 then Reference(text) else if kind == 2 then CreateTemporary(a, n)
           else if kind == 3 then Write(a, n, bytes) else if kind == 4 then Publish(a, n, text, bytes)
           else if kind == 5 then Discard(a, n) else if kind == 6 then CleanTemporary(n) else if kind == 7
               then StartRun(n)
           else if kind == 8 then ScanDone(n, refs) else if kind == 9 then ReadClock(n) else if kind == 10
               then Consider(n, text)
           else Collect(n, text);
    }

    method Fails() returns (b: bool)
      ensures b ==> faulty
    {
      var chance: bool := *;
      return faulty && chance;
    }

    /** Rereads a stored package before reporting it as already there. */
    method ExistingResult(sha256: string) returns (r: Result<PutResult, PackageError>)
      requires Valid()
      modifies this
      ensures Valid() && Quiet()
      ensures NoneMine(old(w), agent) ==> NoneMine(w, agent)
      ensures forall name, content, since :: Mine(old(w), agent, name, content, since) ==>
          Mine(w, agent, name, content, since)
      ensures r.Ok? ==> r.value.sha256 == sha256 && !r.value.created
      ensures r != Err(HashInvalid)
      ensures !faulty && sha256 in old(w).published && NoCollision(s, sha256) && !Collected(old(log), log, sha256) ==>
          r.Ok?
    {
      hide Enabled, Apply, Invariant, Runs, After, Mine, NoneMine, ParseBody;
      var unreadable := Fails();
      if unreadable || sha256 !in w.published {
        return Err(StorageCorrupt);
      }
      PublishedIsSound(s, w, sha256);
      var content := w.published[sha256].content;
      Interfere();
      var unhashable := Fails();
      if unhashable || sha256 !in w.published || s.Digest(w.published[sha256].content) != sha256 {
        if sha256 in w.published {
          PublishedIsSound(s, w, sha256);
        }
        return Err(StorageCorrupt);
      }
      label hashed:
      Interfere();
      CollectedExtends(old(log), old@hashed(log), log, sha256);
      var unopenable := Fails();
      if unopenable || sha256 !in w.published {
        return Err(StorageFailure);
      }
      PublishedIsSound(s, w, sha256);
      var stream := new Stream(w.published[sha256].content, faulty);
      var _ :- Validate(stream, |content|);
      return Ok(PutResult(sha256, |content|, false));
    }

    /** The body of the streaming loop's `while`, until the input ends; every chunk is hashed and written. */
    method Receive(name: nat, input: Stream, contentLength: int, ghost since: int)
      returns (r: Result<Bytes, PackageError>, ghost written: Bytes)
      requires Valid() && Mine(w, agent, name, [], since) && ValidLength(contentLength)
      requires input.Valid() && input.position == 0
      modifies this, input`position, input`eof
      ensures Valid() && Quiet() && Mine(w, agent, name, written, since)
      ensures r.Ok? ==> r.value == written == input.content && |written| == contentLength
      ensures r != Err(HashInvalid)
      ensures !faulty && !input.faulty && |input.content| > contentLength ==> r == Err(TooLarge)
      ensures !faulty && !input.faulty && |input.content| < contentLength ==> r == Err(LengthMismatch)
      ensures !faulty && !input.faulty && |input.content| == contentLength ==> r.Ok?
    {
      hide Enabled, Apply, Invariant, Runs, After, Settings.Sound, Mine;
      var hashed: Bytes := [];
      var size := 0;
      written := [];
      while !input.eof
        invariant Valid() && Quiet() && Mine(w, agent, name, hashed, since)
        invariant input.Valid()
        invariant written == hashed == input.content[..input.position] && size == |hashed|
        invariant size <= contentLength
        decreases |input.content| - input.position, if input.eof then 0 else 1
      {
        var chunk := input.Read(CHUNK_BYTES);
        if chunk.None? {
          return Err(ReadFailure), written;
        }
        if chunk.value == [] {
          break;
        }
        size := size + |chunk.value|;
        if size > MAX_ARCHIVE_BYTES || size > contentLength {
          return Err(TooLarge), written;
        }
        label received:
        Interfere();
        var failed := Fails();
        if failed {
          return Err(StorageFailure), written;
        }
        WriteChunk(name, hashed, chunk.value, since);
        hashed := hashed + chunk.value;
        written := hashed;
      }
      if size != contentLength {
        return Err(LengthMismatch), written;
      }
      return Ok(hashed), written;
    }

    /** Writes to the open file, which may meanwhile have lost its name. */
    method WriteChunk(name: nat, ghost content: Bytes, chunk: Bytes, ghost since: int)
      requires Valid() && Mine(w, agent, name, content, since)
      modifies this
      ensures Valid() && Quiet() && Mine(w, agent, name, content + chunk, since)
    {
      hide Invariant, Runs, After, Settings.Sound;
      if Owns(w, agent, name) {
        Take(Write(agent, name, chunk));
      }
    }

    /** Checks what was received, and renames it into place if all is well. */
    method CheckAndPublish(sha256: string, name: nat, content: Bytes, contentLength: int, ghost since: int)
      returns (r: Result<PutResult, PackageError>)
      requires Valid() && Mine(w, agent, name, content, since) && ValidDigest(sha256) && ValidLength(contentLength)
          && |content| == contentLength
      modifies this
      ensures Valid() && old(log) <= log && old(w).now <= w.now
      ensures NoneMine(w, agent) || Mine(w, agent, name, content, since)
      ensures Publications(log, agent) ==
                Publications(old(log), agent) + if r.Ok? && r.value.created then [(sha256, content)] else []
      ensures r.Ok? ==> r.value.sha256 == sha256
      ensures r != Err(HashInvalid)
      ensures r.Ok? && r.value.created ==> Storable(s, sha256, contentLength, content) && r.value.size == contentLength
      ensures !faulty && w.now <= since + TEMPORARY_MAX_AGE ==> r == Outcome(s, sha256, contentLength, content)
    {
      hide Apply, Invariant, Runs, After, ParseBody;
      Interfere();
      if s.Digest(content) != sha256 {
        return Err(HashMismatch);
      }
      var unopenable := Fails();
      if unopenable || name !in w.temporaries {
        return Err(StorageFailure);
      }
      var stream := new Stream(w.temporaries[name].content, faulty);
      var validated := Validate(stream, |content|);
      if validated.Err? {
        return Err(validated.error);
      }
      label validated:
      Interfere();
      var unnamed := Fails();
      if unnamed || !Owns(w, agent, name) {
        if sha256 in w.published {
          DiscardOwn(name, content, since);
          r := ExistingResult(sha256);
          return;
        }
        return Err(StorageFailure);
      }
      RenameLeavesNothing(s, w, agent, name, sha256, content, since);
      Take(Publish(agent, name, sha256, content));
      return Ok(PutResult(sha256, |content|, true));
    }

    /** Removes the temporary if it still has its name. */
    method DiscardOwn(name: nat, ghost content: Bytes, ghost since: int)
      requires Valid() && (NoneMine(w, agent) || Mine(w, agent, name, content, since))
      modifies this
      ensures Valid() && Quiet() && NoneMine(w, agent)
    {
      hide Invariant, Runs, After, Settings.Sound;
      Interfere();
      if Owns(w, agent, name) {
        Take(Discard(agent, name));
      }
    }

    /**
     `put`.  Whatever happens meanwhile and wherever it fails, the request leaves no temporary and publishes
     nothing but, on success, exactly its body.  An absent package is stored if and only if its body has the
     declared length and the digest of its name, and is a GBYL archive of at most 10 MiB; a stored one is
     reported as already there, whatever the body.  (Without I/O faults and within a day of the start.)
     */
    method Put(sha256: string, input: Stream, contentLength: int) returns (r: Result<PutResult, PackageError>)
      requires Valid() && NoneMine(w, agent)
      requires input.Valid() && input.position == 0
      modifies this, input`position, input`eof
      ensures Valid() && old(log) <= log && NoneMine(w, agent)
      ensures Publications(log, agent) ==
                Publications(old(log), agent) + if r.Ok? && r.value.created then [(sha256, input.content)] else []
      ensures r.Ok? ==> r.value.sha256 == sha256
      ensures r == Err(HashInvalid) <==> !ValidDigest(sha256)
      ensures ValidDigest(sha256) && !ValidLength(contentLength) ==>
          r == Err(if contentLength < MIN_ARCHIVE_BYTES then FormatInvalid else TooLarge)
      ensures r.Ok? && r.value.created ==>
          Storable(s, sha256, contentLength, input.content) && r.value.size == contentLength
      ensures !faulty && !input.faulty && sha256 !in old(w).published && w.now <= old(w).now + TEMPORARY_MAX_AGE
              && ValidDigest(sha256) && ValidLength(contentLength) ==>
                r == Outcome(s, sha256, contentLength, input.content)
      ensures !faulty && sha256 in old(w).published && NoCollision(s, sha256) && !Collected(old(log), log, sha256) ==>
                (r.Ok? <==> ValidDigest(sha256) && ValidLength(contentLength)) && (r.Ok? ==> !r.value.created)
    {
      hide Enabled, Apply, Invariant, Runs, After, ParseBody, Mine, NoneMine;
      if !ValidDigest(sha256) {
        return Err(HashInvalid);
      }
      if contentLength < MIN_ARCHIVE_BYTES {
        return Err(FormatInvalid);
      }
      if contentLength > MAX_ARCHIVE_BYTES {
        return Err(TooLarge);
      }
      var noDirectory := Fails();
      if noDirectory {
        return Err(StorageFailure);
      }
      if sha256 in w.published {
        r := ExistingResult(sha256);
        return;
      }
      r := Upload(sha256, input, contentLength);
    }

    /** The part of `put` behind the test for an existing package. */
    method Upload(sha256: string, input: Stream, contentLength: int) returns (r: Result<PutResult, PackageError>)
      requires Valid() && NoneMine(w, agent) && ValidDigest(sha256) && ValidLength(contentLength)
      requires input.Valid() && input.position == 0
      modifies this, input`position, input`eof
      ensures Valid() && old(log) <= log && NoneMine(w, agent)
      ensures Publications(log, agent) ==
                Publications(old(log), agent) + if r.Ok? && r.value.created then [(sha256, input.content)] else []
      ensures r.Ok? ==> r.value.sha256 == sha256
      ensures r != Err(HashInvalid)
      ensures r.Ok? && r.value.created ==>
          Storable(s, sha256, contentLength, input.content) && r.value.size == contentLength
      ensures !faulty && !input.faulty && w.now <= old(w).now + TEMPORARY_MAX_AGE ==>
          r == Outcome(s, sha256, contentLength, input.content)
    {
      hide Enabled, Apply, Invariant, Runs, After, ParseBody, Mine, NoneMine;
      ghost var since := w.now;
      Interfere();
      var uncreated := Fails();
      if uncreated {
        return Err(StorageFailure);
      }
      var name := CreateOwn(since);
      var unopened := Fails();
      if unopened {
        DiscardOwn(name, [], since);
        return Err(StorageFailure);
      }
      var received, written := Receive(name, input, contentLength, since);
      if received.Err? {
        DiscardOwn(name, written, since);
        return Err(received.error);
      }
      r := CheckAndPublish(sha256, name, received.value, contentLength, since);
      DiscardOwn(name, received.value, since);
    }

    /** `tempnam`: a name never used before. */
    method CreateOwn(ghost since: int) returns (name: nat)
      requires Valid() && NoneMine(w, agent) && since <= w.now
      modifies this
      ensures Valid() && Quiet() && Mine(w, agent, name, [], since)
    {
      hide Invariant, Runs, After, Settings.Sound;
      name := FreshName(w.names);
      Take(CreateTemporary(agent, name));
    }

    method Find(sha256: string) returns (r: Result<Option<Bytes>, PackageError>)
      requires Valid()
      ensures r.Err? <==> !ValidDigest(sha256)
      ensures r.Ok? && r.value.Some? ==> s.Sound(sha256, r.value.value)
      ensures r.Ok? ==> (r.value.None? <==> sha256 !in w.published)
    {
      hide Enabled, Apply, Runs, After, ParseBody;
      if !ValidDigest(sha256) {
        return Err(HashInvalid);
      }
      if sha256 !in w.published {
        return Ok(None);
      }
      return Ok(Some(w.published[sha256].content));
    }
  }

  function Above(names: set<nat>, bound: nat): set<nat> {
    set n | n in names && n >= bound
  }

  /** Some name that was never used. */
  method FreshName(names: set<nat>) returns (name: nat)
    ensures name !in names
  {
    name := 0;
    while name in names
      decreases Above(names, name)
    {
      assert name in Above(names, name) && name !in Above(names, name + 1);
      assert Above(names, name + 1) <= Above(names, name);
      name := name + 1;
    }
  }

  lemma RenameLeavesNothing(s: Settings, w: World, agent: nat, name: nat, digest: string, content: Bytes, since: int)
    requires Mine(w, agent, name, content, since) && Enabled(s, w, Publish(agent, name, digest, content))
    ensures NoneMine(Apply(s, w, Publish(agent, name, digest, content)), agent)
  {
    hide Settings.Sound;
  }

  /******* The client's archives are storable *******/

  /** Whatever archive the client packs is accepted under its own digest. */
  lemma PackedIsStorable(p: Primitives, s: Settings, items: seq<MediaItem>, letterKey: Bytes, context: Bytes,
          ivs: nat -> Bytes)
    requires p.Lawful() && s.sha256 == p.sha256
    requires Pack(p, items, letterKey, context, ivs).Ok?
    ensures var archive := Pack(p, items, letterKey, context, ivs).value;
            Storable(s, BytesToHex(p.sha256(archive)), |archive|, archive)
  {
    var archive := Pack(p, items, letterKey, context, ivs).value;
    DecryptInvertsPack(p, items, letterKey, context, ivs);
    DigestIsValid(p.sha256(archive));
    hide Pack, BytesToHex, ParseBody, EstimateBytes, DecryptGbyl, Primitives.Lawful;
  }

  lemma {:induction false} DigestIsValid(b: Bytes)
    ensures forall i :: 0 <= i < |BytesToHex(b)| ==> '0' <= BytesToHex(b)[i] <= '9' || 'a' <= BytesToHex(b)[i] <= 'f'
  {
    if b != [] {
      DigestIsValid(b[1..]);
    }
  }
}
