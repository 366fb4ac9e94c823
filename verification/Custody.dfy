/** The sender's uploads and the package store seen together. */
module Custody {
  import opened Wrappers
  import opened ByteCodec
  import opened SendProtocol
  import SendProgress
  import P = PackageProtocol
  import G = GcTheorems

  /** The name under which the store keeps the archive of a draft. */
  function PackageOf(d: Draft): string
    requires d.archiveSha256.Some?
  {
    BytesToHex(d.archiveSha256.value)
  }

  /**
   An upload is not renewed while a draft waits.  Once the stored archive has reached the minimum age, a run of
   the collector deletes it, and the draft can still be submitted: its letter is then on chain, naming an
   archive the store no longer has.
   */
  lemma ArchiveGoneBeforeSubmission(c: Config, w: World, s: P.Settings, p: P.World)
    returns (collection: seq<P.Label>, delivery: seq<Label>)
    requires Invariant(c, w) && InStage(w, WaitingTransaction) && SendProgress.Acceptable(w, w.memory.value)
    requires w.memory.value.archiveSha256.Some?
    requires P.Initial(s, p) && p.references == map[] && PackageOf(w.memory.value) in p.published
    requires p.published[PackageOf(w.memory.value)].mtime + s.minAge <= p.now
    ensures P.Runs(s, p, collection) && PackageOf(w.memory.value) !in P.After(s, p, collection).published
    ensures Runs(c, w, delivery)
    ensures SendProgress.Delivered(c, After(c, w, delivery), w.memory.value.letterId, w.memory.value.archiveSha256,
        |w.transactions|)
  {
    var d, t := w.memory.value, |w.transactions|;
    hide Invariant, SendProgress.Acceptable, SendProgress.Delivered, Runs, After, P.Invariant, P.Runs, P.After;
    SendProgress.WaitingCanBeDelivered(c, w);
    delivery := [Submit, RecordHash(t), Mine(t), SealRecovered(t)];
    collection := G.CollectedUnreferenced(s, p, PackageOf(d));
  }
}
