/** Which files may be on disk: in every interleaving, each belongs to a blob row, to a PUT between
    its rename and its row insert, or to a PUT that failed at that insert. */
module Orphans {
  import opened Basics
  import opened Content
  import opened Store
  import opened Interleaving

  /** Some PUT has renamed its file for this hash and not yet inserted the blob row. */
  ghost predicate InFlight(env: Env, s: State, hash: string) {
    exists t :: t in s.threads && WritesHash(env, s.threads[t], hash)
  }

  predicate WritesHash(env: Env, th: Thread, hash: string) {
    th.Putting? && (th.put == Written || th.put == Locked) && env.codec.sha256(th.u.content) == hash
  }

  ghost predicate Accounted(env: Env, s: State, hash: string) {
    HasBlob(s.db, hash) || InFlight(env, s, hash) || hash in s.h.failed
  }

  ghost predicate GoneUnlessInFlight(env: Env, s: State, path: DiskPath) {
    path !in s.db.files || InFlight(env, s, path.hash)
  }

  /** The progress of a clean: both files of every row already handled are gone. */
  ghost predicate Cleaned(env: Env, s: State, ids: seq<nat>, k: nat, lz4Gone: bool) {
    && k <= |ids|
    && (lz4Gone ==> k < |ids|)
    && (forall i | 0 <= i < k && ids[i] in s.db.blobs ::
          && GoneUnlessInFlight(env, s, Lz4(s.db.blobs[ids[i]].sha256))
          && GoneUnlessInFlight(env, s, Plain(s.db.blobs[ids[i]].sha256)))
    && (lz4Gone && ids[k] in s.db.blobs ==> GoneUnlessInFlight(env, s, Lz4(s.db.blobs[ids[k]].sha256)))
  }

  ghost predicate CleansOk(env: Env, s: State) {
    forall t | IsRemoving(s, t) ::
      && s.lock == Some(t)
      && Cleaned(env, s, s.threads[t].ids, s.threads[t].clean.k, s.threads[t].clean.lz4Gone)
  }

  ghost predicate FilesAccounted(env: Env, s: State) {
    forall p | p in s.db.files :: Accounted(env, s, p.hash)
  }

  // ---- Preservation ----

  lemma RemovingHoldsLock(env: Env, s: State)
    requires ThreadsOk(env, s)
    ensures forall c: nat | IsRemoving(s, c) :: s.lock == Some(c)
  {
    forall c: nat | IsRemoving(s, c)
      ensures s.lock == Some(c)
    {
      assert ThreadOk(env, s, c, s.threads[c]);
    }
  }

  /** The only steps that end the window of a PUT: the insert of the row, or the failure of it. */
  ghost predicate EndsWindow(s: State, t: nat, e: Event) {
    PutAt(s, t, Locked) && (e == PutBlobError(t) || (e.PutInsertBlob? && e.t == t))
  }

  lemma WindowStaysOpen(env: Env, s: State, t: nat, e: Event, hash: string)
    requires t in s.threads && WritesHash(env, s.threads[t], hash) && !EndsWindow(s, t, e)
    ensures InFlight(env, Next(env, s, e), hash)
  {
    var s' := Next(env, s, e);
    assert t in s'.threads && WritesHash(env, s'.threads[t], hash);
  }

  lemma WindowEndsAccounted(env: Env, s: State, t: nat, e: Event, hash: string)
    requires Sound(env.codec, env.contents) && Safe(env, s)
    requires t in s.threads && WritesHash(env, s.threads[t], hash) && EndsWindow(s, t, e)
    ensures Accounted(env, Next(env, s, e), hash)
  {
    if e.PutInsertBlob? && e.newId >= s.db.nextBlobId {
      var s' := Next(env, s, e);
      assert ThreadOk(env, s, t, s.threads[t]);
      UpsertBlobRow(env.codec, env.contents, s.db, s.threads[t].u.content, e.newId);
      assert HasBlob(s'.db, hash);
    } else if e.PutInsertBlob? {
      assert t in s.threads && WritesHash(env, s.threads[t], hash);
    }
  }

  /** While a clean holds the lock, no PUT can end its window. */
  lemma NoWindowEndsUnderClean(env: Env, s: State, t: nat, e: Event)
    requires Safe(env, s) && EndsWindow(s, t, e) && t in s.threads
    ensures forall c: nat :: !IsRemoving(s, c)
  {
    assert ThreadOk(env, s, t, s.threads[t]);
    RemovingHoldsLock(env, s);
  }

  /** A PUT leaves the window only by inserting its row or by failing at it, and not while a clean
      holds the write lock. */
  lemma InFlightAfter(env: Env, s: State, e: Event, hash: string)
    requires Sound(env.codec, env.contents) && Safe(env, s) && InFlight(env, s, hash)
    ensures Accounted(env, Next(env, s, e), hash)
    ensures (exists c: nat :: IsRemoving(s, c)) ==> InFlight(env, Next(env, s, e), hash)
  {
    var t :| t in s.threads && WritesHash(env, s.threads[t], hash);
    if EndsWindow(s, t, e) {
      WindowEndsAccounted(env, s, t, e, hash);
      NoWindowEndsUnderClean(env, s, t, e);
    } else {
      WindowStaysOpen(env, s, t, e, hash);
    }
  }

  ghost predicate FilesInv(env: Env, s: State) {
    FilesAccounted(env, s) && CleansOk(env, s)
  }

  /** Steps other than PutWrite add no file. */
  lemma NoNewFile(env: Env, s: State, e: Event)
    requires !e.PutWrite?
    ensures Next(env, s, e).db.files.Keys <= s.db.files.Keys
  {
  }

  /** Steps other than CleanCommit remove or change no blob row. */
  lemma RowsStay(env: Env, s: State, e: Event)
    requires BlobsOk(env.codec, env.contents, s.db) && !e.CleanCommit?
    ensures forall id | id in s.db.blobs ::
              id in Next(env, s, e).db.blobs && Next(env, s, e).db.blobs[id] == s.db.blobs[id]
  {
  }

  lemma FailedStays(env: Env, s: State, e: Event)
    ensures s.h.failed <= Next(env, s, e).h.failed
  {
  }

  lemma AccountedAfter(env: Env, s: State, e: Event, hash: string)
    requires Sound(env.codec, env.contents) && Safe(env, s) && Accounted(env, s, hash) && !e.CleanCommit?
    ensures Accounted(env, Next(env, s, e), hash)
  {
    RowsStay(env, s, e);
    FailedStays(env, s, e);
    if HasBlob(s.db, hash) {
      var id :| id in s.db.blobs && s.db.blobs[id].sha256 == hash;
      assert id in Next(env, s, e).db.blobs;
    } else if InFlight(env, s, hash) {
      InFlightAfter(env, s, e, hash);
    }
  }

  lemma NextKeepsAccounted(env: Env, s: State, e: Event)
    requires Sound(env.codec, env.contents) && Safe(env, s) && FilesInv(env, s) && !e.CleanCommit?
    ensures FilesAccounted(env, Next(env, s, e))
  {
    var s' := Next(env, s, e);
    if !e.PutWrite? {
      NoNewFile(env, s, e);
    }
    forall p | p in s'.db.files
      ensures Accounted(env, s', p.hash)
    {
      if p in s.db.files {
        AccountedAfter(env, s, e, p.hash);
      } else {
        assert e.PutWrite? && p == FileOf(env.codec, s.threads[e.t].u.content);
        assert WritesHash(env, s'.threads[e.t], p.hash);
      }
    }
  }

  lemma HandledFilesAreGone(env: Env, s: State, t: nat)
    requires CleansOk(env, s) && IsRemoving(s, t)
    ensures s.threads[t].clean.k <= |s.threads[t].ids|
    ensures forall id | id in s.threads[t].ids[..s.threads[t].clean.k] && id in s.db.blobs ::
              && GoneUnlessInFlight(env, s, Lz4(s.db.blobs[id].sha256))
              && GoneUnlessInFlight(env, s, Plain(s.db.blobs[id].sha256))
  {
  }

  /** The commit: rows go, and of each such row every file that is left belongs to a PUT in flight. */
  lemma CommitKeepsAccounted(env: Env, s: State, t: nat)
    requires Sound(env.codec, env.contents) && Safe(env, s) && FilesInv(env, s)
    ensures FilesAccounted(env, Next(env, s, CleanCommit(t)))
  {
    var s' := Next(env, s, CleanCommit(t));
    if IsRemoving(s, t) && s.threads[t].clean.k == |s.threads[t].ids| {
      var ids := s.threads[t].ids;
      forall p | p in s'.db.files
        ensures Accounted(env, s', p.hash)
      {
        assert Accounted(env, s, p.hash);
        if InFlight(env, s, p.hash) {
          InFlightAfter(env, s, CleanCommit(t), p.hash);
        } else if HasBlob(s.db, p.hash) {
          var id :| id in s.db.blobs && s.db.blobs[id].sha256 == p.hash;
          HandledFilesAreGone(env, s, t);
          assert p == Lz4(p.hash) || p == Plain(p.hash);
          assert id !in ids[..|ids|];
          assert id in s'.db.blobs;
        }
      }
    }
  }

  lemma StillGone(env: Env, s: State, e: Event, path: DiskPath)
    requires Sound(env.codec, env.contents) && Safe(env, s) && GoneUnlessInFlight(env, s, path)
    requires exists c: nat :: IsRemoving(s, c)
    ensures GoneUnlessInFlight(env, Next(env, s, e), path)
  {
    var s' := Next(env, s, e);
    if InFlight(env, s, path.hash) {
      InFlightAfter(env, s, e, path.hash);
    } else if path in s'.db.files {
      if !e.PutWrite? {
        NoNewFile(env, s, e);
      }
      assert WritesHash(env, s'.threads[e.t], path.hash);
    }
  }

  /** While a clean holds the lock, nobody else changes a blob row or the clean's progress. */
  lemma LockedCleanKeepsRows(env: Env, s: State, e: Event, t: nat)
    requires Safe(env, s) && IsRemoving(s, t)
    requires e.FlushAccessTime? || e.t != t || e.CleanRemoveLz4? || e.CleanRemovePlain?
    ensures var s' := Next(env, s, e);
            && s.lock == Some(t) == s'.lock && s'.db.blobs == s.db.blobs && t in s'.threads
            && (e.FlushAccessTime? || e.t != t ==> s'.threads[t] == s.threads[t])
  {
    assert ThreadOk(env, s, t, s.threads[t]);
    if !e.FlushAccessTime? && Next(env, s, e) != s {
      NextIsStepOf(env, s, e);
    }
  }

  /** Whatever a clean has removed stays removed while it holds the lock. */
  lemma GoneStaysGone(env: Env, s: State, e: Event, t: nat, ids: seq<nat>, k: nat, lz4Gone: bool)
    requires Sound(env.codec, env.contents) && Safe(env, s) && IsRemoving(s, t)
    requires Cleaned(env, s, ids, k, lz4Gone) && Next(env, s, e).db.blobs == s.db.blobs
    ensures Cleaned(env, Next(env, s, e), ids, k, lz4Gone)
  {
    forall i | 0 <= i < |ids| && ids[i] in s.db.blobs
      ensures var h := s.db.blobs[ids[i]].sha256; var s' := Next(env, s, e);
              && (GoneUnlessInFlight(env, s, Lz4(h)) ==> GoneUnlessInFlight(env, s', Lz4(h)))
              && (GoneUnlessInFlight(env, s, Plain(h)) ==> GoneUnlessInFlight(env, s', Plain(h)))
    {
      var h := s.db.blobs[ids[i]].sha256;
      if GoneUnlessInFlight(env, s, Lz4(h)) {
        StillGone(env, s, e, Lz4(h));
      }
      if GoneUnlessInFlight(env, s, Plain(h)) {
        StillGone(env, s, e, Plain(h));
      }
    }
  }

  /** The row of an ID is as gone after its removal step as if no earlier ID had named it. */
  lemma RemovedPathIsGone(env: Env, s: State, ids: seq<nat>, k: nat, lz4Gone: bool)
    requires k < |ids| && ids[k] in s.db.blobs && Cleaned(env, s, ids, k, lz4Gone)
    ensures GoneUnlessInFlight(env, s, Lz4(s.db.blobs[ids[k]].sha256))
            || HashAt(s.db.blobs, ids, k) == s.db.blobs[ids[k]].sha256
    ensures GoneUnlessInFlight(env, s, Plain(s.db.blobs[ids[k]].sha256))
            || HashAt(s.db.blobs, ids, k) == s.db.blobs[ids[k]].sha256
  {
    if ids[k] in ids[..k] {
      var i :| 0 <= i < k && ids[i] == ids[k];
    }
  }

  lemma RemoveLz4Achieves(env: Env, s: State, t: nat)
    requires Sound(env.codec, env.contents) && Safe(env, s) && FilesInv(env, s) && IsRemoving(s, t)
    ensures var s' := Next(env, s, CleanRemoveLz4(t));
            && IsRemoving(s', t)
            && Cleaned(env, s', s'.threads[t].ids, s'.threads[t].clean.k, s'.threads[t].clean.lz4Gone)
  {
    var e := CleanRemoveLz4(t);
    var s' := Next(env, s, e);
    var ids, k, g := s.threads[t].ids, s.threads[t].clean.k, s.threads[t].clean.lz4Gone;
    LockedCleanKeepsRows(env, s, e, t);
    GoneStaysGone(env, s, e, t, ids, k, g);
    if s' != s && ids[k] in s.db.blobs {
      var path := Lz4(s.db.blobs[ids[k]].sha256);
      RemovedPathIsGone(env, s, ids, k, g);
      if GoneUnlessInFlight(env, s, path) {
        StillGone(env, s, e, path);
      }
    }
  }

  lemma CleanedOneMore(env: Env, s: State, ids: seq<nat>, k: nat)
    requires Cleaned(env, s, ids, k, true)
    requires ids[k] in s.db.blobs ==> GoneUnlessInFlight(env, s, Plain(s.db.blobs[ids[k]].sha256))
    ensures Cleaned(env, s, ids, k + 1, false)
  {
  }

  lemma RemovePlainAchieves(env: Env, s: State, t: nat)
    requires Sound(env.codec, env.contents) && Safe(env, s) && FilesInv(env, s) && IsRemoving(s, t)
    ensures var s' := Next(env, s, CleanRemovePlain(t));
            && IsRemoving(s', t)
            && Cleaned(env, s', s'.threads[t].ids, s'.threads[t].clean.k, s'.threads[t].clean.lz4Gone)
  {
    var e := CleanRemovePlain(t);
    var s' := Next(env, s, e);
    var ids, k, g := s.threads[t].ids, s.threads[t].clean.k, s.threads[t].clean.lz4Gone;
    LockedCleanKeepsRows(env, s, e, t);
    GoneStaysGone(env, s, e, t, ids, k, g);
    if k < |ids| && g {
      if ids[k] in s.db.blobs {
        PlainIsGone(env, s, t);
      }
      CleanedOneMore(env, s', ids, k);
    }
  }

  lemma RemovesThePlain(env: Env, s: State, t: nat)
    requires IsRemoving(s, t) && s.threads[t].clean.k < |s.threads[t].ids| && s.threads[t].clean.lz4Gone
    ensures Plain(HashAt(s.db.blobs, s.threads[t].ids, s.threads[t].clean.k))
              !in Next(env, s, CleanRemovePlain(t)).db.files
  {
  }

  lemma PlainIsGone(env: Env, s: State, t: nat)
    requires Sound(env.codec, env.contents) && Safe(env, s) && FilesInv(env, s) && IsRemoving(s, t)
    requires s.threads[t].clean.k < |s.threads[t].ids| && s.threads[t].clean.lz4Gone
    requires s.threads[t].ids[s.threads[t].clean.k] in s.db.blobs
    ensures var id := s.threads[t].ids[s.threads[t].clean.k];
            GoneUnlessInFlight(env, Next(env, s, CleanRemovePlain(t)), Plain(s.db.blobs[id].sha256))
  {
    var ids, k := s.threads[t].ids, s.threads[t].clean.k;
    var path := Plain(s.db.blobs[ids[k]].sha256);
    RemovedPathIsGone(env, s, ids, k, true);
    if GoneUnlessInFlight(env, s, path) {
      StillGone(env, s, CleanRemovePlain(t), path);
    } else {
      RemovesThePlain(env, s, t);
    }
  }

  lemma NextKeepsCleans(env: Env, s: State, e: Event)
    requires Sound(env.codec, env.contents) && Safe(env, s) && FilesInv(env, s)
    ensures CleansOk(env, Next(env, s, e))
  {
    var s' := Next(env, s, e);
    forall t: nat | IsRemoving(s', t)
      ensures s'.lock == Some(t)
      ensures Cleaned(env, s', s'.threads[t].ids, s'.threads[t].clean.k, s'.threads[t].clean.lz4Gone)
    {
      NextKeepsSafe(env, s, e);
      assert ThreadOk(env, s', t, s'.threads[t]);
      if IsRemoving(s, t) {
        if e == CleanRemoveLz4(t) {
          RemoveLz4Achieves(env, s, t);
        } else if e == CleanRemovePlain(t) {
          RemovePlainAchieves(env, s, t);
        } else if !e.FlushAccessTime? && e.t == t {
          OwnStepsOfClean(env, s, e, t);
        } else {
          LockedCleanKeepsRows(env, s, e, t);
          GoneStaysGone(env, s, e, t, s.threads[t].ids, s.threads[t].clean.k, s.threads[t].clean.lz4Gone);
        }
      } else {
        CleanStartsWithNothing(env, s, e, t);
      }
    }
  }

  lemma OwnStepsOfClean(env: Env, s: State, e: Event, t: nat)
    requires IsRemoving(s, t) && IsRemoving(Next(env, s, e), t)
    requires e != CleanRemoveLz4(t) && e != CleanRemovePlain(t) && !e.FlushAccessTime? && e.t == t
    ensures Next(env, s, e) == s
  {
  }

  lemma CleanStartsWithNothing(env: Env, s: State, e: Event, t: nat)
    requires !IsRemoving(s, t) && IsRemoving(Next(env, s, e), t)
    ensures Next(env, s, e).threads[t].clean == Removing(0, false, 0)
  {
  }

  // ---- Over whole runs ----

  lemma {:induction false} RunKeepsFilesInv(env: Env, events: seq<Event>)
    requires Sound(env.codec, env.contents)
    ensures FilesInv(env, Run(env, INIT, events))
  {
    if events != [] {
      var before, e := events[..|events| - 1], events[|events| - 1];
      var s := Run(env, INIT, before);
      RunKeepsFilesInv(env, before);
      RunKeepsSafe(env, INIT, before);
      NextKeepsCleans(env, s, e);
      if e.CleanCommit? {
        CommitKeepsAccounted(env, s, e.t);
      } else {
        NextKeepsAccounted(env, s, e);
      }
    }
  }

  /** In every interleaving, every content-addressed file belongs to a blob row or to a PUT in flight
      between rename and row insert, unless a PUT of that hash has failed at the insert. */
  lemma NoOrphanFiles(env: Env, events: seq<Event>, path: DiskPath)
    requires Sound(env.codec, env.contents)
    ensures var s := Run(env, INIT, events);
            path in s.db.files ==> HasBlob(s.db, path.hash) || InFlight(env, s, path.hash) || path.hash in s.h.failed
  {
    RunKeepsFilesInv(env, events);
  }

  lemma CommitIsOfHandled(env: Env, s: State, t: nat, id: nat)
    requires id in s.db.blobs && id !in Next(env, s, CleanCommit(t)).db.blobs
    ensures IsRemoving(s, t) && s.threads[t].clean.k == |s.threads[t].ids| && id in s.threads[t].ids
    ensures Next(env, s, CleanCommit(t)).db.files == s.db.files
  {
    assert Next(env, s, CleanCommit(t)) == CleanNext(s, CleanCommit(t));
  }

  lemma CommitLeavesNoFile(env: Env, s: State, t: nat, id: nat)
    requires Sound(env.codec, env.contents) && Safe(env, s) && CleansOk(env, s)
    requires id in s.db.blobs && id !in Next(env, s, CleanCommit(t)).db.blobs
    ensures var hash := s.db.blobs[id].sha256; var s' := Next(env, s, CleanCommit(t));
            (Lz4(hash) !in s'.db.files && Plain(hash) !in s'.db.files) || InFlight(env, s', hash)
  {
    var hash := s.db.blobs[id].sha256;
    CommitIsOfHandled(env, s, t, id);
    HandledFilesAreGone(env, s, t);
    assert s.threads[t].ids[..|s.threads[t].ids|] == s.threads[t].ids;
    if InFlight(env, s, hash) {
      InFlightAfter(env, s, CleanCommit(t), hash);
    }
  }

  /** In every interleaving, a clean that commits leaves, of each blob it evicts, neither the plain nor
      the lz4 file, unless a PUT of the same content is in flight and has recreated it. */
  lemma EvictionLeavesNoFile(env: Env, events: seq<Event>, t: nat, id: nat)
    requires Sound(env.codec, env.contents)
    requires var s := Run(env, INIT, events);
             id in s.db.blobs && id !in Next(env, s, CleanCommit(t)).db.blobs
    ensures var s := Run(env, INIT, events); var s' := Next(env, s, CleanCommit(t));
            var hash := s.db.blobs[id].sha256;
            (Lz4(hash) !in s'.db.files && Plain(hash) !in s'.db.files) || InFlight(env, s', hash)
  {
    RunKeepsFilesInv(env, events);
    RunKeepsSafe(env, INIT, events);
    CommitLeavesNoFile(env, Run(env, INIT, events), t, id);
  }
}
