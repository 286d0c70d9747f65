/** The other half of the round trip under interleaving: exactly when a GET finds what a PUT has stored. */
module Availability {
  import opened Basics
  import opened Content
  import opened Store
  import opened Interleaving
  import Refinement
  import Serial
  import Orphans

  // ---- The file of a content ----

  /** e is a step of some clean that removes the file at this path, if there is one. */
  predicate Removes(s: State, e: Event, path: DiskPath) {
    && (e.CleanRemoveLz4? || e.CleanRemovePlain?)
    && IsRemoving(s, e.t)
    && var th := s.threads[e.t];
       && th.clean.k < |th.ids|
       && (th.clean.lz4Gone <==> e.CleanRemovePlain?)
       && path == if th.clean.lz4Gone then Plain(HashAt(s.db.blobs, th.ids, th.clean.k))
                  else Lz4(HashAt(s.db.blobs, th.ids, th.clean.k))
  }

  /** e is the rename of a PUT of content c. */
  predicate Renames(s: State, e: Event, c: Bytes) {
    e.PutWrite? && PutAt(s, e.t, Received) && s.threads[e.t].u.content == c
  }

  /** What the events say of the file of c: the last rename or removal decides. */
  ghost predicate FileThere(env: Env, s: State, events: seq<Event>, c: Bytes) {
    if events == [] then FileOf(env.codec, c) in s.db.files
    else
      var before, e := events[..|events| - 1], events[|events| - 1];
      var s1 := Run(env, s, before);
      !Removes(s1, e, FileOf(env.codec, c)) && (Renames(s1, e, c) || FileThere(env, s, before, c))
  }

  lemma PutStepsAndFile(env: Env, s: State, e: Event, c: Bytes)
    requires Sound(env.codec, env.contents) && Safe(env, s) && c in env.contents && OnDisk(c)
    ensures FileOf(env.codec, c) in PutNext(env, s, e).db.files <==>
              Renames(s, e, c) || FileOf(env.codec, c) in s.db.files
  {
    if e.PutWrite? && PutAt(s, e.t, Received) {
      assert ThreadOk(env, s, e.t, s.threads[e.t]);
      Serial.PutsKeepFile(env.codec, env.contents, s.db, s.threads[e.t].u.content, c);
    }
  }

  lemma CleanStepsAndFile(env: Env, s: State, e: Event, c: Bytes)
    ensures FileOf(env.codec, c) in CleanNext(s, e).db.files <==>
              !Removes(s, e, FileOf(env.codec, c)) && FileOf(env.codec, c) in s.db.files
  {
  }

  lemma NextFile(env: Env, s: State, e: Event, c: Bytes)
    requires Sound(env.codec, env.contents) && Safe(env, s) && c in env.contents && OnDisk(c)
    ensures FileOf(env.codec, c) in Next(env, s, e).db.files <==>
              !Removes(s, e, FileOf(env.codec, c)) && (Renames(s, e, c) || FileOf(env.codec, c) in s.db.files)
  {
    PutStepsAndFile(env, s, e, c);
    CleanStepsAndFile(env, s, e, c);
    if e.GetBegin? || e.GetQuery? || e.GetOpen? || e.GetError? {
      assert Next(env, s, e).db == s.db;
    }
  }

  /** In every interleaving, from whatever state: the file of a content is there exactly if the events say so. */
  lemma {:induction false} FileIsThere(env: Env, s: State, events: seq<Event>, c: Bytes)
    requires Sound(env.codec, env.contents) && Safe(env, s) && c in env.contents && OnDisk(c)
    ensures FileOf(env.codec, c) in Run(env, s, events).db.files <==> FileThere(env, s, events, c)
  {
    if events != [] {
      FileIsThere(env, s, events[..|events| - 1], c);
      RunKeepsSafe(env, s, events[..|events| - 1]);
      NextFile(env, Run(env, s, events[..|events| - 1]), events[|events| - 1], c);
    }
  }

  // ---- The rows of an upload ----

  /** e is the commit of a clean with this ID on its list. */
  predicate Evicts(s: State, e: Event, id: nat) {
    e.CleanCommit? && IsRemoving(s, e.t) && s.threads[e.t].clean.k == |s.threads[e.t].ids| && id in s.threads[e.t].ids
  }

  ghost predicate Evicted(env: Env, s: State, events: seq<Event>, id: nat) {
    events != []
    && (Evicted(env, s, events[..|events| - 1], id)
        || Evicts(Run(env, s, events[..|events| - 1]), events[|events| - 1], id))
  }

  /** The action row of u and its blob row. */
  predicate HasRows(env: Env, db: Db, u: Upload, id: nat) {
    Serial.HasAction(env.codec, db, u, id) && Serial.HasRow(env.codec, db, id, u.content)
  }

  lemma UpsertKeepsRows(env: Env, db: Db, content: Bytes, newId: nat, u: Upload, id: nat)
    requires BlobsOk(env.codec, env.contents, db) && HasRows(env, db, u, id) && newId >= db.nextBlobId
    ensures HasRows(env, UpsertBlob(env.codec, db, content, newId), u, id)
  {
    assert id < db.nextBlobId;
  }

  lemma OtherPutStepKeepsRows(env: Env, s: State, e: Event, u: Upload, id: nat)
    requires HasRows(env, s.db, u, id) && !e.PutInsertBlob?
    ensures HasRows(env, PutNext(env, s, e).db, u, id)
  {
  }

  lemma PutKeepsRows(env: Env, s: State, e: Event, u: Upload, id: nat)
    requires Safe(env, s) && HasRows(env, s.db, u, id)
    ensures HasRows(env, PutNext(env, s, e).db, u, id)
  {
    if e.PutInsertBlob? {
      if PutAt(s, e.t, Locked) && e.newId >= s.db.nextBlobId {
        UpsertKeepsRows(env, s.db, s.threads[e.t].u.content, e.newId, u, id);
      }
    } else {
      OtherPutStepKeepsRows(env, s, e, u, id);
    }
  }

  lemma CleanKeepsRows(env: Env, s: State, e: Event, u: Upload, id: nat)
    requires HasRows(env, s.db, u, id)
    ensures if Evicts(s, e, id) then id !in CleanNext(s, e).db.blobs else HasRows(env, CleanNext(s, e).db, u, id)
  {
  }

  lemma NextRows(env: Env, s: State, e: Event, u: Upload, id: nat)
    requires Safe(env, s) && HasRows(env, s.db, u, id)
    ensures if Evicts(s, e, id) then id !in Next(env, s, e).db.blobs else HasRows(env, Next(env, s, e).db, u, id)
  {
    PutKeepsRows(env, s, e, u, id);
    CleanKeepsRows(env, s, e, u, id);
    NextIsOneOfThree(env, s, e);
  }

  /** In every interleaving, the rows of an upload last exactly until a commit evicts its blob, and once gone
      they do not come back under that ID. */
  lemma {:induction false} RowsLast(env: Env, s: State, events: seq<Event>, u: Upload, id: nat)
    requires Sound(env.codec, env.contents) && Safe(env, s) && HasRows(env, s.db, u, id)
    ensures HasRows(env, Run(env, s, events).db, u, id) <==> !Evicted(env, s, events, id)
    ensures Evicted(env, s, events, id) ==> id !in Run(env, s, events).db.blobs
  {
    if events != [] {
      var before, e := events[..|events| - 1], events[|events| - 1];
      RowsLast(env, s, before, u, id);
      RunKeepsSafe(env, s, before);
      RunKeepsIds(env, s, before);
      if Evicted(env, s, before, id) {
        NextKeepsIds(env, Run(env, s, before), e);
      } else {
        NextRows(env, Run(env, s, before), e, u, id);
      }
    }
  }

  lemma NextIsOneOfThree(env: Env, s: State, e: Event)
    ensures var s' := Next(env, s, e);
            s' == PutNext(env, s, e) || s' == GetNext(env, s, e) || s' == CleanNext(s, e)
  {
  }

  // ---- The GET ----

  /** The GET has seen the rows of u; it opens the file later, if it comes to that. */
  predicate HasSeen(env: Env, s: State, g: nat, u: Upload, acceptsLz4: bool) {
    && GetAt(s, g) && s.threads[g].acceptsLz4 == acceptsLz4 && s.threads[g].get != Asked
    && (s.threads[g].get.Queried? ==> ViewIs(env.codec, s.threads[g].get.view, u))
  }

  lemma QuerySees(env: Env, s: State, g: nat, u: Upload, id: nat)
    requires GetAt(s, g) && s.threads[g].get == Asked && s.threads[g].actionId == u.actionId
    requires HasRows(env, s.db, u, id)
    ensures HasSeen(env, Next(env, s, GetQuery(g)), g, u, s.threads[g].acceptsLz4)
    ensures Next(env, s, GetQuery(g)).threads[g].get.Queried?
  {
    assert ViewIs(env.codec, Query(s.db, u.actionId).value, u);
  }

  lemma OtherStepsLeaveGet(env: Env, s: State, e: Event, g: nat)
    requires GetAt(s, g) && s.threads[g].get != Asked && e != GetOpen(g) && e != GetError(g)
    ensures GetAt(Next(env, s, e), g) && Next(env, s, e).threads[g] == s.threads[g]
  {
  }

  lemma NextKeepsSeen(env: Env, s: State, e: Event, g: nat, u: Upload, acceptsLz4: bool)
    requires HasSeen(env, s, g, u, acceptsLz4)
    ensures HasSeen(env, Next(env, s, e), g, u, acceptsLz4)
  {
    if e != GetOpen(g) && e != GetError(g) {
      OtherStepsLeaveGet(env, s, e, g);
    }
  }

  lemma {:induction false} RunKeepsSeen(env: Env, s: State, events: seq<Event>, g: nat, u: Upload, acceptsLz4: bool)
    requires HasSeen(env, s, g, u, acceptsLz4)
    ensures HasSeen(env, Run(env, s, events), g, u, acceptsLz4)
  {
    if events != [] {
      RunKeepsSeen(env, s, events[..|events| - 1], g, u, acceptsLz4);
      NextKeepsSeen(env, Run(env, s, events[..|events| - 1]), events[|events| - 1], g, u, acceptsLz4);
    }
  }

  /** Exactly what a GET is answered that has seen the rows of u, by the file at the moment of the open. */
  predicate AnsweredBy(env: Env, u: Upload, fileThere: bool, acceptsLz4: bool, r: Response) {
    if OnDisk(u.content) && (!fileThere || SameLength(env.codec, u.content)) then r == NotFound
    else Faithful(env.codec, u, acceptsLz4, r)
  }

  lemma OpenAnswers(env: Env, s: State, g: nat, u: Upload, acceptsLz4: bool)
    requires Sound(env.codec, env.contents) && FilesOk(env.codec, env.contents, s.db.files)
    requires u.content in env.contents && u.outputId != ""
    requires HasSeen(env, s, g, u, acceptsLz4) && s.threads[g].get.Queried?
    ensures var s' := Next(env, s, GetOpen(g));
            && GetAt(s', g) && s'.threads[g].get.Answered?
            && AnsweredBy(env, u, FileOf(env.codec, u.content) in s.db.files, acceptsLz4, s'.threads[g].get.response)
  {
    var view := s.threads[g].get.view;
    RespondIsFaithful(env.codec, env.contents, u, view, s.db.files, acceptsLz4);
    assert Next(env, s, GetOpen(g)).threads[g].get == Answered(Respond(env.codec, view, s.db.files, acceptsLz4));
  }

  /** The events between the state with the rows and the open. */
  function GetTrace(wait: seq<Event>, g: nat, toOpen: seq<Event>): seq<Event> {
    wait + [GetQuery(g)] + toOpen
  }

  lemma GetTraceRuns(env: Env, s: State, wait: seq<Event>, g: nat, toOpen: seq<Event>)
    ensures Run(env, s, GetTrace(wait, g, toOpen)) == Run(env, Next(env, Run(env, s, wait), GetQuery(g)), toOpen)
  {
    Refinement.RunOneMore(env, s, wait, GetQuery(g));
    Refinement.RunAppend(env, s, wait + [GetQuery(g)], toOpen);
  }

  /** In every interleaving, from any reachable state with the rows of an upload: a GET of its action that
      queries before the blob is evicted and opens at the end of the run is answered "not found" exactly
      if the content has a file and the last rename or removal of it was a removal, or compression keeps its
      length; otherwise it is answered the upload, byte for byte. */
  lemma GetAnswersExactly(env: Env, s: State, u: Upload, id: nat, wait: seq<Event>, g: nat, toOpen: seq<Event>)
    returns (r: Response)
    requires Sound(env.codec, env.contents) && Safe(env, s) && HasRows(env, s.db, u, id)
    requires u.content in env.contents && u.outputId != "" && !Evicted(env, s, wait, id)
    requires var s1 := Run(env, s, wait); var s2 := Run(env, s, GetTrace(wait, g, toOpen));
             && GetAt(s1, g) && s1.threads[g].get == Asked && s1.threads[g].actionId == u.actionId
             && GetAt(s2, g) && s2.threads[g].get.Queried?
    ensures var s2 := Run(env, s, GetTrace(wait, g, toOpen)); var s3 := Next(env, s2, GetOpen(g));
            && GetAt(s3, g) && s3.threads[g].get == Answered(r)
            && AnsweredBy(env, u, FileThere(env, s, GetTrace(wait, g, toOpen), u.content), s2.threads[g].acceptsLz4, r)
  {
    var s1, s2 := Run(env, s, wait), Run(env, s, GetTrace(wait, g, toOpen));
    GetTraceRuns(env, s, wait, g, toOpen);
    RowsLast(env, s, wait, u, id);
    QuerySees(env, s1, g, u, id);
    RunKeepsSeen(env, Next(env, s1, GetQuery(g)), toOpen, g, u, s1.threads[g].acceptsLz4);
    RunKeepsSafe(env, s, GetTrace(wait, g, toOpen));
    OpenAnswers(env, s2, g, u, s1.threads[g].acceptsLz4);
    r := Next(env, s2, GetOpen(g)).threads[g].get.response;
    if OnDisk(u.content) {
      FileIsThere(env, s, GetTrace(wait, g, toOpen), u.content);
    }
  }

  /** The insert of the action makes the rows, since the blob row is there under the same lock. */
  lemma InsertMakesRows(env: Env, s: State, p: nat, now: int)
    requires Safe(env, s) && PutHasRow(s, p) && s.threads[p].u.actionId !in s.db.actions
    ensures HasRows(env, Next(env, s, PutInsertAction(p, now)).db, s.threads[p].u, s.threads[p].put.blobId)
  {
    assert ThreadOk(env, s, p, s.threads[p]);
  }

  /** For a PUT that creates its action row, in a run from the empty store: the list of events decides. */
  lemma PutIsAnsweredExactly(env: Env, before: seq<Event>, p: nat, now: int,
                             wait: seq<Event>, g: nat, toOpen: seq<Event>)
    requires Sound(env.codec, env.contents)
    requires var s := Run(env, INIT, before); var s1 := Next(env, s, PutInsertAction(p, now));
             var s2 := Run(env, s1, wait); var s3 := Run(env, s1, GetTrace(wait, g, toOpen));
             && PutHasRow(s, p) && s.threads[p].u.actionId !in s.db.actions
             && !Evicted(env, s1, wait, s.threads[p].put.blobId)
             && GetAt(s2, g) && s2.threads[g].get == Asked && s2.threads[g].actionId == s.threads[p].u.actionId
             && GetAt(s3, g) && s3.threads[g].get.Queried?
    ensures var u := Run(env, INIT, before).threads[p].u;
            var events := before + [PutInsertAction(p, now)] + GetTrace(wait, g, toOpen);
            var s3 := Run(env, INIT, events); var s4 := Next(env, s3, GetOpen(g));
            && GetAt(s4, g) && s4.threads[g].get.Answered?
            && AnsweredBy(env, u, FileThere(env, INIT, events, u.content), s3.threads[g].acceptsLz4,
                          s4.threads[g].get.response)
  {
    var s := Run(env, INIT, before);
    var u, s1 := s.threads[p].u, Next(env, s, PutInsertAction(p, now));
    var events := before + [PutInsertAction(p, now)] + GetTrace(wait, g, toOpen);
    RunKeepsSafe(env, INIT, before);
    assert u.content in env.contents && u.outputId != "" by { assert ThreadOk(env, s, p, s.threads[p]); }
    InsertMakesRows(env, s, p, now);
    NextKeepsSafe(env, s, PutInsertAction(p, now));
    Refinement.RunOneMore(env, INIT, before, PutInsertAction(p, now));
    Refinement.RunAppend(env, INIT, before + [PutInsertAction(p, now)], GetTrace(wait, g, toOpen));
    var r := GetAnswersExactly(env, s1, u, s.threads[p].put.blobId, wait, g, toOpen);
    SameFileThere(env, s1, INIT, GetTrace(wait, g, toOpen), events, u.content);
  }

  /** Where a run began does not matter for what it says of the file at its end. */
  lemma SameFileThere(env: Env, s: State, s': State, events: seq<Event>, events': seq<Event>, c: Bytes)
    requires Sound(env.codec, env.contents) && Safe(env, s) && Safe(env, s') && c in env.contents
    requires Run(env, s, events) == Run(env, s', events')
    ensures OnDisk(c) ==> (FileThere(env, s, events, c) <==> FileThere(env, s', events', c))
  {
    if OnDisk(c) {
      FileIsThere(env, s, events, c);
      FileIsThere(env, s', events', c);
    }
  }

  // ---- A condition on the cleans alone ----

  /** No clean removes the file at this path during the run. */
  ghost predicate Undisturbed(env: Env, s: State, events: seq<Event>, path: DiskPath) {
    if events == [] then true
    else
      && Undisturbed(env, s, events[..|events| - 1], path)
      && !Removes(Run(env, s, events[..|events| - 1]), events[|events| - 1], path)
  }

  predicate HasFile(env: Env, db: Db, c: Bytes) {
    OnDisk(c) ==> FileOf(env.codec, c) in db.files
  }

  /** No clean under way has passed the ID of content c in its list. */
  ghost predicate Spared(s: State, id: nat, c: Bytes) {
    forall t: nat | IsRemoving(s, t) ::
      var th := s.threads[t];
      && th.clean.k <= |th.ids|
      && id !in th.ids[..th.clean.k]
      && (IsCompressed(c) && th.clean.lz4Gone && th.clean.k < |th.ids| ==> th.ids[th.clean.k] != id)
  }

  /** The action of u with its row and its file. */
  predicate HasAll(env: Env, db: Db, u: Upload, id: nat) {
    HasRows(env, db, u, id) && HasFile(env, db, u.content)
  }

  /** And no clean that is about to take them away. */
  ghost predicate Held(env: Env, s: State, u: Upload, id: nat) {
    HasAll(env, s.db, u, id) && Spared(s, id, u.content)
  }

  lemma FileStays(env: Env, s: State, e: Event, c: Bytes)
    requires HasFile(env, s.db, c) && !Removes(s, e, FileOf(env.codec, c))
    ensures HasFile(env, Next(env, s, e).db, c)
  {
  }

  /** The insert of the action makes it hold, since the write lock keeps every clean out. */
  lemma InsertHolds(env: Env, s: State, p: nat, now: int)
    requires Safe(env, s) && PutHasRow(s, p) && s.threads[p].u.actionId !in s.db.actions
    requires HasFile(env, s.db, s.threads[p].u.content)
    ensures Held(env, Next(env, s, PutInsertAction(p, now)), s.threads[p].u, s.threads[p].put.blobId)
  {
    assert ThreadOk(env, s, p, s.threads[p]);
    Orphans.RemovingHoldsLock(env, s);
  }

  /** Steps that start or advance no clean. */
  lemma SameCleans(s: State, s': State, id: nat, c: Bytes)
    requires Spared(s, id, c)
    requires forall t: nat | IsRemoving(s', t) :: IsRemoving(s, t) && s'.threads[t] == s.threads[t]
    ensures Spared(s', id, c)
  {
  }

  lemma UpsertKeepsAll(env: Env, db: Db, content: Bytes, newId: nat, u: Upload, id: nat)
    requires BlobsOk(env.codec, env.contents, db) && HasAll(env, db, u, id) && newId >= db.nextBlobId
    ensures HasAll(env, UpsertBlob(env.codec, db, content, newId), u, id)
  {
    assert id < db.nextBlobId;
  }

  lemma PutKeepsHeld(env: Env, s: State, e: Event, u: Upload, id: nat)
    requires Safe(env, s) && Held(env, s, u, id)
    ensures Held(env, PutNext(env, s, e), u, id)
  {
    var s' := PutNext(env, s, e);
    if s' != s {
      PutLeavesCleans(env, s, e);
      SameCleans(s, s', id, u.content);
      if e.PutInsertBlob? {
        UpsertKeepsAll(env, s.db, s.threads[e.t].u.content, e.newId, u, id);
      } else {
        PutKeepsAll(env, s, e, u, id);
      }
    }
  }

  lemma PutLeavesCleans(env: Env, s: State, e: Event)
    ensures var s' := PutNext(env, s, e);
            forall t: nat | IsRemoving(s', t) :: IsRemoving(s, t) && s'.threads[t] == s.threads[t]
  {
  }

  lemma PutKeepsAll(env: Env, s: State, e: Event, u: Upload, id: nat)
    requires HasAll(env, s.db, u, id) && !e.PutInsertBlob?
    ensures HasAll(env, PutNext(env, s, e).db, u, id)
  {
  }

  lemma GetKeepsHeld(env: Env, s: State, e: Event, u: Upload, id: nat)
    requires Held(env, s, u, id)
    ensures Held(env, GetNext(env, s, e), u, id)
  {
    var s' := GetNext(env, s, e);
    assert forall t: nat :: IsRemoving(s', t) ==> IsRemoving(s, t) && s'.threads[t] == s.threads[t];
    SameCleans(s, s', id, u.content);
  }

  /** A removal on behalf of the ID would be one of its file. */
  lemma RemovalIsForAnother(env: Env, s: State, e: Event, u: Upload, id: nat)
    requires Held(env, s, u, id) && (e.CleanRemoveLz4? || e.CleanRemovePlain?) && CleanNext(s, e) != s
    requires !Removes(s, e, FileOf(env.codec, u.content))
    ensures var th := s.threads[e.t];
            th.clean.k < |th.ids| && (th.ids[th.clean.k] == id ==> e.CleanRemoveLz4? && !IsCompressed(u.content))
  {
    var th := s.threads[e.t];
    if th.ids[th.clean.k] == id {
      assert HashAt(s.db.blobs, th.ids, th.clean.k) == env.codec.sha256(u.content);
    }
  }

  lemma RemovalKeepsSpared(env: Env, s: State, e: Event, u: Upload, id: nat)
    requires Held(env, s, u, id) && (e.CleanRemoveLz4? || e.CleanRemovePlain?) && CleanNext(s, e) != s
    requires !Removes(s, e, FileOf(env.codec, u.content))
    ensures Spared(CleanNext(s, e), id, u.content)
  {
    var s', th := CleanNext(s, e), s.threads[e.t];
    RemovalIsForAnother(env, s, e, u, id);
    assert th.ids[..th.clean.k + 1] == th.ids[..th.clean.k] + [th.ids[th.clean.k]];
    forall t: nat | IsRemoving(s', t) && t != e.t
      ensures IsRemoving(s, t) && s'.threads[t] == s.threads[t]
    {
    }
  }

  lemma RemovalKeepsHeld(env: Env, s: State, e: Event, u: Upload, id: nat)
    requires Held(env, s, u, id)
    requires (e.CleanRemoveLz4? || e.CleanRemovePlain?) && !Removes(s, e, FileOf(env.codec, u.content))
    ensures Held(env, CleanNext(s, e), u, id)
  {
    if CleanNext(s, e) != s {
      RemovalKeepsSpared(env, s, e, u, id);
      RemovalKeepsAll(env, s, e, u, id);
    }
  }

  lemma RemovalKeepsAll(env: Env, s: State, e: Event, u: Upload, id: nat)
    requires HasAll(env, s.db, u, id)
    requires (e.CleanRemoveLz4? || e.CleanRemovePlain?) && !Removes(s, e, FileOf(env.codec, u.content))
    ensures HasAll(env, CleanNext(s, e).db, u, id)
  {
  }

  lemma CommitKeepsHeld(env: Env, s: State, t: nat, u: Upload, id: nat)
    requires Held(env, s, u, id)
    ensures Held(env, CleanNext(s, CleanCommit(t)), u, id)
  {
    var s' := CleanNext(s, CleanCommit(t));
    if s' != s {
      var ids := s.threads[t].ids;
      assert ids[..|ids|] == ids;
      assert forall t' :: IsRemoving(s', t') ==> IsRemoving(s, t') && s'.threads[t'] == s.threads[t'];
    }
  }

  lemma OtherCleanStepKeepsHeld(env: Env, s: State, e: Event, u: Upload, id: nat)
    requires Held(env, s, u, id)
    requires !e.CleanRemoveLz4? && !e.CleanRemovePlain? && !e.CleanCommit?
    ensures Held(env, CleanNext(s, e), u, id)
  {
    var s' := CleanNext(s, e);
    if e.CleanLock? && s' != s {
      assert s'.threads[e.t].ids[..0] == [];
    }
    assert forall t :: IsRemoving(s', t) && !(e.CleanLock? && e.t == t) ==>
                         IsRemoving(s, t) && s'.threads[t] == s.threads[t];
  }

  lemma CleanKeepsHeld(env: Env, s: State, e: Event, u: Upload, id: nat)
    requires Held(env, s, u, id) && !Removes(s, e, FileOf(env.codec, u.content))
    ensures Held(env, CleanNext(s, e), u, id)
  {
    if e.CleanRemoveLz4? || e.CleanRemovePlain? {
      RemovalKeepsHeld(env, s, e, u, id);
    } else if e.CleanCommit? {
      CommitKeepsHeld(env, s, e.t, u, id);
    } else {
      OtherCleanStepKeepsHeld(env, s, e, u, id);
    }
  }

  lemma NextKeepsHeld(env: Env, s: State, e: Event, u: Upload, id: nat)
    requires Safe(env, s) && Held(env, s, u, id) && !Removes(s, e, FileOf(env.codec, u.content))
    ensures Held(env, Next(env, s, e), u, id)
  {
    PutKeepsHeld(env, s, e, u, id);
    GetKeepsHeld(env, s, e, u, id);
    CleanKeepsHeld(env, s, e, u, id);
    NextIsOneOfThree(env, s, e);
  }

  lemma {:induction false} RunKeepsFile(env: Env, s: State, events: seq<Event>, c: Bytes)
    requires HasFile(env, s.db, c) && Undisturbed(env, s, events, FileOf(env.codec, c))
    ensures HasFile(env, Run(env, s, events).db, c)
  {
    if events != [] {
      RunKeepsFile(env, s, events[..|events| - 1], c);
      FileStays(env, Run(env, s, events[..|events| - 1]), events[|events| - 1], c);
    }
  }

  lemma {:induction false} RunKeepsHeld(env: Env, s: State, events: seq<Event>, u: Upload, id: nat)
    requires Sound(env.codec, env.contents) && Safe(env, s) && Held(env, s, u, id)
    requires Undisturbed(env, s, events, FileOf(env.codec, u.content))
    ensures Held(env, Run(env, s, events), u, id)
  {
    if events != [] {
      RunKeepsHeld(env, s, events[..|events| - 1], u, id);
      RunKeepsSafe(env, s, events[..|events| - 1]);
      NextKeepsHeld(env, Run(env, s, events[..|events| - 1]), events[|events| - 1], u, id);
    }
  }

  lemma {:induction false} UndisturbedPrefix(env: Env, s: State, first: seq<Event>, second: seq<Event>, path: DiskPath)
    requires Undisturbed(env, s, first + second, path)
    ensures Undisturbed(env, s, first, path)
  {
    if second == [] {
      assert first + second == first;
    } else {
      assert (first + second)[..|first + second| - 1] == first + second[..|second| - 1];
      UndisturbedPrefix(env, s, first, second[..|second| - 1], path);
    }
  }

  /** A PUT renames its file, then any steps of any requests, then it creates its action row; later a GET
      of the action queries, and then opens. If meanwhile no clean has removed that one file, the answer is
      the upload, unless compression keeps its length. Evictions of other blobs, rolled-back cleans, other
      PUTs and GETs may all come in between. */
  lemma PutIsAvailable(env: Env, before: seq<Event>, p: nat, mid: seq<Event>, now: int,
                       wait: seq<Event>, g: nat, toOpen: seq<Event>)
    requires Sound(env.codec, env.contents)
    requires PutAt(Run(env, INIT, before), p, Received)
    requires var s1 := Next(env, Run(env, INIT, before), PutWrite(p)); var u := s1.threads[p].u;
             var s2 := Run(env, s1, mid);
             var s3 := Next(env, s2, PutInsertAction(p, now)); var s4 := Run(env, s3, wait);
             var s5 := Run(env, s3, GetTrace(wait, g, toOpen));
             && PutHasRow(s2, p) && s2.threads[p].u == u && u.actionId !in s2.db.actions
             && GetAt(s4, g) && s4.threads[g].get == Asked && s4.threads[g].actionId == u.actionId
             && GetAt(s5, g) && s5.threads[g].get.Queried?
             && Undisturbed(env, s1, mid, FileOf(env.codec, u.content))
             && Undisturbed(env, s3, GetTrace(wait, g, toOpen), FileOf(env.codec, u.content))
    ensures var s1 := Next(env, Run(env, INIT, before), PutWrite(p)); var u := s1.threads[p].u;
            var s5 := Run(env, Next(env, Run(env, s1, mid), PutInsertAction(p, now)), GetTrace(wait, g, toOpen));
            var s6 := Next(env, s5, GetOpen(g));
            && GetAt(s6, g) && s6.threads[g].get.Answered?
            && AnsweredBy(env, u, true, s5.threads[g].acceptsLz4, s6.threads[g].get.response)
  {
    var s0 := Run(env, INIT, before);
    var s1 := Next(env, s0, PutWrite(p));
    var s2 := Run(env, s1, mid);
    RunKeepsSafe(env, INIT, before);
    NextKeepsSafe(env, s0, PutWrite(p));
    RunKeepsSafe(env, s1, mid);
    RunKeepsFile(env, s1, mid, s1.threads[p].u.content);
    InsertedIsAvailable(env, s2, p, now, wait, g, toOpen);
  }

  /** The file of an undisturbed upload is there at the end. */
  lemma FileToTheEnd(env: Env, s: State, u: Upload, id: nat, events: seq<Event>)
    requires Sound(env.codec, env.contents) && Safe(env, s) && Held(env, s, u, id) && u.content in env.contents
    requires Undisturbed(env, s, events, FileOf(env.codec, u.content))
    ensures OnDisk(u.content) ==> FileThere(env, s, events, u.content)
  {
    RunKeepsHeld(env, s, events, u, id);
    if OnDisk(u.content) {
      FileIsThere(env, s, events, u.content);
    }
  }

  /** And its rows are at any moment before. */
  lemma RowsToTheEnd(env: Env, s: State, u: Upload, id: nat, wait: seq<Event>)
    requires Sound(env.codec, env.contents) && Safe(env, s) && Held(env, s, u, id)
    requires Undisturbed(env, s, wait, FileOf(env.codec, u.content))
    ensures !Evicted(env, s, wait, id)
  {
    RunKeepsHeld(env, s, wait, u, id);
    RowsLast(env, s, wait, u, id);
  }

  lemma UndisturbedWait(env: Env, s: State, wait: seq<Event>, g: nat, toOpen: seq<Event>, path: DiskPath)
    requires Undisturbed(env, s, GetTrace(wait, g, toOpen), path)
    ensures Undisturbed(env, s, wait, path)
  {
    assert GetTrace(wait, g, toOpen) == wait + ([GetQuery(g)] + toOpen);
    UndisturbedPrefix(env, s, wait, [GetQuery(g)] + toOpen, path);
  }

  lemma InsertedIsAvailable(env: Env, s: State, p: nat, now: int, wait: seq<Event>, g: nat, toOpen: seq<Event>)
    requires Sound(env.codec, env.contents) && Safe(env, s) && PutHasRow(s, p)
    requires s.threads[p].u.actionId !in s.db.actions && HasFile(env, s.db, s.threads[p].u.content)
    requires var u := s.threads[p].u; var s3 := Next(env, s, PutInsertAction(p, now));
             var s4 := Run(env, s3, wait); var s5 := Run(env, s3, GetTrace(wait, g, toOpen));
             && GetAt(s4, g) && s4.threads[g].get == Asked && s4.threads[g].actionId == u.actionId
             && GetAt(s5, g) && s5.threads[g].get.Queried?
             && Undisturbed(env, s3, GetTrace(wait, g, toOpen), FileOf(env.codec, u.content))
    ensures var s5 := Run(env, Next(env, s, PutInsertAction(p, now)), GetTrace(wait, g, toOpen));
            var s6 := Next(env, s5, GetOpen(g));
            && GetAt(s6, g) && s6.threads[g].get.Answered?
            && AnsweredBy(env, s.threads[p].u, true, s5.threads[g].acceptsLz4, s6.threads[g].get.response)
  {
    var u, id, s3 := s.threads[p].u, s.threads[p].put.blobId, Next(env, s, PutInsertAction(p, now));
    assert u.content in env.contents && u.outputId != "" by { assert ThreadOk(env, s, p, s.threads[p]); }
    InsertHolds(env, s, p, now);
    NextKeepsSafe(env, s, PutInsertAction(p, now));
    UndisturbedIsAnswered(env, s3, u, id, wait, g, toOpen);
  }

  lemma InlineNeedsNoFile(env: Env, u: Upload, fileThere: bool, r: Response)
    requires OnDisk(u.content) ==> fileThere
    ensures forall acceptsLz4 ::
              AnsweredBy(env, u, fileThere, acceptsLz4, r) <==> AnsweredBy(env, u, true, acceptsLz4, r)
  {
  }

  lemma UndisturbedIsAnswered(env: Env, s: State, u: Upload, id: nat, wait: seq<Event>, g: nat, toOpen: seq<Event>)
    requires Sound(env.codec, env.contents) && Safe(env, s) && Held(env, s, u, id)
    requires u.content in env.contents && u.outputId != ""
    requires var s1 := Run(env, s, wait); var s2 := Run(env, s, GetTrace(wait, g, toOpen));
             && GetAt(s1, g) && s1.threads[g].get == Asked && s1.threads[g].actionId == u.actionId
             && GetAt(s2, g) && s2.threads[g].get.Queried?
             && Undisturbed(env, s, GetTrace(wait, g, toOpen), FileOf(env.codec, u.content))
    ensures var s2 := Run(env, s, GetTrace(wait, g, toOpen)); var s3 := Next(env, s2, GetOpen(g));
            && GetAt(s3, g) && s3.threads[g].get.Answered?
            && AnsweredBy(env, u, true, s2.threads[g].acceptsLz4, s3.threads[g].get.response)
  {
    UndisturbedWait(env, s, wait, g, toOpen, FileOf(env.codec, u.content));
    RowsToTheEnd(env, s, u, id, wait);
    FileToTheEnd(env, s, u, id, GetTrace(wait, g, toOpen));
    var r := GetAnswersExactly(env, s, u, id, wait, g, toOpen);
    InlineNeedsNoFile(env, u, FileThere(env, s, GetTrace(wait, g, toOpen), u.content), r);
  }
}
