/** What a flush of access times means for the store: it answers no request differently, and is a run of
    single updates. */
module Flushes {
  import Basics
  import opened Store
  import opened Content
  import opened AccessTimes
  import Interleaving
  import Refinement
  import Serial

  /** The tables after the pending times have been written. */
  function Flushed(db: Db, dirty: map<string, int>): Db {
    db.(actions := FlushActions(db.actions, dirty))
  }

  /** The actions stay, with every field but the access time, which is the pending one if there is one. */
  lemma FlushTouchesOnlyTimes(actions: map<string, ActionRow>, dirty: map<string, int>)
    ensures var after := FlushActions(actions, dirty);
            && after.Keys == actions.Keys
            && forall a | a in actions ::
                 && after[a].blobId == actions[a].blobId && after[a].altOutputId == actions[a].altOutputId
                 && after[a].createTime == actions[a].createTime
                 && after[a].accessTime == if a in dirty then dirty[a] else actions[a].accessTime
  {
  }

  /** No GET is answered differently after a flush. */
  lemma FlushChangesNoAnswer(codec: Codec, db: Db, dirty: map<string, int>, actionId: string, acceptsLz4: bool)
    ensures Serial.Get(codec, Flushed(db, dirty), actionId, acceptsLz4) == Serial.Get(codec, db, actionId, acceptsLz4)
  {
    FlushTouchesOnlyTimes(db.actions, dirty);
  }

  /** One UPDATE for each pending action, in some order. */
  ghost function Touches(dirty: map<string, int>): seq<Serial.Op>
    decreases |dirty|
  {
    if dirty == map[] then []
    else
      var a :| a in dirty;
      assert |dirty - {a}| < |dirty| by { assert dirty.Keys == (dirty - {a}).Keys + {a}; }
      Touches(dirty - {a}) + [Serial.Touch(a, dirty[a])]
  }

  lemma OneMoreTouch(db: Db, dirty: map<string, int>, a: string)
    requires a in dirty
    ensures var rest := Flushed(db, dirty - {a});
            Flushed(db, dirty) == if a in rest.actions then SetAccessTime(rest, a, dirty[a]) else rest
  {
    var rest := Flushed(db, dirty - {a});
    if a in rest.actions {
      assert Flushed(db, dirty).actions == SetAccessTime(rest, a, dirty[a]).actions;
    } else {
      assert Flushed(db, dirty).actions == rest.actions;
    }
  }

  /** A flush is a serial run of these updates. */
  lemma {:induction false} FlushIsTouches(codec: Codec, db: Db, dirty: map<string, int>)
    ensures Serial.Run(codec, db, Touches(dirty)) == Flushed(db, dirty)
    decreases |dirty|
  {
    if dirty == map[] {
      assert Flushed(db, dirty).actions == db.actions;
    } else {
      var a :| a in dirty && Touches(dirty) == Touches(dirty - {a}) + [Serial.Touch(a, dirty[a])];
      assert |dirty - {a}| < |dirty| by { assert dirty.Keys == (dirty - {a}).Keys + {a}; }
      FlushIsTouches(codec, db, dirty - {a});
      Serial.RunOneMore(codec, db, Touches(dirty - {a}), Serial.Touch(a, dirty[a]));
      OneMoreTouch(db, dirty, a);
    }
  }

  lemma {:induction false} TouchesAreWellFormed(contents: set<Basics.Bytes>, dirty: map<string, int>)
    ensures forall op | op in Touches(dirty) :: Serial.WellFormed(contents, op)
    decreases |dirty|
  {
    if dirty != map[] {
      var a :| a in dirty && Touches(dirty) == Touches(dirty - {a}) + [Serial.Touch(a, dirty[a])];
      assert |dirty - {a}| < |dirty| by { assert dirty.Keys == (dirty - {a}).Keys + {a}; }
      TouchesAreWellFormed(contents, dirty - {a});
    }
  }

  /** And so, after any serial run, a run of the transition system. */
  lemma FlushIsInterleaving(env: Interleaving.Env, ops: seq<Serial.Op>, dirty: map<string, int>)
    requires forall op | op in ops :: Serial.WellFormed(env.contents, op)
    ensures Interleaving.Run(env, Interleaving.INIT, Refinement.Traces(env.codec, ops + Touches(dirty))).db
         == Flushed(Serial.Run(env.codec, EMPTY_DB, ops), dirty)
  {
    TouchesAreWellFormed(env.contents, dirty);
    Refinement.SerialRunsAreInterleavings(env, ops + Touches(dirty));
    SerialAppend(env.codec, EMPTY_DB, ops, Touches(dirty));
    FlushIsTouches(env.codec, Serial.Run(env.codec, EMPTY_DB, ops), dirty);
  }

  lemma {:induction false} SerialAppend(codec: Codec, db: Db, first: seq<Serial.Op>, second: seq<Serial.Op>)
    ensures Serial.Run(codec, db, first + second) == Serial.Run(codec, Serial.Run(codec, db, first), second)
  {
    if second == [] {
      assert first + second == first;
    } else {
      assert (first + second)[..|first + second| - 1] == first + second[..|second| - 1];
      SerialAppend(codec, db, first, second[..|second| - 1]);
    }
  }
}
