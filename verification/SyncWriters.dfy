/** The sync writer as the server keeps it: process-wide fields, changed in place by each write and each callback. */
module SyncWriters {
  import opened Base
  import opened RecordSync

  class Scope {
    var lastClientId: nat
    var nextSeq: nat
    var log: seq<Row>
    var writer: Option<Writer>
    var frames: seq<Frame>
    var due: seq<nat>

    constructor ()
      ensures Now() == START
    {
      lastClientId, nextSeq, log, writer, frames, due := 0, 0, [], None, [], [];
    }

    function Now(): State
      reads this
    {
      State(lastClientId, nextSeq, log, writer, frames, due)
    }

    method ServerClientId(draw: nat) returns (id: nat)
      modifies this`lastClientId
      ensures id == lastClientId > old(lastClientId) && id >= draw
      ensures id == old(lastClientId) + 1 || id == draw
    {
      lastClientId := if draw > lastClientId + 1 then draw else lastClientId + 1;
      id := lastClientId;
    }

    /** The scope's writer: kept if confirmed or if its last row is visible here, else destroyed and replaced. */
    method GetWriter(draw: nat) returns (w: Writer)
      modifies this`lastClientId, this`writer
      ensures var (ready, spec) := WriterFor(old(Now()), draw);
        && w.client == spec.client && w.clock == spec.clock && w.lastSeq == spec.lastSeq
        && w.confirmed && writer == Some(w) && lastClientId == ready.lastClientId
    {
      if writer.Some? && !writer.value.confirmed {
        if Holds(log + FrameRows(frames), writer.value.lastSeq) {
          writer := Some(writer.value.(confirmed := true));
        } else {
          writer := None;
        }
      }
      if writer.None? {
        var id := ServerClientId(draw);
        writer := Some(Writer(id, 0, None, true));
      }
      w := writer.value;
    }

    /** One REST write of `fields` values; `taken` says whether the database takes its row. */
    method AppendWrite(fields: nat, draw: nat, taken: bool)
      requires frames != [] && fields > 0
      modifies this
      ensures Now() == Next(old(Now()), Append(fields, draw, taken))
    {
      var w := GetWriter(draw);
      writer := Some(w.(confirmed := false, lastSeq := None));
      var start := writer.value.clock;
      writer := Some(writer.value.(clock := start + fields));
      if taken {
        var no := nextSeq;
        nextSeq := nextSeq + 1;
        var n := |frames| - 1;
        var top := frames[n];
        top := top.(rows := top.rows + [Row(no, w.client, start, fields)]);
        writer := Some(writer.value.(lastSeq := Some(no)));
        top := top.(hooks := top.hooks + [w.client]);
        frames := frames[..n] + [top];
      }
    }

    method TakeLock()
      requires frames == []
      modifies this`frames
      ensures Now() == Next(old(Now()), Begin)
    {
      frames := [Frame([], [])];
    }

    method OpenSavepoint()
      requires frames != []
      modifies this`frames
      ensures Now() == Next(old(Now()), Savepoint)
    {
      frames := frames + [Frame([], [])];
    }

    /** A released savepoint hands its rows and its callbacks to what encloses it. */
    method ReleaseSavepoint()
      requires |frames| > 1
      modifies this`frames
      ensures Now() == Next(old(Now()), Release)
    {
      var n := |frames| - 1;
      var inner := frames[n];
      frames := frames[..n];
      var outer := frames[n - 1];
      frames := frames[..n - 1] + [Frame(outer.rows + inner.rows, outer.hooks + inner.hooks)];
    }

    method RollbackSavepoint()
      requires |frames| > 1
      modifies this`frames
      ensures Now() == Next(old(Now()), RollbackTo)
    {
      frames := frames[..|frames| - 1];
    }

    method CommitTransaction()
      requires |frames| == 1
      modifies this`log, this`due, this`frames
      ensures Now() == Next(old(Now()), Commit)
    {
      log := log + FrameRows(frames);
      due := due + FrameHooks(frames);
      frames := [];
    }

    method RollbackTransaction()
      requires frames != []
      modifies this`frames
      ensures Now() == Next(old(Now()), Rollback)
    {
      frames := [];
    }

    method RunDueCallback()
      requires due != []
      modifies this`due, this`writer
      ensures Now() == Next(old(Now()), RecordSync.RunCallback)
    {
      var client := due[0];
      due := due[1..];
      if writer.Some? && writer.value.client == client {
        writer := Some(writer.value.(confirmed := true));
      }
    }
  }
}
