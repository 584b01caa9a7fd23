/** The AOF buffer and the file it is written to. */
module AofFlush {
  import opened Bytes

  datatype Fsync = Always | Everysec | Never

  /** What `flushAppendOnlyFile` does about syncing once everything is written. */
  datatype Sync = NoSync | InForeground | InBackground

  /** The answers of the system to one flush: the pending background fsync, the time, what `write` returns (-1 on
      failure) and whether `ftruncate` succeeds. */
  datatype World = World(syncPending: bool, now: nat, written: int, truncates: bool, childActive: bool)

  class AppendOnlyFile {
    /** The bytes of the file, and those not yet in it. */
    var file: seq<Byte>
    var buf: seq<Byte>
    var currentSize: nat
    var policy: Fsync
    var noFsyncOnRewrite: bool
    var postponedStart: nat
    var lastFsync: nat
    var lastWriteOk: bool

    /** Everything fed since the file was opened, after what was in it. */
    ghost var fed: seq<Byte>

    /** Nothing fed is lost or written twice, and the recorded size is the size. */
    ghost predicate Valid()
      reads this
    {
      file + buf == fed && currentSize == |file|
    }

    constructor (contents: seq<Byte>, policy: Fsync)
      ensures Valid() && fed == contents && buf == [] && this.policy == policy
    {
      file, buf, fed, currentSize := contents, [], contents, |contents|;
      this.policy, noFsyncOnRewrite, postponedStart, lastFsync, lastWriteOk := policy, false, 0, 0, true;
    }

    /** The end of `feedAppendOnlyFile`. */
    method Feed(bytes: seq<Byte>)
      requires Valid()
      modifies this`buf, this`fed
      ensures Valid() && fed == old(fed) + bytes
    {
      buf, fed := buf + bytes, fed + bytes;
    }

    /** `flushAppendOnlyFile`: it exits only under the policy `always`, and otherwise, whatever the write and the
        truncation do, keeps everything fed in the file and the buffer. */
    method FlushAppendOnlyFile(force: bool, w: World) returns (exited: bool, sync: Sync)
      requires Valid() && -1 <= w.written <= |buf|
      modifies this`file, this`buf, this`currentSize, this`postponedStart, this`lastFsync, this`lastWriteOk
      ensures !exited ==> Valid()
      ensures exited <==> policy == Always && old(buf) != [] && w.written < |old(buf)|
      ensures old(buf) == [] ==> unchanged(this)
      ensures old(buf) != [] ==>
        // it waits while a background sync runs, for two seconds at most
        var waits := policy == Everysec && !force && w.syncPending &&
                     (old(postponedStart) == 0 || w.now < old(postponedStart) + 2);
        var left := if w.written == |old(buf)| || (w.written > 0 && !w.truncates) then w.written else 0;
        var syncs := !waits && w.written == |old(buf)| && !(noFsyncOnRewrite && w.childActive) &&
                     (policy == Always || (policy == Everysec && w.now > old(lastFsync)));
        && postponedStart == (if !waits then 0 else if old(postponedStart) == 0 then w.now else old(postponedStart))
        && file == old(file) + (if waits then [] else old(buf)[..left])
        && (!exited ==> buf == if waits then old(buf) else old(buf)[left..])
        && (!exited ==> lastWriteOk == if waits then old(lastWriteOk) else w.written == |old(buf)|)
        && lastFsync == (if syncs then w.now else old(lastFsync))
        && (sync == InForeground <==> syncs && policy == Always)
        && (sync == InBackground <==> syncs && policy == Everysec && !w.syncPending)
      ensures sync != NoSync ==> old(buf) != [] && buf == [] && file == old(file + buf)
    {
      exited, sync := false, NoSync;
      if buf == [] {
        return;
      }
      var syncInProgress := policy == Everysec && w.syncPending;
      if policy == Everysec && !force && syncInProgress {
        if postponedStart == 0 {
          postponedStart := w.now;
          return;
        } else if w.now - postponedStart < 2 {
          return;
        }
      }
      exited := WriteBuffer(w);
      if buf == [] && !exited {
        sync := SyncFile(w);
      }
    }

    /** The write, and what is done about one that is not whole. */
    method WriteBuffer(w: World) returns (exited: bool)
      requires Valid() && buf != [] && -1 <= w.written <= |buf|
      modifies this`file, this`buf, this`currentSize, this`postponedStart, this`lastWriteOk
      ensures exited <==> policy == Always && w.written < |old(buf)|
      ensures var left := if w.written == |old(buf)| || (w.written > 0 && !w.truncates) then w.written else 0;
        && file == old(file) + old(buf)[..left] && postponedStart == 0
        && (!exited ==> Valid() && buf == old(buf)[left..] && (lastWriteOk <==> w.written == |old(buf)|))
      ensures buf == [] <==> w.written == |old(buf)|
    {
      exited := false;
      var nwritten := w.written;
      if nwritten > 0 {
        file := file + buf[..nwritten];
      }
      postponedStart := 0;
      if nwritten != |buf| {
        if nwritten != -1 && w.truncates {
          file := file[..currentSize];
          nwritten := -1;
        }
        if policy == Always {
          exited := true;
          return;
        }
        lastWriteOk := false;
        if nwritten > 0 {
          currentSize := currentSize + nwritten;
          buf := buf[nwritten..];
        }
        return;
      }
      lastWriteOk := true;
      currentSize := currentSize + nwritten;
      buf := [];
    }

    /** The choice of a sync once everything is written. */
    method SyncFile(w: World) returns (sync: Sync)
      modifies this`lastFsync
      ensures sync == InForeground <==> policy == Always && !(noFsyncOnRewrite && w.childActive)
      ensures sync == InBackground <==>
        policy == Everysec && w.now > old(lastFsync) && !w.syncPending && !(noFsyncOnRewrite && w.childActive)
      ensures lastFsync ==
        if !(noFsyncOnRewrite && w.childActive) && (policy == Always || (policy == Everysec && w.now > old(lastFsync)))
        then w.now else old(lastFsync)
    {
      sync := NoSync;
      if noFsyncOnRewrite && w.childActive {
        return;
      }
      if policy == Always {
        lastFsync := w.now;
        sync := InForeground;
      } else if policy == Everysec && w.now > lastFsync {
        sync := if w.syncPending then NoSync else InBackground;
        lastFsync := w.now;
      }
    }
  }

  /** One thing that happens to the file: commands are fed, or the buffer is flushed. */
  datatype Event = Fed(bytes: seq<Byte>) | Flushed(force: bool, world: World)

  /** What `write` can return for a buffer of this size. */
  function Clamp(written: int, size: nat): (r: int)
    ensures -1 <= r <= size
  {
    if written < -1 then -1 else if written > size then size else written
  }

  function AllFed(events: seq<Event>): seq<Byte> {
    if events == [] then []
    else AllFed(events[..|events| - 1]) + (match events[|events| - 1] case Fed(bytes) => bytes case Flushed(_, _) => [])
  }

  /** The times go up. */
  predicate Increasing(times: seq<nat>) { forall a, b :: 0 <= a < b < |times| ==> times[a] < times[b] }

  /** Conservation: after any run of appends and of full, short and failed writes, the file followed by the buffer is
      what was there followed by everything fed, unless the server exited under the policy `always`. Once a second: no
      two background syncs, at the times `syncs`, are made in the same second. */
  method Session(contents: seq<Byte>, policy: Fsync, events: seq<Event>)
      returns (file: seq<Byte>, buf: seq<Byte>, exited: bool, syncs: seq<nat>)
    ensures !exited ==> file + buf == contents + AllFed(events)
    ensures exited ==> policy == Always
    ensures Increasing(syncs) && (policy != Everysec ==> syncs == [])
  {
    var aof := new AppendOnlyFile(contents, policy);
    exited, syncs := false, [];
    var i := 0;
    while i < |events|
      invariant i <= |events| && aof.Valid() && fresh(aof) && aof.policy == policy
      invariant aof.fed == contents + AllFed(events[..i])
      invariant Increasing(syncs) && (forall a :: 0 <= a < |syncs| ==> syncs[a] <= aof.lastFsync)
      invariant policy != Everysec ==> syncs == []
    {
      assert events[..i + 1][..i] == events[..i];
      match events[i] {
        case Fed(bytes) => aof.Feed(bytes);
        case Flushed(force, world) =>
          var sync;
          exited, sync := aof.FlushAppendOnlyFile(force, world.(written := Clamp(world.written, |aof.buf|)));
          if sync == InBackground {
            syncs := syncs + [world.now];
          }
          if exited {
            return aof.file, aof.buf, true, syncs;
          }
      }
      i := i + 1;
    }
    assert events[..|events|] == events;
    return aof.file, aof.buf, false, syncs;
  }
}
