/**
 * The output writer's skip-if-unchanged logic (`outputwriter.rs`): which writes are skipped, what
 * the file then holds, and what the stamps say of it. An output's key stands for its path; the hash
 * is taken to be injective.
 */
module OutputWriter {

  import opened Common
  import opened Stamps

  /** A write to a regular file: same inode, both times at the current tick. */
  function WrittenFile(disk: Disk, path: string, contents: string, ino: nat, dev: nat): File {
    if path in disk.files then disk.files[path].(content := contents, mtime := disk.clock, ctime := disk.clock)
    else File(contents, disk.clock, disk.clock, ino, dev)
  }

  ghost predicate Injective(hash: string -> string) {
    forall a, b | hash(a) == hash(b) :: a == b
  }

  /** Every stamp that matches its file was recorded for the file's content. */
  ghost predicate LoadedTrue(loaded: map<string, Entry>, disk: Disk, hash: string -> string) {
    forall path | path in loaded && Stamped(disk, path, loaded[path].stamp) ::
      hash(disk.files[path].content) == loaded[path].hash
  }

  /** The entry was observed by `p`, and the file not changed since within the tick of its stamp. */
  ghost predicate ObservedBy(disks: seq<Disk>, changes: seq<Change>, p: nat, path: string, entry: Entry, hash: string -> string)
    requires |disks| == |changes| + 1 && p <= |changes|
  {
    exists i | 0 <= i <= p ::
      True(disks[i], path, entry, hash) && UntouchedAt(disks, changes, i, p, path, entry.stamp.ctime)
  }

  /** So the stamps one build persisted at `p` are true of the disk another build loads them on, at `j`. */
  lemma PersistedLoadsTrue(disks: seq<Disk>, changes: seq<Change>, p: nat, j: nat, observed: map<string, Entry>,
                           outputs: map<string, string>, hash: string -> string)
    requires History(disks, changes) && p <= j < |disks|
    requires forall path | path in Kept(observed, outputs) :: ObservedBy(disks, changes, p, path, observed[path], hash)
    ensures LoadedTrue(Settled(Kept(observed, outputs), disks[p].clock), disks[j], hash)
  {
    var loaded := Settled(Kept(observed, outputs), disks[p].clock);
    forall path | path in loaded && Stamped(disks[j], path, loaded[path].stamp)
      ensures hash(disks[j].files[path].content) == loaded[path].hash
    {
      var i :| 0 <= i <= p && True(disks[i], path, observed[path], hash) &&
               UntouchedAt(disks, changes, i, p, path, observed[path].stamp.ctime);
      HoldsMeansHash(disks, changes, i, p, j, path, path, observed, outputs, hash);
    }
  }

  /** The stamps file after a build: the old one if that already says what the build observed, else a new one. */
  predicate Follows(before: Option<StampsFile>, after: Option<StampsFile>, observed: map<string, Entry>,
                    outputs: map<string, string>, clock: int) {
    if Kept(observed, outputs) == Trusted(before) then after == before
    else after.Some? && after.value.written == clock && LinesOf(after.value.lines, Kept(observed, outputs))
  }

  /** The recorded outputs outside `left` whose files hold what they did. */
  function StillHeld(recorded: map<string, string>, left: set<string>, disk: Disk, hash: string -> string): map<string, string> {
    map path | path in recorded && path !in left && path in disk.files &&
               hash(disk.files[path].content) == recorded[path] :: recorded[path]
  }

  lemma StillHeldNext(recorded: map<string, string>, left: set<string>, path: string, disk: Disk, hash: string -> string)
    requires path in left && left <= recorded.Keys
    ensures var before := StillHeld(recorded, left, disk, hash);
            path !in before &&
            StillHeld(recorded, left - {path}, disk, hash) ==
            if path in disk.files && hash(disk.files[path].content) == recorded[path] then before[path := recorded[path]]
            else before
  {
  }

  class Writer {
    const hash: string -> string
    const stamps: OutputStamps
    var previous: map<string, string>
    var current: map<string, string>
    var hashSkips: nat
    var disk: Disk
    /** The paths this session wrote to. */
    ghost var rewritten: set<string>

    /**
     * Validated hashes hold of exactly the files this session did not write, and observed stamps of
     * all files.
     */
    ghost predicate Valid()
      reads this, stamps
    {
      Injective(hash) && Sane(disk) &&
      (forall path | path in previous ::
         path in disk.files && (hash(disk.files[path].content) == previous[path] <==> path !in rewritten)) &&
      (forall path | path in stamps.observed :: True(disk, path, stamps.observed[path], hash))
    }

    constructor (digest: string -> string, cache: OutputStamps, state: Disk)
      requires Injective(digest) && Sane(state) && cache.observed == map[]
      ensures Valid() && disk == state && hash == digest && stamps == cache
      ensures previous == map[] && current == map[] && rewritten == {}
    {
      hash, stamps, disk, rewritten := digest, cache, state, {};
      previous, current, hashSkips := map[], map[], 0;
    }

    /** The file still holds the recorded output; a stamp that matches spares reading it. */
    method Validate(path: string, recorded: string) returns (valid: bool, read: bool)
      requires Valid() && LoadedTrue(stamps.loaded, disk, hash)
      modifies stamps
      ensures Valid()
      ensures valid == (path in disk.files && hash(disk.files[path].content) == recorded)
      ensures read <==> path in disk.files &&
                        !(path in stamps.loaded && stamps.loaded[path].hash == recorded &&
                          stamps.loaded[path].stamp == StampOf(disk.files[path]))
      ensures stamps.observed.Keys == old(stamps.observed).Keys + if valid then {path} else {}
    {
      if path !in disk.files {
        return false, false;
      }
      var stamp := StampOf(disk.files[path]);
      assert Stamped(disk, path, stamp);
      valid, read := stamps.Holds(path, stamp, recorded), false;
      if !valid {
        valid, read := hash(disk.files[path].content) == recorded, true;
      }
      if valid {
        stamps.Observe(path, stamp, recorded);
      }
    }

    /** Validates one recorded output into `previous`. */
    method ValidateInto(path: string, recorded: string)
      requires Valid() && LoadedTrue(stamps.loaded, disk, hash) && rewritten == {}
      requires path !in previous && stamps.observed.Keys == previous.Keys
      modifies `previous, stamps
      ensures Valid() && stamps.observed.Keys == previous.Keys
      ensures previous == if path in disk.files && hash(disk.files[path].content) == recorded then
                            old(previous)[path := recorded] else old(previous)
    {
      var valid, read := Validate(path, recorded);
      if valid {
        previous := previous[path := recorded];
      }
    }

    /** `use_hashes`: keeps the recorded outputs whose files still hold them. */
    method UseHashes(recorded: map<string, string>, start: map<string, string>)
      requires Valid() && LoadedTrue(stamps.loaded, disk, hash) && rewritten == {}
      requires previous == map[] && stamps.observed == map[]
      modifies `previous, `current, stamps
      ensures Valid() && current == start
      ensures previous == StillHeld(recorded, {}, disk, hash) && stamps.observed.Keys == previous.Keys
    {
      current := start;
      var left := recorded.Keys;
      assert previous == StillHeld(recorded, left, disk, hash);
      while left != {}
        invariant left <= recorded.Keys && Valid() && current == start && stamps.observed.Keys == previous.Keys
        invariant previous == StillHeld(recorded, left, disk, hash)
      {
        var path :| path in left;
        StillHeldNext(recorded, left, path, disk, hash);
        ValidateInto(path, recorded[path]);
        left := left - {path};
      }
    }

    /** `observe_written` */
    method ObserveWritten(path: string, digest: string)
      requires path in disk.files
      modifies stamps
      ensures stamps.observed == old(stamps.observed)[path := Entry(StampOf(disk.files[path]), digest)]
    {
      stamps.Observe(path, StampOf(disk.files[path]), digest);
    }

    /** Writes the file and records its stamp. */
    method Replace(path: string, contents: string, ino: nat, dev: nat)
      requires Valid() && (path in previous ==> previous[path] != hash(contents))
      modifies `disk, `rewritten, stamps
      ensures Valid() && rewritten == old(rewritten) + {path}
      ensures disk == Changed(old(disk), Put(path, WrittenFile(old(disk), path, contents, ino, dev)))
      ensures stamps.observed == old(stamps.observed)[path := Entry(StampOf(disk.files[path]), hash(contents))]
    {
      disk := disk.(files := disk.files[path := WrittenFile(disk, path, contents, ino, dev)]);
      rewritten := rewritten + {path};
      ObserveWritten(path, hash(contents));
    }

    /** Time passes. */
    method Wait(to: int)
      requires Valid() && to >= disk.clock
      modifies `disk
      ensures Valid() && disk == Changed(old(disk), Tick(to))
    {
      disk := disk.(clock := to);
    }

    /** The validated hash of the file is the contents'. */
    predicate SkipsByHash(path: string, contents: string)
      reads this
    {
      path in previous && previous[path] == hash(contents) && path in disk.files
    }

    /**
     * `write`: leaves `contents` in the file, except when this session wrote the file and now goes
     * back to the contents validated before: that is skipped, and loses.
     */
    method Write(path: string, contents: string, ino: nat, dev: nat) returns (wrote: bool)
      requires Valid()
      modifies this, stamps
      ensures Valid() && current == old(current)[path := hash(contents)] && previous == old(previous)
      ensures wrote == !(old(SkipsByHash(path, contents)) ||
                         (path in old(disk).files && old(disk).files[path].content == contents))
      ensures disk == if wrote then Changed(old(disk), Put(path, WrittenFile(old(disk), path, contents, ino, dev))) else old(disk)
      ensures path in disk.files
      ensures disk.files[path].content == contents <==> !(path in old(rewritten) && old(SkipsByHash(path, contents)))
      ensures hashSkips == old(hashSkips) + if old(SkipsByHash(path, contents)) then 1 else 0
      ensures rewritten == if wrote then old(rewritten) + {path} else old(rewritten)
      ensures stamps.observed == if old(SkipsByHash(path, contents)) then old(stamps.observed)
                                 else old(stamps.observed)[path := Entry(StampOf(disk.files[path]), hash(contents))]
    {
      var digest := hash(contents);
      if path in previous && previous[path] == digest && path in disk.files {
        current := current[path := digest];
        hashSkips := hashSkips + 1;
        return false;
      }
      if path in disk.files && disk.files[path].content == contents {
        ObserveWritten(path, digest);
        current := current[path := digest];
        return false;
      }
      Replace(path, contents, ino, dev);
      current := current[path := digest];
      return true;
    }
  }

  /** The exception happens: writing `b` over `a` and then `a` again leaves `b`, recorded as `a`. */
  method WriteBackSkipped(digest: string -> string, path: string, a: string, b: string) returns (writer: Writer)
    requires Injective(digest) && a != b
    ensures path in writer.disk.files && writer.disk.files[path].content == b
    ensures path in writer.current && writer.current[path] == digest(a)
  {
    var cache := new OutputStamps.Load(None);
    writer := new Writer(digest, cache, Disk(0, map[path := File(a, 0, 0, 1, 1)]));
    writer.UseHashes(map[path := digest(a)], map[]);
    assert writer.previous[path] == digest(a);
    var first := writer.Write(path, b, 1, 1);
    assert digest(a) != digest(b);
    var second := writer.Write(path, a, 1, 1);
  }

  /**
   * From one build to the next: a writer that is valid when it persists its stamps leaves a stamps
   * file, new or old, whose stamps are true of every later disk, whoever changes it until then.
   */
  lemma NextBuildLoadsTrue(writer: Writer, before: Option<StampsFile>, after: Option<StampsFile>,
                           disks: seq<Disk>, changes: seq<Change>, p: nat, j: nat, outputs: map<string, string>)
    requires History(disks, changes) && p <= j < |disks| && writer.Valid() && writer.disk == disks[p]
    requires before.Some? ==> before.value.written <= disks[p].clock
    requires Follows(before, after, writer.stamps.observed, outputs, disks[p].clock)
    ensures LoadedTrue(Trusted(after), disks[j], writer.hash)
  {
    var observed := writer.stamps.observed;
    var kept := Kept(observed, outputs);
    if kept == Trusted(before) {
      forall path | path in kept && Stamped(disks[j], path, kept[path].stamp)
        ensures writer.hash(disks[j].files[path].content) == kept[path].hash
      {
        assert True(disks[p], path, observed[path], writer.hash);
        TrustedNotRacy(before, path);
        LoadedStampHolds(disks, changes, p, p, j, path, kept[path].stamp);
      }
    } else {
      forall path | path in kept ensures ObservedBy(disks, changes, p, path, observed[path], writer.hash) {
        assert True(disks[p], path, observed[path], writer.hash) && UntouchedAt(disks, changes, p, p, path, observed[path].stamp.ctime);
      }
      WrittenReads(after.value.lines, kept, disks[p].clock);
      PersistedLoadsTrue(disks, changes, p, j, observed, outputs, writer.hash);
    }
  }

  lemma TrustedNotRacy(file: Option<StampsFile>, path: string)
    requires path in Trusted(file)
    ensures file.Some? && !Trusted(file)[path].stamp.Racy(file.value.written)
  {
    ReadNotRacy(file.value.lines, file.value.written);
  }

  lemma {:induction false} ReadNotRacy(lines: seq<Line>, written: int)
    ensures var read := Read(lines, written);
            read.Some? ==> forall key | key in read.value :: !read.value[key].stamp.Racy(written)
  {
    if lines != [] {
      ReadNotRacy(lines[..|lines| - 1], written);
    }
  }

  /** The next build, on whatever disk it finds, starts from that file. */
  method NextBuild(writer: Writer, before: Option<StampsFile>, ghost disks: seq<Disk>, ghost changes: seq<Change>,
                   ghost p: nat, now: Disk, outputs: map<string, string>, start: map<string, string>)
    returns (next: Writer)
    requires writer.Valid() && writer.stamps.loaded == Trusted(before)
    requires History(disks, changes) && p < |disks| && writer.disk == disks[p] && now == disks[|disks| - 1]
    requires before.Some? ==> before.value.written <= disks[p].clock
    ensures fresh(next) && next.Valid() && next.disk == now && next.current == start
    ensures next.previous == StillHeld(outputs, {}, now, next.hash)
  {
    var written := writer.stamps.Persist(outputs, writer.disk.clock);
    var file := if written.None? then before else written;
    var cache := new OutputStamps.Load(file);
    StaysSane(disks, changes, p, |disks| - 1);
    NextBuildLoadsTrue(writer, before, file, disks, changes, p, |disks| - 1, outputs);
    next := new Writer(writer.hash, cache, now);
    next.UseHashes(outputs, start);
  }

  /** A file that is written, and whose stamp is persisted once the clock has moved on, is trusted by the next build. */
  method WrittenIsTrusted(writer: Writer, before: Option<StampsFile>, path: string, contents: string, ino: nat, dev: nat,
                          to: int, outputs: map<string, string>) returns (wrote: bool, file: Option<StampsFile>)
    requires writer.Valid() && writer.stamps.loaded == Trusted(before) && to > writer.disk.clock
    requires path in outputs && outputs[path] == writer.hash(contents)
    modifies writer, writer.stamps
    ensures writer.Valid() && writer.disk.clock == to && Follows(before, file, writer.stamps.observed, outputs, to)
    ensures wrote ==> path in writer.disk.files && path in Trusted(file) &&
                      Trusted(file)[path] == Entry(StampOf(writer.disk.files[path]), writer.hash(contents))
  {
    wrote := writer.Write(path, contents, ino, dev);
    writer.Wait(to);
    var written := writer.stamps.Persist(outputs, writer.disk.clock);
    file := if written.None? then before else written;
    if written.Some? {
      WrittenReads(written.value.lines, Kept(writer.stamps.observed, outputs), to);
    }
  }
}
