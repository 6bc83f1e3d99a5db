/**
 * Each output's stat fields beside its content hash (`output_stamps.rs`), over a disk whose clock
 * ticks and never goes back: any change of a file sets its status-change time to the current tick,
 * which nothing else can set.
 */
module Stamps {

  import opened Common

  // ---- The disk ----------------------------------------------------------------------------

  /** A regular file. */
  datatype File = File(content: string, mtime: int, ctime: int, ino: nat, dev: nat)

  datatype Disk = Disk(clock: int, files: map<string, File>)

  /**
   * A change to the disk: the clock advances, or a file is written, replaced, touched or created,
   * with any content, times and inode but the status-change time, or it is removed.
   */
  datatype Change = Tick(to: int) | Put(path: string, file: File) | Remove(path: string)

  predicate Possible(disk: Disk, change: Change) {
    match change
    case Tick(to) => to >= disk.clock
    case Put(_, file) => file.ctime == disk.clock
    case Remove(_) => true
  }

  function Changed(disk: Disk, change: Change): Disk {
    match change
    case Tick(to) => disk.(clock := to)
    case Put(path, file) => disk.(files := disk.files[path := file])
    case Remove(path) => disk.(files := disk.files - {path})
  }

  /** No file was changed in the future. */
  ghost predicate Sane(disk: Disk) {
    forall path | path in disk.files :: disk.files[path].ctime <= disk.clock
  }

  ghost predicate History(disks: seq<Disk>, changes: seq<Change>) {
    |disks| == |changes| + 1 && Sane(disks[0]) &&
    forall i | 0 <= i < |changes| :: Possible(disks[i], changes[i]) && disks[i + 1] == Changed(disks[i], changes[i])
  }

  lemma {:induction false} StaysSane(disks: seq<Disk>, changes: seq<Change>, i: nat, j: nat)
    requires History(disks, changes) && i <= j < |disks|
    ensures Sane(disks[j]) && disks[i].clock <= disks[j].clock
  {
    if i < j {
      StaysSane(disks, changes, i, j - 1);
      assert Possible(disks[j - 1], changes[j - 1]);
    } else if i > 0 {
      StaysSane(disks, changes, i - 1, i - 1);
      assert Possible(disks[i - 1], changes[i - 1]);
    }
  }

  // ---- Stamps ------------------------------------------------------------------------------

  datatype FileStamp = FileStamp(len: nat, mtime: int, ctime: int, ino: nat, dev: nat) {
    /** The file may have changed again in the tick the stamps were written in, or later. */
    predicate Racy(written: int) {
      mtime >= written || ctime >= written
    }
  }

  function StampOf(file: File): FileStamp {
    FileStamp(|file.content|, file.mtime, file.ctime, file.ino, file.dev)
  }

  /** Two files show one stamp exactly if they agree in length, both times, inode and device. */
  lemma StampTells(a: File, b: File)
    ensures StampOf(a) == StampOf(b) <==>
            |a.content| == |b.content| && a.mtime == b.mtime && a.ctime == b.ctime && a.ino == b.ino && a.dev == b.dev
  {
  }

  predicate Stamped(disk: Disk, path: string, stamp: FileStamp) {
    path in disk.files && StampOf(disk.files[path]) == stamp
  }

  /** `path` is not changed between two moments while the clock shows `tick`. */
  ghost predicate UntouchedAt(disks: seq<Disk>, changes: seq<Change>, from: nat, to: nat, path: string, tick: int)
    requires |disks| == |changes| + 1 && from <= to <= |changes|
  {
    forall k | from <= k < to && changes[k].Put? && changes[k].path == path :: disks[k].clock != tick
  }

  /** Once a file is changed past a tick, its status-change time never shows that tick again. */
  lemma {:induction false} ChangeShows(disks: seq<Disk>, changes: seq<Change>, i: nat, j: nat, path: string, tick: int)
    requires History(disks, changes) && i < j < |disks| && disks[i].clock > tick
    requires changes[i].Put? && changes[i].path == path
    ensures path in disks[j].files ==> disks[j].files[path].ctime > tick
  {
    if j > i + 1 {
      ChangeShows(disks, changes, i, j - 1, path, tick);
      StaysSane(disks, changes, i, j - 1);
      assert Possible(disks[j - 1], changes[j - 1]);
    } else {
      assert Possible(disks[i], changes[i]);
    }
  }

  /** A file untouched over a stretch is the same file at its end, or was removed. */
  lemma {:induction false} UntouchedSame(disks: seq<Disk>, changes: seq<Change>, i: nat, j: nat, path: string)
    requires History(disks, changes) && i <= j < |disks|
    requires forall k | i <= k < j :: !(changes[k].Put? && changes[k].path == path)
    ensures path in disks[j].files ==> path in disks[i].files && disks[j].files[path] == disks[i].files[path]
  {
    if i < j {
      UntouchedSame(disks, changes, i, j - 1, path);
    }
  }

  /**
   * A file that shows a stamp it showed before has the content it had then, unless it was changed in
   * between during the very tick of the stamp's status-change time.
   */
  lemma SameStampSameContent(disks: seq<Disk>, changes: seq<Change>, i: nat, j: nat, path: string, stamp: FileStamp)
    requires History(disks, changes) && i <= j < |disks|
    requires Stamped(disks[i], path, stamp) && Stamped(disks[j], path, stamp)
    requires UntouchedAt(disks, changes, i, j, path, stamp.ctime)
    ensures disks[j].files[path].content == disks[i].files[path].content
  {
    StaysSane(disks, changes, i, i);
    forall k | i <= k < j ensures !(changes[k].Put? && changes[k].path == path) {
      if changes[k].Put? && changes[k].path == path {
        StaysSane(disks, changes, i, k);
        assert disks[k].clock > stamp.ctime;
        ChangeShows(disks, changes, k, j, path, stamp.ctime);
      }
    }
    UntouchedSame(disks, changes, i, j, path);
  }

  /**
   * What a loaded stamp is worth. A stamp observed at `i`, written to the stamps file at `p`, and not
   * racy by then, still shows at `j`: the file holds what it held at `i`. Nothing is asked of the
   * changes after `p`, and of those between `i` and `p` only that they missed the stamp's own tick.
   */
  lemma LoadedStampHolds(disks: seq<Disk>, changes: seq<Change>, i: nat, p: nat, j: nat, path: string, stamp: FileStamp)
    requires History(disks, changes) && i <= p <= j < |disks|
    requires Stamped(disks[i], path, stamp) && !stamp.Racy(disks[p].clock) && Stamped(disks[j], path, stamp)
    requires UntouchedAt(disks, changes, i, p, path, stamp.ctime)
    ensures disks[j].files[path].content == disks[i].files[path].content
  {
    forall k | p <= k < j ensures disks[k].clock != stamp.ctime {
      StaysSane(disks, changes, p, k);
    }
    SameStampSameContent(disks, changes, i, j, path, stamp);
  }

  /** Any change after the stamps file was written is seen: the loaded stamp never shows again. */
  lemma LaterChangeSeen(disks: seq<Disk>, changes: seq<Change>, p: nat, k: nat, j: nat, path: string, stamp: FileStamp)
    requires History(disks, changes) && p <= k < j < |disks| && !stamp.Racy(disks[p].clock)
    requires changes[k].Put? && changes[k].path == path
    ensures !Stamped(disks[j], path, stamp)
  {
    StaysSane(disks, changes, p, k);
    ChangeShows(disks, changes, k, j, path, stamp.ctime);
  }

  /** Without the racy test a rewrite of the same length in the same tick would pass unseen. */
  lemma RacyTestNeeded(a: string, b: string, path: string, clock: int)
    returns (disks: seq<Disk>, changes: seq<Change>, stamp: FileStamp)
    requires |a| == |b| && a != b
    ensures History(disks, changes) && |disks| == 2 && stamp.Racy(disks[0].clock)
    ensures Stamped(disks[0], path, stamp) && Stamped(disks[1], path, stamp)
    ensures disks[0].files[path].content == a && disks[1].files[path].content == b
  {
    var before, after := File(a, clock, clock, 1, 1), File(b, clock, clock, 1, 1);
    disks := [Disk(clock, map[path := before]), Disk(clock, map[path := after])];
    changes := [Put(path, after)];
    stamp := StampOf(before);
    assert map[path := before][path := after] == map[path := after];
  }

  // ---- The cache ---------------------------------------------------------------------------

  datatype Entry = Entry(stamp: FileStamp, hash: string)

  /** A line of the stamps file: an entry under its key, or something else. */
  datatype Line = Stamp(key: string, entry: Entry) | Malformed

  /** The stamps file: its modification time and its lines. */
  datatype StampsFile = StampsFile(written: int, lines: seq<Line>)

  /** What the lines come to: nothing if one is malformed; later lines of a key win, racy ones are left out. */
  function Read(lines: seq<Line>, written: int): Option<map<string, Entry>> {
    if lines == [] then Some(map[])
    else
      match Read(lines[..|lines| - 1], written)
      case None => None
      case Some(before) =>
        match lines[|lines| - 1]
        case Malformed => None
        case Stamp(key, entry) => Some(if entry.stamp.Racy(written) then before else before[key := entry])
  }

  /** What `load` keeps of a stamps file. */
  function Trusted(file: Option<StampsFile>): map<string, Entry> {
    match file
    case None => map[]
    case Some(f) =>
      match Read(f.lines, f.written)
      case None => map[]
      case Some(entries) => entries
  }

  /** A malformed line spoils the file, wherever it stands. */
  lemma {:induction false} MalformedSpoils(lines: seq<Line>, written: int)
    ensures Read(lines, written).None? <==> Malformed in lines
  {
    if lines != [] {
      var front, last := lines[..|lines| - 1], lines[|lines| - 1];
      assert lines == front + [last];
      MalformedSpoils(front, written);
    }
  }

  /** A line of the key whose times are both from before the file was written. */
  predicate SettledLine(line: Line, key: string, written: int) {
    line.Stamp? && line.key == key && line.entry.stamp.mtime < written && line.entry.stamp.ctime < written
  }

  /** The last such line is the entry's. */
  ghost predicate LastSettled(file: StampsFile, key: string, entry: Entry) {
    exists i | 0 <= i < |file.lines| ::
      file.lines[i] == Stamp(key, entry) && SettledLine(file.lines[i], key, file.written) &&
      forall j | i < j < |file.lines| :: !SettledLine(file.lines[j], key, file.written)
  }

  lemma {:induction false} TrustsLast(file: StampsFile, key: string, entry: Entry)
    requires Read(file.lines, file.written).Some?
    ensures var read := Read(file.lines, file.written).value;
            key in read && read[key] == entry <==> LastSettled(file, key, entry)
    decreases |file.lines|
  {
    var lines, written := file.lines, file.written;
    if lines != [] {
      var front, last := lines[..|lines| - 1], lines[|lines| - 1];
      TrustsLast(StampsFile(written, front), key, entry);
      LastSettledMore(front, last, written, key, entry);
      assert lines == front + [last];
    }
  }

  lemma LastSettledMore(front: seq<Line>, last: Line, written: int, key: string, entry: Entry)
    ensures LastSettled(StampsFile(written, front + [last]), key, entry) <==>
            if SettledLine(last, key, written) then last == Stamp(key, entry) else LastSettled(StampsFile(written, front), key, entry)
  {
    var lines := front + [last];
    assert lines[|front|] == last && forall i | 0 <= i < |front| :: lines[i] == front[i];
    if SettledLine(last, key, written) {
      if last == Stamp(key, entry) {
        assert LastSettled(StampsFile(written, lines), key, entry);
      }
    } else if LastSettled(StampsFile(written, front), key, entry) {
      var i :| 0 <= i < |front| && front[i] == Stamp(key, entry) && SettledLine(front[i], key, written) &&
               forall j | i < j < |front| :: !SettledLine(front[j], key, written);
      assert lines[i] == Stamp(key, entry);
    }
  }

  /** The observed stamps of the outputs, where the hash is the output's. */
  function Kept(observed: map<string, Entry>, outputs: map<string, string>): map<string, Entry> {
    map key | key in outputs && key in observed && observed[key].hash == outputs[key] :: observed[key]
  }

  /** The lines are the entries, each once. */
  predicate LinesOf(lines: seq<Line>, entries: map<string, Entry>) {
    (forall line | line in lines :: line.Stamp? && line.key in entries && line.entry == entries[line.key]) &&
    (forall key | key in entries :: Stamp(key, entries[key]) in lines) &&
    (forall i, j | 0 <= i < j < |lines| :: lines[i] != lines[j])
  }

  /** The entries that are not racy. */
  function Settled(entries: map<string, Entry>, written: int): map<string, Entry> {
    map key | key in entries && !entries[key].stamp.Racy(written) :: entries[key]
  }

  /** What was written is what is read, but for the racy entries. */
  lemma WrittenReads(lines: seq<Line>, entries: map<string, Entry>, written: int)
    requires LinesOf(lines, entries)
    ensures Trusted(Some(StampsFile(written, lines))) == Settled(entries, written)
  {
    ReadOf(lines, entries, written);
  }

  lemma {:induction false} ReadOf(lines: seq<Line>, entries: map<string, Entry>, written: int)
    requires forall line | line in lines :: line.Stamp? && line.key in entries && line.entry == entries[line.key]
    ensures var read := Read(lines, written);
            read.Some? && (forall key :: key in read.value <==>
                             key in entries && Stamp(key, entries[key]) in lines && !entries[key].stamp.Racy(written)) &&
            forall key | key in read.value :: read.value[key] == entries[key]
  {
    if lines != [] {
      var front, last := lines[..|lines| - 1], lines[|lines| - 1];
      assert lines == front + [last];
      ReadOf(front, entries, written);
    }
  }

  /** `OutputStamps` */
  class OutputStamps {
    const loaded: map<string, Entry>
    var observed: map<string, Entry>

    /** `load`: nothing if the file is missing or a line malformed. */
    constructor Load(file: Option<StampsFile>)
      ensures loaded == Trusted(file) && observed == map[]
      ensures file.None? || Malformed in file.value.lines ==> loaded == map[]
      ensures file.Some? && Malformed !in file.value.lines ==>
                forall key, entry :: key in loaded && loaded[key] == entry <==> LastSettled(file.value, key, entry)
    {
      var trusted: map<string, Entry> := map[];
      if file.Some? {
        var written, lines := file.value.written, file.value.lines;
        var index, good := 0, true;
        hide LastSettled;
        while index < |lines| && good
          invariant 0 <= index <= |lines|
          invariant good ==> Read(lines[..index], written) == Some(trusted)
          invariant !good ==> Malformed in lines
        {
          assert lines[..index + 1][..index] == lines[..index];
          match lines[index] {
            case Malformed => good := false;
            case Stamp(key, entry) =>
              if !entry.stamp.Racy(written) {
                trusted := trusted[key := entry];
              }
          }
          index := index + 1;
        }
        assert good ==> lines[..index] == lines;
        MalformedSpoils(lines, written);
        if !good {
          trusted := map[];
        } else {
          forall key, entry ensures key in trusted && trusted[key] == entry <==> LastSettled(file.value, key, entry) {
            TrustsLast(file.value, key, entry);
          }
        }
      }
      loaded := trusted;
      observed := map[];
    }

    /** The file under the key still holds content with this hash. */
    predicate Holds(key: string, stamp: FileStamp, hash: string)
      reads this
    {
      key in loaded && loaded[key] == Entry(stamp, hash)
    }

    method Observe(key: string, stamp: FileStamp, hash: string)
      modifies this
      ensures observed == old(observed)[key := Entry(stamp, hash)]
    {
      observed := observed[key := Entry(stamp, hash)];
    }

    /** The new stamps file, or none if the loaded stamps are the ones to keep. */
    method Persist(outputs: map<string, string>, clock: int) returns (file: Option<StampsFile>)
      ensures file.None? <==> Kept(observed, outputs) == loaded
      ensures file.Some? ==> file.value.written == clock && LinesOf(file.value.lines, Kept(observed, outputs))
    {
      var lines: seq<Line>, same, left := [], true, outputs.Keys;
      ghost var entries: map<string, Entry> := map[];
      assert LinesOf(lines, entries) && entries == KeptOutside(observed, outputs, left) && same == Agrees(entries, loaded);
      hide LinesOf, KeptOutside, Agrees;
      while left != {}
        invariant left <= outputs.Keys && |lines| == |entries|
        invariant entries == KeptOutside(observed, outputs, left)
        invariant same == Agrees(entries, loaded) && LinesOf(lines, entries)
      {
        var key :| key in left;
        KeptNext(observed, outputs, left, key);
        if key in observed && observed[key].hash == outputs[key] {
          var entry := observed[key];
          AgreesMore(entries, loaded, key, entry);
          LinesMore(lines, entries, key, entry);
          OneMoreEntry(entries, key, entry);
          same := same && key in loaded && loaded[key] == entry;
          lines, entries := lines + [Stamp(key, entry)], entries[key := entry];
        }
        left := left - {key};
      }
      KeptAll(observed, outputs);
      SameByCount(entries, loaded);
      if same && |lines| == |loaded| {
        return None;
      }
      return Some(StampsFile(clock, lines));
    }
  }

  /** The kept entries of the outputs outside `left`. */
  function KeptOutside(observed: map<string, Entry>, outputs: map<string, string>, left: set<string>): map<string, Entry> {
    map key | key in outputs && key !in left && key in observed && observed[key].hash == outputs[key] :: observed[key]
  }

  lemma KeptNext(observed: map<string, Entry>, outputs: map<string, string>, left: set<string>, key: string)
    requires key in left && left <= outputs.Keys
    ensures key !in KeptOutside(observed, outputs, left)
    ensures KeptOutside(observed, outputs, left - {key}) ==
            if key in observed && observed[key].hash == outputs[key] then
              KeptOutside(observed, outputs, left)[key := observed[key]]
            else KeptOutside(observed, outputs, left)
  {
  }

  lemma KeptAll(observed: map<string, Entry>, outputs: map<string, string>)
    ensures KeptOutside(observed, outputs, {}) == Kept(observed, outputs)
  {
  }

  predicate Agrees(entries: map<string, Entry>, loaded: map<string, Entry>) {
    forall key | key in entries :: key in loaded && loaded[key] == entries[key]
  }

  lemma AgreesMore(entries: map<string, Entry>, loaded: map<string, Entry>, key: string, entry: Entry)
    requires key !in entries
    ensures Agrees(entries[key := entry], loaded) <==> Agrees(entries, loaded) && key in loaded && loaded[key] == entry
  {
    if Agrees(entries[key := entry], loaded) {
      forall k | k in entries ensures k in loaded && loaded[k] == entries[k] {
        assert k in entries[key := entry];
      }
      assert key in entries[key := entry];
    }
  }

  lemma LinesMore(lines: seq<Line>, entries: map<string, Entry>, key: string, entry: Entry)
    requires LinesOf(lines, entries) && key !in entries
    ensures LinesOf(lines + [Stamp(key, entry)], entries[key := entry])
  {
    var more, after := lines + [Stamp(key, entry)], entries[key := entry];
    forall k | k in after ensures Stamp(k, after[k]) in more {
      if k == key {
        assert more[|lines|] == Stamp(k, after[k]);
      } else {
        assert Stamp(k, entries[k]) in lines;
      }
    }
    assert Stamp(key, entry) !in lines;
  }

  lemma OneMoreEntry(entries: map<string, Entry>, key: string, entry: Entry)
    requires key !in entries
    ensures |entries[key := entry]| == |entries| + 1
  {
    assert entries[key := entry].Keys == entries.Keys + {key};
    assert |entries[key := entry].Keys| == |entries[key := entry]| && |entries.Keys| == |entries|;
  }

  /** A map that agrees with another and is as large is that map. */
  lemma SameByCount(a: map<string, Entry>, b: map<string, Entry>)
    ensures Agrees(a, b) && |a| == |b| <==> a == b
  {
    if Agrees(a, b) && |a| == |b| {
      assert a.Keys <= b.Keys && |a.Keys| == |a| && |b.Keys| == |b|;
      SubsetByCount(a.Keys, b.Keys);
      assert a.Keys == b.Keys;
    }
  }

  lemma SubsetByCount(a: set<string>, b: set<string>)
    requires a <= b && |a| == |b|
    ensures a == b
  {
    assert b == a + (b - a);
    assert |b| == |a| + |b - a|;
  }

  // ---- From one build to the next ----------------------------------------------------------

  /** What an entry says of the disk it was observed on. */
  ghost predicate True(disk: Disk, path: string, entry: Entry, hash: string -> string) {
    Stamped(disk, path, entry.stamp) && hash(disk.files[path].content) == entry.hash
  }

  /**
   * An entry observed at `i` and persisted at `p`, loaded by a later build and matching the file at
   * `j`: the file's content has the recorded hash.
   */
  lemma HoldsMeansHash(disks: seq<Disk>, changes: seq<Change>, i: nat, p: nat, j: nat, path: string, key: string,
                       observed: map<string, Entry>, outputs: map<string, string>, hash: string -> string)
    requires History(disks, changes) && i <= p <= j < |disks|
    requires key in observed && True(disks[i], path, observed[key], hash)
    requires UntouchedAt(disks, changes, i, p, path, observed[key].stamp.ctime)
    requires key in Settled(Kept(observed, outputs), disks[p].clock)
    requires Stamped(disks[j], path, observed[key].stamp)
    ensures hash(disks[j].files[path].content) == observed[key].hash == outputs[key]
  {
    LoadedStampHolds(disks, changes, i, p, j, path, observed[key].stamp);
  }
}
