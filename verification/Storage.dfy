/** The durable state: the write-ahead log and the level directories. Every method is one atomic
    step; a crash leaves the disk between two of them. */
module Storage {
  import opened Bytes
  import opened Levels

  datatype DiskState = DiskState(wal: Bytes, levels: seq<Dir>)

  /** `File::create`: an existing file is truncated and keeps its birth time. */
  function Create(d: Dir, name: string, now: nat): Dir {
    d[name := FileData(if name in d then d[name].created else now, [])]
  }

  function Write(d: Dir, name: string, bytes: Bytes): Dir
    requires name in d
  {
    d[name := d[name].(bytes := bytes)]
  }

  /** Renaming keeps the birth time and replaces whatever had the new name. */
  function Rename(d: Dir, from: string, to: string): Dir
    requires from in d
  {
    (d - {from})[to := d[from]]
  }

  class Disk {
    var wal: Bytes
    var levels: seq<Dir>

    constructor (wal: Bytes, levels: seq<Dir>)
      ensures this.wal == wal && this.levels == levels
    {
      this.wal := wal;
      this.levels := levels;
    }

    ghost function State(): DiskState
      reads this
    {
      DiskState(wal, levels)
    }

    method AppendWal(entry: Bytes)
      modifies `wal
      ensures wal == old(wal) + entry
    {
      wal := wal + entry;
    }

    method ClearWal()
      modifies `wal
      ensures wal == []
    {
      wal := [];
    }

    /** `create_dir_all` for the level directory. */
    method EnsureLevel(level: nat)
      requires level <= |levels|
      modifies `levels
      ensures levels == if level == |old(levels)| then old(levels) + [map[]] else old(levels)
    {
      if level == |levels| { levels := levels + [map[]]; }
    }

    method SetDir(level: nat, d: Dir)
      requires level < |levels|
      modifies `levels
      ensures levels == old(levels)[level := d]
    {
      levels := levels[level := d];
    }
  }
}
