/** The part of the `os` package the copier uses (`Stat`, `Mkdir`, `Open`,
    `Create`) and `io.Copy`, over a disk that is a set of directories and a
    map from file paths to contents. Why an operation fails is not modelled;
    which ones fail is fixed in advance by a `Faults` value, so that every
    run is a function of the disk and the faults. */
module FileSystem {
  import opened Entities

  datatype Disk = Disk(dirs: set<Path>, files: map<Path, Bytes>)

  /** The environment's refusals: directories that cannot be made, files that
      cannot be opened or created, and sources whose reading breaks off after
      the given number of bytes. */
  datatype Faults = Faults(
    mkdirDenied: set<Path>,
    openDenied: set<Path>,
    createDenied: set<Path>,
    readFaults: map<Path, nat>)

  /** An environment that refuses nothing. */
  const NoFaults := Faults({}, {}, {}, map[])

  function Parent(p: Path): Path {
    if p == [] then [] else p[..|p| - 1]
  }

  /** `os.Stat` finds the path (it names a directory or a file). */
  predicate Present(d: Disk, p: Path) {
    p in d.dirs || p in d.files
  }

  /** `os.Mkdir` succeeds: the parent is a directory and nothing is there yet. */
  predicate CanMkdir(d: Disk, f: Faults, p: Path) {
    p != [] && Parent(p) in d.dirs && !Present(d, p) && p !in f.mkdirDenied
  }

  /** `os.Open` succeeds on any existing path, a directory included. */
  predicate CanOpen(d: Disk, f: Faults, p: Path) {
    Present(d, p) && p !in f.openDenied
  }

  /** Reading an opened path to its end succeeds: it is a file (reading a directory
      fails at once) and no fault breaks the read off. */
  predicate CanRead(d: Disk, f: Faults, p: Path) {
    p in d.files && p !in f.readFaults
  }

  /** `os.Create` succeeds: the parent is a directory and the path is not one. */
  predicate CanCreate(d: Disk, f: Faults, p: Path) {
    p != [] && Parent(p) in d.dirs && p !in d.dirs && p !in f.createDenied
  }

  function MkdirEffect(d: Disk, p: Path): Disk {
    d.(dirs := d.dirs + {p})
  }

  /** `os.Create` truncates: the file exists afterwards and is empty. */
  function CreateEffect(d: Disk, p: Path): Disk {
    d.(files := d.files[p := []])
  }

  /** `io.Copy(dst, src)`: the destination receives the source's bytes, or only the
      bytes read before the fault, in which case the copy reports failure; a
      directory yields no byte and the copy fails with nothing written. */
  function CopyEffect(d: Disk, f: Faults, src: Path, dst: Path): (r: (Disk, bool))
    ensures r.0.dirs == d.dirs
    ensures r.1 <==> CanRead(d, f, src)
    ensures src !in d.files ==> r.0 == d
    ensures src in d.files ==> r.0.files.Keys == d.files.Keys + {dst}
    ensures forall p :: p in d.files && p != dst ==> p in r.0.files && r.0.files[p] == d.files[p]
    ensures r.1 ==> r.0.files[dst] == d.files[src]
    ensures !r.1 && src in d.files ==> r.0.files[dst] <= d.files[src]
  {
    if src !in d.files then (d, false)
    else
      var data := d.files[src];
      if src in f.readFaults then
        var n := if f.readFaults[src] < |data| then f.readFaults[src] else |data|;
        (d.(files := d.files[dst := data[..n]]), false)
      else
        (d.(files := d.files[dst := data]), true)
  }

  class FileSystem {
    var disk: Disk
    const faults: Faults

    constructor (disk: Disk, faults: Faults)
      ensures this.disk == disk && this.faults == faults
    {
      this.disk := disk;
      this.faults := faults;
    }

    method Stat(p: Path) returns (found: bool)
      ensures found == Present(disk, p)
    {
      found := Present(disk, p);
    }

    method Mkdir(p: Path) returns (ok: bool)
      modifies this
      ensures ok == CanMkdir(old(disk), faults, p)
      ensures disk == if ok then MkdirEffect(old(disk), p) else old(disk)
    {
      ok := CanMkdir(disk, faults, p);
      if ok {
        disk := MkdirEffect(disk, p);
      }
    }

    method Open(p: Path) returns (ok: bool)
      ensures ok == CanOpen(disk, faults, p)
    {
      ok := CanOpen(disk, faults, p);
    }

    method Create(p: Path) returns (ok: bool)
      modifies this
      ensures ok == CanCreate(old(disk), faults, p)
      ensures disk == if ok then CreateEffect(old(disk), p) else old(disk)
    {
      ok := CanCreate(disk, faults, p);
      if ok {
        disk := CreateEffect(disk, p);
      }
    }

    /** Reading the opened path to its end, as `io.Copy` from it does; nothing is kept. */
    method Read(p: Path) returns (ok: bool)
      ensures ok == CanRead(disk, faults, p)
    {
      ok := CanRead(disk, faults, p);
    }

    method Copy(dst: Path, src: Path) returns (ok: bool)
      modifies this
      ensures (disk, ok) == CopyEffect(old(disk), faults, src, dst)
    {
      var r := CopyEffect(disk, faults, src, dst);
      disk, ok := r.0, r.1;
    }
  }
}
