/** The copier stage: for each described publication it makes
    `<workingDirectory>/test-<Title>/Numéro <NN> | <Months> <Year>/` and copies
    every page there as `<NNN><.ext>`, stopping at the first failure; its
    monitor stops at the first publication that fails. */
module Copier {
  import opened Entities
  import opened Format
  import opened FileSystem

  const Prefix := "test-"
  const MonthSeparator := " - "
  const Months: seq<string> := [
    "Janvier", "Février", "Mars", "Avril", "Mai", "Juin",
    "Juillet", "Août", "Septembre", "Octobre", "Novembre", "Décembre"]

  /** The name of month `n` when `n` is 1..12, nothing otherwise. */
  function MonthName(n: uint8): seq<string> {
    if 1 <= n <= 12 then [Months[n - 1]] else []
  }

  /** What `toNames` returns. */
  function MonthNames(nums: seq<uint8>): (names: seq<string>)
    ensures |names| <= |nums|
    ensures forall i :: 0 <= i < |names| ==> names[i] in Months
  {
    if nums == [] then [] else MonthNames(nums[..|nums| - 1]) + MonthName(nums[|nums| - 1])
  }

  /** The in-range month numbers of `nums`, in order, duplicates kept. */
  function ValidMonths(nums: seq<uint8>): seq<int> {
    if nums == [] then []
    else (if 1 <= nums[0] <= 12 then [nums[0] as int] else []) + ValidMonths(nums[1..])
  }

  /** The position (1..12) of a month name in the calendar, 0 for any other string. */
  function MonthNumber(name: string): int {
    if name == "Janvier" then 1 else if name == "Février" then 2
    else if name == "Mars" then 3 else if name == "Avril" then 4
    else if name == "Mai" then 5 else if name == "Juin" then 6
    else if name == "Juillet" then 7 else if name == "Août" then 8
    else if name == "Septembre" then 9 else if name == "Octobre" then 10
    else if name == "Novembre" then 11 else if name == "Décembre" then 12
    else 0
  }

  function MonthNumbers(names: seq<string>): seq<int> {
    if names == [] then [] else [MonthNumber(names[0])] + MonthNumbers(names[1..])
  }

  /** `toNames`: an `append` loop over the month numbers. */
  method ToNames(nums: seq<uint8>) returns (names: seq<string>)
    ensures names == MonthNames(nums)
  {
    names := [];
    var i := 0;
    while i < |nums|
      invariant 0 <= i <= |nums|
      invariant names == MonthNames(nums[..i])
    {
      var n := nums[i];
      assert nums[..i + 1][..i] == nums[..i] && nums[..i + 1][i] == n;
      assert MonthNames(nums[..i + 1]) == MonthNames(nums[..i]) + MonthName(n);
      if n >= 1 && n <= 12 {
        names := names + [Months[n - 1]];
      }
      i := i + 1;
    }
    assert nums[..i] == nums;
  }

  // ---------------------------------------------------------------------------
  // Names of the destination tree

  function PublicationFolder(workingDirectory: Path, md: MagazineMetadata): Path {
    workingDirectory + [Prefix + md.title]
  }

  function PublicationDate(md: MagazineMetadata): string {
    Join(MonthNames(md.month), MonthSeparator) + " " + FormatInt(md.year, 0)
  }

  function IssueFolderName(md: MagazineMetadata): string {
    "Numéro " + FormatInt(md.number, 2) + " | " + PublicationDate(md)
  }

  function IssueFolder(workingDirectory: Path, md: MagazineMetadata): Path {
    PublicationFolder(workingDirectory, md) + [IssueFolderName(md)]
  }

  function PageFileName(page: MagazinePage): string {
    FormatInt(page.number, 3) + ToLower(Ext(page.file))
  }

  /** Where a page is written: its page file name inside the issue folder. */
  function DestinationPath(issueFolder: Path, page: MagazinePage): Path {
    issueFolder + [PageFileName(page)]
  }

  // ---------------------------------------------------------------------------
  // What one run of `renameFiles` does to the disk

  datatype CopyError =
    | MkdirFailed(dir: Path)
    | OpenFailed(src: Path)
    | CreateFailed(dst: Path)
    | CopyFailed(src: Path, dst: Path)

  /** A disk and the error that stopped the run, if one did. */
  datatype Run = Run(disk: Disk, err: Option<CopyError>)

  /** `os.Stat` then, only when the path is absent, `os.Mkdir`. */
  function EnsureDir(d: Disk, f: Faults, p: Path): Run {
    if Present(d, p) then Run(d, None)
    else if CanMkdir(d, f, p) then Run(MkdirEffect(d, p), None)
    else Run(d, Some(MkdirFailed(p)))
  }

  /** One iteration of the page loop: open, create (truncating), copy. */
  function CopyPage(d: Disk, f: Faults, src: Path, dst: Path): Run {
    if !CanOpen(d, f, src) then Run(d, Some(OpenFailed(src)))
    else if !CanCreate(d, f, dst) then Run(d, Some(CreateFailed(dst)))
    else
      var r := CopyEffect(CreateEffect(d, dst), f, src, dst);
      Run(r.0, if r.1 then None else Some(CopyFailed(src, dst)))
  }

  /** One page's transfer: the file it is read from and the file it is written to. */
  datatype PageCopy = PageCopy(src: Path, dst: Path)

  /** The transfers of the page loop, one per page, in page order. */
  function PageCopies(source: Path, issue: Path, pages: seq<MagazinePage>): seq<PageCopy>
    decreases |pages|
  {
    if pages == [] then []
    else [PageCopy(PagePath(source, pages[0]), DestinationPath(issue, pages[0]))] + PageCopies(source, issue, pages[1..])
  }

  /** The page loop: performs the transfers in order, stopping at the first that fails. */
  function CopyAll(d: Disk, f: Faults, copies: seq<PageCopy>): Run
    decreases |copies|
  {
    if copies == [] then Run(d, None)
    else
      var r := CopyPage(d, f, copies[0].src, copies[0].dst);
      if r.err.Some? then r else CopyAll(r.disk, f, copies[1..])
  }

  /** `renameFiles` once its two folders are named: make each if absent, then copy. */
  function RenameAt(d: Disk, f: Faults, publication: Path, issue: Path, copies: seq<PageCopy>): Run {
    var pub := EnsureDir(d, f, publication);
    if pub.err.Some? then pub
    else
      var iss := EnsureDir(pub.disk, f, issue);
      if iss.err.Some? then iss
      else CopyAll(iss.disk, f, copies)
  }

  function RenameOutcome(d: Disk, f: Faults, wd: Path, m: Magazine): Run {
    var issue := IssueFolder(wd, m.metadata);
    RenameAt(d, f, PublicationFolder(wd, m.metadata), issue, PageCopies(m.folder, issue, m.pages))
  }

  /** The disk after `monitor`, how many publications it took from the channel and
      the error it returned. */
  datatype Transfer = Transfer(disk: Disk, consumed: nat, err: Option<CopyError>)

  function MonitorOutcome(d: Disk, f: Faults, wd: Path, ms: seq<Magazine>): Transfer
    decreases |ms|
  {
    if ms == [] then Transfer(d, 0, None)
    else
      var r := RenameOutcome(d, f, wd, ms[0]);
      if r.err.Some? then Transfer(r.disk, 1, r.err)
      else
        var rest := MonitorOutcome(r.disk, f, wd, ms[1..]);
        Transfer(rest.disk, 1 + rest.consumed, rest.err)
  }

  // ---------------------------------------------------------------------------
  // The service

  class CopierService {
    const workingDirectory: Path
    const fs: FileSystem
    /** The publications still waiting in the inbound channel. */
    var magazines: seq<Magazine>

    constructor (workingDirectory: Path, fs: FileSystem, magazines: seq<Magazine>)
      ensures this.workingDirectory == workingDirectory && this.fs == fs
      ensures this.magazines == magazines
    {
      this.workingDirectory := workingDirectory;
      this.fs := fs;
      this.magazines := magazines;
    }

    method RenameFiles(m: Magazine) returns (err: Option<CopyError>)
      modifies fs
      ensures Run(fs.disk, err) == RenameOutcome(old(fs.disk), fs.faults, workingDirectory, m)
    {
      var publicationFolder := PublicationFolder(workingDirectory, m.metadata);
      var found := fs.Stat(publicationFolder);
      if !found {
        var ok := fs.Mkdir(publicationFolder);
        if !ok {
          return Some(MkdirFailed(publicationFolder));
        }
      }
      ghost var afterPublication := fs.disk;

      var knownMonths := ToNames(m.metadata.month);
      var publicationMonths := Join(knownMonths, MonthSeparator);
      var publicationDate := publicationMonths + " " + FormatInt(m.metadata.year, 0);
      var issueFolder := publicationFolder + ["Numéro " + FormatInt(m.metadata.number, 2) + " | " + publicationDate];
      assert issueFolder == IssueFolder(workingDirectory, m.metadata);

      found := fs.Stat(issueFolder);
      if !found {
        var ok := fs.Mkdir(issueFolder);
        if !ok {
          return Some(MkdirFailed(issueFolder));
        }
      }
      assert fs.disk == EnsureDir(afterPublication, fs.faults, issueFolder).disk;
      err := CopyAllPages(m, issueFolder);
      assert Run(fs.disk, err) == RenameOutcome(old(fs.disk), fs.faults, workingDirectory, m);
    }

    /** The page loop of `renameFiles`, in list order, returning at the first failure. */
    method CopyAllPages(m: Magazine, issueFolder: Path) returns (err: Option<CopyError>)
      modifies fs
      ensures Run(fs.disk, err) == CopyAll(old(fs.disk), fs.faults, PageCopies(m.folder, issueFolder, m.pages))
    {
      ghost var start := fs.disk;
      ghost var copies := PageCopies(m.folder, issueFolder, m.pages);
      var i := 0;
      while i < |m.pages|
        invariant 0 <= i <= |m.pages|
        invariant CopyAll(start, fs.faults, copies)
               == CopyAll(fs.disk, fs.faults, PageCopies(m.folder, issueFolder, m.pages[i..]))
      {
        var page := m.pages[i];
        var srcPath := m.folder + [page.file];
        var pageFileName := FormatInt(page.number, 3) + ToLower(Ext(page.file));
        var dstPath := issueFolder + [pageFileName];
        assert m.pages[i..][0] == page && m.pages[i..][1..] == m.pages[i + 1..];

        var ok := fs.Open(srcPath);
        if !ok {
          return Some(OpenFailed(srcPath));
        }
        ok := fs.Create(dstPath);
        if !ok {
          return Some(CreateFailed(dstPath));
        }
        ok := fs.Copy(dstPath, srcPath);
        if !ok {
          return Some(CopyFailed(srcPath, dstPath));
        }
        i := i + 1;
      }
      return None;
    }

    method Monitor() returns (err: Option<CopyError>)
      modifies this, fs
      ensures var t := MonitorOutcome(old(fs.disk), fs.faults, workingDirectory, old(magazines));
        fs.disk == t.disk && err == t.err && t.consumed <= |old(magazines)|
        && magazines == old(magazines)[t.consumed..]
    {
      ghost var all := magazines;
      ghost var start := fs.disk;
      ghost var taken := 0;
      while magazines != []
        invariant 0 <= taken <= |all| && magazines == all[taken..]
        invariant var t := MonitorOutcome(start, fs.faults, workingDirectory, all);
          var rest := MonitorOutcome(fs.disk, fs.faults, workingDirectory, magazines);
          t.disk == rest.disk && t.err == rest.err && t.consumed == taken + rest.consumed
        decreases |magazines|
      {
        var magazine := magazines[0];
        magazines := magazines[1..];
        taken := taken + 1;
        err := RenameFiles(magazine);
        if err.Some? {
          return;
        }
      }
      return None;
    }
  }
}
