/** What the copier promises: the month names it keeps, the shape of the
    names it builds, which files a run writes, that a run breaks off at its
    first failing page, that running it again changes nothing, and that the
    monitor stops at the first failing publication. */
module CopierProperties {
  import opened Entities
  import opened Format
  import opened FileSystem
  import opened Copier

  // ---------------------------------------------------------------------------
  // Month names

  /** `toNames` maps element by element: the names of a concatenation are the
      concatenation of the names, so input order and duplicates are kept. */
  lemma {:induction false} MonthNamesAppend(a: seq<uint8>, b: seq<uint8>)
    ensures MonthNames(a + b) == MonthNames(a) + MonthNames(b)
    decreases |b|
  {
    if b == [] {
      assert a + b == a;
    } else {
      var b' := b[..|b| - 1];
      assert (a + b)[..|a + b| - 1] == a + b';
      assert (a + b)[|a + b| - 1] == b[|b| - 1];
      MonthNamesAppend(a, b');
    }
  }

  lemma MonthNumberOfName(n: uint8)
    requires 1 <= n <= 12
    ensures MonthNumber(Months[n - 1]) == n as int
  {
  }

  lemma {:induction false} MonthNumbersAppend(a: seq<string>, b: seq<string>)
    ensures MonthNumbers(a + b) == MonthNumbers(a) + MonthNumbers(b)
    decreases |a|
  {
    if a != [] {
      assert (a + b)[1..] == a[1..] + b;
      MonthNumbersAppend(a[1..], b);
    } else {
      assert a + b == b;
    }
  }

  lemma {:induction false} ValidMonthsAppend(a: seq<uint8>, b: seq<uint8>)
    ensures ValidMonths(a + b) == ValidMonths(a) + ValidMonths(b)
    decreases |a|
  {
    if a != [] {
      assert (a + b)[1..] == a[1..] + b;
      ValidMonthsAppend(a[1..], b);
    } else {
      assert a + b == b;
    }
  }

  /** Reading the names back as calendar positions gives exactly the inputs that
      lie in 1..12, in input order and with duplicates: `toNames` keeps those,
      drops every other value and names each kept `n` by the n-th month. */
  lemma {:induction false} MonthNamesReadBack(nums: seq<uint8>)
    ensures MonthNumbers(MonthNames(nums)) == ValidMonths(nums)
    decreases |nums|
  {
    if nums != [] {
      var init, last := nums[..|nums| - 1], nums[|nums| - 1];
      assert nums == init + [last];
      MonthNamesReadBack(init);
      MonthNumbersAppend(MonthNames(init), MonthName(last));
      ValidMonthsAppend(init, [last]);
      if 1 <= last <= 12 {
        MonthNumberOfName(last);
      }
    }
  }

  /** The month cases of the naming scheme. */
  lemma MonthNamesExamples()
    ensures MonthNames([6]) == ["Juin"]
    ensures Join(MonthNames([1, 12]), MonthSeparator) == "Janvier - Décembre"
    ensures MonthNames([0, 13]) == []
  {
    JuneName([6]);
    JanuaryToDecember([1, 12]);
    NoMonthNames([0, 13]);
  }

  lemma JanuaryToDecember(months: seq<uint8>)
    requires months == [1, 12]
    ensures Join(MonthNames(months), MonthSeparator) == "Janvier - Décembre"
  {
    assert months[..1] == [1] && months[..1][..0] == [];
  }

  lemma NoMonthNames(months: seq<uint8>)
    requires months == [0, 13]
    ensures MonthNames(months) == []
  {
    assert months[..1] == [0] && months[..1][..0] == [];
  }

  // ---------------------------------------------------------------------------
  // Names of the destination tree

  /** The publication folder is `test-<Title>` in the working directory and the issue
      folder sits directly inside it. */
  lemma IssueFolderPlacement(wd: Path, md: MagazineMetadata)
    ensures PublicationFolder(wd, md) == wd + ["test-" + md.title]
    ensures Parent(IssueFolder(wd, md)) == PublicationFolder(wd, md)
    ensures Parent(PublicationFolder(wd, md)) == wd
  {
  }

  /** A page file name is three digits that read back as the page number,
      followed by the lower-cased extension of the source file. */
  lemma PageFileNameReadsBack(page: MagazinePage)
    ensures |PageFileName(page)| >= 3
    ensures IsSignedDigits(PageFileName(page)[..3]) && ParseInt(PageFileName(page)[..3]) == page.number
    ensures PageFileName(page)[3..] == ToLower(Ext(page.file))
  {
    PaddedLength(page.number, 3);
    FormatIntRoundTrip(page.number, 3);
    assert PageFileName(page)[..3] == FormatInt(page.number, 3);
  }

  /** So two pages with different numbers never share a destination name. */
  lemma PageFileNameInjective(p: MagazinePage, q: MagazinePage)
    requires PageFileName(p) == PageFileName(q)
    ensures p.number == q.number
  {
    PageFileNameReadsBack(p);
    PageFileNameReadsBack(q);
  }

  /** `%02d` keeps a two-digit number, pads a one-digit one and never truncates. */
  lemma TwoDigitExamples()
    ensures FormatInt(42, 2) == "42" && FormatInt(7, 2) == "07" && FormatInt(123, 2) == "123"
  {
    assert Decimal(4) == "4" && Decimal(1) == "1" && Decimal(7) == "7";
    assert Decimal(42) == "4" + "2";
    assert Decimal(12) == "1" + "2";
    assert Decimal(123) == "12" + "3";
    assert ZeroPad("7", 2) == ZeroPad("07", 2);
  }

  /** `%03d` pads the page number to three characters, a sign included. */
  lemma ThreeDigitExamples()
    ensures FormatInt(1, 3) == "001" && FormatInt(-5, 3) == "-05"
  {
    assert Decimal(1) == "1" && Decimal(5) == "5";
    assert ZeroPad("1", 3) == ZeroPad("01", 3) == ZeroPad("001", 3);
    assert ZeroPad("5", 2) == ZeroPad("05", 2);
  }

  lemma YearExample()
    ensures FormatInt(1991, 0) == "1991"
  {
    assert Decimal(1) == "1" && Decimal(9) == "9";
    assert Decimal(19) == "1" + "9";
    assert Decimal(199) == "19" + "9";
    assert Decimal(1991) == "199" + "1";
  }

  lemma ExtExamples()
    ensures Ext("p1.JPG") == ".JPG" && Ext("p.") == "."
    ensures Ext("scan") == "" && Ext("a.b/c") == ""
  {
    assert "p1.JPG"[..5] == "p1.JP" && "p1.JP"[..4] == "p1.J" && "p1.J"[..3] == "p1.";
    assert Ext("p1.") == ".";
    assert Ext("p1.J") == "." + "J";
    assert Ext("p1.JP") == ".J" + "P";
    assert "scan"[..3] == "sca" && "sca"[..2] == "sc" && "sc"[..1] == "s" && "s"[..0] == "";
    assert Ext("s") == "" && Ext("sc") == "" && Ext("sca") == "";
    assert "a.b/c"[..4] == "a.b/";
    assert Ext("a.b/") == "";
  }

  lemma ToLowerExample()
    ensures ToLower(".JPG") == ".jpg"
  {
    assert ToLower(".JPG")[1] == 'j' && ToLower(".JPG")[2] == 'p' && ToLower(".JPG")[3] == 'g';
  }

  /** Tilt number 42 of June 1991. */
  lemma IssueFolderNameExample(md: MagazineMetadata)
    requires md == MagazineMetadata("Tilt", 42, [6], 1991)
    ensures IssueFolderName(md) == "Numéro 42 | Juin 1991"
  {
    IssueNumberText(md.number);
    JuneDate(md);
  }

  lemma IssueNumberText(n: int)
    requires n == 42
    ensures FormatInt(n, 2) == "42"
  {
    TwoDigitExamples();
  }

  /** June 1991 is written `Juin 1991`. */
  lemma JuneDate(md: MagazineMetadata)
    requires md.month == [6] && md.year == 1991
    ensures PublicationDate(md) == "Juin 1991"
  {
    YearText(md.year);
    JuneName(md.month);
    assert Join(["Juin"], MonthSeparator) == "Juin";
    assert PublicationDate(md) == "Juin" + " " + "1991";
  }

  lemma YearText(y: int)
    requires y == 1991
    ensures FormatInt(y, 0) == "1991"
  {
    YearExample();
  }

  lemma JuneName(months: seq<uint8>)
    requires months == [6]
    ensures MonthNames(months) == ["Juin"]
  {
    assert months[..0] == [];
  }

  /** The first page `p1.JPG` becomes `001.jpg`. */
  lemma PageFileNameExample()
    ensures PageFileName(MagazinePage("p1.JPG", 1)) == "001.jpg"
  {
    ThreeDigitExamples();
    ExtExamples();
    ToLowerExample();
  }

  /** Without a valid month the date is only " <Year>", leaving two spaces after the bar. */
  lemma NoMonthExample(md: MagazineMetadata)
    requires md == MagazineMetadata("Tilt", 42, [0], 1991)
    ensures IssueFolderName(md) == "Numéro 42 |  1991"
  {
    TwoDigitExamples();
    YearExample();
    assert MonthNames(md.month) == [] by { assert md.month[..0] == []; }
    assert PublicationDate(md) == "" + " " + "1991";
  }

  /** Month numbers none of which is in 1..12 name no month at all. */
  lemma {:induction false} NoValidMonthNoName(nums: seq<uint8>)
    requires forall i :: 0 <= i < |nums| ==> !(1 <= nums[i] <= 12)
    ensures MonthNames(nums) == []
    decreases |nums|
  {
    if nums != [] {
      NoValidMonthNoName(nums[..|nums| - 1]);
    }
  }

  /** When no month number is valid the date part is only " <Year>", so the issue
      folder name has two spaces after the bar; the number is still padded. */
  lemma IssueFolderNameWithoutMonths(md: MagazineMetadata)
    requires forall i :: 0 <= i < |md.month| ==> !(1 <= md.month[i] <= 12)
    ensures IssueFolderName(md) == "Numéro " + FormatInt(md.number, 2) + " |  " + FormatInt(md.year, 0)
  {
    NoValidMonthNoName(md.month);
    assert Join([], MonthSeparator) == "";
  }

  // ---------------------------------------------------------------------------
  // Which files a run writes

  function FileAt(d: Disk, p: Path): Option<Bytes> {
    if p in d.files then Some(d.files[p]) else None
  }

  function Sources(copies: seq<PageCopy>): set<Path>
    decreases |copies|
  {
    if copies == [] then {} else {copies[0].src} + Sources(copies[1..])
  }

  function Destinations(copies: seq<PageCopy>): set<Path>
    decreases |copies|
  {
    if copies == [] then {} else {copies[0].dst} + Destinations(copies[1..])
  }

  predicate DistinctDestinations(copies: seq<PageCopy>)
    decreases |copies|
  {
    copies == [] || (copies[0].dst !in Destinations(copies[1..]) && DistinctDestinations(copies[1..]))
  }

  /** The transfers write pairwise different files, and none reads a file that one writes. */
  predicate Separate(copies: seq<PageCopy>) {
    DistinctDestinations(copies) && Sources(copies) !! Destinations(copies)
  }

  lemma {:induction false} CopiesMembership(copies: seq<PageCopy>, c: PageCopy)
    requires c in copies
    ensures c.src in Sources(copies) && c.dst in Destinations(copies)
    decreases |copies|
  {
    if c != copies[0] {
      assert c in copies[1..];
      CopiesMembership(copies[1..], c);
    }
  }

  /** One transfer changes at most its destination file and never a directory, and a
      failure names the transfer's own paths. */
  lemma CopyPageFrame(d: Disk, f: Faults, src: Path, dst: Path)
    ensures var r := CopyPage(d, f, src, dst);
      r.disk.dirs == d.dirs && d.files.Keys <= r.disk.files.Keys
    ensures var r := CopyPage(d, f, src, dst);
      forall p :: p != dst ==> FileAt(r.disk, p) == FileAt(d, p)
    ensures var r := CopyPage(d, f, src, dst);
      r.err.Some? ==> r.err.value in {OpenFailed(src), CreateFailed(dst), CopyFailed(src, dst)}
  {
  }

  /** A page whose file is a directory opens, its destination is created (truncated),
      and the copy then fails reading: the run stops with an empty destination file. */
  lemma CopyPageFromDirectory(d: Disk, f: Faults, src: Path, dst: Path)
    requires src in d.dirs && src !in d.files && src !in f.openDenied && CanCreate(d, f, dst)
    ensures CopyPage(d, f, src, dst) == Run(d.(files := d.files[dst := []]), Some(CopyFailed(src, dst)))
  {
  }

  /** The page loop changes no directory and no file other than its destinations. */
  lemma {:induction false} CopyAllFrame(d: Disk, f: Faults, copies: seq<PageCopy>)
    ensures CopyAll(d, f, copies).disk.dirs == d.dirs && d.files.Keys <= CopyAll(d, f, copies).disk.files.Keys
    ensures forall p :: p !in Destinations(copies) ==> FileAt(CopyAll(d, f, copies).disk, p) == FileAt(d, p)
    decreases |copies|
  {
    if copies != [] {
      var r := CopyPage(d, f, copies[0].src, copies[0].dst);
      CopyPageFrame(d, f, copies[0].src, copies[0].dst);
      if r.err.None? {
        CopyAllFrame(r.disk, f, copies[1..]);
      }
    }
  }

  /** The loop over `a + b` is the loop over `a`, then, only if that did not fail, the
      loop over `b`: after a failure the remaining transfers do nothing. */
  lemma {:induction false} CopyAllSplit(d: Disk, f: Faults, a: seq<PageCopy>, b: seq<PageCopy>)
    ensures CopyAll(d, f, a + b) ==
      var r := CopyAll(d, f, a);
      if r.err.Some? then r else CopyAll(r.disk, f, b)
    decreases |a|
  {
    if a == [] {
      assert a + b == b;
    } else {
      assert (a + b)[0] == a[0] && (a + b)[1..] == a[1..] + b;
      var r := CopyPage(d, f, a[0].src, a[0].dst);
      if r.err.None? {
        CopyAllSplit(r.disk, f, a[1..], b);
      }
    }
  }

  /** A failing loop failed at one transfer `k`: those before it all went through, and
      the loop's result is exactly that transfer's failed attempt. */
  lemma {:induction false} CopyAllStopsAtFailure(d: Disk, f: Faults, copies: seq<PageCopy>) returns (k: nat)
    requires CopyAll(d, f, copies).err.Some?
    ensures k < |copies| && CopyAll(d, f, copies[..k]).err.None?
    ensures CopyAll(d, f, copies) == CopyPage(CopyAll(d, f, copies[..k]).disk, f, copies[k].src, copies[k].dst)
    decreases |copies|
  {
    var r := CopyPage(d, f, copies[0].src, copies[0].dst);
    if r.err.Some? {
      assert copies[..0] == [];
      k := 0;
    } else {
      var j := CopyAllStopsAtFailure(r.disk, f, copies[1..]);
      k := j + 1;
      assert copies[..k][0] == copies[0] && copies[..k][1..] == copies[1..][..j];
      assert copies[1..][j] == copies[k];
    }
  }

  /** A loop that went through read every source and holds, at every destination, the
      bytes its source held before. */
  lemma {:induction false} CopyAllContents(d: Disk, f: Faults, copies: seq<PageCopy>)
    requires Separate(copies) && CopyAll(d, f, copies).err.None?
    ensures forall c :: c in copies ==>
      c.src in d.files && FileAt(CopyAll(d, f, copies).disk, c.dst) == FileAt(d, c.src)
    decreases |copies|
  {
    if copies != [] {
      var head, rest := copies[0], copies[1..];
      var r := CopyPage(d, f, head.src, head.dst);
      var final := CopyAll(d, f, copies).disk;
      CopyPageFrame(d, f, head.src, head.dst);
      CopiesMembership(copies, head);
      CopyAllContents(r.disk, f, rest);
      CopyAllFrame(r.disk, f, rest);
      forall c | c in copies
        ensures c.src in d.files && FileAt(final, c.dst) == FileAt(d, c.src)
      {
        CopiesMembership(copies, c);
        if c != head {
          assert c in rest;
        }
      }
    }
  }

  /** When several transfers write the same destination, the last one decides what it
      holds: after a loop that went through, a destination that no later transfer writes
      holds the original bytes of its transfer's source, provided no source is also a
      destination. */
  lemma {:induction false} CopyAllLastWriter(d: Disk, f: Faults, copies: seq<PageCopy>, i: nat)
    requires CopyAll(d, f, copies).err.None? && Sources(copies) !! Destinations(copies)
    requires i < |copies| && forall j :: i < j < |copies| ==> copies[j].dst != copies[i].dst
    ensures FileAt(CopyAll(d, f, copies).disk, copies[i].dst) == FileAt(d, copies[i].src)
    decreases |copies|
  {
    var head, rest := copies[0], copies[1..];
    var r := CopyPage(d, f, head.src, head.dst);
    CopyPageFrame(d, f, head.src, head.dst);
    CopiesMembership(copies, head);
    assert Sources(copies) == {head.src} + Sources(rest) && Destinations(copies) == {head.dst} + Destinations(rest);
    if i == 0 {
      if head.dst in Destinations(rest) {
        var c := DestinationOf(rest, head.dst);
        assert false;
      }
      CopyAllFrame(r.disk, f, rest);
    } else {
      assert rest[i - 1] == copies[i];
      CopiesMembership(copies, copies[i]);
      CopyAllLastWriter(r.disk, f, rest, i - 1);
    }
  }

  /** Whether the loop goes through depends only on the directories and on which sources
      are files: on a disk with the same directories that has every source file the
      first disk had, a loop that went through goes through again. */
  lemma {:induction false} CopyAllSucceedsAgain(d: Disk, e: Disk, f: Faults, copies: seq<PageCopy>)
    requires CopyAll(d, f, copies).err.None?
    requires e.dirs == d.dirs && forall p :: p in Sources(copies) && p in d.files ==> p in e.files
    ensures CopyAll(e, f, copies).err.None?
    decreases |copies|
  {
    if copies != [] {
      var head := copies[0];
      CopiesMembership(copies, head);
      var rd, re := CopyPage(d, f, head.src, head.dst), CopyPage(e, f, head.src, head.dst);
      CopyPageFrame(d, f, head.src, head.dst);
      CopyPageFrame(e, f, head.src, head.dst);
      assert re.err.None? && rd.disk.files.Keys == d.files.Keys + {head.dst} && re.disk.files.Keys == e.files.Keys + {head.dst};
      assert Sources(copies) == {head.src} + Sources(copies[1..]);
      CopyAllSucceedsAgain(rd.disk, re.disk, f, copies[1..]);
    }
  }

  lemma FilesExtensional(a: Disk, b: Disk)
    requires forall p :: FileAt(a, p) == FileAt(b, p)
    ensures a.files == b.files
  {
    assert forall p :: p in a.files <==> FileAt(a, p).Some?;
    assert forall p :: p in b.files <==> FileAt(b, p).Some?;
    assert a.files.Keys == b.files.Keys;
    forall p | p in a.files ensures a.files[p] == b.files[p] {
      assert FileAt(a, p) == FileAt(b, p);
    }
  }

  // ---------------------------------------------------------------------------
  // The transfers of one page set

  /** Page numbers are pairwise different, as the scanner numbers them 1..N. */
  predicate DistinctNumbers(pages: seq<MagazinePage>) {
    forall i, j :: 0 <= i < j < |pages| ==> pages[i].number != pages[j].number
  }

  lemma {:induction false} PageCopiesAt(source: Path, issue: Path, pages: seq<MagazinePage>)
    ensures |PageCopies(source, issue, pages)| == |pages|
    ensures forall i :: 0 <= i < |pages| ==>
      PageCopies(source, issue, pages)[i] == PageCopy(PagePath(source, pages[i]), DestinationPath(issue, pages[i]))
    decreases |pages|
  {
    if pages != [] {
      PageCopiesAt(source, issue, pages[1..]);
      forall i | 0 < i < |pages|
        ensures PageCopies(source, issue, pages)[i] == PageCopy(PagePath(source, pages[i]), DestinationPath(issue, pages[i]))
      {
        assert pages[1..][i - 1] == pages[i];
      }
    }
  }

  /** Every source lies directly in the page set's folder, every destination directly
      in the issue folder. */
  lemma {:induction false} PageCopiesFolders(source: Path, issue: Path, pages: seq<MagazinePage>)
    ensures forall p :: p in Sources(PageCopies(source, issue, pages)) ==> p != [] && Parent(p) == source
    ensures forall p :: p in Destinations(PageCopies(source, issue, pages)) ==> p != [] && Parent(p) == issue
    decreases |pages|
  {
    if pages != [] {
      PageCopiesFolders(source, issue, pages[1..]);
      assert Parent(PagePath(source, pages[0])) == source;
      assert Parent(DestinationPath(issue, pages[0])) == issue;
    }
  }

  lemma DestinationsDiffer(issue: Path, p: MagazinePage, q: MagazinePage)
    requires p.number != q.number
    ensures DestinationPath(issue, p) != DestinationPath(issue, q)
  {
    assert DestinationPath(issue, p)[|issue|] == PageFileName(p);
    assert DestinationPath(issue, q)[|issue|] == PageFileName(q);
    if PageFileName(p) == PageFileName(q) {
      PageFileNameInjective(p, q);
    }
  }

  /** A page whose number no page of `pages` has is written nowhere among their destinations. */
  lemma {:induction false} NotADestination(source: Path, issue: Path, pages: seq<MagazinePage>, q: MagazinePage)
    requires forall j :: 0 <= j < |pages| ==> pages[j].number != q.number
    ensures DestinationPath(issue, q) !in Destinations(PageCopies(source, issue, pages))
    decreases |pages|
  {
    if pages != [] {
      DestinationsDiffer(issue, q, pages[0]);
      forall j | 0 <= j < |pages[1..]| ensures pages[1..][j].number != q.number {
        assert pages[1..][j] == pages[j + 1];
      }
      NotADestination(source, issue, pages[1..], q);
    }
  }

  /** Distinct page numbers and a source folder other than the issue folder make the
      transfers separate: no page overwrites another and none reads a written file. */
  lemma {:induction false} PageCopiesSeparate(source: Path, issue: Path, pages: seq<MagazinePage>)
    requires source != issue && DistinctNumbers(pages)
    ensures Separate(PageCopies(source, issue, pages))
    decreases |pages|
  {
    PageCopiesFolders(source, issue, pages);
    if pages != [] {
      var rest := pages[1..];
      assert DistinctNumbers(rest) by {
        forall i, j | 0 <= i < j < |rest| ensures rest[i].number != rest[j].number {
          assert rest[i] == pages[i + 1] && rest[j] == pages[j + 1];
        }
      }
      PageCopiesSeparate(source, issue, rest);
      forall j | 0 <= j < |rest| ensures rest[j].number != pages[0].number {
        assert rest[j] == pages[j + 1];
      }
      NotADestination(source, issue, rest, pages[0]);
    }
  }

  // ---------------------------------------------------------------------------
  // One publication

  /** A run that went through made each folder that was absent and changed no file
      other than its destinations; when the transfers are separate, every destination
      holds the bytes of its source. */
  lemma RenameFilesCopiesEveryPage(d: Disk, f: Faults, publication: Path, issue: Path, copies: seq<PageCopy>)
    requires RenameAt(d, f, publication, issue, copies).err.None?
    ensures var r := RenameAt(d, f, publication, issue, copies);
      r.disk.dirs == d.dirs + ({publication, issue} - d.files.Keys)
    ensures var r := RenameAt(d, f, publication, issue, copies);
      Separate(copies) ==> forall c :: c in copies ==> c.src in d.files && FileAt(r.disk, c.dst) == FileAt(d, c.src)
    ensures var r := RenameAt(d, f, publication, issue, copies);
      forall p :: p !in Destinations(copies) ==> FileAt(r.disk, p) == FileAt(d, p)
  {
    var pub := EnsureDir(d, f, publication);
    var iss := EnsureDir(pub.disk, f, issue);
    if Separate(copies) {
      CopyAllContents(iss.disk, f, copies);
    }
    CopyAllFrame(iss.disk, f, copies);
    assert forall p :: FileAt(iss.disk, p) == FileAt(d, p);
  }

  /** A run that cannot make a folder names that folder, found it absent, and wrote no file. */
  lemma RenameFilesMkdirFailure(d: Disk, f: Faults, publication: Path, issue: Path, copies: seq<PageCopy>)
    requires var r := RenameAt(d, f, publication, issue, copies); r.err.Some? && r.err.value.MkdirFailed?
    ensures var r := RenameAt(d, f, publication, issue, copies);
      r.err.value.dir in {publication, issue} && !Present(d, r.err.value.dir) && r.disk.files == d.files
  {
    var pub := EnsureDir(d, f, publication);
    var iss := EnsureDir(pub.disk, f, issue);
    if pub.err.None? && iss.err.None? {
      var k := CopyAllStopsAtFailure(iss.disk, f, copies);
      CopyPageFrame(CopyAll(iss.disk, f, copies[..k]).disk, f, copies[k].src, copies[k].dst);
    }
  }

  /** A run that fails on a page failed at one transfer `k` and names its paths; when
      the transfers are separate, every earlier destination holds its source's bytes
      and no later destination was touched. */
  lemma RenameFilesStopsAtFirstFailingPage(d: Disk, f: Faults, publication: Path, issue: Path, copies: seq<PageCopy>)
    returns (k: nat)
    requires var r := RenameAt(d, f, publication, issue, copies); r.err.Some? && !r.err.value.MkdirFailed?
    ensures k < |copies|
    ensures RenameAt(d, f, publication, issue, copies).err.value
      in {OpenFailed(copies[k].src), CreateFailed(copies[k].dst), CopyFailed(copies[k].src, copies[k].dst)}
    ensures Separate(copies) ==> forall i :: 0 <= i < k ==>
      FileAt(RenameAt(d, f, publication, issue, copies).disk, copies[i].dst) == FileAt(d, copies[i].src)
    ensures Separate(copies) ==> forall i :: k < i < |copies| ==>
      FileAt(RenameAt(d, f, publication, issue, copies).disk, copies[i].dst) == FileAt(d, copies[i].dst)
  {
    var pub := EnsureDir(d, f, publication);
    var iss := EnsureDir(pub.disk, f, issue);
    var e := iss.disk;
    assert forall p :: FileAt(e, p) == FileAt(d, p);
    k := CopyAllStopsAtFailure(e, f, copies);
    if !Separate(copies) {
      return;
    }
    var prefix, suffix := copies[..k], copies[k + 1..];
    assert copies == prefix + [copies[k]] + suffix;
    var before := CopyAll(e, f, prefix);
    CopyPageFrame(before.disk, f, copies[k].src, copies[k].dst);
    SeparateParts(copies, k);
    CopyAllContents(e, f, prefix);
    CopyAllFrame(e, f, prefix);
    forall i | 0 <= i < k ensures copies[i].dst != copies[k].dst && copies[i] in prefix {
      assert prefix[i] == copies[i];
      CopiesMembership(prefix, copies[i]);
    }
    forall i | k < i < |copies| ensures copies[i].dst != copies[k].dst && copies[i].dst !in Destinations(prefix) {
      assert suffix[i - k - 1] == copies[i];
      CopiesMembership(suffix, copies[i]);
    }
  }

  /** In separate transfers, the destinations of the part before `k`, of transfer `k`
      and of the part after it are disjoint, and the parts are separate. */
  lemma SeparateParts(copies: seq<PageCopy>, k: nat)
    requires Separate(copies) && k < |copies|
    ensures Separate(copies[..k])
    ensures copies[k].dst !in Destinations(copies[..k]) && copies[k].dst !in Destinations(copies[k + 1..])
    ensures Destinations(copies[..k]) !! Destinations(copies[k + 1..])
  {
    assert copies[..k] + copies[k..] == copies;
    SeparateSplit(copies[..k], copies[k..]);
    assert copies[k..][0] == copies[k] && copies[k..][1..] == copies[k + 1..];
  }

  /** Separate transfers split into two separate parts with disjoint destinations. */
  lemma {:induction false} SeparateSplit(a: seq<PageCopy>, b: seq<PageCopy>)
    requires Separate(a + b)
    ensures Separate(a) && Separate(b) && Destinations(a) !! Destinations(b)
    ensures Sources(a + b) == Sources(a) + Sources(b) && Destinations(a + b) == Destinations(a) + Destinations(b)
    decreases |a|
  {
    if a == [] {
      assert a + b == b;
    } else {
      assert (a + b)[0] == a[0] && (a + b)[1..] == a[1..] + b;
      SeparateSplit(a[1..], b);
    }
  }

  /** Running the same publication again leaves the directories as they are; when the
      first run went through, the second goes through too, and when the transfers are
      separate it leaves the disk as the first run left it (each destination is
      overwritten with the same bytes). */
  lemma RenameFilesTwice(d: Disk, f: Faults, publication: Path, issue: Path, copies: seq<PageCopy>)
    ensures var r1 := RenameAt(d, f, publication, issue, copies);
      RenameAt(r1.disk, f, publication, issue, copies).disk.dirs == r1.disk.dirs
    ensures var r1 := RenameAt(d, f, publication, issue, copies);
      r1.err.None? ==> RenameAt(r1.disk, f, publication, issue, copies).err.None?
    ensures var r1 := RenameAt(d, f, publication, issue, copies);
      Separate(copies) && r1.err.None? ==> RenameAt(r1.disk, f, publication, issue, copies) == r1
  {
    var r1 := RenameAt(d, f, publication, issue, copies);
    var pub := EnsureDir(d, f, publication);
    var iss := EnsureDir(pub.disk, f, issue);
    if pub.err.None? && iss.err.None? {
      var e := iss.disk;
      CopyAllFrame(e, f, copies);
      assert r1.disk.files.Keys >= e.files.Keys;
      var r2 := RenameAt(r1.disk, f, publication, issue, copies);
      assert r2 == CopyAll(r1.disk, f, copies);
      CopyAllFrame(r1.disk, f, copies);
      if r1.err.None? {
        CopyAllSucceedsAgain(e, r1.disk, f, copies);
      }
      if Separate(copies) && r1.err.None? {
        CopyAllContents(e, f, copies);
        CopyAllContents(r1.disk, f, copies);
        forall p ensures FileAt(r2.disk, p) == FileAt(r1.disk, p) {
          if p in Destinations(copies) {
            var c := DestinationOf(copies, p);
            CopiesMembership(copies, c);
          }
        }
        FilesExtensional(r2.disk, r1.disk);
      }
    }
  }

  /** The transfer that writes a given destination. */
  lemma {:induction false} DestinationOf(copies: seq<PageCopy>, p: Path) returns (c: PageCopy)
    requires p in Destinations(copies)
    ensures c in copies && c.dst == p
    decreases |copies|
  {
    if copies[0].dst == p {
      c := copies[0];
    } else {
      c := DestinationOf(copies[1..], p);
    }
  }

  /** In the copier's own terms: a publication with distinct page numbers, whose page
      folder is not its issue folder, that went through holds every page's source bytes
      at `<issue folder>/<NNN><.ext>`. */
  lemma RenameOutcomeCopiesEveryPage(d: Disk, f: Faults, wd: Path, m: Magazine)
    requires m.folder != IssueFolder(wd, m.metadata) && DistinctNumbers(m.pages)
    requires RenameOutcome(d, f, wd, m).err.None?
    ensures forall i :: 0 <= i < |m.pages| ==>
      PagePath(m.folder, m.pages[i]) in d.files &&
      FileAt(RenameOutcome(d, f, wd, m).disk, DestinationPath(IssueFolder(wd, m.metadata), m.pages[i]))
        == FileAt(d, PagePath(m.folder, m.pages[i]))
  {
    var issue := IssueFolder(wd, m.metadata);
    var copies := PageCopies(m.folder, issue, m.pages);
    PageCopiesSeparate(m.folder, issue, m.pages);
    RenameFilesCopiesEveryPage(d, f, PublicationFolder(wd, m.metadata), issue, copies);
    PageCopiesAt(m.folder, issue, m.pages);
    forall i | 0 <= i < |m.pages| ensures copies[i] in copies {
    }
  }

  // ---------------------------------------------------------------------------
  // Runs that go through

  /** Where nothing is refused, the page loop goes through as long as every source
      is a file, every destination's folder is a directory and no destination is one;
      a transfer may overwrite another's source or destination without harm. */
  lemma {:induction false} CopyAllSucceeds(d: Disk, copies: seq<PageCopy>)
    requires forall c :: c in copies ==>
      c.src in d.files && c.dst != [] && Parent(c.dst) in d.dirs && c.dst !in d.dirs
    ensures CopyAll(d, NoFaults, copies).err.None?
    decreases |copies|
  {
    if copies != [] {
      var head := copies[0];
      CopiesMembership(copies, head);
      CopyPageFrame(d, NoFaults, head.src, head.dst);
      var r := CopyPage(d, NoFaults, head.src, head.dst);
      forall c | c in copies[1..]
        ensures c.src in r.disk.files && c.dst != [] && Parent(c.dst) in r.disk.dirs && c.dst !in r.disk.dirs
      {
        assert c in copies;
      }
      CopyAllSucceeds(r.disk, copies[1..]);
    }
  }

  /** Where nothing is refused, `renameFiles` goes through when the parent of the
      publication folder exists, neither folder is taken by a file, and the page loop's
      conditions hold in the issue folder. */
  lemma RenameAtSucceeds(d: Disk, publication: Path, issue: Path, copies: seq<PageCopy>)
    requires publication != [] && Parent(publication) in d.dirs && publication !in d.files
    requires issue != [] && Parent(issue) == publication && issue !in d.files
    requires forall c :: c in copies ==>
      c.src in d.files && c.dst != [] && Parent(c.dst) == issue && c.dst !in d.dirs
    ensures RenameAt(d, NoFaults, publication, issue, copies).err.None?
  {
    var pub := EnsureDir(d, NoFaults, publication);
    var iss := EnsureDir(pub.disk, NoFaults, issue);
    assert iss.err.None? && iss.disk.files == d.files && issue in iss.disk.dirs;
    forall c | c in copies ensures c.dst !in iss.disk.dirs {
      assert |c.dst| == |issue| + 1;
    }
    CopyAllSucceeds(iss.disk, copies);
  }

  /** In the copier's own terms: with nothing refused, an existing working directory,
      both folder names free of files, every page's source a file and no directory in
      the way of a page file, the transfer goes through, pages sharing a number
      included (what their shared page file then holds is `CopyAllLastWriter`). */
  lemma RenameOutcomeSucceeds(d: Disk, wd: Path, m: Magazine)
    requires wd in d.dirs
    requires PublicationFolder(wd, m.metadata) !in d.files && IssueFolder(wd, m.metadata) !in d.files
    requires forall i :: 0 <= i < |m.pages| ==>
      PagePath(m.folder, m.pages[i]) in d.files && DestinationPath(IssueFolder(wd, m.metadata), m.pages[i]) !in d.dirs
    ensures RenameOutcome(d, NoFaults, wd, m).err.None?
  {
    var issue := IssueFolder(wd, m.metadata);
    var copies := PageCopies(m.folder, issue, m.pages);
    PageCopiesAt(m.folder, issue, m.pages);
    forall c | c in copies
      ensures c.src in d.files && c.dst != [] && Parent(c.dst) == issue && c.dst !in d.dirs
    {
      var i :| 0 <= i < |copies| && copies[i] == c;
      assert Parent(DestinationPath(issue, m.pages[i])) == issue;
    }
    RenameAtSucceeds(d, PublicationFolder(wd, m.metadata), issue, copies);
  }

  /** The source folder `in/A1` of the scenario below. */
  const TiltSource: Path := ["in", "A1"]

  /** The issue folder the scenario below expects. */
  const TiltIssue: Path := ["out", "test-Tilt", "Numéro 42 | Juin 1991"]

  /** Tilt number 42 of June 1991 with its three pages `p1.jpg`, `p2.jpg`, `p3.jpg`. */
  function TiltMagazine(): Magazine {
    Magazine(MagazineMetadata("Tilt", 42, [6], 1991),
      [MagazinePage("p1.jpg", 1), MagazinePage("p2.jpg", 2), MagazinePage("p3.jpg", 3)], TiltSource)
  }

  /** A disk with the folders `out` and `in/A1` and the three page files in the latter. */
  function TiltDisk(b1: Bytes, b2: Bytes, b3: Bytes): Disk {
    Disk({["out"], ["in"], TiltSource},
      map[TiltSource + ["p1.jpg"] := b1, TiltSource + ["p2.jpg"] := b2, TiltSource + ["p3.jpg"] := b3])
  }

  /** The transfer of Tilt 42 into `out` goes through and leaves each page's bytes at
      `out/test-Tilt/Numéro 42 | Juin 1991/00N.jpg`. */
  lemma TiltScenario(d: Disk, m: Magazine, b1: Bytes, b2: Bytes, b3: Bytes)
    requires d == TiltDisk(b1, b2, b3) && m == TiltMagazine()
    ensures RenameOutcome(d, NoFaults, ["out"], m).err.None?
    ensures var r := RenameOutcome(d, NoFaults, ["out"], m);
      FileAt(r.disk, TiltIssue + ["001.jpg"]) == Some(b1) &&
      FileAt(r.disk, TiltIssue + ["002.jpg"]) == Some(b2) &&
      FileAt(r.disk, TiltIssue + ["003.jpg"]) == Some(b3)
  {
    var issue := IssueFolder(["out"], m.metadata);
    assert issue == TiltIssue by {
      IssueFolderNameExample(m.metadata);
      assert "test-" + "Tilt" == "test-Tilt";
    }
    assert PublicationFolder(["out"], m.metadata) !in d.files && issue !in d.files by {
      assert forall p :: p in d.files ==> p[0] == "in";
    }
    assert DistinctNumbers(m.pages);
    forall i | 0 <= i < |m.pages|
      ensures PagePath(m.folder, m.pages[i]) in d.files && DestinationPath(issue, m.pages[i]) !in d.dirs
    {
      assert |DestinationPath(issue, m.pages[i])| == 4;
    }
    RenameOutcomeSucceeds(d, ["out"], m);
    RenameOutcomeCopiesEveryPage(d, NoFaults, ["out"], m);
    JpgPageNames();
    assert DestinationPath(TiltIssue, m.pages[0]) == TiltIssue + ["001.jpg"];
    assert DestinationPath(TiltIssue, m.pages[1]) == TiltIssue + ["002.jpg"];
    assert DestinationPath(TiltIssue, m.pages[2]) == TiltIssue + ["003.jpg"];
    TiltSources(d, b1, b2, b3);
  }

  /** The scenario's disk holds each page's bytes under its own name. */
  lemma TiltSources(d: Disk, b1: Bytes, b2: Bytes, b3: Bytes)
    requires d == TiltDisk(b1, b2, b3)
    ensures FileAt(d, TiltSource + ["p1.jpg"]) == Some(b1)
    ensures FileAt(d, TiltSource + ["p2.jpg"]) == Some(b2)
    ensures FileAt(d, TiltSource + ["p3.jpg"]) == Some(b3)
  {
    var k1, k2, k3 := TiltSource + ["p1.jpg"], TiltSource + ["p2.jpg"], TiltSource + ["p3.jpg"];
    assert k1[2] == "p1.jpg" && k2[2] == "p2.jpg" && k3[2] == "p3.jpg";
    assert "p1.jpg"[1] != "p2.jpg"[1] && "p1.jpg"[1] != "p3.jpg"[1] && "p2.jpg"[1] != "p3.jpg"[1];
    assert k1 != k2 && k1 != k3 && k2 != k3;
  }

  /** `%03d` of a one-digit page number. */
  lemma OneDigitPadded(n: nat)
    requires 1 <= n <= 9
    ensures FormatInt(n, 3) == "00" + [DigitChar(n)]
  {
    var s := [DigitChar(n)];
    assert Decimal(n) == s;
    assert ZeroPad(s, 3) == ZeroPad("0" + s, 3) == ZeroPad("00" + s, 3);
  }

  /** The extension of a `p<digit>.jpg` file. */
  lemma ExtJpg(c: char)
    ensures Ext(['p', c, '.', 'j', 'p', 'g']) == ".jpg"
  {
    var s := ['p', c, '.', 'j', 'p', 'g'];
    assert s[..5] == ['p', c, '.', 'j', 'p'];
    assert s[..5][..4] == ['p', c, '.', 'j'];
    assert s[..5][..4][..3] == ['p', c, '.'];
    assert Ext(['p', c, '.']) == ".";
    assert Ext(['p', c, '.', 'j']) == ".j";
    assert Ext(['p', c, '.', 'j', 'p']) == ".jp";
  }

  /** The three page names of the scenario. */
  lemma JpgPageNames()
    ensures PageFileName(MagazinePage("p1.jpg", 1)) == "001.jpg"
    ensures PageFileName(MagazinePage("p2.jpg", 2)) == "002.jpg"
    ensures PageFileName(MagazinePage("p3.jpg", 3)) == "003.jpg"
  {
    OneDigitPadded(1);
    OneDigitPadded(2);
    OneDigitPadded(3);
    ExtJpg('1');
    ExtJpg('2');
    ExtJpg('3');
    assert ToLower(".jpg") == ".jpg";
  }

  // ---------------------------------------------------------------------------
  // The monitor

  /** `monitor` takes publications in order and stops at the first whose transfer
      fails: every publication before it went through, the failing one is the last
      taken, its error is the one returned, and nothing after it is taken. When none
      fails, all are taken and no error is returned. */
  lemma {:induction false} MonitorStopsAtFirstFailure(d: Disk, f: Faults, wd: Path, ms: seq<Magazine>)
    ensures var t := MonitorOutcome(d, f, wd, ms);
      t.consumed <= |ms| && (t.err.None? ==> t.consumed == |ms|)
    ensures var t := MonitorOutcome(d, f, wd, ms);
      t.err.Some? ==> (1 <= t.consumed &&
        var before := MonitorOutcome(d, f, wd, ms[..t.consumed - 1]);
        var last := RenameOutcome(before.disk, f, wd, ms[t.consumed - 1]);
        before.err.None? && last.err == t.err && last.disk == t.disk)
    decreases |ms|
  {
    if ms != [] {
      var r := RenameOutcome(d, f, wd, ms[0]);
      if r.err.Some? {
        assert ms[..0] == [];
      } else {
        MonitorStopsAtFirstFailure(r.disk, f, wd, ms[1..]);
        var rest := MonitorOutcome(r.disk, f, wd, ms[1..]);
        if rest.err.Some? {
          MonitorFailureStep(d, f, wd, ms, r, rest);
        }
      }
    }
  }

  /** The inductive step of `MonitorStopsAtFirstFailure`: when the first publication
      went through and the rest of the channel failed at its `k`-th publication, the
      whole channel failed at the one after, with the same error and disk. */
  lemma MonitorFailureStep(d: Disk, f: Faults, wd: Path, ms: seq<Magazine>, r: Run, rest: Transfer)
    requires ms != [] && r == RenameOutcome(d, f, wd, ms[0]) && r.err.None?
    requires rest == MonitorOutcome(r.disk, f, wd, ms[1..]) && rest.err.Some?
    requires 1 <= rest.consumed <= |ms| - 1
    requires var before := MonitorOutcome(r.disk, f, wd, ms[1..][..rest.consumed - 1]);
      var last := RenameOutcome(before.disk, f, wd, ms[1..][rest.consumed - 1]);
      before.err.None? && last.err == rest.err && last.disk == rest.disk
    ensures var t := MonitorOutcome(d, f, wd, ms);
      t.err == rest.err && t.consumed == 1 + rest.consumed &&
      var before := MonitorOutcome(d, f, wd, ms[..t.consumed - 1]);
      var last := RenameOutcome(before.disk, f, wd, ms[t.consumed - 1]);
      before.err.None? && last.err == t.err && last.disk == t.disk
  {
    var k := rest.consumed - 1;
    MonitorPrefixCons(d, f, wd, ms, k);
    assert ms[1..][k] == ms[k + 1];
  }

  /** A prefix of the channel whose first publication went through is handled as that
      publication, then the rest of the prefix from the disk it left. */
  lemma MonitorPrefixCons(d: Disk, f: Faults, wd: Path, ms: seq<Magazine>, k: nat)
    requires k < |ms| && RenameOutcome(d, f, wd, ms[0]).err.None?
    ensures MonitorOutcome(d, f, wd, ms[..k + 1]) ==
      var rest := MonitorOutcome(RenameOutcome(d, f, wd, ms[0]).disk, f, wd, ms[1..][..k]);
      Transfer(rest.disk, 1 + rest.consumed, rest.err)
  {
    assert ms[..k + 1][0] == ms[0] && ms[..k + 1][1..] == ms[1..][..k];
  }
}
