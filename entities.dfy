/** The records that flow between the pipeline stages: pages, page sets,
    publications and their metadata, the table of contents and the tested
    game. Go's `uint8` and `int32` fields keep their bounds; Go's `int`
    fields are unbounded here. */
module Entities {

  type uint8 = x: int | 0 <= x < 0x100
  type int32 = x: int | -0x8000_0000 <= x < 0x8000_0000

  /** A path as the sequence of its segments; `filepath.Join(p, s)` is `p + [s]`. */
  type Path = seq<string>

  /** The content of a file. */
  type Bytes = seq<uint8>

  datatype Option<T> = None | Some(value: T)

  /** One scanned page: its file name inside the page set's folder and its position. */
  datatype MagazinePage = MagazinePage(file: string, number: uint8)

  /** The ordered pages of one source folder, as the scanner hands them on. */
  datatype MagazinePages = MagazinePages(folder: Path, pages: seq<MagazinePage>)

  /** What the cover analysis decodes: title, issue number, months and year. */
  datatype MagazineMetadata = MagazineMetadata(title: string, number: int, month: seq<uint8>, year: int)

  /** A described publication, the unit the copier consumes. */
  datatype Magazine = Magazine(metadata: MagazineMetadata, pages: seq<MagazinePage>, folder: Path)

  datatype TableContentEntry = TableContentEntry(title: string, pageNumbers: seq<uint8>)

  datatype TableContent = TableContent(error: string, entries: seq<TableContentEntry>)

  /** The zero value of a `TableContent` variable. */
  const EmptyTableContent := TableContent("", [])

  datatype Game = Game(title: string, console: string, score: int32, outOf: int32)

  /** `filepath.Join(folder, page.File)`: a page's file inside its page set's folder. */
  function PagePath(folder: Path, page: MagazinePage): Path {
    folder + [page.file]
  }

  lemma ConcatAssoc<T>(a: seq<T>, b: seq<T>, c: seq<T>)
    ensures (a + b) + c == a + (b + c)
  {
  }

  /** Taking the first element off `a[j..] + b`. */
  lemma SuffixConcatTail<T>(a: seq<T>, j: nat, b: seq<T>)
    requires j < |a|
    ensures (a[j..] + b)[0] == a[j] && (a[j..] + b)[1..] == a[j + 1..] + b
  {
    assert (a[j..] + b)[1..] == a[j..][1..] + b;
  }
}
