/** What the analyzer promises: a page set without pages costs nothing, the cover
    pass asks about the cover once and sends on at most one publication made of
    the page set itself, the search asks about candidate pages strictly in order
    and stops at the first usable table, the game queries go number by number,
    and the monitor's output is the cover passes' publications in input order. */
module AnalyzerProperties {
  import opened Entities
  import opened FileSystem
  import opened Inference
  import opened Analyzer

  // ---------------------------------------------------------------------------
  // Empty page sets

  /** A page set without pages makes no request, sends nothing on and cannot panic. */
  lemma EmptyPageSet(w: World, ps: MagazinePages)
    requires |ps.pages| == 0
    ensures CoverPass(w, ps) == CoverResult([], None)
    ensures TocPass(w, ps) == TocResult([], false, [])
  {
  }

  // ---------------------------------------------------------------------------
  // The cover pass

  /** The cover pass sends at most one request: about `Pages[0]`, with the cover
      prompt, and it sends it exactly when the cover can be opened. */
  lemma CoverPassQueriesTheCover(w: World, ps: MagazinePages)
    ensures |CoverPass(w, ps).calls| <= 1
    ensures |CoverPass(w, ps).calls| == 1 <==> |ps.pages| > 0 && Readable(w, PagePath(ps.folder, ps.pages[0]))
    ensures |CoverPass(w, ps).calls| == 1 ==> CoverPass(w, ps).calls[0] == Request(CoverPage, PagePath(ps.folder, ps.pages[0]))
  {
  }

  /** Nothing is sent on when the cover cannot be opened, the request fails, the
      answer is "" or "Unknown", or the answer does not decode. */
  lemma CoverPassFailures(w: World, ps: MagazinePages)
    requires |ps.pages| > 0
    ensures var cover := PagePath(ps.folder, ps.pages[0]);
      !Readable(w, cover) || Reply(w, CoverPage, cover).Failed? ==> CoverPass(w, ps).emitted.None?
    ensures var cover := PagePath(ps.folder, ps.pages[0]);
      Reply(w, CoverPage, cover) == Text("") || Reply(w, CoverPage, cover) == Text("Unknown") ==>
        CoverPass(w, ps).emitted.None?
    ensures var cover := PagePath(ps.folder, ps.pages[0]);
      (forall s :: Reply(w, CoverPage, cover) == Text(s) ==> w.decode.metadata(s).None?) ==>
        CoverPass(w, ps).emitted.None?
  {
  }

  /** A publication is sent on exactly when the cover was readable and its answer an
      undisputed description; it is that description with the page set's own pages
      and folder. */
  lemma CoverPassEmits(w: World, ps: MagazinePages)
    ensures CoverPass(w, ps).emitted.Some? <==>
      |ps.pages| > 0 && Readable(w, PagePath(ps.folder, ps.pages[0])) &&
      var r := Reply(w, CoverPage, PagePath(ps.folder, ps.pages[0]));
      r.Text? && r.s != "" && r.s != Unknown && w.decode.metadata(r.s).Some?
    ensures var c := CoverPass(w, ps);
      c.emitted.Some? ==>
        |c.calls| == 1 && c.emitted.value.pages == ps.pages && c.emitted.value.folder == ps.folder &&
        Some(c.emitted.value.metadata) == w.decode.metadata(Reply(w, CoverPage, PagePath(ps.folder, ps.pages[0])).s)
    ensures |Emit(CoverPass(w, ps))| <= 1
  {
  }

  /** A page set whose first page is a directory: `os.Stat` and `os.Open` succeed,
      `SendRequestWithImage` is called and fails reading the image before any request
      leaves, so nothing is sent on. */
  lemma CoverFromDirectory(w: World, ps: MagazinePages)
    requires |ps.pages| > 0
    requires var cover := PagePath(ps.folder, ps.pages[0]);
      cover in w.disk.dirs && cover !in w.disk.files && cover !in w.faults.openDenied
    ensures CoverPass(w, ps) == CoverResult([Request(CoverPage, PagePath(ps.folder, ps.pages[0]))], None)
  {
  }

  /** For a directory among the candidate or the referenced pages, `SendRequestWithImage`
      is called and fails reading the image before any request leaves, and the
      table-of-contents pass ends there. */
  lemma PageFromDirectory(w: World, p: Path)
    requires p in w.disk.dirs && p !in w.disk.files && p !in w.faults.openDenied
    ensures TocPage(w, p) == Abort([Request(TableOfContent, p)])
    ensures GamePage(w, p) == Halt([Request(GameTested, p)])
  {
  }

  // ---------------------------------------------------------------------------
  // The table-of-contents search

  /** The table-of-contents requests for the given pages, in their order. */
  function TocRequests(folder: Path, pages: seq<MagazinePage>): seq<Request>
    decreases |pages|
  {
    if pages == [] then [] else [Request(TableOfContent, PagePath(folder, pages[0]))] + TocRequests(folder, pages[1..])
  }

  /** What the search does with candidate `i`. */
  function Candidate(w: World, folder: Path, pages: seq<MagazinePage>, i: nat): TocAction
    requires i < |pages|
  {
    TocPage(w, PagePath(folder, pages[i]))
  }

  /** A candidate that ends the pass does so before its request or right after it. */
  lemma TocPageCalls(w: World, p: Path)
    ensures TocPage(w, p).Abort? ==>
      (TocPage(w, p).calls == [] <==> !Readable(w, p)) &&
      (TocPage(w, p).calls == [] || TocPage(w, p).calls == [Request(TableOfContent, p)])
    ensures TocPage(w, p).Accept? ==> Usable(TocPage(w, p).table)
    ensures TocPage(w, p).Skip? && TocPage(w, p).decoded.Some? ==> !Usable(TocPage(w, p).decoded.value)
  {
  }

  /** The search examines the candidates strictly in order up to a candidate `k`: every
      one before `k` was skipped (an undecodable answer or an unusable table); `k`
      itself ends the pass or is the first usable table, and no later candidate is
      asked about. When every candidate is skipped, every one was asked about. */
  lemma {:induction false} TocSearchInOrder(w: World, folder: Path, pages: seq<MagazinePage>, table: TableContent)
    returns (k: nat)
    ensures k <= |pages|
    ensures forall i :: 0 <= i < k ==> Candidate(w, folder, pages, i).Skip?
    ensures k < |pages| ==> !Candidate(w, folder, pages, k).Skip?
    ensures var s := TocSearch(w, folder, pages, table);
      k == |pages| ==> !s.aborted && s.calls == TocRequests(folder, pages)
    ensures var s := TocSearch(w, folder, pages, table);
      k < |pages| && Candidate(w, folder, pages, k).Abort? ==>
        s.aborted && s.calls == TocRequests(folder, pages[..k]) + Candidate(w, folder, pages, k).calls
    ensures var s := TocSearch(w, folder, pages, table);
      k < |pages| && Candidate(w, folder, pages, k).Accept? ==>
        !s.aborted && s.calls == TocRequests(folder, pages[..k + 1]) && s.table == Candidate(w, folder, pages, k).table
    decreases |pages|
  {
    if pages == [] {
      k := 0;
    } else {
      var a := Candidate(w, folder, pages, 0);
      assert pages[..0] == [];
      if a.Skip? {
        var rest := pages[1..];
        var j := TocSearchInOrder(w, folder, rest, if a.decoded.Some? then a.decoded.value else table);
        k := j + 1;
        forall i | 0 < i < k ensures Candidate(w, folder, pages, i) == Candidate(w, folder, rest, i - 1) {
          assert rest[i - 1] == pages[i];
        }
        var first := [Request(TableOfContent, PagePath(folder, pages[0]))];
        if k < |pages| {
          assert rest[j] == pages[k];
          assert pages[..k][0] == pages[0] && pages[..k][1..] == rest[..j];
          assert pages[..k + 1][0] == pages[0] && pages[..k + 1][1..] == rest[..j + 1];
          if Candidate(w, folder, pages, k).Abort? {
            ConcatAssoc(first, TocRequests(folder, rest[..j]), Candidate(w, folder, pages, k).calls);
          }
        }
      } else {
        k := 0;
        assert pages[..1][0] == pages[0] && pages[..1][1..] == [];
      }
    }
  }

  /** When every candidate is skipped, the table the game queries receive is the last
      one that decoded, or the table held before the search when none decoded, even
      though that table may report an error. */
  lemma {:induction false} ExhaustedSearchTable(w: World, folder: Path, pages: seq<MagazinePage>, table: TableContent)
    requires forall i :: 0 <= i < |pages| ==> Candidate(w, folder, pages, i).Skip?
    ensures var s := TocSearch(w, folder, pages, table);
      (forall i :: 0 <= i < |pages| ==> Candidate(w, folder, pages, i).decoded.None?) ==> s.table == table
    ensures var s := TocSearch(w, folder, pages, table);
      (exists i :: 0 <= i < |pages| && Candidate(w, folder, pages, i).decoded.Some?) ==>
        exists j :: 0 <= j < |pages| && Candidate(w, folder, pages, j).decoded == Some(s.table) &&
          forall i :: j < i < |pages| ==> Candidate(w, folder, pages, i).decoded.None?
    decreases |pages|
  {
    if pages != [] {
      var a := Candidate(w, folder, pages, 0);
      var rest := pages[1..];
      var next := if a.decoded.Some? then a.decoded.value else table;
      forall i | 0 <= i < |rest| ensures Candidate(w, folder, rest, i) == Candidate(w, folder, pages, i + 1) {
        assert rest[i] == pages[i + 1];
      }
      ExhaustedSearchTable(w, folder, rest, next);
      var s := TocSearch(w, folder, pages, table);
      assert s.table == TocSearch(w, folder, rest, next).table;
      if exists i :: 0 <= i < |rest| && Candidate(w, folder, rest, i).decoded.Some? {
        var j' :| 0 <= j' < |rest| && Candidate(w, folder, rest, j').decoded == Some(s.table) &&
          forall i :: j' < i < |rest| ==> Candidate(w, folder, rest, i).decoded.None?;
        assert Candidate(w, folder, pages, j' + 1).decoded == Some(s.table);
        forall i | j' + 1 < i < |pages| ensures Candidate(w, folder, pages, i).decoded.None? {
          assert Candidate(w, folder, rest, i - 1) == Candidate(w, folder, pages, i);
        }
      } else {
        forall i | 0 < i < |pages| ensures Candidate(w, folder, pages, i).decoded.None? {
          assert Candidate(w, folder, rest, i - 1) == Candidate(w, folder, pages, i);
        }
      }
    }
  }

  /** A candidate page that is skipped with no table or with a table without entries
      (such as `{"error": "no summary found", "entries": []}`). */
  predicate NoEntries(a: TocAction) {
    a.Skip? && (a.decoded.Some? ==> a.decoded.value.entries == [])
  }

  /** When every candidate is skipped without entries, the search asks about every
      candidate in order and leaves a table without entries behind. */
  lemma {:induction false} SearchWithoutEntries(w: World, folder: Path, pages: seq<MagazinePage>, table: TableContent)
    requires table.entries == []
    requires forall i :: 0 <= i < |pages| ==> NoEntries(Candidate(w, folder, pages, i))
    ensures var s := TocSearch(w, folder, pages, table);
      !s.aborted && s.calls == TocRequests(folder, pages) && s.table.entries == []
    decreases |pages|
  {
    if pages != [] {
      var a := Candidate(w, folder, pages, 0);
      var rest := pages[1..];
      forall i | 0 <= i < |rest| ensures Candidate(w, folder, rest, i) == Candidate(w, folder, pages, i + 1) {
        assert rest[i] == pages[i + 1];
      }
      SearchWithoutEntries(w, folder, rest, if a.decoded.Some? then a.decoded.value else table);
    }
  }

  /** So when no page after the cover yields a table with entries, the pass asks about
      every page after the cover for a table of contents, sends no game request, keeps
      no game and does not panic. */
  lemma NoSummaryFound(w: World, ps: MagazinePages)
    requires |ps.pages| > 0
    requires forall i :: 0 <= i < |ps.pages| - 1 ==> NoEntries(Candidate(w, ps.folder, ps.pages[1..], i))
    ensures TocPass(w, ps) == TocResult(TocRequests(ps.folder, ps.pages[1..]), false, [])
  {
    SearchWithoutEntries(w, ps.folder, ps.pages[1..], EmptyTableContent);
  }

  /** Every request the search sends is a table-of-contents request about a candidate. */
  lemma {:induction false} SearchPrompts(w: World, folder: Path, pages: seq<MagazinePage>, table: TableContent)
    ensures forall r :: r in TocSearch(w, folder, pages, table).calls ==>
      r.prompt == TableOfContent && exists i :: 0 <= i < |pages| && r.file == PagePath(folder, pages[i])
    decreases |pages|
  {
    if pages != [] {
      var a := Candidate(w, folder, pages, 0);
      if a.Skip? {
        var rest := pages[1..];
        SearchPrompts(w, folder, rest, if a.decoded.Some? then a.decoded.value else table);
        forall r | r in TocSearch(w, folder, rest, if a.decoded.Some? then a.decoded.value else table).calls
          ensures exists i :: 0 <= i < |pages| && r.file == PagePath(folder, pages[i])
        {
          var i :| 0 <= i < |rest| && r.file == PagePath(folder, rest[i]);
          assert rest[i] == pages[i + 1];
        }
      }
    }
  }

  // ---------------------------------------------------------------------------
  // The game queries

  /** The file a found page number is read from. */
  function ResolvedPath(ps: MagazinePages, n: uint8): Path
    requires FirstIndex(ps.pages, n) >= 0
  {
    PagePath(ps.folder, ps.pages[FirstIndex(ps.pages, n)])
  }

  /** The game requests for the page numbers that resolve, in order. */
  function GameRequests(ps: MagazinePages, numbers: seq<uint8>): seq<Request>
    decreases |numbers|
  {
    if numbers == [] then []
    else
      (if FirstIndex(ps.pages, numbers[0]) >= 0 then [Request(GameTested, ResolvedPath(ps, numbers[0]))] else [])
      + GameRequests(ps, numbers[1..])
  }

  /** The games decoded from the answers about the numbers that resolve, in order. */
  function KeptGames(w: World, ps: MagazinePages, numbers: seq<uint8>): seq<Game>
    decreases |numbers|
  {
    if numbers == [] then []
    else
      (if FirstIndex(ps.pages, numbers[0]) >= 0 && GamePage(w, ResolvedPath(ps, numbers[0])).Keep?
       then [GamePage(w, ResolvedPath(ps, numbers[0])).game] else [])
      + KeptGames(w, ps, numbers[1..])
  }

  /** A number that resolves to a page whose query does not end the pass. */
  predicate Answered(w: World, ps: MagazinePages, n: uint8) {
    FirstIndex(ps.pages, n) >= 0 && !GamePage(w, ResolvedPath(ps, n)).Halt?
  }

  /** One number that resolves and does not end the pass: its request comes first,
      then those of the numbers after it, for the whole list and for each prefix. */
  lemma GameQueriesStep(w: World, ps: MagazinePages, numbers: seq<uint8>, k: nat)
    requires 0 < k <= |numbers| && Answered(w, ps, numbers[0])
    ensures var a := GamePage(w, ResolvedPath(ps, numbers[0]));
      var first := [Request(GameTested, ResolvedPath(ps, numbers[0]))];
      var kept := if a.Keep? then [a.game] else [];
      var h := GameQueries(w, ps, numbers[1..]);
      GameQueries(w, ps, numbers) == Games(first + h.calls, h.status, kept + h.games) &&
      GameRequests(ps, numbers[..k]) == first + GameRequests(ps, numbers[1..][..k - 1]) &&
      KeptGames(w, ps, numbers[..k]) == kept + KeptGames(w, ps, numbers[1..][..k - 1])
  {
    assert numbers[..k][0] == numbers[0] && numbers[..k][1..] == numbers[1..][..k - 1];
  }

  /** The queries stop at number `k`: the numbers before it gave their requests and
      games, and `k` matched no page, which panics, or its query ended the pass. */
  predicate StopsAt(w: World, ps: MagazinePages, numbers: seq<uint8>, k: nat)
    requires k < |numbers|
  {
    var g := GameQueries(w, ps, numbers);
    g.games == KeptGames(w, ps, numbers[..k]) &&
    if FirstIndex(ps.pages, numbers[k]) < 0 then
      g.status == Panicked && g.calls == GameRequests(ps, numbers[..k])
    else
      GamePage(w, ResolvedPath(ps, numbers[k])).Halt? && g.status == Stopped &&
      g.calls == GameRequests(ps, numbers[..k]) + GamePage(w, ResolvedPath(ps, numbers[k])).calls
  }

  /** The queries handled every number: every request sent and every decoded game kept. */
  predicate Completes(w: World, ps: MagazinePages, numbers: seq<uint8>) {
    var g := GameQueries(w, ps, numbers);
    g.status == Completed && g.calls == GameRequests(ps, numbers) && g.games == KeptGames(w, ps, numbers)
  }

  /** Stopping at `j` after an answered first number is stopping at `j + 1`. */
  lemma StopsAtCons(w: World, ps: MagazinePages, numbers: seq<uint8>, j: nat)
    requires j + 1 < |numbers| && Answered(w, ps, numbers[0]) && StopsAt(w, ps, numbers[1..], j)
    ensures StopsAt(w, ps, numbers, j + 1)
  {
    var rest, k := numbers[1..], j + 1;
    GameQueriesStep(w, ps, numbers, k);
    assert rest[j] == numbers[k];
    if FirstIndex(ps.pages, numbers[k]) >= 0 {
      ConcatAssoc([Request(GameTested, ResolvedPath(ps, numbers[0]))], GameRequests(ps, rest[..j]),
        GamePage(w, ResolvedPath(ps, numbers[k])).calls);
    }
  }

  /** Completing the numbers after an answered first number completes them all. */
  lemma CompletesCons(w: World, ps: MagazinePages, numbers: seq<uint8>)
    requires |numbers| > 0 && Answered(w, ps, numbers[0]) && Completes(w, ps, numbers[1..])
    ensures Completes(w, ps, numbers)
  {
    GameQueriesStep(w, ps, numbers, |numbers|);
    assert numbers[..|numbers|] == numbers && numbers[1..][..|numbers| - 1] == numbers[1..];
  }

  /** The game queries go number by number up to a number `k`: every number before it
      resolved to its first page and was answered (a decode failure only skips it);
      `k` matched no page, which panics, or its query ended the pass. When no number
      stops them, every number was asked about and every decoded game kept. */
  lemma {:induction false} GameQueriesInOrder(w: World, ps: MagazinePages, numbers: seq<uint8>) returns (k: nat)
    ensures k <= |numbers|
    ensures forall i :: 0 <= i < k ==> Answered(w, ps, numbers[i])
    ensures k == |numbers| ==> Completes(w, ps, numbers)
    ensures k < |numbers| ==> StopsAt(w, ps, numbers, k)
    decreases |numbers|
  {
    if numbers == [] {
      k := 0;
    } else if !Answered(w, ps, numbers[0]) {
      k := 0;
      assert numbers[..0] == [];
    } else {
      var rest := numbers[1..];
      var j := GameQueriesInOrder(w, ps, rest);
      k := j + 1;
      forall i | 0 < i < k ensures numbers[i] == rest[i - 1] {
      }
      if k < |numbers| {
        StopsAtCons(w, ps, numbers, j);
      } else {
        CompletesCons(w, ps, numbers);
      }
    }
  }

  /** Every request of the game queries is a game request. */
  lemma {:induction false} GamePrompts(w: World, ps: MagazinePages, numbers: seq<uint8>)
    ensures forall r :: r in GameQueries(w, ps, numbers).calls ==> r.prompt == GameTested
    decreases |numbers|
  {
    if numbers != [] {
      GamePrompts(w, ps, numbers[1..]);
    }
  }

  // ---------------------------------------------------------------------------
  // The table-of-contents pass

  /** The pass sends its table-of-contents requests first and its game requests after
      them; a search that ends the pass sends no game request at all and cannot panic. */
  lemma TocPassPrompts(w: World, ps: MagazinePages) returns (n: nat)
    ensures var t := TocPass(w, ps);
      n <= |t.calls| &&
      (forall i :: 0 <= i < n ==> t.calls[i].prompt == TableOfContent) &&
      (forall i :: n <= i < |t.calls| ==> t.calls[i].prompt == GameTested)
    ensures |ps.pages| > 0 && TocSearch(w, ps.folder, ps.pages[1..], EmptyTableContent).aborted ==>
      var t := TocPass(w, ps); n == |t.calls| && !t.panicked && t.games == []
  {
    if |ps.pages| == 0 {
      n := 0;
    } else {
      var s := TocSearch(w, ps.folder, ps.pages[1..], EmptyTableContent);
      SearchPrompts(w, ps.folder, ps.pages[1..], EmptyTableContent);
      n := |s.calls|;
      assert forall i :: 0 <= i < n ==> s.calls[i] in s.calls;
      if !s.aborted {
        var g := GameQueries(w, ps, Flatten(s.table.entries));
        GamePrompts(w, ps, Flatten(s.table.entries));
        var t := TocPass(w, ps);
        forall i | n <= i < |t.calls| ensures t.calls[i].prompt == GameTested {
          assert t.calls[i] == g.calls[i - n];
        }
      }
    }
  }

  /** The game queries only ask about pages of the set whose number is one of the
      numbers queried. */
  lemma {:induction false} GameQueryFiles(w: World, ps: MagazinePages, numbers: seq<uint8>)
    ensures forall r :: r in GameQueries(w, ps, numbers).calls ==>
      exists i :: 0 <= i < |ps.pages| && r.file == PagePath(ps.folder, ps.pages[i]) && ps.pages[i].number in numbers
    decreases |numbers|
  {
    if numbers != [] && FirstIndex(ps.pages, numbers[0]) >= 0 {
      var k := FirstIndex(ps.pages, numbers[0]);
      GameQueryFiles(w, ps, numbers[1..]);
      forall r | r in GameQueries(w, ps, numbers).calls
        ensures exists i :: 0 <= i < |ps.pages| && r.file == PagePath(ps.folder, ps.pages[i]) && ps.pages[i].number in numbers
      {
        if r.file != PagePath(ps.folder, ps.pages[k]) {
          assert r in GameQueries(w, ps, numbers[1..]).calls;
          var i :| 0 <= i < |ps.pages| && r.file == PagePath(ps.folder, ps.pages[i]) && ps.pages[i].number in numbers[1..];
          assert ps.pages[i].number in numbers;
        }
      }
    }
  }

  /** The search only ever asks about pages after the cover, and the whole pass only
      about pages of its own set. */
  lemma TocPassFiles(w: World, ps: MagazinePages)
    requires |ps.pages| > 0
    ensures forall r :: r in TocSearch(w, ps.folder, ps.pages[1..], EmptyTableContent).calls ==>
      exists i :: 1 <= i < |ps.pages| && r.file == PagePath(ps.folder, ps.pages[i])
    ensures forall r :: r in TocPass(w, ps).calls ==>
      exists i :: 0 <= i < |ps.pages| && r.file == PagePath(ps.folder, ps.pages[i])
  {
    var rest := ps.pages[1..];
    var s := TocSearch(w, ps.folder, rest, EmptyTableContent);
    SearchPrompts(w, ps.folder, rest, EmptyTableContent);
    forall r | r in s.calls
      ensures exists i :: 1 <= i < |ps.pages| && r.file == PagePath(ps.folder, ps.pages[i])
    {
      var i :| 0 <= i < |rest| && r.file == PagePath(ps.folder, rest[i]);
      assert rest[i] == ps.pages[i + 1];
    }
    if !s.aborted {
      GameQueryFiles(w, ps, Flatten(s.table.entries));
    }
  }

  // ---------------------------------------------------------------------------
  // The monitor

  /** The publications the cover passes of `input` send on, in input order. */
  function Emitted(w: World, input: seq<MagazinePages>): seq<Magazine>
    decreases |input|
  {
    if input == [] then [] else Emit(CoverPass(w, input[0])) + Emitted(w, input[1..])
  }

  /** The requests both passes send for each page set of `input`, in input order. */
  function Requests(w: World, input: seq<MagazinePages>): seq<Request>
    decreases |input|
  {
    if input == [] then []
    else CoverPass(w, input[0]).calls + TocPass(w, input[0]).calls + Requests(w, input[1..])
  }

  /** The monitor handles the page sets in order until the input is exhausted or a
      pass panics: its output is exactly what the cover passes of the handled sets
      send on, whatever the table-of-contents passes do, and its requests are those of
      both passes set by set. The output is closed only when no pass panicked. */
  lemma {:induction false} MonitorOutput(w: World, input: seq<MagazinePages>)
    ensures var a := MonitorSpec(w, input);
      a.processed <= |input| && (!a.halted ==> a.processed == |input|)
    ensures var a := MonitorSpec(w, input);
      a.output == Emitted(w, input[..a.processed]) && a.calls == Requests(w, input[..a.processed])
    ensures var a := MonitorSpec(w, input);
      a.halted ==> (1 <= a.processed && TocPass(w, input[a.processed - 1]).panicked &&
        forall i :: 0 <= i < a.processed - 1 ==> !TocPass(w, input[i]).panicked)
    decreases |input|
  {
    if input != [] {
      var a := MonitorSpec(w, input);
      var c, t := CoverPass(w, input[0]), TocPass(w, input[0]);
      if t.panicked {
        assert input[..1][0] == input[0] && input[..1][1..] == [];
      } else {
        var rest := input[1..];
        MonitorOutput(w, rest);
        var b := MonitorSpec(w, rest);
        assert input[..a.processed][0] == input[0] && input[..a.processed][1..] == rest[..b.processed];
        ConcatAssoc(c.calls, t.calls, Requests(w, rest[..b.processed]));
        ConcatAssoc(c.calls + t.calls, b.calls, []);
        forall i | 0 < i < a.processed - 1 ensures input[i] == rest[i - 1] {
        }
        if a.halted {
          assert input[a.processed - 1] == rest[b.processed - 1];
        }
      }
    }
  }

  /** The output of earlier page sets precedes that of later ones. */
  lemma {:induction false} EmittedAppend(w: World, a: seq<MagazinePages>, b: seq<MagazinePages>)
    ensures Emitted(w, a + b) == Emitted(w, a) + Emitted(w, b)
    decreases |a|
  {
    if a == [] {
      assert a + b == b;
    } else {
      assert (a + b)[0] == a[0] && (a + b)[1..] == a[1..] + b;
      EmittedAppend(w, a[1..], b);
      ConcatAssoc(Emit(CoverPass(w, a[0])), Emitted(w, a[1..]), Emitted(w, b));
    }
  }

  /** At most one publication per page set, each made of one input page set's own pages
      and folder. */
  lemma {:induction false} EmittedFromInput(w: World, input: seq<MagazinePages>)
    ensures |Emitted(w, input)| <= |input|
    ensures forall m :: m in Emitted(w, input) ==>
      exists i :: 0 <= i < |input| && m.pages == input[i].pages && m.folder == input[i].folder
    decreases |input|
  {
    if input != [] {
      var rest := input[1..];
      CoverPassEmits(w, input[0]);
      EmittedFromInput(w, rest);
      forall m | m in Emitted(w, input)
        ensures exists i :: 0 <= i < |input| && m.pages == input[i].pages && m.folder == input[i].folder
      {
        if m in Emitted(w, rest) {
          var i :| 0 <= i < |rest| && m.pages == rest[i].pages && m.folder == rest[i].folder;
          assert rest[i] == input[i + 1];
        } else {
          assert m in Emit(CoverPass(w, input[0]));
        }
      }
    }
  }
}
