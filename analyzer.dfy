/** The analyzer stage: for each page set it asks the backend to describe the
    cover and sends a described publication on when that works, then looks for
    a usable table of contents among the following pages and asks the backend
    about every game test page that table refers to. */
module Analyzer {
  import opened Entities
  import opened FileSystem
  import opened Inference

  /** `json.Unmarshal` into each of the three records, as partial functions of the text. */
  datatype Decoders = Decoders(
    metadata: string -> Option<MagazineMetadata>,
    table: string -> Option<TableContent>,
    game: string -> Option<Game>)

  /** What the analyzer consults: the disk with its faults, the backend's answers and the decoders. */
  datatype World = World(disk: Disk, faults: Faults, answer: (Prompt, Path) -> Response, decode: Decoders)

  /** The backend's sentinel for a cover it cannot describe. */
  const Unknown := "Unknown"

  /** `os.Stat` and then `os.Open` of the path both succeed; the first conjunct follows
      from the second and is kept to mirror the order of the two calls. */
  predicate Readable(w: World, p: Path) {
    Present(w.disk, p) && CanOpen(w.disk, w.faults, p)
  }

  /** What `SendRequestWithImage` returns for an opened path: an error when the image
      cannot be read to its end (a directory, a broken read), the backend's answer otherwise. */
  function Reply(w: World, prompt: Prompt, p: Path): Response {
    if CanRead(w.disk, w.faults, p) then w.answer(prompt, p) else Failed
  }

  // ---------------------------------------------------------------------------
  // The cover pass (`analyzePages`)

  /** The requests the cover pass sent and the publication it sent on, if any. */
  datatype CoverResult = CoverResult(calls: seq<Request>, emitted: Option<Magazine>)

  function CoverPass(w: World, ps: MagazinePages): CoverResult {
    if |ps.pages| == 0 then CoverResult([], None)
    else
      var cover := PagePath(ps.folder, ps.pages[0]);
      if !Readable(w, cover) then CoverResult([], None)
      else
        var calls := [Request(CoverPage, cover)];
        match Reply(w, CoverPage, cover)
        case Failed => CoverResult(calls, None)
        case Text(s) =>
          if s == "" || s == Unknown then CoverResult(calls, None)
          else
            match w.decode.metadata(s)
            case None => CoverResult(calls, None)
            case Some(md) => CoverResult(calls, Some(Magazine(md, ps.pages, ps.folder)))
  }

  /** What the cover pass sends on the output channel. */
  function Emit(c: CoverResult): seq<Magazine> {
    if c.emitted.Some? then [c.emitted.value] else []
  }

  // ---------------------------------------------------------------------------
  // The table-of-contents search

  /** A table the search accepts: no error reported and at least one entry. */
  predicate Usable(t: TableContent) {
    t.error == "" && |t.entries| > 0
  }

  /** What the search does with one candidate page: end the pass (after the requests
      listed), go on to the next page (having decoded a table or not), or stop with
      the page's table. */
  datatype TocAction =
    | Abort(calls: seq<Request>)
    | Skip(decoded: Option<TableContent>)
    | Accept(table: TableContent)

  function TocPage(w: World, p: Path): TocAction {
    if !Readable(w, p) then Abort([])
    else
      match Reply(w, TableOfContent, p)
      case Failed => Abort([Request(TableOfContent, p)])
      case Text(s) =>
        if s == "" then Abort([Request(TableOfContent, p)])
        else
          match w.decode.table(s)
          case None => Skip(None)
          case Some(t) => if Usable(t) then Accept(t) else Skip(Some(t))
  }

  /** The requests the search sent, whether it ended the pass, and the table variable
      as the search leaves it. */
  datatype Search = Search(calls: seq<Request>, aborted: bool, table: TableContent)

  /** The search over the candidate pages, with `table` the value the table variable
      holds before the first of them. */
  function TocSearch(w: World, folder: Path, pages: seq<MagazinePage>, table: TableContent): Search
    decreases |pages|
  {
    if pages == [] then Search([], false, table)
    else
      var p := PagePath(folder, pages[0]);
      match TocPage(w, p)
      case Abort(calls) => Search(calls, true, table)
      case Accept(t) => Search([Request(TableOfContent, p)], false, t)
      case Skip(decoded) =>
        var rest := TocSearch(w, folder, pages[1..], if decoded.Some? then decoded.value else table);
        Search([Request(TableOfContent, p)] + rest.calls, rest.aborted, rest.table)
  }

  /** A search whose requests `calls` come first. */
  function After(calls: seq<Request>, s: Search): Search {
    Search(calls + s.calls, s.aborted, s.table)
  }

  /** The search from candidate `i` on: what `TocPage` does with that candidate,
      then, when it is skipped, the search from candidate `i + 1` on. */
  lemma TocSearchStep(w: World, folder: Path, pages: seq<MagazinePage>, i: nat, table: TableContent)
    requires i < |pages|
    ensures var p := PagePath(folder, pages[i]);
      var a := TocPage(w, p);
      TocSearch(w, folder, pages[i..], table) ==
        if a.Abort? then Search(a.calls, true, table)
        else if a.Accept? then Search([Request(TableOfContent, p)], false, a.table)
        else After([Request(TableOfContent, p)],
          TocSearch(w, folder, pages[i + 1..], if a.decoded.Some? then a.decoded.value else table))
  {
    assert pages[i..][0] == pages[i] && pages[i..][1..] == pages[i + 1..];
  }

  lemma AfterThen(done: seq<Request>, calls: seq<Request>, s: Search)
    ensures After(done, After(calls, s)) == After(done + calls, s)
  {
    ConcatAssoc(done, calls, s.calls);
  }

  // ---------------------------------------------------------------------------
  // The game queries

  /** `slices.IndexFunc` with the page-number test: the position of the first page
      numbered `n`, or -1 when there is none. */
  function FirstIndex(pages: seq<MagazinePage>, n: uint8): (r: int)
    ensures -1 <= r < |pages|
    ensures r >= 0 ==> pages[r].number == n && forall k :: 0 <= k < r ==> pages[k].number != n
    ensures r == -1 ==> forall k :: 0 <= k < |pages| ==> pages[k].number != n
    decreases |pages|
  {
    if pages == [] then -1
    else if pages[0].number == n then 0
    else
      var r := FirstIndex(pages[1..], n);
      if r == -1 then -1 else r + 1
  }

  /** The page numbers of the entries, entry by entry, each entry's in its order. */
  function Flatten(entries: seq<TableContentEntry>): seq<uint8>
    decreases |entries|
  {
    if entries == [] then [] else entries[0].pageNumbers + Flatten(entries[1..])
  }

  /** What a game query does with one page: end the pass (after the requests listed),
      skip the number (undecodable answer), or keep the decoded game. */
  datatype GameAction = Halt(calls: seq<Request>) | Drop | Keep(game: Game)

  function GamePage(w: World, p: Path): GameAction {
    if !Readable(w, p) then Halt([])
    else
      match Reply(w, GameTested, p)
      case Failed => Halt([Request(GameTested, p)])
      case Text(s) =>
        if s == "" then Halt([Request(GameTested, p)])
        else
          match w.decode.game(s)
          case None => Drop
          case Some(g) => Keep(g)
  }

  /** How the game queries end: every number was handled, a failure ended the pass, or
      a number matched no page and indexing with -1 panicked. */
  datatype GamesStatus = Completed | Stopped | Panicked

  datatype Games = Games(calls: seq<Request>, status: GamesStatus, games: seq<Game>)

  function GameQueries(w: World, ps: MagazinePages, numbers: seq<uint8>): Games
    decreases |numbers|
  {
    if numbers == [] then Games([], Completed, [])
    else
      var idx := FirstIndex(ps.pages, numbers[0]);
      if idx < 0 then Games([], Panicked, [])
      else
        var p := PagePath(ps.folder, ps.pages[idx]);
        match GamePage(w, p)
        case Halt(calls) => Games(calls, Stopped, [])
        case Drop =>
          var rest := GameQueries(w, ps, numbers[1..]);
          Games([Request(GameTested, p)] + rest.calls, rest.status, rest.games)
        case Keep(g) =>
          var rest := GameQueries(w, ps, numbers[1..]);
          Games([Request(GameTested, p)] + rest.calls, rest.status, [g] + rest.games)
  }

  /** Queries preceded by the requests `calls` and the games `kept`. */
  function AfterGames(calls: seq<Request>, kept: seq<Game>, g: Games): Games {
    Games(calls + g.calls, g.status, kept + g.games)
  }

  lemma AfterGamesThen(done: seq<Request>, kept: seq<Game>, calls: seq<Request>, games: seq<Game>, h: Games)
    ensures AfterGames(done, kept, AfterGames(calls, games, h)) == AfterGames(done + calls, kept + games, h)
  {
    ConcatAssoc(done, calls, h.calls);
    ConcatAssoc(kept, games, h.games);
  }

  // ---------------------------------------------------------------------------
  // The table-of-contents pass (`analyzeTableOfContent`)

  datatype TocResult = TocResult(calls: seq<Request>, panicked: bool, games: seq<Game>)

  function TocPass(w: World, ps: MagazinePages): TocResult {
    if |ps.pages| == 0 then TocResult([], false, [])
    else
      var s := TocSearch(w, ps.folder, ps.pages[1..], EmptyTableContent);
      if s.aborted then TocResult(s.calls, false, [])
      else
        var g := GameQueries(w, ps, Flatten(s.table.entries));
        TocResult(s.calls + g.calls, g.status == Panicked, g.games)
  }

  // ---------------------------------------------------------------------------
  // The monitor

  /** The publications sent on, how many page sets were taken, whether a panic ended
      the stage, and the requests sent. */
  datatype Analysis = Analysis(output: seq<Magazine>, processed: nat, halted: bool, calls: seq<Request>)

  function MonitorSpec(w: World, input: seq<MagazinePages>): Analysis
    decreases |input|
  {
    if input == [] then Analysis([], 0, false, [])
    else
      var c := CoverPass(w, input[0]);
      var t := TocPass(w, input[0]);
      if t.panicked then Analysis(Emit(c), 1, true, c.calls + t.calls)
      else
        var rest := MonitorSpec(w, input[1..]);
        Analysis(Emit(c) + rest.output, 1 + rest.processed, rest.halted, c.calls + t.calls + rest.calls)
  }

  /** An analysis preceded by `taken` page sets that sent `out` and the requests `calls`. */
  function AfterSets(out: seq<Magazine>, taken: nat, calls: seq<Request>, a: Analysis): Analysis {
    Analysis(out + a.output, taken + a.processed, a.halted, calls + a.calls)
  }

  /** One page set taken off the front of the input: its passes' output and requests
      move from the remaining analysis to the part already done. */
  lemma AfterSetsStep(w: World, out: seq<Magazine>, taken: nat, calls: seq<Request>, input: seq<MagazinePages>)
    requires input != []
    ensures var c, t := CoverPass(w, input[0]), TocPass(w, input[0]);
      var done := AfterSets(out + Emit(c), taken + 1, calls + (c.calls + t.calls),
        if t.panicked then Analysis([], 0, true, []) else MonitorSpec(w, input[1..]));
      AfterSets(out, taken, calls, MonitorSpec(w, input)) == done
  {
    var c, t := CoverPass(w, input[0]), TocPass(w, input[0]);
    var rest := if t.panicked then Analysis([], 0, true, []) else MonitorSpec(w, input[1..]);
    ConcatAssoc(out, Emit(c), rest.output);
    ConcatAssoc(calls, c.calls + t.calls, rest.calls);
    ConcatAssoc(c.calls, t.calls, rest.calls);
  }

  // ---------------------------------------------------------------------------
  // The service

  class AnalyzerService {
    const fs: FileSystem
    const ai: InferenceClient
    const decode: Decoders
    /** The page sets still waiting in the inbound channel. */
    var pending: seq<MagazinePages>
    /** The publications sent on the outbound channel, oldest first. */
    var magazines: seq<Magazine>
    /** Whether the outbound channel has been closed. */
    var closed: bool

    constructor (fs: FileSystem, ai: InferenceClient, decode: Decoders, pending: seq<MagazinePages>)
      ensures this.fs == fs && this.ai == ai && this.decode == decode && this.pending == pending
      ensures magazines == [] && !closed
    {
      this.fs := fs;
      this.ai := ai;
      this.decode := decode;
      this.pending := pending;
      magazines := [];
      closed := false;
    }

    function Env(): World
      reads fs
    {
      World(fs.disk, fs.faults, ai.answer, decode)
    }

    method AnalyzePages(magazinePages: MagazinePages)
      modifies this, ai
      ensures var c := CoverPass(Env(), magazinePages);
        magazines == old(magazines) + Emit(c) && ai.requests == old(ai.requests) + c.calls
      ensures pending == old(pending) && closed == old(closed)
    {
      if |magazinePages.pages| == 0 {
        return;
      }
      var coverPath := magazinePages.folder + [magazinePages.pages[0].file];
      var found := fs.Stat(coverPath);
      if !found {
        return;
      }
      var ok := fs.Open(coverPath);
      if !ok {
        return;
      }
      var imageRead := fs.Read(coverPath);
      var response := ai.SendRequestWithImage(CoverPage, coverPath, imageRead);
      if response.Failed? {
        return;
      }
      if response.s == "" || response.s == Unknown {
        return;
      }
      var metadata := decode.metadata(response.s);
      if metadata.None? {
        return;
      }
      magazines := magazines + [Magazine(metadata.value, magazinePages.pages, magazinePages.folder)];
    }

    /** The pass over the candidate pages and then over the referenced pages; `panicked`
        reports the indexing panic of an unmatched page number. */
    method AnalyzeTableOfContent(magazinePages: MagazinePages) returns (panicked: bool, gamesTested: seq<Game>)
      modifies ai
      ensures var t := TocPass(Env(), magazinePages);
        ai.requests == old(ai.requests) + t.calls && panicked == t.panicked && gamesTested == t.games
    {
      ghost var w := Env();
      panicked, gamesTested := false, [];
      if |magazinePages.pages| == 0 {
        return;
      }
      var aborted, tableContent := SearchTableOfContent(w, magazinePages.folder, magazinePages.pages[1..]);
      assert Env() == w;
      if aborted {
        return;
      }
      panicked, gamesTested := QueryGames(w, magazinePages, tableContent.entries);
      assert Env() == w;
    }

    /** The loop over the candidate pages; `aborted` is a `return` out of the pass, and
        `tableContent` the table variable as the loop leaves it. */
    method SearchTableOfContent(ghost w: World, folder: Path, candidates: seq<MagazinePage>) returns (aborted: bool, tableContent: TableContent)
      requires w == Env()
      modifies ai
      ensures var s := TocSearch(w, folder, candidates, EmptyTableContent);
        ai.requests == old(ai.requests) + s.calls && aborted == s.aborted && tableContent == s.table
    {
      ghost var log := ai.requests;
      ghost var search := TocSearch(w, folder, candidates, EmptyTableContent);
      ghost var done: seq<Request> := [];
      aborted, tableContent := false, EmptyTableContent;
      for i := 0 to |candidates|
        invariant ai.requests == log + done && !aborted
        invariant search == After(done, TocSearch(w, folder, candidates[i..], tableContent))
      {
        var pageFile := folder + [candidates[i].file];
        TocSearchStep(w, folder, candidates, i, tableContent);
        var action := ReadTableOfContent(w, pageFile);
        ghost var calls := if action.Abort? then action.calls else [Request(TableOfContent, pageFile)];
        ConcatAssoc(log, done, calls);
        if action.Skip? {
          AfterThen(done, calls, TocSearch(w, folder, candidates[i + 1..],
            if action.decoded.Some? then action.decoded.value else tableContent));
        }
        done := done + calls;
        match action
        case Abort(_) =>
          aborted := true;
          return;
        case Skip(decoded) =>
          if decoded.Some? {
            tableContent := decoded.value;
          }
        case Accept(table) =>
          tableContent := table;
          break;
      }
    }

    /** One candidate page of the search: `os.Stat`, `os.Open`, the request, the checks
        of its answer and the decoding, returning early on each failure. */
    method ReadTableOfContent(ghost w: World, pageFile: Path) returns (action: TocAction)
      requires w == Env()
      modifies ai
      ensures action == TocPage(w, pageFile)
      ensures ai.requests == old(ai.requests) + if action.Abort? then action.calls else [Request(TableOfContent, pageFile)]
    {
      var found := fs.Stat(pageFile);
      if !found {
        return Abort([]);
      }
      var ok := fs.Open(pageFile);
      if !ok {
        return Abort([]);
      }
      var imageRead := fs.Read(pageFile);
      var response := ai.SendRequestWithImage(TableOfContent, pageFile, imageRead);
      if response.Failed? || response.s == "" {
        return Abort([Request(TableOfContent, pageFile)]);
      }
      var tableContent := decode.table(response.s);
      if tableContent.None? {
        return Skip(None);
      }
      if tableContent.value.error != "" || |tableContent.value.entries| == 0 {
        return Skip(tableContent);
      }
      return Accept(tableContent.value);
    }

    /** The outer loop over the entries; each entry's page numbers go to `QueryNumbers`. */
    method QueryGames(ghost w: World, magazinePages: MagazinePages, entries: seq<TableContentEntry>) returns (panicked: bool, gamesTested: seq<Game>)
      requires w == Env()
      modifies ai
      ensures var g := GameQueries(w, magazinePages, Flatten(entries));
        ai.requests == old(ai.requests) + g.calls && panicked == (g.status == Panicked) && gamesTested == g.games
    {
      ghost var log := ai.requests;
      ghost var queries := GameQueries(w, magazinePages, Flatten(entries));
      ghost var done: seq<Request> := [];
      panicked, gamesTested := false, [];
      for e := 0 to |entries|
        invariant ai.requests == log + done && !panicked
        invariant queries == AfterGames(done, gamesTested, GameQueries(w, magazinePages, Flatten(entries[e..])))
      {
        var entry := entries[e];
        assert entries[e..][0] == entry && entries[e..][1..] == entries[e + 1..];
        ghost var later := Flatten(entries[e + 1..]);
        assert Flatten(entries[e..]) == entry.pageNumbers + later;
        var stop, games;
        ghost var calls;
        stop, panicked, games, calls := QueryNumbers(w, magazinePages, entry.pageNumbers, later);
        ConcatAssoc(log, done, calls);
        ghost var g := GameQueries(w, magazinePages, entry.pageNumbers + later);
        if stop {
          done := done + calls;
          gamesTested := gamesTested + games;
          return;
        }
        AfterGamesThen(done, gamesTested, calls, games, GameQueries(w, magazinePages, later));
        done := done + calls;
        gamesTested := gamesTested + games;
      }
      assert entries[|entries|..] == [];
    }

    /** The inner loop over one entry's page numbers, followed by the numbers `later`
        of the entries after it; `stop` is a `return` out of the pass. */
    method QueryNumbers(ghost w: World, magazinePages: MagazinePages, numbers: seq<uint8>, ghost later: seq<uint8>)
      returns (stop: bool, panicked: bool, games: seq<Game>, ghost calls: seq<Request>)
      requires w == Env()
      modifies ai
      ensures ai.requests == old(ai.requests) + calls
      ensures var g := GameQueries(w, magazinePages, numbers + later);
        if stop then g.calls == calls && g.games == games && g.status != Completed && panicked == (g.status == Panicked)
        else !panicked && g == AfterGames(calls, games, GameQueries(w, magazinePages, later))
    {
      ghost var log := ai.requests;
      ghost var queries := GameQueries(w, magazinePages, numbers + later);
      stop, panicked, games, calls := false, false, [], [];
      assert numbers[0..] == numbers;
      for j := 0 to |numbers|
        invariant ai.requests == log + calls && !stop && !panicked
        invariant queries == AfterGames(calls, games, GameQueries(w, magazinePages, numbers[j..] + later))
      {
        var pageNumber := numbers[j];
        SuffixConcatTail(numbers, j, later);
        var idx := FirstIndex(magazinePages.pages, pageNumber);
        if idx < 0 {
          stop, panicked := true, true;
          return;
        }
        var pageFile := magazinePages.folder + [magazinePages.pages[idx].file];
        var action := ReadGame(w, pageFile);
        ghost var call := [Request(GameTested, pageFile)];
        ghost var next := GameQueries(w, magazinePages, numbers[j + 1..] + later);
        match action
        case Halt(halted) =>
          ConcatAssoc(log, calls, halted);
          calls := calls + halted;
          stop := true;
          return;
        case Drop =>
          ConcatAssoc(log, calls, call);
          ConcatAssoc(calls, call, next.calls);
          calls := calls + call;
        case Keep(game) =>
          ConcatAssoc(log, calls, call);
          ConcatAssoc(calls, call, next.calls);
          ConcatAssoc(games, [game], next.games);
          calls := calls + call;
          games := games + [game];
      }
      assert numbers[|numbers|..] + later == later;
    }

    /** One referenced page: `os.Stat`, `os.Open`, the request, the checks of its answer
        and the decoding, returning early on each failure. */
    method ReadGame(ghost w: World, pageFile: Path) returns (action: GameAction)
      requires w == Env()
      modifies ai
      ensures action == GamePage(w, pageFile)
      ensures ai.requests == old(ai.requests) + if action.Halt? then action.calls else [Request(GameTested, pageFile)]
    {
      var found := fs.Stat(pageFile);
      if !found {
        return Halt([]);
      }
      var ok := fs.Open(pageFile);
      if !ok {
        return Halt([]);
      }
      var imageRead := fs.Read(pageFile);
      var response := ai.SendRequestWithImage(GameTested, pageFile, imageRead);
      if response.Failed? || response.s == "" {
        return Halt([Request(GameTested, pageFile)]);
      }
      var gameTested := decode.game(response.s);
      if gameTested.None? {
        return Drop;
      }
      return Keep(gameTested.value);
    }

    method Monitor()
      requires !closed
      modifies this, ai
      ensures var a := MonitorSpec(Env(), old(pending));
        magazines == old(magazines) + a.output && ai.requests == old(ai.requests) + a.calls
      ensures var a := MonitorSpec(Env(), old(pending));
        a.processed <= |old(pending)| && pending == old(pending)[a.processed..] && closed == !a.halted
    {
      ghost var all := pending;
      ghost var w := Env();
      ghost var total := MonitorSpec(w, all);
      ghost var out := magazines;
      ghost var log := ai.requests;
      ghost var taken := 0;
      ghost var doneOut: seq<Magazine> := [];
      ghost var doneCalls: seq<Request> := [];
      while pending != []
        invariant 0 <= taken <= |all| && pending == all[taken..] && !closed
        invariant magazines == out + doneOut && ai.requests == log + doneCalls
        invariant total == AfterSets(doneOut, taken, doneCalls, MonitorSpec(w, pending))
        decreases |pending|
      {
        var magazinePages := pending[0];
        ghost var c := CoverPass(w, magazinePages);
        ghost var t := TocPass(w, magazinePages);
        AfterSetsStep(w, doneOut, taken, doneCalls, pending);
        pending := pending[1..];
        AnalyzePages(magazinePages);
        assert Env() == w;
        var panicked, _ := AnalyzeTableOfContent(magazinePages);
        assert Env() == w;
        ConcatAssoc(out, doneOut, Emit(c));
        ConcatAssoc(log, doneCalls, c.calls + t.calls);
        ConcatAssoc(log + doneCalls, c.calls, t.calls);
        taken := taken + 1;
        doneOut := doneOut + Emit(c);
        doneCalls := doneCalls + (c.calls + t.calls);
        if panicked {
          assert total == Analysis(doneOut, taken, true, doneCalls) by {
            assert doneOut + [] == doneOut && doneCalls + [] == doneCalls;
          }
          return;
        }
      }
      assert total == Analysis(doneOut, taken, false, doneCalls) by {
        assert doneOut + [] == doneOut && doneCalls + [] == doneCalls;
      }
      closed := true;
    }
  }
}
